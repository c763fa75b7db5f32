// The equipment settings object: the allowed attachment target classes and
// the map of equipment slots, each of which may name a fallback slot.
module EquipmentSettings {
  import opened Common

  /** NAME_None. */
  const NoName: string := ""

  datatype TargetClass = SceneComponent | StaticMeshComponent | SkeletalMeshComponent | OtherTarget(name: string)

  /** The fallback an edited slot keeps: its own key or a missing slot becomes NAME_None. */
  function RepairedFallback(key: string, fallback: string, keys: seq<string>): (r: string)
    ensures r == NoName || (r != key && r in keys)
    ensures r == fallback || r == NoName
    ensures fallback == NoName ==> r == NoName
    ensures fallback != key && fallback in keys ==> r == fallback
  {
    var isSelf := fallback == key;
    var known := if fallback == NoName then true else fallback in keys;
    if isSelf || !known then NoName else fallback
  }

  /** Every slot's fallback is NAME_None or another slot of the map. */
  predicate FallbacksValid(keys: seq<string>, fallback: map<string, string>)
  {
    forall k :: k in fallback ==> fallback[k] == NoName || (fallback[k] != k && fallback[k] in keys)
  }

  /** A valid fallback survives repair untouched, so a second repair changes nothing. */
  lemma RepairIdempotent(key: string, fallback: string, keys: seq<string>)
    ensures RepairedFallback(key, RepairedFallback(key, fallback, keys), keys) == RepairedFallback(key, fallback, keys)
  {
  }

  class EquipmentSettings {
    var attachmentTargets: seq<TargetClass>
    /** The keys of AllowedEquipmentSlots in map order. */
    var slotKeys: seq<string>
    /** Each slot's FallbackSlot; the rest of the slot header data is not modelled. */
    var fallback: map<string, string>

    ghost predicate Valid()
      reads this
    {
      NoDup(slotKeys) && forall k :: k in fallback <==> k in slotKeys
    }

    /** The three engine component classes are allowed as attachment targets from the start. */
    constructor ()
      ensures Valid() && slotKeys == [] && fallback == map[]
      ensures attachmentTargets == [SceneComponent, StaticMeshComponent, SkeletalMeshComponent]
    {
      attachmentTargets := [SceneComponent, StaticMeshComponent, SkeletalMeshComponent];
      slotKeys, fallback := [], map[];
    }

    /** NAME_None first, then every slot key in map order. */
    method GetFallbackSlotOptions() returns (r: seq<string>)
      ensures |r| == |slotKeys| + 1
      ensures r[0] == NoName && r[1..] == slotKeys
    {
      r := [NoName];
      var i := 0;
      while i < |slotKeys|
        invariant 0 <= i <= |slotKeys|
        invariant |r| == i + 1 && r[0] == NoName && r[1..] == slotKeys[..i]
      {
        r := r + [slotKeys[i]];
        i := i + 1;
      }
    }

    /**
     * The editor hook: when the slot map was the property edited, every
     * slot's fallback is repaired; otherwise nothing changes.
     */
    method PostEditChangeProperty(slotsEdited: bool)
      requires Valid()
      modifies this
      ensures Valid() && slotKeys == old(slotKeys) && attachmentTargets == old(attachmentTargets)
      ensures !slotsEdited ==> fallback == old(fallback)
      ensures slotsEdited ==> fallback.Keys == old(fallback).Keys
      ensures slotsEdited ==> forall k :: k in fallback ==> fallback[k] == RepairedFallback(k, old(fallback)[k], slotKeys)
      ensures slotsEdited ==> FallbacksValid(slotKeys, fallback)
    {
      if !slotsEdited {
        return;
      }
      var i := 0;
      while i < |slotKeys|
        invariant 0 <= i <= |slotKeys|
        invariant Valid() && slotKeys == old(slotKeys) && attachmentTargets == old(attachmentTargets)
        invariant fallback.Keys == old(fallback).Keys
        invariant forall j :: 0 <= j < i ==> fallback[slotKeys[j]] == RepairedFallback(slotKeys[j], old(fallback)[slotKeys[j]], slotKeys)
        invariant forall j :: i <= j < |slotKeys| ==> fallback[slotKeys[j]] == old(fallback)[slotKeys[j]]
      {
        var k := slotKeys[i];
        fallback := fallback[k := RepairedFallback(k, fallback[k], slotKeys)];
        i := i + 1;
      }
      forall k | k in fallback
        ensures fallback[k] == RepairedFallback(k, old(fallback)[k], slotKeys)
      {
        var j := IndexOf(slotKeys, k);
      }
    }
  }
}
