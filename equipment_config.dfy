// UMounteaEquipmentConfigData::ValidateConfig: the equipment slot
// identities are checked pairwise; an identity equal to another one, or one
// with neither a valid tag nor a name, is dirty. The dirty identities are
// collected in a hashed set.
module EquipmentConfigData {
  import opened Common
  import opened GameplayTags
  import opened EquipmentHelpers

  /** The identity at i equals the identity at some other position. */
  predicate Duplicated(ids: seq<SlotIdentity>, i: int)
    requires 0 <= i < |ids|
  {
    exists j :: 0 <= j < |ids| && j != i && IdentityEquals(ids[i], ids[j])
  }

  /** The identity at i is dirty: duplicated, or empty. */
  predicate DirtyAt(ids: seq<SlotIdentity>, i: int)
    requires 0 <= i < |ids|
  {
    Duplicated(ids, i) || IdentityIsEmpty(ids[i])
  }

  predicate HasDirty(ids: seq<SlotIdentity>)
  {
    exists i :: 0 <= i < |ids| && DirtyAt(ids, i)
  }

  /** The hash keys of a set's elements. */
  function Keys(s: seq<SlotIdentity>): set<Tag>
  {
    set d | d in s :: IdentityHashKey(d)
  }

  /** A hashed set of identities: no two elements share a hash key. */
  predicate OnePerKey(s: seq<SlotIdentity>)
  {
    forall a, b :: 0 <= a < b < |s| ==> IdentityHashKey(s[a]) != IdentityHashKey(s[b])
  }

  /** The position of the element with the given hash key, or -1. */
  function KeyIndex(s: seq<SlotIdentity>, key: Tag): (r: int)
    ensures -1 <= r < |s|
    ensures r == -1 <==> forall d :: d in s ==> IdentityHashKey(d) != key
    ensures r != -1 ==> IdentityHashKey(s[r]) == key
  {
    if s == [] then -1
    else if IdentityHashKey(s[0]) == key then 0
    else
      var k := KeyIndex(s[1..], key);
      assert forall d :: d in s <==> d == s[0] || d in s[1..];
      if k == -1 then -1 else k + 1
  }

  /**
   * TSet::Add on the identity set: an element with the same hash key is
   * equal to the new one (SameHashKeyEqual), so it is replaced in place;
   * otherwise the new identity is appended.
   */
  function SetAdd(s: seq<SlotIdentity>, x: SlotIdentity): (r: seq<SlotIdentity>)
    ensures x in r
  {
    var k := KeyIndex(s, IdentityHashKey(x));
    if k == -1 then s + [x] else assert s[k := x][k] == x; s[k := x]
  }

  /** SetAdd adds the new key, keeps the other elements, and keeps one element per key. */
  lemma SetAddProperties(s: seq<SlotIdentity>, x: SlotIdentity)
    ensures Keys(SetAdd(s, x)) == Keys(s) + {IdentityHashKey(x)}
    ensures forall d :: d in SetAdd(s, x) ==> d in s || d == x
    ensures OnePerKey(s) ==> OnePerKey(SetAdd(s, x))
  {
    var k := KeyIndex(s, IdentityHashKey(x));
    var r := SetAdd(s, x);
    if k == -1 {
      assert forall d :: d in r <==> d in s || d == x;
      if OnePerKey(s) {
        forall a, b | 0 <= a < b < |r| ensures IdentityHashKey(r[a]) != IdentityHashKey(r[b]) {
          if b == |s| {
            assert r[a] in s;
          } else {
            assert r[a] == s[a] && r[b] == s[b];
          }
        }
      }
    } else {
      forall d | d in r ensures d in s || d == x {
        var m :| 0 <= m < |r| && r[m] == d;
        if m != k {
          assert s[m] == d;
        }
      }
      forall key | key in Keys(s) + {IdentityHashKey(x)} ensures key in Keys(r) {
        if key != IdentityHashKey(x) {
          var d :| d in s && IdentityHashKey(d) == key;
          var m :| 0 <= m < |s| && s[m] == d;
          assert m != k;
          assert r[m] == d;
        }
      }
    }
  }

  /** EDataValidationResult. */
  datatype DataValidationResult = Valid | Invalid | NotValidated

  class EquipmentConfig {
    /** EquipmentSlotIDs, a hashed set in iteration order. */
    var equipmentSlotIDs: seq<SlotIdentity>

    constructor(ids: seq<SlotIdentity>)
      ensures equipmentSlotIDs == ids
    {
      equipmentSlotIDs := ids;
    }

    /**
     * ValidateConfig, starting from the empty DirtySlots both callers pass:
     * every dirty identity has its hash key among the dirty slots, every
     * dirty slot is one of the dirty identities, and the result is true
     * exactly when some identity is dirty.
     */
    method ValidateConfig() returns (satisfied: bool, dirtySlots: seq<SlotIdentity>)
      ensures OnePerKey(dirtySlots)
      ensures forall i :: 0 <= i < |equipmentSlotIDs| && DirtyAt(equipmentSlotIDs, i) ==>
        IdentityHashKey(equipmentSlotIDs[i]) in Keys(dirtySlots)
      ensures forall d :: d in dirtySlots ==>
        exists i :: 0 <= i < |equipmentSlotIDs| && DirtyAt(equipmentSlotIDs, i) && d == equipmentSlotIDs[i]
      ensures satisfied <==> |dirtySlots| > 0
      ensures satisfied <==> HasDirty(equipmentSlotIDs)
    {
      var ids := equipmentSlotIDs;
      dirtySlots := [];
      var i := 0;
      while i < |ids|
        invariant 0 <= i <= |ids|
        invariant OnePerKey(dirtySlots)
        invariant forall k :: 0 <= k < i && DirtyAt(ids, k) ==> IdentityHashKey(ids[k]) in Keys(dirtySlots)
        invariant forall d :: d in dirtySlots ==> exists k :: 0 <= k < i && DirtyAt(ids, k) && d == ids[k]
      {
        var howMany := 0;
        var j := 0;
        ghost var before := dirtySlots;
        while j < |ids|
          invariant 0 <= j <= |ids|
          invariant OnePerKey(dirtySlots)
          invariant Keys(before) <= Keys(dirtySlots)
          invariant i < j ==> howMany >= 1
          invariant (exists k :: 0 <= k < j && k != i && IdentityEquals(ids[i], ids[k])) ==> howMany >= 1 + (if i < j then 1 else 0)
          invariant !(exists k :: 0 <= k < j && k != i && IdentityEquals(ids[i], ids[k])) ==> howMany <= (if i < j then 1 else 0)
          invariant howMany > 1 ==> IdentityHashKey(ids[i]) in Keys(dirtySlots)
          invariant forall d :: d in dirtySlots ==> (exists k :: 0 <= k < i && DirtyAt(ids, k) && d == ids[k]) || (Duplicated(ids, i) && d == ids[i])
        {
          if IdentityEquals(ids[i], ids[j]) {
            howMany := howMany + 1;
            if howMany > 1 {
              assert Duplicated(ids, i);
              SetAddProperties(dirtySlots, ids[i]);
              dirtySlots := SetAdd(dirtySlots, ids[i]);
            }
          }
          j := j + 1;
        }
        IdentityEqualsReflexiveSymmetric(ids[i], ids[i]);
        if !TagValid(ids[i].slotTag) && ids[i].slotName == "" {
          SetAddProperties(dirtySlots, ids[i]);
          dirtySlots := SetAdd(dirtySlots, ids[i]);
        }
        i := i + 1;
      }
      satisfied := |dirtySlots| > 0;
      if satisfied {
        assert dirtySlots[0] in dirtySlots;
      }
      if HasDirty(ids) {
        var k :| 0 <= k < |ids| && DirtyAt(ids, k);
        assert IdentityHashKey(ids[k]) in Keys(dirtySlots);
      }
    }
  }

  /**
   * IsDataValid as written: the parent's verdict is kept when
   * ValidateConfig returns true, which it does when some slot is dirty,
   * and the config is Invalid when no slot is dirty.
   */
  function IsDataValidAsWritten(ids: seq<SlotIdentity>, parent: DataValidationResult): (r: DataValidationResult)
    ensures HasDirty(ids) ==> r == parent
    ensures !HasDirty(ids) ==> r == Invalid
  {
    if HasDirty(ids) then parent else Invalid
  }

  /** A config with no slots at all is reported invalid, and one with two equal slots is not. */
  lemma AsWrittenRejectsCleanConfig()
    ensures IsDataValidAsWritten([], Valid) == Invalid
    ensures IsDataValidAsWritten([SlotIdentity("Head", ["Head"], []), SlotIdentity("Head", ["Helmet"], [])], Valid) == Valid
  {
    var ids := [SlotIdentity("Head", ["Head"], []), SlotIdentity("Head", ["Helmet"], [])];
    assert IdentityEquals(ids[0], ids[1]);
    assert DirtyAt(ids, 0);
  }

  /** IsDataValid as intended: a dirty slot makes the config Invalid; otherwise the parent decides. */
  function IsDataValid(ids: seq<SlotIdentity>, parent: DataValidationResult): (r: DataValidationResult)
    ensures r == Invalid <==> HasDirty(ids) || parent == Invalid
    ensures !HasDirty(ids) ==> r == parent
  {
    if HasDirty(ids) then Invalid else parent
  }

  /**
   * In a hashed set no two identities share a tag, so an identity is
   * duplicated exactly when another one carries the same non-empty name.
   */
  lemma DuplicatedInHashedSet(ids: seq<SlotIdentity>, i: int)
    requires OnePerKey(ids) && 0 <= i < |ids|
    ensures Duplicated(ids, i) <==>
      exists j :: 0 <= j < |ids| && j != i && ids[j].slotName == ids[i].slotName && ids[i].slotName != ""
  {
    if Duplicated(ids, i) {
      var j :| 0 <= j < |ids| && j != i && IdentityEquals(ids[i], ids[j]);
      if ids[i].slotTag == ids[j].slotTag {
        if i < j {
          assert IdentityHashKey(ids[i]) != IdentityHashKey(ids[j]);
        } else {
          assert IdentityHashKey(ids[j]) != IdentityHashKey(ids[i]);
        }
      }
    }
    if exists j :: 0 <= j < |ids| && j != i && ids[j].slotName == ids[i].slotName && ids[i].slotName != "" {
      var j :| 0 <= j < |ids| && j != i && ids[j].slotName == ids[i].slotName && ids[i].slotName != "";
      assert IdentityEquals(ids[i], ids[j]);
    }
  }
}
