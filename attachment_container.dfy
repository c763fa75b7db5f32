// The attachment container component: a map from slot name to slot
// object, in the map's insertion order, with the attach and detach
// operations routed to the named slot.
module AttachmentContainer {
  import opened Common
  import opened GameplayTags
  import opened AttachmentSlot

  /**
   * How the container hands an attachable component to a slot: the
   * component is a UMounteaAttachableComponent, an actor component whose
   * class implements the attachable interface.
   */
  function AsAttachableComponent(o: object): (r: Offered)
    ensures r.obj == o && r.implementsAttachable && !PhysicallyAttachable(r.kind)
  {
    Offered(o, ActorComponentObject, true)
  }

  /**
   * The same component offered as a scene component, as it would be if
   * it derived from USceneComponent; the attach path of the model uses
   * this.
   */
  function AsSceneAttachable(o: object): (r: Offered)
    ensures r.obj == o && r.implementsAttachable && PhysicallyAttachable(r.kind)
  {
    Offered(o, SceneComponentObject, true)
  }

  /**
   * No slot attaches an attachable component handed over as the code
   * does it, whatever the engine answers: PerformPhysicalAttachment
   * refuses an actor component, while the same component offered as a
   * scene component is refused only by the other checks.
   */
  lemma AttachableComponentNeverAttaches(slotType: SlotType, o: object, env: AttachEnv)
    ensures !EngineAccepts(slotType, AsAttachableComponent(o), env)
    ensures EngineAccepts(slotType, AsSceneAttachable(o), env) <==>
            env.targetValid && env.attachableAgrees && (slotType == Socket ==> env.socketExists)
  {
  }

  class ContainerComponent {
    /** The map's keys in iteration order. */
    var keys: seq<string>
    var slots: map<string, Slot>

    /**
     * The keys list the map exactly once each, and every key owns its
     * own slot object (slots are instanced per entry).
     */
    ghost predicate Valid()
      reads this
    {
      NoDup(keys)
      && (forall k :: k in slots <==> k in keys)
      && (forall a, b :: a in slots && b in slots && a != b ==> slots[a] != slots[b])
    }

    /** Every slot keeps its attachment exactly while it is occupied. */
    ghost predicate SlotsConsistent()
      reads this, slots.Values
    {
      forall k :: k in slots ==> slots[k].Consistent()
    }

    constructor ()
      ensures Valid() && keys == [] && slots == map[]
    {
      keys, slots := [], map[];
    }

    /** A slot id is valid when GetSlot finds a slot under it (slot objects are never destroyed here). */
    predicate IsValidSlot(slotId: string): (r: bool)
      reads this
      ensures r <==> GetSlot(slotId) != null
    {
      slotId in slots
    }

    function GetSlot(slotId: string): (r: Slot?)
      reads this
      ensures r != null <==> slotId in slots
      ensures r != null ==> r == slots[slotId]
    {
      if slotId in slots then slots[slotId] else null
    }

    predicate IsSlotOccupied(slotId: string)
      reads this, slots.Values
    {
      slotId in slots && slots[slotId].IsOccupied()
    }

    /** The frame of an operation on one named slot. */
    function SlotFrame(slotId: string): set<object>
      reads this
    {
      if slotId in slots then {slots[slotId]} else {}
    }

    /**
     * Unlike the slot's own DisableSlot, the container only detaches: the
     * slot is not locked.
     */
    method DisableSlot(slotId: string) returns (ok: bool)
      modifies SlotFrame(slotId)
      ensures ok == (slotId in slots && old(slots[slotId].IsOccupied()))
      ensures slotId in slots && ok ==> slots[slotId].state == Empty && slots[slotId].attachment == None
      ensures slotId in slots ==> slots[slotId].notices == old(slots[slotId].notices)
                                  + DetachNotice(old(slots[slotId].state), old(slots[slotId].attachment))
      ensures slotId in slots && !ok ==> unchanged(slots[slotId])
    {
      if slotId !in slots {
        return false;
      }
      ok := slots[slotId].Detach();
    }

    /**
     * TryAttach as written: the component reaches the slot as an actor
     * component, which the slot's physical attach refuses, so no attach
     * ever succeeds and the slot is left as it was.
     */
    method TryAttachAsWritten(slotId: string, attachment: Option<object>, env: AttachEnv) returns (ok: bool)
      modifies SlotFrame(slotId)
      ensures !ok
      ensures slotId in slots ==> unchanged(slots[slotId])
    {
      if attachment.None? || slotId !in slots {
        return false;
      }
      AttachableComponentNeverAttaches(slots[slotId].slotType, attachment.value, env);
      ok := slots[slotId].Attach(Some(AsAttachableComponent(attachment.value)), env);
    }

    /** TryAttach with the component offered as a scene component. */
    method TryAttach(slotId: string, attachment: Option<object>, env: AttachEnv) returns (ok: bool)
      modifies SlotFrame(slotId)
      ensures ok ==> attachment.Some? && slotId in slots
      ensures ok == (attachment.Some? && slotId in slots && old(slots[slotId].CanAttach())
                     && env.targetValid && env.attachableAgrees
                     && (slots[slotId].slotType == Socket ==> env.socketExists))
      ensures ok ==> slots[slotId].state == Occupied && slots[slotId].attachment == Some(AsSceneAttachable(attachment.value))
      ensures ok ==> slots[slotId].notices == old(slots[slotId].notices) + [AttachToSlotCall(attachment.value, slots[slotId].slotName)]
      ensures slotId in slots && !ok ==> unchanged(slots[slotId])
      ensures slotId in slots && old(slots[slotId].Consistent()) ==> slots[slotId].Consistent()
    {
      if attachment.None? || slotId !in slots {
        return false;
      }
      AttachableComponentNeverAttaches(slots[slotId].slotType, attachment.value, env);
      ok := slots[slotId].Attach(Some(AsSceneAttachable(attachment.value)), env);
    }

    method TryDetach(slotId: string) returns (ok: bool)
      modifies SlotFrame(slotId)
      ensures ok == (slotId in slots && old(slots[slotId].IsOccupied()))
      ensures ok ==> slots[slotId].state == Empty && slots[slotId].attachment == None
      ensures slotId in slots ==> slots[slotId].notices == old(slots[slotId].notices)
                                  + DetachNotice(old(slots[slotId].state), old(slots[slotId].attachment))
      ensures slotId in slots && !ok ==> unchanged(slots[slotId])
    {
      if slotId !in slots {
        return false;
      }
      ok := slots[slotId].Detach();
    }

    /**
     * ForceAttach skips every check but the null attachment and the slot
     * lookup, the physical attach included, and tells no attachable.
     */
    method ForceAttach(slotId: string, attachment: Option<object>) returns (ok: bool)
      modifies SlotFrame(slotId)
      ensures ok == (attachment.Some? && slotId in slots)
      ensures ok ==> slots[slotId].state == Occupied && slots[slotId].attachment == Some(AsAttachableComponent(attachment.value))
      ensures ok ==> slots[slotId].notices == old(slots[slotId].notices)
      ensures ok ==> slots[slotId].Consistent()
      ensures slotId in slots && !ok ==> unchanged(slots[slotId])
    {
      if attachment.None? || slotId !in slots {
        return false;
      }
      var s := slots[slotId];
      s.attachment := Some(AsAttachableComponent(attachment.value));
      s.state := Occupied;
      ok := true;
    }

    method ForceDetach(slotId: string) returns (ok: bool)
      modifies SlotFrame(slotId)
      ensures ok == (slotId in slots)
      ensures ok ==> slots[slotId].state == Empty && slots[slotId].attachment == None
      ensures ok ==> slots[slotId].Consistent() && slots[slotId].notices == old(slots[slotId].notices)
    {
      if slotId !in slots {
        return false;
      }
      var s := slots[slotId];
      s.attachment := None;
      s.state := Empty;
      ok := true;
    }

    /** A slot that can take an attachment carrying all of `required`. */
    predicate FreeFor(slotId: string, required: Container)
      reads this, slots.Values
    {
      slotId in slots && slots[slotId].CanAttach() && slots[slotId].MatchesTags(required, true)
    }

    /** The index of the first key from i on whose slot is FreeFor `required`, or -1. */
    ghost function FreeFrom(required: Container, i: nat): (r: int)
      requires i <= |keys|
      reads this, slots.Values
      ensures r == -1 ==> forall j :: i <= j < |keys| ==> !FreeFor(keys[j], required)
      ensures r != -1 ==> i <= r < |keys| && FreeFor(keys[r], required)
                          && forall j :: i <= j < r ==> !FreeFor(keys[j], required)
      decreases |keys| - i
    {
      if i == |keys| then -1
      else if FreeFor(keys[i], required) then i
      else FreeFrom(required, i + 1)
    }

    /** The slot FindFirstFreeSlotWithTags answers: the first free key carrying `required`, or NAME_None. */
    ghost function FirstFree(required: Container): string
      reads this, slots.Values
    {
      var j := FreeFrom(required, 0);
      if j == -1 then NoName else keys[j]
    }

    /** The first slot, in map order, that can attach and has every required tag. */
    method FindFirstFreeSlotWithTags(required: Container) returns (r: string)
      requires Valid()
      ensures (r == NoName && (forall k :: k in keys ==> !FreeFor(k, required)))
           || (exists i :: 0 <= i < |keys| && keys[i] == r && FreeFor(r, required)
                && forall j :: 0 <= j < i ==> !FreeFor(keys[j], required))
      ensures r == FirstFree(required)
    {
      var i := 0;
      while i < |keys|
        invariant 0 <= i <= |keys|
        invariant forall j :: 0 <= j < i ==> !FreeFor(keys[j], required)
        invariant FreeFrom(required, 0) == FreeFrom(required, i)
      {
        if FreeFor(keys[i], required) {
          return keys[i];
        }
        i := i + 1;
      }
      r := NoName;
    }

    predicate Holds(slotId: string, attachable: object)
      reads this, slots.Values
    {
      slotId in slots && slots[slotId].IsOccupied() && slots[slotId].attachment.value.obj == attachable
    }

    /** The index of the first key from i on whose slot holds `a`, or -1. */
    ghost function HoldingFrom(a: object, i: nat): (r: int)
      requires i <= |keys|
      reads this, slots.Values
      ensures r == -1 ==> forall j :: i <= j < |keys| ==> !Holds(keys[j], a)
      ensures r != -1 ==> i <= r < |keys| && Holds(keys[r], a)
                          && forall j :: i <= j < r ==> !Holds(keys[j], a)
      decreases |keys| - i
    {
      if i == |keys| then -1
      else if Holds(keys[i], a) then i
      else HoldingFrom(a, i + 1)
    }

    /** The slot GetSlotIdForAttachable answers for `a`: the first key holding it, or NAME_None. */
    ghost function SlotHolding(a: object): string
      reads this, slots.Values
    {
      var j := HoldingFrom(a, 0);
      if j == -1 then NoName else keys[j]
    }

    /** The first occupied slot holding the attachable, or NAME_None. */
    method GetSlotIdForAttachable(attachable: Option<object>) returns (r: string)
      requires Valid()
      ensures attachable.None? ==> r == NoName
      ensures attachable.Some? ==>
              (r == NoName && (forall k :: k in keys ==> !Holds(k, attachable.value)))
              || (exists i :: 0 <= i < |keys| && keys[i] == r && Holds(r, attachable.value)
                   && forall j :: 0 <= j < i ==> !Holds(keys[j], attachable.value))
      ensures attachable.Some? ==> r == SlotHolding(attachable.value)
    {
      if attachable.None? {
        return NoName;
      }
      var i := 0;
      while i < |keys|
        invariant 0 <= i <= |keys|
        invariant forall j :: 0 <= j < i ==> !Holds(keys[j], attachable.value)
        invariant HoldingFrom(attachable.value, 0) == HoldingFrom(attachable.value, i)
      {
        if Holds(keys[i], attachable.value) {
          return keys[i];
        }
        i := i + 1;
      }
      r := NoName;
    }

    /**
     * Detaches every slot: occupied slots become Empty and tell their
     * attachment, the others are untouched.
     */
    method ClearAll()
      requires Valid()
      modifies slots.Values
      ensures forall k :: k in slots ==>
                slots[k].state == Slot.DetachedState(old(slots[k].state), old(slots[k].attachment))
                && slots[k].attachment == Slot.DetachedAttachment(old(slots[k].state), old(slots[k].attachment))
                && slots[k].notices == old(slots[k].notices) + DetachNotice(old(slots[k].state), old(slots[k].attachment))
      ensures old(SlotsConsistent()) ==> SlotsConsistent()
    {
      var i := 0;
      while i < |keys|
        invariant 0 <= i <= |keys|
        invariant forall j :: 0 <= j < i ==>
                    slots[keys[j]].state == Slot.DetachedState(old(slots[keys[j]].state), old(slots[keys[j]].attachment))
                    && slots[keys[j]].attachment == Slot.DetachedAttachment(old(slots[keys[j]].state), old(slots[keys[j]].attachment))
                    && slots[keys[j]].notices == old(slots[keys[j]].notices) + DetachNotice(old(slots[keys[j]].state), old(slots[keys[j]].attachment))
        invariant forall j :: i <= j < |keys| ==> unchanged(slots[keys[j]])
      {
        var s := slots[keys[i]];
        var _ := s.Detach();
        i := i + 1;
      }
    }
  }
}
