// The attachable component: the object side of an attachment. It records
// the container it is attached to and mirrors the slot's
// Empty/Occupied/Locked state.
module Attachable {
  import opened Common
  import opened GameplayTags
  import opened AttachmentSlot
  import opened AttachmentContainer

  class AttachableComponent {
    var id: string
    var displayName: string
    var tags: Container
    var state: SlotState
    var attachedTo: ContainerComponent?

    /** The container reference is set exactly while the component is Occupied. */
    predicate Consistent()
      reads this
    {
      attachedTo != null <==> state == Occupied
    }

    constructor (name: string, id0: string, tags0: Container)
      ensures displayName == name && id == id0 && tags == tags0
      ensures state == Empty && attachedTo == null && Consistent()
    {
      displayName, id, tags := name, id0, tags0;
      state, attachedTo := Empty, null;
    }

    /** A usable attachable has a display name and an id. */
    predicate IsValidAttachable()
      reads this
    {
      displayName != "" && id != NoName
    }

    predicate IsEmpty()
      reads this
    {
      state == Empty && attachedTo == null
    }

    predicate IsOccupied()
      reads this
    {
      state == Occupied && attachedTo != null
    }

    predicate IsLocked()
      reads this
    {
      state == Locked
    }

    predicate CanAttach()
      reads this
    {
      IsValidAttachable() && IsEmpty() && !IsLocked()
    }

    predicate HasTag(t: Tag)
      reads this
    {
      GameplayTags.HasTag(tags, t)
    }

    predicate MatchesTags(other: Container, requireAll: bool)
      reads this
    {
      if requireAll then HasAll(tags, other) else HasAny(tags, other)
    }

    /**
     * AttachTo(Target, SlotId) as written: the container hands this actor
     * component to the slot, whose physical attach refuses it, so the
     * call fails and changes nothing.
     */
    method AttachToSlotAsWritten(target: ContainerComponent?, slotId: string, env: AttachEnv) returns (ok: bool)
      modifies this, if target != null then target.SlotFrame(slotId) else {}
      ensures !ok
      ensures unchanged(this)
      ensures target != null && slotId in target.slots ==> unchanged(target.slots[slotId])
    {
      if !CanAttach() || target == null {
        return false;
      }
      // TryAttach never succeeds here, so the branch that records the
      // container is never taken.
      ok := target.TryAttachAsWritten(slotId, Some(this), env.(attachableAgrees := CanAttach()));
    }

    /**
     * Attaches through the container's TryAttach on the named slot; the
     * slot finds this component as its own attachable, which agrees to
     * attach, and tells it the slot's name.
     */
    method AttachToSlot(target: ContainerComponent?, slotId: string, env: AttachEnv) returns (ok: bool)
      modifies this, if target != null then target.SlotFrame(slotId) else {}
      ensures ok ==> old(CanAttach()) && target != null
      ensures ok == (old(CanAttach()) && target != null && slotId in target.slots
                     && old(target.slots[slotId].CanAttach())
                     && env.targetValid && (target.slots[slotId].slotType == Socket ==> env.socketExists))
      ensures ok ==> attachedTo == target && state == Occupied
      ensures ok ==> target.slots[slotId].IsOccupied() && target.slots[slotId].attachment.value.obj == this
      ensures ok ==> target.slots[slotId].notices
                     == old(target.slots[slotId].notices) + [AttachToSlotCall(this, target.slots[slotId].slotName)]
      ensures !ok ==> unchanged(this)
      ensures !ok && target != null && slotId in target.slots ==> unchanged(target.slots[slotId])
      ensures old(Consistent()) ==> Consistent()
    {
      if !CanAttach() || target == null {
        return false;
      }
      ok := target.TryAttach(slotId, Some(this), env.(attachableAgrees := CanAttach()));
      if !ok {
        return false;
      }
      attachedTo := target;
      state := Occupied;
    }

    /** AttachTo(Target) as written: whatever slot is found, the attach fails and changes nothing. */
    method AttachToContainerAsWritten(target: ContainerComponent?, env: AttachEnv) returns (ok: bool)
      requires target != null ==> target.Valid()
      modifies this, if target != null then target.slots.Values else {}
      ensures !ok
      ensures unchanged(this)
      ensures target != null ==> forall k :: k in target.slots ==> unchanged(target.slots[k])
    {
      if !CanAttach() || target == null {
        return false;
      }
      var found := target.FindFirstFreeSlotWithTags(tags);
      if found == NoName {
        return false;
      }
      ok := AttachToSlotAsWritten(target, found, env);
    }

    /** Attaches to the container's first free slot carrying all of this component's tags. */
    method AttachToContainer(target: ContainerComponent?, env: AttachEnv) returns (ok: bool)
      requires target != null ==> target.Valid()
      modifies this, if target != null then target.slots.Values else {}
      ensures ok ==> old(CanAttach()) && target != null && attachedTo == target && state == Occupied
      ensures ok ==> exists k :: k in target.slots && target.slots[k].IsOccupied() && target.slots[k].attachment.value.obj == this
      ensures target != null && (forall k :: k in target.keys ==> !old(target.FreeFor(k, tags))) ==> !ok
      ensures ok <==> old(CanAttach()) && target != null && old(target.FirstFree(tags)) != NoName
                      && env.targetValid
                      && (target.slots[old(target.FirstFree(tags))].slotType == Socket ==> env.socketExists)
      ensures ok ==> var k := old(target.FirstFree(tags));
                     target.slots[k].IsOccupied() && target.slots[k].attachment.value.obj == this
                     && target.slots[k].notices == old(target.slots[k].notices) + [AttachToSlotCall(this, target.slots[k].slotName)]
      ensures target != null ==> forall k :: k in target.slots && (!ok || k != old(target.FirstFree(tags))) ==> unchanged(target.slots[k])
      ensures !ok ==> unchanged(this)
      ensures old(Consistent()) ==> Consistent()
    {
      if !CanAttach() || target == null {
        return false;
      }
      var found := target.FindFirstFreeSlotWithTags(tags);
      if found == NoName {
        return false;
      }
      ok := AttachToSlot(target, found, env);
    }

    /**
     * Detach asks the container to free the slot holding this component
     * (if any) and ends Empty with no container, whatever the container
     * answers.
     */
    method Detach() returns (ok: bool)
      requires attachedTo != null ==> attachedTo.Valid()
      modifies this, if attachedTo != null then attachedTo.slots.Values else {}
      ensures ok == old(IsOccupied())
      ensures ok ==> state == Empty && attachedTo == null
      ensures ok ==> var c := old(attachedTo); var k := old(c.SlotHolding(this));
                     k != NoName ==> c.slots[k].state == Empty && c.slots[k].attachment == None
                                     && c.slots[k].notices == old(c.slots[k].notices)
                                        + DetachNotice(old(c.slots[k].state), old(c.slots[k].attachment))
      ensures old(attachedTo) != null ==> var c := old(attachedTo);
                forall k :: k in c.slots && (!ok || k != old(c.SlotHolding(this))) ==> unchanged(c.slots[k])
      ensures !ok ==> unchanged(this)
      ensures id == old(id) && displayName == old(displayName) && tags == old(tags)
      ensures old(Consistent()) ==> Consistent()
    {
      if !IsOccupied() || attachedTo == null {
        return false;
      }
      var slotId := attachedTo.GetSlotIdForAttachable(Some(this));
      if slotId != NoName {
        var _ := attachedTo.TryDetach(slotId);
      }
      attachedTo := null;
      state := Empty;
      ok := true;
    }

    /** Disable detaches a component that is not empty and always locks it. */
    method Disable()
      requires attachedTo != null ==> attachedTo.Valid()
      modifies this, if attachedTo != null then attachedTo.slots.Values else {}
      ensures state == Locked
      ensures old(IsOccupied()) ==> attachedTo == null
      ensures !old(IsOccupied()) ==> attachedTo == old(attachedTo)
      ensures old(Consistent()) ==> attachedTo == null
      ensures id == old(id) && displayName == old(displayName) && tags == old(tags)
      ensures old(IsOccupied()) ==> var c := old(attachedTo); var k := old(c.SlotHolding(this));
                k != NoName ==> c.slots[k].state == Empty && c.slots[k].attachment == None
                                && c.slots[k].notices == old(c.slots[k].notices)
                                   + DetachNotice(old(c.slots[k].state), old(c.slots[k].attachment))
      ensures old(attachedTo) != null ==> var c := old(attachedTo);
                forall k :: k in c.slots && (!old(IsOccupied()) || k != old(c.SlotHolding(this))) ==> unchanged(c.slots[k])
    {
      if !IsEmpty() {
        var _ := Detach();
      }
      state := Locked;
    }
  }

  /**
   * The attachable guards: only a valid, empty component can attach;
   * an occupied or locked one cannot, and for a consistent component
   * exactly one of Empty, Occupied and Locked holds.
   */
  lemma AttachableGuards(a: AttachableComponent)
    requires a.Consistent()
    ensures a.CanAttach() <==> a.displayName != "" && a.id != NoName && a.state == Empty
    ensures a.IsOccupied() || a.IsLocked() ==> !a.CanAttach()
    ensures a.IsEmpty() <==> a.state == Empty
    ensures a.IsOccupied() <==> a.state == Occupied
  {
  }
}
