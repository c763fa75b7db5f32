// An attachment slot of the equipment system: a named, tagged place on an
// actor where one object can be attached. The slot moves between Empty,
// Occupied and Locked; the engine-side checks of an attach (target
// component, socket lookup, the physical attach) are inputs.
module AttachmentSlot {
  import opened Common
  import opened GameplayTags

  datatype SlotState = Empty | Occupied | Locked

  datatype SlotType = Socket | Component

  /** NAME_None. */
  const NoName: string := ""

  /** The engine class of an object offered to a slot. */
  datatype ObjectKind = SceneComponentObject | ActorObject | ActorComponentObject | OtherObject

  /** PerformPhysicalAttachment attaches a scene component or an actor and nothing else. */
  predicate PhysicallyAttachable(kind: ObjectKind)
  {
    kind == SceneComponentObject || kind == ActorObject
  }

  /**
   * An object offered to a slot: its identity, its engine class, and
   * whether its class implements the attachable interface.
   */
  datatype Offered = Offered(obj: object, kind: ObjectKind, implementsAttachable: bool)

  /**
   * What the engine answers when an attach is attempted: whether a
   * target component is available, the first of an actor's components
   * that implements the attachable interface (if any), whether the
   * attachable found answers CanAttach, and whether the slot's socket
   * exists on the target.
   */
  datatype AttachEnv = AttachEnv(
    targetValid: bool,
    actorAttachable: Option<object>,
    attachableAgrees: bool,
    socketExists: bool)

  /**
   * FindAttachableInterface: the object itself when its class implements
   * the interface, otherwise for an actor the first of its components
   * that does, otherwise nothing.
   */
  function FindAttachable(a: Offered, env: AttachEnv): (r: Option<object>)
    ensures a.implementsAttachable ==> r == Some(a.obj)
    ensures !a.implementsAttachable && a.kind != ActorObject ==> r.None?
    ensures !a.implementsAttachable && a.kind == ActorObject ==> r == env.actorAttachable
  {
    if a.implementsAttachable then Some(a.obj)
    else if a.kind == ActorObject then env.actorAttachable
    else None
  }

  /** The checks Attach runs after its own guard, in order. */
  predicate EngineAccepts(slotType: SlotType, a: Offered, env: AttachEnv)
  {
    env.targetValid
    && FindAttachable(a, env).Some? && env.attachableAgrees
    && (slotType == Socket ==> env.socketExists)
    && PhysicallyAttachable(a.kind)
  }

  /**
   * The calls a slot makes into an attachable: AttachToSlot with the
   * slot's name when an attach completes, SetState(Detached) when an
   * attachment implementing the interface is detached.
   */
  datatype Notice = AttachToSlotCall(attachable: object, slotName: string) | SetDetachedCall(attachment: object)

  /** The notice Detach sends for what it removes. */
  function DetachNotice(s: SlotState, a: Option<Offered>): (r: seq<Notice>)
    ensures |r| <= 1
    ensures |r| == 1 <==> s == Occupied && a.Some? && a.value.implementsAttachable
    ensures |r| == 1 ==> r[0] == SetDetachedCall(a.value.obj)
  {
    if s == Occupied && a.Some? && a.value.implementsAttachable then [SetDetachedCall(a.value.obj)] else []
  }

  class Slot {
    var slotName: string
    var slotTags: Container
    var state: SlotState
    var slotType: SlotType
    var socketName: string
    var hasParent: bool
    var attachment: Option<Offered>
    /** The calls this slot has made into attachables, oldest first. */
    var notices: seq<Notice>

    /**
     * A slot's attachment is present exactly while it is Occupied; every
     * operation of the slot and its container keeps this.
     */
    predicate Consistent()
      reads this
    {
      attachment.Some? <==> state == Occupied
    }

    constructor (name: string, tags: Container, kind: SlotType, socket: string, parented: bool)
      ensures slotName == name && slotTags == tags && slotType == kind && socketName == socket
      ensures hasParent == parented
      ensures state == Empty && attachment == None && notices == []
      ensures Consistent()
    {
      slotName, slotTags, slotType, socketName, hasParent := name, tags, kind, socket, parented;
      state, attachment, notices := Empty, None, [];
    }

    /** A slot needs a parent container and a name or some tags. */
    predicate IsSlotValid()
      reads this
    {
      hasParent && (slotName != NoName || !GameplayTags.IsEmpty(slotTags))
    }

    predicate CanAttach()
      reads this
    {
      IsSlotValid() && !IsLocked()
    }

    predicate CanDetach()
      reads this
    {
      IsSlotValid() && IsOccupied()
    }

    predicate HasTag(t: Tag)
      reads this
    {
      GameplayTags.HasTag(slotTags, t)
    }

    predicate MatchesTags(tags: Container, requireAll: bool)
      reads this
    {
      if requireAll then HasAll(slotTags, tags) else HasAny(slotTags, tags)
    }

    predicate IsEmpty()
      reads this
    {
      state == Empty && attachment == None
    }

    predicate IsOccupied()
      reads this
    {
      state == Occupied && attachment.Some?
    }

    predicate IsLocked()
      reads this
    {
      state == Locked
    }

    /** The socket to attach to: only a socket slot names one. */
    function AttachmentSocketName(): (r: string)
      reads this
      ensures slotType == Socket ==> r == socketName
      ensures slotType == Component ==> r == NoName
    {
      match slotType
      case Socket => socketName
      case Component => NoName
    }

    /**
     * Attach does not insist that the slot is empty: an occupied slot
     * that is valid and not locked is overwritten. On success the
     * attachable found is told which slot it went to.
     */
    method Attach(newAttachment: Option<Offered>, env: AttachEnv) returns (ok: bool)
      modifies this
      ensures ok == (old(CanAttach()) && newAttachment.Some? && EngineAccepts(slotType, newAttachment.value, env))
      ensures ok ==> state == Occupied && attachment == newAttachment
      ensures ok ==> notices == old(notices) + [AttachToSlotCall(FindAttachable(newAttachment.value, env).value, slotName)]
      ensures !ok ==> unchanged(this)
      ensures old(Consistent()) ==> Consistent()
      ensures slotName == old(slotName) && slotTags == old(slotTags) && slotType == old(slotType)
      ensures socketName == old(socketName) && hasParent == old(hasParent)
    {
      if !CanAttach() || newAttachment.None? {
        return false;
      }
      if !env.targetValid {
        return false;
      }
      var attachable := FindAttachable(newAttachment.value, env);
      if attachable.None? || !env.attachableAgrees {
        return false;
      }
      if slotType == Socket && !env.socketExists {
        return false;
      }
      if !PhysicallyAttachable(newAttachment.value.kind) {
        return false;
      }
      CompleteAttachment(newAttachment.value, attachable.value);
      ok := true;
    }

    method CompleteAttachment(newAttachment: Offered, attachable: object)
      modifies this`attachment, this`state, this`notices
      ensures attachment == Some(newAttachment) && state == Occupied
      ensures notices == old(notices) + [AttachToSlotCall(attachable, slotName)]
      ensures Consistent()
    {
      attachment := Some(newAttachment);
      state := Occupied;
      notices := notices + [AttachToSlotCall(attachable, slotName)];
    }

    /**
     * Detach succeeds only on an occupied slot, which it leaves Empty;
     * an attachment implementing the interface is told it is detached.
     */
    method Detach() returns (ok: bool)
      modifies this`attachment, this`state, this`notices
      ensures ok == old(IsOccupied())
      ensures ok ==> state == Empty && attachment == None
      ensures notices == old(notices) + DetachNotice(old(state), old(attachment))
      ensures !ok ==> state == old(state) && attachment == old(attachment) && notices == old(notices)
      ensures old(Consistent()) ==> Consistent()
    {
      if !IsOccupied() {
        return false;
      }
      if attachment.value.implementsAttachable {
        notices := notices + [SetDetachedCall(attachment.value.obj)];
      }
      attachment := None;
      state := Empty;
      ok := true;
    }

    /** The state Detach leaves behind, as a function of the state before it. */
    static function DetachedState(s: SlotState, a: Option<Offered>): SlotState
    {
      if s == Occupied && a.Some? then Empty else s
    }

    static function DetachedAttachment(s: SlotState, a: Option<Offered>): Option<Offered>
    {
      if s == Occupied && a.Some? then None else a
    }

    /** DisableSlot detaches a slot that is not empty and always locks it. */
    method DisableSlot()
      modifies this`attachment, this`state, this`notices
      ensures state == Locked
      ensures attachment == (if old(IsEmpty()) then old(attachment)
                             else DetachedAttachment(old(state), old(attachment)))
      ensures notices == old(notices) + DetachNotice(old(state), old(attachment))
      ensures old(Consistent()) ==> attachment == None
    {
      if !IsEmpty() {
        var _ := Detach();
      }
      state := Locked;
    }
  }

  /**
   * The slot guards: a slot without a parent, or without both a name
   * and tags, is invalid and accepts neither operation; a locked slot
   * cannot be attached to and, holding nothing, cannot be detached; a
   * slot that can be detached can also be attached to, since an
   * occupied slot is overwritten.
   */
  lemma SlotGuards(s: Slot)
    requires s.Consistent()
    ensures s.IsSlotValid() <==> s.hasParent && (s.slotName != NoName || |s.slotTags| > 0)
    ensures !s.IsSlotValid() ==> !s.CanAttach() && !s.CanDetach()
    ensures s.IsLocked() ==> !s.CanAttach() && !s.CanDetach()
    ensures s.CanAttach() <==> s.IsSlotValid() && (s.IsEmpty() || s.IsOccupied())
    ensures s.CanDetach() ==> s.CanAttach()
  {
  }

  /**
   * MatchesTags: asking for all of a non-empty query is stricter than
   * asking for any of it; the empty query matches when all is asked and
   * never when any is.
   */
  lemma MatchesTagsModes(s: Slot, tags: Container)
    ensures |tags| > 0 && s.MatchesTags(tags, true) ==> s.MatchesTags(tags, false)
    ensures tags == [] ==> s.MatchesTags(tags, true) && !s.MatchesTags(tags, false)
    ensures s.MatchesTags(tags, false) <==> exists q :: q in tags && s.HasTag(q)
  {
    if |tags| > 0 && s.MatchesTags(tags, true) {
      AllImpliesAny(s.slotTags, tags);
    }
  }

  /**
   * Which objects a slot can attach: with every other check passing, an
   * attach goes through exactly for a scene component or an actor that
   * implements the attachable interface itself, or for an actor one of
   * whose components does; an actor component never goes through.
   */
  lemma AcceptedKinds(slotType: SlotType, a: Offered, env: AttachEnv)
    requires env.targetValid && env.attachableAgrees && (slotType == Socket ==> env.socketExists)
    ensures EngineAccepts(slotType, a, env) <==>
            (a.kind == SceneComponentObject && a.implementsAttachable)
            || (a.kind == ActorObject && (a.implementsAttachable || env.actorAttachable.Some?))
    ensures a.kind == ActorComponentObject || a.kind == OtherObject ==> !EngineAccepts(slotType, a, env)
  {
  }
}
