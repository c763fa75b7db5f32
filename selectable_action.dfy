// A selectable inventory item action: whether it is offered for an item,
// and the byte of callback bits (what the UI must ask before running it).
module SelectableAction {
  import opened Common

  /** EInventoryItemActionCallback. */
  datatype ActionCallback = NoCallback | QuantityNeeded | ConfirmationNeeded

  function CallbackBit(f: ActionCallback): bv8
  {
    match f
    case NoCallback => 0
    case QuantityNeeded => 1
    case ConfirmationNeeded => 2
  }

  /** The byte after `|=` with the flag's bit. */
  function WithFlag(bits: bv8, f: ActionCallback): (r: bv8)
    ensures r & CallbackBit(f) == CallbackBit(f)
  {
    bits | CallbackBit(f)
  }

  /** The byte after `&= ~` with the flag's bit. */
  function WithoutFlag(bits: bv8, f: ActionCallback): (r: bv8)
    ensures r & CallbackBit(f) == 0
  {
    bits & !CallbackBit(f)
  }

  predicate HasCallback(bits: bv8, f: ActionCallback)
  {
    bits & CallbackBit(f) != 0
  }

  /**
   * The two callback bits are independent: adding or removing one leaves
   * the answer for the other as it was, and the flag itself ends set or
   * clear.
   */
  lemma FlagsIndependent(bits: bv8, f: ActionCallback, g: ActionCallback)
    requires f != NoCallback && g != NoCallback
    ensures HasCallback(WithFlag(bits, f), g) == (g == f || HasCallback(bits, g))
    ensures HasCallback(WithoutFlag(bits, f), g) == (g != f && HasCallback(bits, g))
  {
    match f
    case QuantityNeeded =>
      match g { case QuantityNeeded => case ConfirmationNeeded => }
    case ConfirmationNeeded =>
      match g { case QuantityNeeded => case ConfirmationNeeded => }
  }

  /** Removing a flag undoes adding it when it was not set before. */
  lemma AddThenRemove(bits: bv8, f: ActionCallback)
    requires !HasCallback(bits, f) || f == NoCallback
    ensures WithoutFlag(WithFlag(bits, f), f) == bits
  {
  }

  class Action {
    /** Identifies the action's class, which IsAllowed compares. */
    const actionClass: nat
    var callbackFlags: bv8

    constructor (cls: nat)
      ensures actionClass == cls && callbackFlags == 0
    {
      actionClass := cls;
      callbackFlags := 0;
    }

    function IsActionVisible(): (r: bool)
      ensures r
    {
      true
    }

    /**
     * IsAllowed: the base class must allow the item, and the item's
     * displayable actions (null entries skipped) must include one of this
     * action's class.
     */
    function IsAllowed(baseAllowed: bool, displayable: seq<Option<nat>>): (r: bool)
      ensures r <==> baseAllowed && Some(actionClass) in displayable
    {
      if !baseAllowed && IsActionVisible() then false
      else Some(actionClass) in displayable
    }

    function GetCallback(): (r: bv8)
      reads this
      ensures r == callbackFlags
    {
      callbackFlags
    }

    method AddActionFlag(f: ActionCallback) returns (ok: bool)
      modifies this
      ensures ok && callbackFlags == WithFlag(old(callbackFlags), f)
    {
      callbackFlags := callbackFlags | CallbackBit(f);
      ok := true;
    }

    method RemoveActionFlag(f: ActionCallback) returns (ok: bool)
      modifies this
      ensures ok && callbackFlags == WithoutFlag(old(callbackFlags), f)
    {
      callbackFlags := callbackFlags & !CallbackBit(f);
      ok := true;
    }

    method ClearAllActionFlags() returns (ok: bool)
      modifies this
      ensures ok && callbackFlags == 0
      ensures !HasCallback(callbackFlags, QuantityNeeded) && !HasCallback(callbackFlags, ConfirmationNeeded)
    {
      callbackFlags := 0;
      ok := true;
    }
  }
}
