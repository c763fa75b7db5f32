// The inventory scroll box: a vertical list with one active entry. Input
// is turned into a step of -1 or +1; the new index is computed from the
// active one, either clamped into the list or wrapped around, and is
// broadcast only when it differs. The list widget is given by its child
// count; the animated translation is not modelled.
module ScrollBox {
  import opened Common

  /** A positive wheel delta scrolls up the list. */
  function WheelStep(deltaPositive: bool): (r: int)
    ensures r == (if deltaPositive then -1 else 1)
  {
    if deltaPositive then -1 else 1
  }

  datatype Key = Up | W | DPadUp | Down | S | DPadDown | OtherKey

  /** Up, W and the d-pad up step back; Down, S and d-pad down step on; other keys are not handled. */
  function KeyStep(k: Key): (r: Option<int>)
    ensures r == Some(-1) <==> k in {Up, W, DPadUp}
    ensures r == Some(1) <==> k in {Down, S, DPadDown}
    ensures r.None? <==> k == OtherKey
  {
    match k
    case Up => Some(-1)
    case W => Some(-1)
    case DPadUp => Some(-1)
    case Down => Some(1)
    case S => Some(1)
    case DPadDown => Some(1)
    case OtherKey => None
  }

  /**
   * The left stick's Y axis, once its magnitude passes one half, steps
   * back for a positive value and on for a negative one.
   */
  function AnalogStep(isLeftY: bool, pastHalf: bool, positive: bool): (r: Option<int>)
    ensures r.Some? <==> isLeftY && pastHalf
    ensures r.Some? ==> r.value == WheelStep(positive)
  {
    if isLeftY && pastHalf then Some(if positive then -1 else 1) else None
  }

  /** The index BroadcastIndexChange computes for a step of `delta`. */
  function NewIndex(active: int, delta: int, count: int, wrap: bool): (r: int)
    ensures !wrap && count >= 1 ==> 0 <= r < count
    ensures !wrap && 0 <= active + delta < count ==> r == active + delta
    ensures !wrap && count >= 1 && active + delta < 0 ==> r == 0
    ensures !wrap && count >= 1 && active + delta >= count ==> r == count - 1
    ensures wrap && count >= 2 ==> 0 <= r <= count - 2
    ensures wrap && 0 <= active + delta <= count - 2 ==> r == active + delta
    ensures wrap && active + delta < 0 ==> r == count - 2
    ensures wrap && 0 <= active + delta && active + delta > count - 2 ==> r == 0
  {
    var n := active + delta;
    if wrap then
      if n < 0 then count - 1 - 1
      else if n > count - 1 - 1 then 0
      else n
    else Clamp(n, 0, count - 1)
  }

  /** The index broadcast, if any: nothing when it equals the active one. */
  function Broadcast(active: int, delta: int, count: int, wrap: bool): (r: Option<int>)
    ensures r.Some? <==> NewIndex(active, delta, count, wrap) != active
    ensures r.Some? ==> r.value == NewIndex(active, delta, count, wrap)
  {
    var n := NewIndex(active, delta, count, wrap);
    if n != active then Some(n) else None
  }

  /**
   * With wrap-around the last child is never the result: stepping past
   * the second-to-last entry goes back to the first, and stepping before
   * the first goes to the second-to-last.
   */
  lemma WrapSkipsLast(active: int, delta: int, count: int)
    requires count >= 2
    ensures NewIndex(active, delta, count, true) != count - 1
  {
  }

  /** Without wrap-around, stepping on from the last child or back from the first broadcasts nothing. */
  lemma ClampAtEnds(count: int)
    requires count >= 1
    ensures Broadcast(count - 1, 1, count, false).None?
    ensures Broadcast(0, -1, count, false).None?
  {
  }

  class ScrollBox {
    var activeIndex: int
    /** The child count of the vertical box, or None with no box. */
    var childCount: Option<nat>
    var wrapAround: bool

    constructor (count: Option<nat>, wrap: bool)
      ensures activeIndex == 0 && childCount == count && wrapAround == wrap
    {
      activeIndex, childCount, wrapAround := 0, count, wrap;
    }

    /** Clamps the requested index into the list; without a box nothing happens. */
    method SetActiveIndex(newIndex: int)
      modifies this
      ensures childCount == old(childCount) && wrapAround == old(wrapAround)
      ensures old(childCount).None? ==> activeIndex == old(activeIndex)
      ensures old(childCount).Some? ==> activeIndex == Clamp(newIndex, 0, old(childCount).value - 1)
      ensures old(childCount).Some? && old(childCount).value >= 1 ==> 0 <= activeIndex < old(childCount).value
    {
      if childCount.None? {
        return;
      }
      activeIndex := Clamp(newIndex, 0, childCount.value - 1);
    }

    /** The source reads the box's child count without a null check, hence the precondition. */
    function BroadcastIndexChange(delta: int): Option<int>
      requires childCount.Some?
      reads this
    {
      Broadcast(activeIndex, delta, childCount.value, wrapAround)
    }
  }
}
