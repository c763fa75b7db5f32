// FMounteaInventoryGridSlot: one cell of the inventory grid UI. A slot is
// identified by its position alone: equality and hashing look at nothing
// else, so a set of slots holds one slot per position. Sets of slots are
// sequences in iteration order with pairwise different positions.
module GridSlot {
  import opened Common

  /** The slot's widget: none, or one that may implement the item slot interface. */
  datatype SlotWidget = NoWidget | Widget(id: nat, isItemSlot: bool)

  datatype GridSlot = GridSlot(position: Point, itemId: Guid, widget: SlotWidget, quantity: int)

  /** A default slot: at (0, 0), no item, no widget, quantity INDEX_NONE. */
  function DefaultSlot(): (s: GridSlot)
    ensures IsEmpty(s) && !IsValid(s) && s.quantity == IndexNone
  {
    GridSlot(Point(0, 0), InvalidGuid, NoWidget, IndexNone)
  }

  predicate IsValid(s: GridSlot) { s.widget != NoWidget }

  predicate IsEmpty(s: GridSlot) { !GuidValid(s.itemId) }

  /** ResetSlot clears the item and sets the quantity back to INDEX_NONE. */
  function ResetSlot(s: GridSlot): (r: GridSlot)
    ensures IsEmpty(r) && r.quantity == IndexNone
    ensures r.position == s.position && r.widget == s.widget
  {
    s.(itemId := InvalidGuid, quantity := IndexNone)
  }

  /** operator==: slots are the same slot when their positions agree. */
  predicate SameSlot(a: GridSlot, b: GridSlot) { a.position == b.position }

  /** GetTypeHash hashes the position only. */
  function SlotHashKey(s: GridSlot): Point { s.position }

  /** Slots the operator calls equal hash alike, and the operator is an equivalence. */
  lemma SameSlotIsEquivalence(a: GridSlot, b: GridSlot, c: GridSlot)
    ensures SameSlot(a, a)
    ensures SameSlot(a, b) ==> SameSlot(b, a) && SlotHashKey(a) == SlotHashKey(b)
    ensures SameSlot(a, b) && SameSlot(b, c) ==> SameSlot(a, c)
  {
  }

  /** Resetting a slot keeps it the same slot, so it replaces itself in a set. */
  lemma ResetKeepsIdentity(s: GridSlot)
    ensures SameSlot(ResetSlot(s), s) && SlotHashKey(ResetSlot(s)) == SlotHashKey(s)
  {
  }

  function Positions(slots: seq<GridSlot>): (r: seq<Point>)
    ensures |r| == |slots| && forall i :: 0 <= i < |slots| ==> r[i] == slots[i].position
  {
    seq(|slots|, i requires 0 <= i < |slots| => slots[i].position)
  }

  /** A set of slots: no two slots share a position. */
  predicate UniquePositions(slots: seq<GridSlot>)
  {
    NoDup(Positions(slots))
  }

  /**
   * TSet::Emplace and TSet::Add: a slot at a position already present
   * replaces that element where it stands; a new position is appended.
   */
  function EmplaceSlot(slots: seq<GridSlot>, s: GridSlot): seq<GridSlot>
  {
    var k := IndexOf(Positions(slots), s.position);
    if k == -1 then slots + [s] else slots[k := s]
  }

  /** Emplacing keeps a set's slots at unique positions, and keeps them in place when the position exists. */
  lemma EmplaceKeepsSet(slots: seq<GridSlot>, s: GridSlot)
    requires UniquePositions(slots)
    ensures UniquePositions(EmplaceSlot(slots, s))
    ensures s.position in Positions(slots) ==> Positions(EmplaceSlot(slots, s)) == Positions(slots)
    ensures s in EmplaceSlot(slots, s)
  {
    var k := IndexOf(Positions(slots), s.position);
    var r := EmplaceSlot(slots, s);
    if k == -1 {
      assert Positions(r) == Positions(slots) + [s.position];
      NoDupSnoc(Positions(slots), s.position);
    } else {
      assert Positions(r) == Positions(slots);
      assert r[k] == s;
    }
  }

  /** In a set, a slot's position is found at that slot's own index. */
  lemma PositionIndex(slots: seq<GridSlot>, i: int)
    requires UniquePositions(slots) && 0 <= i < |slots|
    ensures IndexOf(Positions(slots), slots[i].position) == i
  {
    var k := IndexOf(Positions(slots), slots[i].position);
    assert Positions(slots)[i] == slots[i].position;
  }

  /** Emplacing at a slot's own position writes exactly that index. */
  lemma EmplaceAt(slots: seq<GridSlot>, i: int, s: GridSlot)
    requires UniquePositions(slots) && 0 <= i < |slots| && s.position == slots[i].position
    ensures EmplaceSlot(slots, s) == slots[i := s]
  {
    PositionIndex(slots, i);
  }

  /** The number of empty slots. */
  function EmptyCount(slots: seq<GridSlot>): nat
  {
    if slots == [] then 0
    else EmptyCount(slots[..|slots| - 1]) + (if IsEmpty(slots[|slots| - 1]) then 1 else 0)
  }

  /** Filling an empty slot leaves one empty slot fewer. */
  lemma {:induction false} EmptyCountFill(slots: seq<GridSlot>, i: int, s: GridSlot)
    requires 0 <= i < |slots| && IsEmpty(slots[i]) && !IsEmpty(s)
    ensures EmptyCount(slots[i := s]) == EmptyCount(slots) - 1
  {
    var n := |slots|;
    var u := slots[i := s];
    assert u[..n - 1] == if i == n - 1 then slots[..n - 1] else slots[..n - 1][i := s];
    if i < n - 1 {
      EmptyCountFill(slots[..n - 1], i, s);
    }
  }

  /** The sum of the quantities in the slots holding `id`. */
  function StackSum(slots: seq<GridSlot>, id: Guid): int
  {
    if slots == [] then 0
    else StackSum(slots[..|slots| - 1], id)
         + (if slots[|slots| - 1].itemId == id then slots[|slots| - 1].quantity else 0)
  }

  /** The slots holding `id`, in iteration order (GetGridSlotsDataForItem). */
  function SlotsWithItem(slots: seq<GridSlot>, id: Guid): (r: seq<GridSlot>)
    ensures forall s :: s in r <==> s in slots && s.itemId == id
    ensures |r| <= |slots|
  {
    if slots == [] then []
    else SlotsWithItem(slots[..|slots| - 1], id)
         + (if slots[|slots| - 1].itemId == id then [slots[|slots| - 1]] else [])
  }

  /** Summing over the filtered set gives the same total as summing over all slots. */
  lemma {:induction false} StackSumOfFiltered(slots: seq<GridSlot>, id: Guid)
    ensures StackSum(SlotsWithItem(slots, id), id) == StackSum(slots, id)
  {
    if slots != [] {
      var init := slots[..|slots| - 1];
      var last := slots[|slots| - 1];
      StackSumOfFiltered(init, id);
      if last.itemId == id {
        var f := SlotsWithItem(init, id) + [last];
        assert f[..|f| - 1] == SlotsWithItem(init, id);
      } else {
        assert SlotsWithItem(slots, id) == SlotsWithItem(init, id) + [];
        assert SlotsWithItem(init, id) + [] == SlotsWithItem(init, id);
      }
    }
  }

  /** Writing one slot changes the sum by the change in that slot's contribution. */
  lemma {:induction false} StackSumUpdate(slots: seq<GridSlot>, i: int, s: GridSlot, id: Guid)
    requires 0 <= i < |slots|
    ensures StackSum(slots[i := s], id)
         == StackSum(slots, id) - (if slots[i].itemId == id then slots[i].quantity else 0)
                                + (if s.itemId == id then s.quantity else 0)
  {
    var n := |slots|;
    var u := slots[i := s];
    assert u[..n - 1] == if i == n - 1 then slots[..n - 1] else slots[..n - 1][i := s];
    if i < n - 1 {
      StackSumUpdate(slots[..n - 1], i, s, id);
    }
  }
}
