// The items grid widget: the set of grid slots a player's inventory is
// drawn into, and the bookkeeping that keeps the slots in step with the
// inventory's item quantities. Slots are looked up by their index in the
// set's iteration order. What the parent inventory reports for an item is
// passed in; widget refreshes and calls into slot widgets are not modelled.
module ItemsGrid {
  import opened Common
  import opened GridSlot

  /**
   * What the parent inventory's FindItem reports for the item: its
   * quantity, whether its template carries the stackable flag, and the
   * template's maximum stack size. None stands for no parent inventory or
   * no valid item.
   */
  datatype ItemView = ItemView(quantity: int, stackable: bool, maxStackSize: int)

  predicate InRange(slots: seq<GridSlot>, i: int) { 0 <= i < |slots| }

  /** IsSlotEmpty: an index outside the grid counts as empty. */
  predicate SlotEmptyAt(slots: seq<GridSlot>, i: int)
  {
    !InRange(slots, i) || IsEmpty(slots[i])
  }

  /** The slot widget is valid and implements the item slot interface. */
  predicate AcceptsItems(s: GridSlot) { s.widget.Widget? && s.widget.isItemSlot }

  function ItemIds(slots: seq<GridSlot>): (r: seq<Guid>)
    ensures |r| == |slots| && forall i :: 0 <= i < |slots| ==> r[i] == slots[i].itemId
  {
    seq(|slots|, i requires 0 <= i < |slots| => slots[i].itemId)
  }

  /** GetSlotIndexByItem: the index of the first slot holding `id`, or INDEX_NONE. */
  function FirstWithItem(slots: seq<GridSlot>, id: Guid): (r: int)
    ensures -1 <= r < |slots|
    ensures r == -1 <==> forall i :: 0 <= i < |slots| ==> slots[i].itemId != id
    ensures r != -1 ==> slots[r].itemId == id && forall i :: 0 <= i < r ==> slots[i].itemId != id
  {
    var ids := ItemIds(slots);
    var r := IndexOf(ids, id);
    assert forall i :: 0 <= i < r ==> ids[i] in ids[..r];
    assert r == -1 ==> forall i :: 0 <= i < |slots| ==> ids[i] in ids;
    r
  }

  /** The index of the first empty slot, or INDEX_NONE. */
  function FirstEmpty(slots: seq<GridSlot>): (r: int)
    ensures -1 <= r < |slots|
    ensures r == -1 <==> forall i :: 0 <= i < |slots| ==> !IsEmpty(slots[i])
    ensures r != -1 ==> IsEmpty(slots[r]) && forall i :: 0 <= i < r ==> !IsEmpty(slots[i])
  {
    FirstWithItem(slots, InvalidGuid)
  }

  /** TSet::Remove with a slot: drops the element at that slot's position. */
  function WithoutPosition(slots: seq<GridSlot>, p: Point): (r: seq<GridSlot>)
    ensures forall t :: t in r <==> t in slots && t.position != p
  {
    if slots == [] then []
    else (if slots[0].position == p then [] else [slots[0]]) + WithoutPosition(slots[1..], p)
  }

  /**
   * AddItemToSlot's guards in the order the source evaluates them. The
   * third outcome is the read of the slot at the given index, which the
   * source performs without checking the index: the emptiness guard lets
   * an index outside the grid through.
   */
  datatype AddOutcome = Rejected | ReadsOutsideGrid | Accepted(slots: seq<GridSlot>)

  function AddItemToSlotAsWritten(slots: seq<GridSlot>, id: Guid, idx: int, item: Option<ItemView>): (r: AddOutcome)
    ensures r.ReadsOutsideGrid? <==> item.Some? && !InRange(slots, idx)
  {
    if !SlotEmptyAt(slots, idx) then Rejected
    else if item.None? then Rejected
    else if !InRange(slots, idx) then ReadsOutsideGrid
    else if !AcceptsItems(slots[idx]) then Rejected
    else Accepted(slots[idx := slots[idx].(itemId := id, quantity := item.value.quantity)])
  }

  /** Index |slots| (index 0 of an empty grid, say) passes the emptiness guard and is then read. */
  lemma AddItemToSlotReadsPastEnd(slots: seq<GridSlot>, id: Guid, v: ItemView)
    ensures SlotEmptyAt(slots, |slots|)
    ensures AddItemToSlotAsWritten(slots, id, |slots|, Some(v)) == ReadsOutsideGrid
    ensures AddItemToSlotAsWritten(slots, id, -1, Some(v)) == ReadsOutsideGrid
  {
  }

  /**
   * SwapItemsBetweenSlots: both slots are removed from the set, their item
   * ids exchanged, and both added back. The set's sparse storage hands out
   * the hole freed last first, so the first slot lands at the second's
   * index and the second at the first's. By index the item ids stay and
   * the positions, widgets and quantities change places; by position the
   * two slots have exchanged their item ids.
   */
  function SwapIds(slots: seq<GridSlot>, i: int, j: int): (r: seq<GridSlot>)
    requires InRange(slots, i) && InRange(slots, j)
    ensures |r| == |slots|
    ensures r[i].itemId == slots[i].itemId && r[j].itemId == slots[j].itemId
    ensures SameSlot(r[j], slots[i]) && r[j].widget == slots[i].widget && r[j].quantity == slots[i].quantity
    ensures SameSlot(r[i], slots[j]) && r[i].widget == slots[j].widget && r[i].quantity == slots[j].quantity
    ensures forall k :: 0 <= k < |slots| && k != i && k != j ==> r[k] == slots[k]
  {
    slots[i := slots[j].(itemId := slots[i].itemId)][j := slots[i].(itemId := slots[j].itemId)]
  }

  /** The swap moves slots between two indices, so positions stay distinct. */
  lemma SwapKeepsUnique(slots: seq<GridSlot>, i: int, j: int)
    requires InRange(slots, i) && InRange(slots, j) && UniquePositions(slots)
    ensures UniquePositions(SwapIds(slots, i, j))
    ensures multiset(Positions(SwapIds(slots, i, j))) == multiset(Positions(slots))
  {
    var r := SwapIds(slots, i, j);
    var P, R := Positions(slots), Positions(r);
    assert R == P[i := P[j]][j := P[i]];
    forall a, b | 0 <= a < b < |R| ensures R[a] != R[b] {
      var sa := if a == i then j else if a == j then i else a;
      var sb := if b == i then j else if b == j then i else b;
      assert R[a] == P[sa] && R[b] == P[sb];
    }
  }

  /** Swapping the same two slots again restores the grid. */
  lemma SwapIdsTwice(slots: seq<GridSlot>, i: int, j: int)
    requires InRange(slots, i) && InRange(slots, j)
    ensures SwapIds(SwapIds(slots, i, j), i, j) == slots
  {
  }

  /** Every slot holding `id` has a quantity of zero or more. */
  predicate NonNegativeStacks(slots: seq<GridSlot>, id: Guid)
  {
    forall i :: 0 <= i < |slots| && slots[i].itemId == id ==> slots[i].quantity >= 0
  }

  ghost predicate Increasing(q: seq<int>)
  {
    forall a, b :: 0 <= a < b < |q| ==> q[a] < q[b]
  }

  /** The indices of the slots holding `id`, in order: where SlotsWithItem takes its slots from. */
  ghost function ItemIndices(slots: seq<GridSlot>, id: Guid): seq<int>
  {
    if slots == [] then []
    else ItemIndices(slots[..|slots| - 1], id) + (if slots[|slots| - 1].itemId == id then [|slots| - 1] else [])
  }

  /** ItemIndices lists, in increasing order, exactly the indices of the slots SlotsWithItem keeps. */
  lemma ItemIndicesFacts(slots: seq<GridSlot>, id: Guid)
    ensures var r := ItemIndices(slots, id);
            |r| == |SlotsWithItem(slots, id)| && Increasing(r)
            && (forall k :: 0 <= k < |r| ==> 0 <= r[k] < |slots| && SlotsWithItem(slots, id)[k] == slots[r[k]])
            && (forall i :: 0 <= i < |slots| && slots[i].itemId == id ==> i in r)
            && (forall i :: i in r ==> 0 <= i < |slots| && slots[i].itemId == id)
  {
    ItemIndicesPick(slots, id);
    ItemIndicesSorted(slots, id);
    ItemIndicesCover(slots, id);
  }

  lemma {:induction false} ItemIndicesPick(slots: seq<GridSlot>, id: Guid)
    ensures var r := ItemIndices(slots, id);
            |r| == |SlotsWithItem(slots, id)|
            && forall k :: 0 <= k < |r| ==> 0 <= r[k] < |slots| && SlotsWithItem(slots, id)[k] == slots[r[k]]
  {
    if slots != [] {
      var n := |slots|;
      var init := slots[..n - 1];
      ItemIndicesPick(init, id);
      assert forall i :: 0 <= i < n - 1 ==> init[i] == slots[i];
    }
  }

  lemma {:induction false} ItemIndicesSorted(slots: seq<GridSlot>, id: Guid)
    ensures var r := ItemIndices(slots, id);
            Increasing(r) && forall i :: i in r ==> 0 <= i < |slots| && slots[i].itemId == id
  {
    if slots != [] {
      var n := |slots|;
      var init := slots[..n - 1];
      ItemIndicesSorted(init, id);
      assert forall i :: 0 <= i < n - 1 ==> init[i] == slots[i];
      var r0 := ItemIndices(init, id);
      var r := ItemIndices(slots, id);
      forall a, b | 0 <= a < b < |r| ensures r[a] < r[b] {
        assert r[a] in r0;
        if b < |r0| {
          assert r[b] == r0[b];
        } else {
          assert r[b] == n - 1;
        }
      }
    }
  }

  lemma {:induction false} ItemIndicesCover(slots: seq<GridSlot>, id: Guid)
    ensures forall i :: 0 <= i < |slots| && slots[i].itemId == id ==> i in ItemIndices(slots, id)
  {
    if slots != [] {
      var n := |slots|;
      var init := slots[..n - 1];
      ItemIndicesCover(init, id);
      assert forall i :: 0 <= i < n - 1 ==> init[i] == slots[i];
      var r0 := ItemIndices(init, id);
      forall i | 0 <= i < n && slots[i].itemId == id ensures i in ItemIndices(slots, id) {
        if i < n - 1 {
          assert i in r0;
        }
      }
    }
  }

  /** In an increasing sequence, an element past the k-th comes at or after the next one. */
  lemma IncreasingAfter(q: seq<int>, k: int, i: int)
    requires Increasing(q) && 0 <= k && k + 1 < |q| && i in q && i > q[k]
    ensures i >= q[k + 1]
  {
    var m :| 0 <= m < |q| && q[m] == i;
  }

  /** The slots holding an item, taken from a set, still sit at distinct positions. */
  lemma SlotsWithItemUnique(slots: seq<GridSlot>, id: Guid)
    requires UniquePositions(slots)
    ensures UniquePositions(SlotsWithItem(slots, id))
  {
    ItemIndicesFacts(slots, id);
    var r := ItemIndices(slots, id);
    var f := SlotsWithItem(slots, id);
    forall a, b | 0 <= a < b < |f|
      ensures Positions(f)[a] != Positions(f)[b]
    {
      assert Positions(slots)[r[a]] != Positions(slots)[r[b]];
    }
  }

  /** Putting a slot at a fresh position in front keeps positions distinct. */
  lemma UniqueCons(s: GridSlot, w: seq<GridSlot>)
    requires UniquePositions(w)
    requires forall j :: 0 <= j < |w| ==> w[j].position != s.position
    ensures UniquePositions([s] + w)
  {
    var r := [s] + w;
    forall a, b | 0 <= a < b < |r| ensures Positions(r)[a] != Positions(r)[b] {
      if a > 0 {
        assert Positions(w)[a - 1] != Positions(w)[b - 1];
      }
    }
  }

  /** Dropping a position keeps the others distinct. */
  lemma {:induction false} WithoutPositionUnique(slots: seq<GridSlot>, p: Point)
    requires UniquePositions(slots)
    ensures UniquePositions(WithoutPosition(slots, p))
  {
    if slots != [] {
      var t := slots[1..];
      assert UniquePositions(t) by {
        forall a, b | 0 <= a < b < |t| ensures Positions(t)[a] != Positions(t)[b] {
          assert Positions(slots)[a + 1] != Positions(slots)[b + 1];
        }
      }
      WithoutPositionUnique(t, p);
      var w := WithoutPosition(t, p);
      if slots[0].position != p {
        forall j | 0 <= j < |w| ensures w[j].position != slots[0].position {
          assert w[j] in t;
          var i :| 0 <= i < |t| && t[i] == w[j];
          assert Positions(slots)[0] != Positions(slots)[i + 1];
        }
        UniqueCons(slots[0], w);
      }
    }
  }


  /** A removal never puts `id` into a slot that did not hold it. */
  lemma NoNewItems(o: seq<GridSlot>, slots: seq<GridSlot>, id: Guid)
    requires GuidValid(id) && |slots| == |o|
    requires forall i :: 0 <= i < |slots| ==> StackRemoved(o[i], slots[i], id)
    ensures forall i :: 0 <= i < |slots| && slots[i].itemId == id ==> o[i].itemId == id
  {
    forall i | 0 <= i < |slots| && slots[i].itemId == id ensures o[i].itemId == id {
      assert StackRemoved(o[i], slots[i], id);
    }
  }

  /** A slot that keeps its item and loses `q` units. */
  function Reduced(s: GridSlot, q: int): (r: GridSlot)
    ensures r.position == s.position && r.itemId == s.itemId && r.widget == s.widget
    ensures r.quantity == s.quantity - q
  {
    s.(quantity := s.quantity - q)
  }

  /** The slot the removal loop visits first: the given slot when it holds `id`, else the first slot holding it. */
  function FirstVisited(slots: seq<GridSlot>, slotIndex: int, id: Guid): (r: int)
    ensures r == IndexNone || (InRange(slots, r) && slots[r].itemId == id)
    ensures r == IndexNone <==> forall i :: 0 <= i < |slots| ==> slots[i].itemId != id
  {
    if slotIndex != IndexNone && InRange(slots, slotIndex) && slots[slotIndex].itemId == id then slotIndex
    else FirstWithItem(slots, id)
  }

  /**
   * The first slot holding `id` is the slot at `t`, or one whose widget
   * refuses items, so that clearing it changes nothing.
   */
  predicate Gate(slots: seq<GridSlot>, id: Guid, t: int)
  {
    var f := FirstWithItem(slots, id);
    f == t || (0 <= f < |slots| && !AcceptsItems(slots[f]))
  }

  /** `list` is the slots of `o` at the increasing indices `Q`. */
  ghost predicate IndexedBy(list: seq<GridSlot>, o: seq<GridSlot>, Q: seq<int>)
  {
    |Q| == |list| && Increasing(Q) && forall m :: 0 <= m < |Q| ==> 0 <= Q[m] < |o| && list[m] == o[Q[m]]
  }

  /** `Q` without the index `g`. */
  ghost function DropIndex(Q: seq<int>, g: int): seq<int>
  {
    if Q == [] then [] else (if Q[0] == g then [] else [Q[0]]) + DropIndex(Q[1..], g)
  }

  lemma {:induction false} DropIndexMembers(Q: seq<int>, g: int)
    ensures forall i :: i in DropIndex(Q, g) <==> i in Q && i != g
  {
    if Q != [] {
      DropIndexMembers(Q[1..], g);
      assert forall i :: i in Q <==> i == Q[0] || i in Q[1..];
    }
  }

  /** The ids go first in `ItemIndices`: its head is the first slot holding `id`. */
  lemma FirstItemIndex(slots: seq<GridSlot>, id: Guid)
    ensures var P := ItemIndices(slots, id);
            (|P| == 0 <==> FirstWithItem(slots, id) == IndexNone)
            && (|P| > 0 ==> P[0] == FirstWithItem(slots, id))
  {
    ItemIndicesFacts(slots, id);
    var P := ItemIndices(slots, id);
    var f := FirstWithItem(slots, id);
    if |P| > 0 {
      assert P[0] in P;
      forall m | 0 < m < |P| ensures P[0] < P[m] {
      }
      assert f in P;
    }
  }

  lemma IndexedTail(list: seq<GridSlot>, o: seq<GridSlot>, Q: seq<int>)
    requires IndexedBy(list, o, Q) && list != []
    ensures IndexedBy(list[1..], o, Q[1..])
    ensures forall x :: x in Q[1..] ==> Q[0] < x
  {
    var Q1 := Q[1..];
    forall a, b | 0 <= a < b < |Q1| ensures Q1[a] < Q1[b] {
      assert Q[a + 1] < Q[b + 1];
    }
    forall x | x in Q1 ensures Q[0] < x {
      var m :| 0 <= m < |Q1| && Q1[m] == x;
      assert Q[0] < Q[m + 1];
    }
  }

  lemma IndexedCons(x: GridSlot, q: int, wr: seq<GridSlot>, o: seq<GridSlot>, dr: seq<int>)
    requires IndexedBy(wr, o, dr) && 0 <= q < |o| && x == o[q]
    requires forall y :: y in dr ==> q < y
    ensures IndexedBy([x] + wr, o, [q] + dr)
  {
    var w := [x] + wr;
    var d := [q] + dr;
    forall a, b | 0 <= a < b < |d| ensures d[a] < d[b] {
      if a == 0 {
        assert d[b] == dr[b - 1] && d[b] in dr;
      } else {
        assert d[a] == dr[a - 1] && d[b] == dr[b - 1];
      }
    }
    forall m | 0 <= m < |d| ensures 0 <= d[m] < |o| && w[m] == o[d[m]] {
      if m > 0 {
        assert d[m] == dr[m - 1] && w[m] == wr[m - 1];
      }
    }
  }

  /** Removing a slot's position from the listed slots drops its index from the indices. */
  lemma {:induction false} WithoutPositionIndexed(list: seq<GridSlot>, o: seq<GridSlot>, Q: seq<int>, g: int)
    requires UniquePositions(o) && 0 <= g < |o| && IndexedBy(list, o, Q)
    ensures IndexedBy(WithoutPosition(list, o[g].position), o, DropIndex(Q, g))
  {
    if list != [] {
      var p := o[g].position;
      IndexedTail(list, o, Q);
      WithoutPositionIndexed(list[1..], o, Q[1..], g);
      DropIndexMembers(Q[1..], g);
      var wr := WithoutPosition(list[1..], p);
      var dr := DropIndex(Q[1..], g);
      assert Positions(o)[Q[0]] == list[0].position;
      if Q[0] == g {
        assert WithoutPosition(list, p) == wr;
        assert DropIndex(Q, g) == dr;
      } else {
        assert list[0].position != p;
        assert WithoutPosition(list, p) == [list[0]] + wr;
        assert DropIndex(Q, g) == [Q[0]] + dr;
        IndexedCons(list[0], Q[0], wr, o, dr);
      }
    }
  }

  /**
   * Before any removal, the item's slots are indexed by ItemIndices, whose
   * head is the first slot holding the item and passes the gate.
   */
  lemma ListedFromStart(o: seq<GridSlot>, id: Guid)
    ensures var P := ItemIndices(o, id);
            IndexedBy(SlotsWithItem(o, id), o, P) && IndexNone !in P
            && (forall m :: 0 <= m < |P| ==> o[P[m]].itemId == id)
            && (forall i :: 0 <= i < |o| && o[i].itemId == id ==> i in P)
            && (|P| == 0 <==> FirstWithItem(o, id) == IndexNone)
            && (|P| > 0 ==> P[0] == FirstWithItem(o, id) && Gate(o, id, P[0]))
  {
    ItemIndicesFacts(o, id);
    FirstItemIndex(o, id);
    var P := ItemIndices(o, id);
    forall m | 0 <= m < |P| ensures o[P[m]].itemId == id {
      assert P[m] in P;
    }
  }

  /**
   * After the given slot `g` alone was handled, the remaining listed slots
   * are indexed by ItemIndices without `g`, are untouched, and the first of
   * them passes the gate when `g` no longer holds the item or refuses it.
   */
  lemma ListedAfterGiven(o: seq<GridSlot>, slots: seq<GridSlot>, id: Guid, g: int)
    requires UniquePositions(o) && 0 <= g < |o| && o[g].itemId == id && |slots| == |o| && slots == o[g := slots[g]]
    requires slots[g].itemId == id ==> slots[g].widget == o[g].widget
    ensures var Q := DropIndex(ItemIndices(o, id), g);
            IndexedBy(WithoutPosition(SlotsWithItem(o, id), o[g].position), o, Q) && g !in Q
            && (forall m :: 0 <= m < |Q| ==> slots[Q[m]] == o[Q[m]] && o[Q[m]].itemId == id)
            && (forall i :: 0 <= i < |o| && o[i].itemId == id ==> i in Q || i == g)
            && ((slots[g].itemId == id ==> !AcceptsItems(slots[g])) && |Q| > 0 ==> Gate(slots, id, Q[0]))
  {
    ItemIndicesFacts(o, id);
    var P := ItemIndices(o, id);
    WithoutPositionIndexed(SlotsWithItem(o, id), o, P, g);
    DropIndexMembers(P, g);
    var Q := DropIndex(P, g);
    forall m | 0 <= m < |Q| ensures slots[Q[m]] == o[Q[m]] && o[Q[m]].itemId == id {
      assert Q[m] in Q;
    }
    if (slots[g].itemId == id ==> !AcceptsItems(slots[g])) && |Q| > 0 {
      GateAt(slots, id, Q, 0, g);
    }
  }

  /**
   * When the slot at `Q[k]` holds `id`, no earlier listed slot does, and
   * every slot holding `id` is listed or is `G` with a refusing widget,
   * then the first slot holding `id` is `Q[k]` or refuses items.
   */
  lemma GateAt(slots: seq<GridSlot>, id: Guid, Q: seq<int>, k: int, G: int)
    requires Increasing(Q) && 0 <= k < |Q| && (forall m :: 0 <= m < |Q| ==> 0 <= Q[m] < |slots|)
    requires slots[Q[k]].itemId == id
    requires forall m :: 0 <= m < k ==> slots[Q[m]].itemId != id
    requires forall i :: 0 <= i < |slots| && slots[i].itemId == id ==> i in Q || i == G
    requires 0 <= G < |slots| && slots[G].itemId == id ==> !AcceptsItems(slots[G])
    ensures Gate(slots, id, Q[k])
  {
    var f := FirstWithItem(slots, id);
    if f != Q[k] {
      assert f != IndexNone && f < Q[k];
      if f in Q {
        var m :| 0 <= m < |Q| && Q[m] == f;
      }
    }
  }

  /** After the slot at `Q[k]`, the first holding `id`, is reset, the next listed slot passes the gate. */
  lemma GateNext(pre: seq<GridSlot>, post: seq<GridSlot>, o: seq<GridSlot>, id: Guid, Q: seq<int>, k: int, G: int)
    requires GuidValid(id) && |pre| == |o| && 0 <= k && k + 1 < |Q|
    requires Increasing(Q) && forall m :: 0 <= m < |Q| ==> 0 <= Q[m] < |o|
    requires FirstWithItem(pre, id) == Q[k] && post == pre[Q[k] := ResetSlot(pre[Q[k]])]
    requires post[Q[k + 1]].itemId == id
    requires forall i :: 0 <= i < |post| && post[i].itemId == id ==> o[i].itemId == id
    requires forall i :: 0 <= i < |o| && o[i].itemId == id ==> i in Q || i == G
    requires 0 <= G < |post| && post[G].itemId == id ==> !AcceptsItems(post[G])
    ensures Gate(post, id, Q[k + 1])
  {
    forall m | 0 <= m < k + 1 ensures post[Q[m]].itemId != id {
      if m < k {
        assert Q[m] < Q[k];
      }
    }
    GateAt(post, id, Q, k + 1, G);
  }

  /** Writing index `j` with a slot at the same position keeps, in the grid, every listed slot at another position. */
  lemma OthersStay(slots: seq<GridSlot>, j: int, t: GridSlot, listed: seq<GridSlot>, k: int)
    requires UniquePositions(slots) && 0 <= j < |slots| && t.position == slots[j].position
    requires UniquePositions(listed) && 0 <= k < |listed| && listed[k] == slots[j]
    requires forall m :: k < m < |listed| ==> listed[m] in slots
    ensures forall m :: k < m < |listed| ==> listed[m] in slots[j := t]
  {
    forall m | k < m < |listed| ensures listed[m] in slots[j := t] {
      var i :| 0 <= i < |slots| && slots[i] == listed[m];
      assert Positions(listed)[k] != Positions(listed)[m];
      assert i != j;
      assert slots[j := t][i] == listed[m];
    }
  }

  /**
   * A grid changed at index `j` alone still holds every slot of the old
   * grid that sits at another position.
   */
  lemma KeptElsewhere(o: seq<GridSlot>, slots: seq<GridSlot>, j: int, listed: seq<GridSlot>)
    requires UniquePositions(o) && |slots| == |o| && 0 <= j < |o|
    requires forall i :: 0 <= i < |o| && i != j ==> slots[i] == o[i]
    requires forall t :: t in listed ==> t in o && t.position != o[j].position
    ensures forall t :: t in listed ==> t in slots
  {
    forall t | t in listed ensures t in slots {
      var i :| 0 <= i < |o| && o[i] == t;
      assert i != j;
      assert slots[i] == t;
    }
  }

  /** Every slot holding `id` sits at one of the indices `Q`. */
  ghost predicate HeldOnlyAt(slots: seq<GridSlot>, id: Guid, Q: seq<int>)
  {
    forall i :: 0 <= i < |slots| && slots[i].itemId == id ==> i in Q
  }

  /**
   * The removal's running account: the item's total is `base` plus what
   * is still to remove, and while something is, only the slots at `Q[k..]`
   * hold the item.
   */
  ghost predicate Tally(slots: seq<GridSlot>, id: Guid, Q: seq<int>, k: int, base: int, left: int)
    requires 0 <= k <= |Q|
  {
    StackSum(slots, id) == base + left && (left > 0 ==> HeldOnlyAt(slots, id, Q[k..]))
  }

  /** A removal keeps each slot's widget, so accepting slots stay accepting. */
  lemma AcceptKept(o: seq<GridSlot>, n: seq<GridSlot>, id: Guid)
    requires GuidValid(id) && |n| == |o| && AllAccept(o, id)
    requires forall i :: 0 <= i < |n| ==> StackRemoved(o[i], n[i], id)
    ensures AllAccept(n, id)
  {
    forall i | 0 <= i < |n| && n[i].itemId == id ensures AcceptsItems(n[i]) {
      assert StackRemoved(o[i], n[i], id);
    }
  }

  /** When every slot holding `id` accepts items, the gate admits only the first of them. */
  lemma GateAccepting(slots: seq<GridSlot>, id: Guid, t: int)
    requires Gate(slots, id, t) && AllAccept(slots, id)
    ensures FirstWithItem(slots, id) == t
  {
  }

  /** With no slot holding `id`, its total is zero. */
  lemma {:induction false} StackSumNone(slots: seq<GridSlot>, id: Guid)
    requires HeldOnlyAt(slots, id, [])
    ensures StackSum(slots, id) == 0
  {
    if slots != [] {
      StackSumNone(slots[..|slots| - 1], id);
    }
  }

  /** With no negative stack of `id`, its total is not negative. */
  lemma {:induction false} StackSumNonNegative(slots: seq<GridSlot>, id: Guid)
    requires NonNegativeStacks(slots, id)
    ensures StackSum(slots, id) >= 0
  {
    if slots != [] {
      StackSumNonNegative(slots[..|slots| - 1], id);
    }
  }

  /**
   * After the given slot: when every slot holding `id` accepts items and
   * something is left, the given slot was cleared, so the item is held at
   * the listed indices only.
   */
  lemma HeldAfterGiven(o: seq<GridSlot>, slots: seq<GridSlot>, id: Guid, Q: seq<int>, G: int)
    requires GuidValid(id) && |slots| == |o| && AllAccept(o, id)
    requires forall i :: 0 <= i < |slots| ==> StackRemoved(o[i], slots[i], id)
    requires forall i :: 0 <= i < |o| && o[i].itemId == id ==> i in Q || i == G
    requires 0 <= G < |slots| && slots[G].itemId == id ==> !AcceptsItems(slots[G])
    ensures HeldOnlyAt(slots, id, Q)
  {
    AcceptKept(o, slots, id);
    NoNewItems(o, slots, id);
  }

  /** Clearing the slot at `Q[k]` moves the held indices on past `k`. */
  lemma HeldStep(pre: seq<GridSlot>, post: seq<GridSlot>, id: Guid, Q: seq<int>, k: int)
    requires 0 <= k < |Q| && 0 <= Q[k] < |pre| && |post| == |pre| && post == pre[Q[k] := post[Q[k]]]
    requires post[Q[k]].itemId != id && HeldOnlyAt(pre, id, Q[k..])
    ensures HeldOnlyAt(post, id, Q[k + 1..])
  {
    assert Q[k..] == [Q[k]] + Q[k + 1..];
    forall i | 0 <= i < |post| && post[i].itemId == id ensures i in Q[k + 1..] {
      assert post[i] == pre[i];
    }
  }

  /**
   * The removal's total: exact accounting, with what is left over only
   * when no slot holds the item any more, gives the item's new total.
   */
  lemma RemovedTotal(o: seq<GridSlot>, n: seq<GridSlot>, id: Guid, toRemove: int, left: int)
    requires NonNegativeStacks(n, id) && 0 <= left
    requires StackSum(n, id) == StackSum(o, id) - (toRemove - left)
    requires left > 0 ==> HeldOnlyAt(n, id, [])
    ensures StackSum(n, id) == if toRemove <= StackSum(o, id) then StackSum(o, id) - toRemove else 0
  {
    StackSumNonNegative(n, id);
    if left > 0 {
      StackSumNone(n, id);
    }
  }

  /** A slot after adding a non-stackable item: unchanged, or an empty slot that now holds one of `id`. */
  predicate SingleAdded(o: GridSlot, n: GridSlot, id: Guid)
  {
    n == o || (IsEmpty(o) && n == o.(itemId := id, quantity := 1))
  }

  /**
   * A slot after adding a stackable item: unchanged, or holding `id` with
   * no more than the maximum stack size, either newly filled or topped up.
   */
  predicate StackAdded(o: GridSlot, n: GridSlot, id: Guid, maxStack: int)
  {
    n == o
    || (n == o.(itemId := id, quantity := n.quantity) && n.quantity <= maxStack
        && (IsEmpty(o) || (o.itemId == id && n.quantity > o.quantity)))
  }

  /** A slot after removing quantity: unchanged, or a slot of `id` that is reset or holds strictly less. */
  predicate StackRemoved(o: GridSlot, n: GridSlot, id: Guid)
  {
    n == o
    || (o.itemId == id
        && (n == ResetSlot(o) || (n == o.(quantity := n.quantity) && 0 < n.quantity < o.quantity)))
  }

  /**
   * The add loops stop here: the slot FindEmptySlotIndex picks (the first
   * empty one) is missing, or its widget refuses items.
   */
  predicate NoRoom(slots: seq<GridSlot>)
  {
    var f := FirstEmpty(slots);
    f == IndexNone || !AcceptsItems(slots[f])
  }

  /**
   * The given slot, tried first by the non-stackable add, counts as empty
   * but cannot take the item: it is outside the grid, or its widget
   * refuses items.
   */
  predicate GivenRefuses(slots: seq<GridSlot>, slotIndex: int)
  {
    slotIndex != IndexNone && SlotEmptyAt(slots, slotIndex)
    && !(InRange(slots, slotIndex) && AcceptsItems(slots[slotIndex]))
  }

  /** Every stack of `id` holds at least `maxStack`. */
  predicate StacksFull(slots: seq<GridSlot>, id: Guid, maxStack: int)
  {
    forall i :: 0 <= i < |slots| && slots[i].itemId == id ==> slots[i].quantity >= maxStack
  }

  /** Writing a slot that is full, or holds another item, keeps every stack full. */
  lemma FullAfterWrite(slots: seq<GridSlot>, j: int, t: GridSlot, id: Guid, maxStack: int)
    requires 0 <= j < |slots| && StacksFull(slots, id, maxStack)
    requires t.itemId == id ==> t.quantity >= maxStack
    ensures StacksFull(slots[j := t], id, maxStack)
  {
  }

  /** Every stack of `id` is one of `listed` or holds at least `maxStack`. */
  predicate FullOrListed(slots: seq<GridSlot>, id: Guid, maxStack: int, listed: seq<GridSlot>)
  {
    forall i :: 0 <= i < |slots| && slots[i].itemId == id ==> slots[i] in listed || slots[i].quantity >= maxStack
  }

  /**
   * One top-up pass over the listed slot `k`, found at index `j`: when the
   * slot ends full, every stack is full or listed after `k`.
   */
  lemma ListedStep(pre: seq<GridSlot>, post: seq<GridSlot>, j: int, id: Guid, maxStack: int, listed: seq<GridSlot>, k: int)
    requires UniquePositions(pre) && 0 <= j < |pre| && 0 <= k < |listed| && pre[j] == listed[k]
    requires |post| == |pre| && post == pre[j := post[j]] && post[j].position == pre[j].position
    requires post[j].itemId == id ==> post[j].quantity >= maxStack
    requires FullOrListed(pre, id, maxStack, listed[k..])
    ensures FullOrListed(post, id, maxStack, listed[k + 1..])
  {
    assert listed[k..] == [listed[k]] + listed[k + 1..];
    forall i | 0 <= i < |post| && post[i].itemId == id
      ensures post[i] in listed[k + 1..] || post[i].quantity >= maxStack
    {
      if i != j {
        assert post[i] == pre[i];
      }
    }
  }

  /** Every slot holding `id` has a widget that accepts items. */
  predicate AllAccept(slots: seq<GridSlot>, id: Guid)
  {
    forall i :: 0 <= i < |slots| && slots[i].itemId == id ==> AcceptsItems(slots[i])
  }

  /**
   * The outcome of adding `toAdd` units of a non-stackable item: every
   * slot is unchanged or newly holds one unit, the item's total grows by
   * zero to `toAdd`, and `ok` says that it grew. The loop goes on until
   * all of `toAdd` is placed, unless the next empty slot is missing or
   * refuses, or the given slot refused the first unit and nothing changed.
   */
  predicate SinglesAdded(o: seq<GridSlot>, n: seq<GridSlot>, id: Guid, slotIndex: int, toAdd: int, ok: bool)
  {
    |n| == |o| && (forall i :: 0 <= i < |n| ==> SingleAdded(o[i], n[i], id))
    && StackSum(o, id) <= StackSum(n, id) <= StackSum(o, id) + toAdd
    && (ok <==> StackSum(n, id) > StackSum(o, id))
    && (StackSum(n, id) == StackSum(o, id) + toAdd || NoRoom(n) || (GivenRefuses(o, slotIndex) && n == o))
  }

  /**
   * The outcome of adding `toAdd` units of a stackable item: every slot
   * is unchanged, newly filled or topped up to at most `maxStack`; with no
   * update the grid is unchanged; with a positive maximum the item's total
   * grows by zero to `toAdd`, `ok` says that it grew, and all of `toAdd`
   * is placed unless every stack of the item is full and the next empty
   * slot is missing or refuses.
   */
  predicate StacksAdded(o: seq<GridSlot>, n: seq<GridSlot>, id: Guid, maxStack: int, toAdd: int, ok: bool)
  {
    |n| == |o| && (forall i :: 0 <= i < |n| ==> StackAdded(o[i], n[i], id, maxStack))
    && (!ok ==> n == o)
    && (maxStack > 0 ==>
          StackSum(o, id) <= StackSum(n, id) <= StackSum(o, id) + toAdd
          && (ok <==> StackSum(n, id) > StackSum(o, id))
          && (StackSum(n, id) == StackSum(o, id) + toAdd || (NoRoom(n) && StacksFull(n, id, maxStack))))
  }

  /**
   * The outcome of removing `toRemove` units: every slot is unchanged,
   * reset, or holds less of the item; `ok` holds exactly when some slot
   * holding the item is visited (see FirstVisited); with none nothing
   * changes, and when the first one visited holds more than `toRemove`,
   * that slot alone loses `toRemove`; with no negative stacks the item's
   * total falls by zero to `toRemove`, and by exactly `toRemove` (or to
   * zero) when every slot holding it accepts items.
   */
  predicate StacksRemoved(o: seq<GridSlot>, n: seq<GridSlot>, id: Guid, slotIndex: int, toRemove: int, ok: bool)
  {
    |n| == |o| && (forall i :: 0 <= i < |n| ==> StackRemoved(o[i], n[i], id))
    && var v := FirstVisited(o, slotIndex, id);
    (ok <==> v != IndexNone)
    && (v == IndexNone ==> n == o)
    && (v != IndexNone && o[v].quantity > toRemove ==> n == o[v := Reduced(o[v], toRemove)])
    && (NonNegativeStacks(o, id) ==>
          NonNegativeStacks(n, id) && StackSum(o, id) - toRemove <= StackSum(n, id) <= StackSum(o, id))
    && (NonNegativeStacks(o, id) && AllAccept(o, id) ==>
          StackSum(n, id) == if toRemove <= StackSum(o, id) then StackSum(o, id) - toRemove else 0)
  }

  /**
   * The outcome of UpdateItemInSlot when the grid holds `current` of the
   * item and the inventory reports a different quantity: the difference
   * is added as singles or as stacks, or the excess is removed.
   */
  predicate TotalChanged(o: seq<GridSlot>, n: seq<GridSlot>, id: Guid, slotIndex: int, v: ItemView, current: int, ok: bool)
  {
    (v.quantity > current && !v.stackable ==> SinglesAdded(o, n, id, slotIndex, v.quantity - current, ok))
    && (v.quantity > current && v.stackable ==> StacksAdded(o, n, id, v.maxStackSize, v.quantity - current, ok))
    && (v.quantity < current ==> StacksRemoved(o, n, id, slotIndex, current - v.quantity, ok))
  }

  class ItemsGrid {
    /** GridSlots, in the set's iteration order. */
    var slots: seq<GridSlot>

    ghost predicate Valid()
      reads this
    {
      UniquePositions(slots)
    }

    constructor ()
      ensures Valid() && slots == []
    {
      slots := [];
    }

    function GetTotalSlots(): (r: int)
      reads this
      ensures r == |slots|
    {
      |slots|
    }

    function IsSlotEmpty(idx: int): (r: bool)
      reads this
      ensures !InRange(slots, idx) ==> r
      ensures InRange(slots, idx) ==> (r <==> !GuidValid(slots[idx].itemId))
    {
      SlotEmptyAt(slots, idx)
    }

    function GetItemInSlot(idx: int): (r: Guid)
      reads this
      ensures InRange(slots, idx) ==> r == slots[idx].itemId
      ensures !InRange(slots, idx) ==> !GuidValid(r)
    {
      if InRange(slots, idx) then slots[idx].itemId else InvalidGuid
    }

    function GetSlotIndexByItem(id: Guid): (r: int)
      reads this
      ensures r == IndexNone <==> id !in ItemIds(slots)
      ensures r != IndexNone ==> 0 <= r < |slots| && slots[r].itemId == id
      ensures forall i :: 0 <= i < |slots| && slots[i].itemId == id ==> 0 <= r <= i
    {
      FirstWithItem(slots, id)
    }

    function IsItemInGrid(id: Guid): (r: bool)
      reads this
      ensures r <==> exists i :: 0 <= i < |slots| && slots[i].itemId == id
    {
      FirstWithItem(slots, id) != IndexNone
    }

    /** The source indexes without a check, hence the precondition. */
    function GetGridSlotData(idx: int): (r: GridSlot)
      requires InRange(slots, idx)
      reads this
      ensures r in slots && r.position == Positions(slots)[idx]
    {
      slots[idx]
    }

    /** The widget of the first empty slot, or none. */
    function FindEmptyWidgetSlot(): (r: SlotWidget)
      reads this
      ensures (forall i :: 0 <= i < |slots| ==> !IsEmpty(slots[i])) ==> r == NoWidget
      ensures FirstEmpty(slots) != IndexNone ==> r == slots[FirstEmpty(slots)].widget
    {
      var k := FirstEmpty(slots);
      if k == IndexNone then NoWidget else slots[k].widget
    }

    /** The grid's choice of empty slot for an item: the first empty slot, or INDEX_NONE. */
    function FindEmptySlotIndex(id: Guid): (r: int)
      reads this
      ensures r == IndexNone || (InRange(slots, r) && IsEmpty(slots[r]))
      ensures r == IndexNone <==> forall i :: 0 <= i < |slots| ==> !IsEmpty(slots[i])
    {
      FirstEmpty(slots)
    }

    function GetItemSlotWidget(idx: int): (r: SlotWidget)
      reads this
      ensures InRange(slots, idx) ==> r == slots[idx].widget
      ensures !InRange(slots, idx) ==> r == NoWidget
    {
      if InRange(slots, idx) then slots[idx].widget else NoWidget
    }

    /** The slot widget that is asked for its item widget, or None when the index or the widget fails the checks. */
    function GetItemWidgetInSlot(idx: int): (r: Option<nat>)
      reads this
      ensures r.Some? <==> InRange(slots, idx) && AcceptsItems(slots[idx])
      ensures r.Some? ==> slots[idx].widget == Widget(r.value, true)
    {
      if InRange(slots, idx) && AcceptsItems(slots[idx]) then Some(slots[idx].widget.id) else None
    }

    /** GetStacksSizeForItem: INDEX_NONE for an invalid id, else the total quantity in the slots holding it. */
    function GetStacksSizeForItem(id: Guid): (r: int)
      reads this
      ensures !GuidValid(id) ==> r == IndexNone
      ensures GuidValid(id) ==> r == StackSum(slots, id)
    {
      StackSumOfFiltered(slots, id);
      if !GuidValid(id) then IndexNone else StackSum(SlotsWithItem(slots, id), id)
    }

    function GetGridSlotsDataForItem(id: Guid): (r: seq<GridSlot>)
      reads this
      ensures forall s :: s in r <==> s in slots && s.itemId == id
    {
      SlotsWithItem(slots, id)
    }

    /** AddSlot: a slot at a new position is appended, one at a known position replaces it. */
    method AddSlot(s: GridSlot)
      requires Valid()
      modifies this
      ensures Valid() && s in slots
      ensures s.position in Positions(old(slots)) ==> Positions(slots) == Positions(old(slots))
      ensures slots == EmplaceSlot(old(slots), s)
    {
      EmplaceKeepsSet(slots, s);
      slots := EmplaceSlot(slots, s);
    }

    /**
     * AddItemToSlot with the index checked before the slot is read (the
     * source reads it unchecked). On success the slot holds the item and
     * its full quantity.
     */
    method AddItemToSlot(id: Guid, idx: int, item: Option<ItemView>) returns (ok: bool)
      requires Valid()
      modifies this
      ensures Valid() && Positions(slots) == Positions(old(slots))
      ensures ok <==> InRange(old(slots), idx) && IsEmpty(old(slots)[idx]) && item.Some? && AcceptsItems(old(slots)[idx])
      ensures ok ==> slots == old(slots)[idx := old(slots)[idx].(itemId := id, quantity := item.value.quantity)]
      ensures !ok ==> slots == old(slots)
    {
      if !SlotEmptyAt(slots, idx) || item.None? || !InRange(slots, idx) {
        return false;
      }
      var s := slots[idx];
      if !AcceptsItems(s) {
        return false;
      }
      s := s.(itemId := id, quantity := item.value.quantity);
      EmplaceAt(slots, idx, s);
      EmplaceKeepsSet(slots, s);
      slots := EmplaceSlot(slots, s);
      ok := true;
    }

    /** AddItemToEmptySlot: the item goes into the slot FindEmptySlotIndex picks, if there is one. */
    method AddItemToEmptySlot(id: Guid, item: Option<ItemView>) returns (ok: bool)
      requires Valid()
      modifies this
      ensures Valid() && Positions(slots) == Positions(old(slots))
      ensures ok <==> FirstEmpty(old(slots)) != IndexNone && item.Some? && AcceptsItems(old(slots)[FirstEmpty(old(slots))])
      ensures ok ==> var k := FirstEmpty(old(slots));
                     slots == old(slots)[k := old(slots)[k].(itemId := id, quantity := item.value.quantity)]
      ensures !ok ==> slots == old(slots)
    {
      var k := FindEmptySlotIndex(id);
      if !InRange(slots, k) {
        return false;
      }
      ok := AddItemToSlot(id, k, item);
    }

    /** RemoveItemFromSlot: a slot in range whose widget accepts items is reset. */
    method RemoveItemFromSlot(idx: int) returns (ok: bool)
      requires Valid()
      modifies this
      ensures Valid() && Positions(slots) == Positions(old(slots))
      ensures ok <==> InRange(old(slots), idx) && AcceptsItems(old(slots)[idx])
      ensures ok ==> slots == old(slots)[idx := ResetSlot(old(slots)[idx])]
      ensures !ok ==> slots == old(slots)
    {
      if !InRange(slots, idx) || !AcceptsItems(slots[idx]) {
        return false;
      }
      var s := ResetSlot(slots[idx]);
      EmplaceAt(slots, idx, s);
      EmplaceKeepsSet(slots, s);
      slots := EmplaceSlot(slots, s);
      ok := true;
    }

    /** SwapItemsBetweenSlots: both indices must be in range; the grid is swapped as SwapIds says. */
    method SwapItemsBetweenSlots(i: int, j: int) returns (ok: bool)
      requires Valid()
      modifies this
      ensures Valid()
      ensures ok <==> InRange(old(slots), i) && InRange(old(slots), j)
      ensures ok ==> slots == SwapIds(old(slots), i, j)
      ensures !ok ==> slots == old(slots)
    {
      if !InRange(slots, i) || !InRange(slots, j) {
        return false;
      }
      SwapKeepsUnique(slots, i, j);
      slots := SwapIds(slots, i, j);
      ok := true;
    }

    /**
     * ClearAllSlots: every slot is rebuilt without its item id and added to
     * a fresh set, which then replaces the grid's. Quantities are kept.
     */
    method ClearAllSlots()
      requires Valid()
      modifies this
      ensures Valid() && |slots| == |old(slots)|
      ensures forall i :: 0 <= i < |slots| ==> slots[i] == old(slots)[i].(itemId := InvalidGuid)
      ensures forall i :: 0 <= i < |slots| ==> IsEmpty(slots[i])
    {
      var cleared: seq<GridSlot> := [];
      var i := 0;
      while i < |slots|
        invariant 0 <= i <= |slots|
        invariant |cleared| == i
        invariant forall j :: 0 <= j < i ==> cleared[j] == slots[j].(itemId := InvalidGuid)
        invariant Positions(cleared) == Positions(slots)[..i]
      {
        var t := slots[i].(itemId := InvalidGuid);
        assert t.position !in Positions(slots)[..i] by {
          forall j | 0 <= j < i ensures Positions(slots)[j] != t.position {
            assert Positions(slots)[i] == t.position;
          }
        }
        cleared := EmplaceSlot(cleared, t);
        assert Positions(slots)[..i + 1] == Positions(slots)[..i] + [t.position];
        i := i + 1;
      }
      assert Positions(slots)[..|slots|] == Positions(slots);
      slots := cleared;
    }

    /** The quantity-update step of UpdateItemInSlot: the slot is written back with a new quantity. */
    method UpdateSlotQuantity(s: GridSlot, q: int)
      requires Valid() && s.position in Positions(slots)
      modifies this
      ensures Valid() && Positions(slots) == Positions(old(slots))
      ensures slots == old(slots)[IndexOf(Positions(old(slots)), s.position) := s.(quantity := q)]
    {
      EmplaceKeepsSet(slots, s.(quantity := q));
      slots := EmplaceSlot(slots, s.(quantity := q));
    }

    /**
     * Adding a non-stackable item: one slot per unit, the given slot first
     * when it is empty, then the empty slots the grid picks, until the
     * quantity is placed or a slot refuses. `left` is what was not placed.
     */
    method AddSingles(id: Guid, slotIndex: int, item: ItemView, toAdd0: int) returns (any: bool, left: int)
      requires Valid() && GuidValid(id)
      modifies this
      ensures Valid() && Positions(slots) == Positions(old(slots))
      ensures forall i :: 0 <= i < |slots| ==> SingleAdded(old(slots)[i], slots[i], id)
      ensures StackSum(slots, id) + left == StackSum(old(slots), id) + toAdd0
      ensures left <= toAdd0 && (left < toAdd0 ==> left >= 0)
      ensures any <==> left < toAdd0
      ensures left <= 0 || NoRoom(slots) || (GivenRefuses(old(slots), slotIndex) && slots == old(slots))
      ensures toAdd0 > 0 ==> SinglesAdded(old(slots), slots, id, slotIndex, toAdd0, any)
    {
      var used := false;
      left := toAdd0;
      any := false;
      while left > 0
        invariant Valid() && Positions(slots) == Positions(old(slots))
        invariant forall i :: 0 <= i < |slots| ==> SingleAdded(old(slots)[i], slots[i], id)
        invariant StackSum(slots, id) + left == StackSum(old(slots), id) + toAdd0
        invariant left <= toAdd0 && (left < toAdd0 ==> left >= 0)
        invariant any <==> left < toAdd0
        invariant !used && slotIndex != IndexNone && SlotEmptyAt(slots, slotIndex) ==> slots == old(slots)
        decreases left
      {
        var idx := IndexNone;
        if slotIndex != IndexNone && !used && IsSlotEmpty(slotIndex) {
          idx := slotIndex;
          used := true;
        } else {
          idx := FindEmptySlotIndex(id);
        }
        if idx == IndexNone {
          break;
        }
        var ok := PlaceSingle(id, idx, item, old(slots));
        if !ok {
          break;
        }
        left := left - 1;
        any := true;
      }
    }

    /**
     * One round of AddSingles: the slot at `idx` takes one unit of the item
     * exactly when it is in the grid, empty and accepts items; otherwise
     * nothing changes.
     */
    method PlaceSingle(id: Guid, idx: int, item: ItemView, ghost o: seq<GridSlot>) returns (ok: bool)
      requires Valid() && GuidValid(id) && Positions(slots) == Positions(o)
      requires forall i :: 0 <= i < |slots| ==> SingleAdded(o[i], slots[i], id)
      modifies this
      ensures Valid() && Positions(slots) == Positions(o)
      ensures forall i :: 0 <= i < |slots| ==> SingleAdded(o[i], slots[i], id)
      ensures ok <==> InRange(old(slots), idx) && IsEmpty(old(slots)[idx]) && AcceptsItems(old(slots)[idx])
      ensures ok ==> slots == old(slots)[idx := old(slots)[idx].(itemId := id, quantity := 1)]
      ensures ok ==> StackSum(slots, id) == StackSum(old(slots), id) + 1
      ensures !ok ==> slots == old(slots)
    {
      ghost var before := slots;
      ok := AddItemToSlot(id, idx, Some(item));
      if !ok {
        return;
      }
      var data := GetGridSlotData(idx);
      PositionIndex(slots, idx);
      UpdateSlotQuantity(data, 1);
      assert slots == before[idx := before[idx].(itemId := id, quantity := 1)];
      StackSumUpdate(before, idx, slots[idx], id);
      assert SingleAdded(o[idx], before[idx], id);
    }

    /** One fill step of a stackable item: the slot at `k` gets `q` more, staying at or below the maximum. */
    method TopUp(id: Guid, ghost k: int, s: GridSlot, q: int, ghost o: seq<GridSlot>, maxStack: int)
      requires Valid() && Positions(slots) == Positions(o) && InRange(slots, k) && slots[k] == s
      requires s.itemId == id && q > 0 && s.quantity + q <= maxStack
      requires forall i :: 0 <= i < |slots| ==> StackAdded(o[i], slots[i], id, maxStack)
      modifies this
      ensures Valid() && Positions(slots) == Positions(old(slots))
      ensures forall i :: 0 <= i < |slots| ==> StackAdded(o[i], slots[i], id, maxStack)
      ensures slots == old(slots)[k := s.(quantity := s.quantity + q)]
      ensures StackSum(slots, id) == StackSum(old(slots), id) + q
    {
      assert Positions(slots)[k] == s.position;
      assert StackAdded(o[k], s, id, maxStack);
      PositionIndex(slots, k);
      StackSumUpdate(slots, k, s.(quantity := s.quantity + q), id);
      UpdateSlotQuantity(s, s.quantity + q);
    }

    /** One new stack of a stackable item in the empty slot at `idx`, with `q` units. */
    method NewStack(id: Guid, idx: int, item: ItemView, q: int, ghost o: seq<GridSlot>) returns (ok: bool)
      requires Valid() && Positions(slots) == Positions(o) && GuidValid(id)
      requires q <= item.maxStackSize
      requires forall i :: 0 <= i < |slots| ==> StackAdded(o[i], slots[i], id, item.maxStackSize)
      modifies this
      ensures Valid() && Positions(slots) == Positions(old(slots))
      ensures forall i :: 0 <= i < |slots| ==> StackAdded(o[i], slots[i], id, item.maxStackSize)
      ensures ok <==> InRange(old(slots), idx) && IsEmpty(old(slots)[idx]) && AcceptsItems(old(slots)[idx])
      ensures ok ==> slots == old(slots)[idx := old(slots)[idx].(itemId := id, quantity := q)]
      ensures ok ==> StackSum(slots, id) == StackSum(old(slots), id) + q
      ensures !ok ==> slots == old(slots)
    {
      ok := AddItemToSlot(id, idx, Some(item));
      if ok {
        var data := GetGridSlotData(idx);
        PositionIndex(slots, idx);
        UpdateSlotQuantity(data, q);
        assert StackAdded(o[idx], old(slots)[idx], id, item.maxStackSize);
        StackSumUpdate(old(slots), idx, slots[idx], id);
      }
    }

    /**
     * Adding a stackable item: into the given slot first (a new stack, or on
     * top of the item's own stack), then onto the item's other stacks, then
     * into new stacks in empty slots, each at most the maximum stack size.
     * `itemSlots` is the grid's slots of the item when the update began.
     * `left` is what was not placed: the item's total grows by exactly
     * `toAdd0 - left`; with a positive maximum stack size nothing is
     * overplaced, and `any` says that something was placed.
     */
    method AddStacks(id: Guid, slotIndex: int, item: ItemView, toAdd0: int, itemSlots0: seq<GridSlot>) returns (any: bool, left: int)
      requires Valid() && GuidValid(id) && toAdd0 > 0 && UniquePositions(itemSlots0)
      requires forall t :: t in itemSlots0 ==> t in slots && t.itemId == id
      requires forall i :: 0 <= i < |slots| && slots[i].itemId == id ==> slots[i] in itemSlots0
      modifies this
      ensures Valid() && Positions(slots) == Positions(old(slots))
      ensures forall i :: 0 <= i < |slots| ==> StackAdded(old(slots)[i], slots[i], id, item.maxStackSize)
      ensures StackSum(slots, id) + left == StackSum(old(slots), id) + toAdd0
      ensures !any ==> slots == old(slots) && left == toAdd0
      ensures item.maxStackSize > 0 ==> 0 <= left <= toAdd0 && (any <==> left < toAdd0)
      ensures item.maxStackSize > 0 && left > 0 ==> NoRoom(slots) && StacksFull(slots, id, item.maxStackSize)
      ensures StacksAdded(old(slots), slots, id, item.maxStackSize, toAdd0, any)
    {
      var itemSlots;
      any, left, itemSlots := StacksAtSlot(id, slotIndex, item, toAdd0, itemSlots0);
      if left > 0 {
        var topped;
        topped, left := TopUpStacks(id, item.maxStackSize, itemSlots, left, old(slots));
        any := any || topped;
      }
      var added;
      added, left := NewStacks(id, item, left, old(slots));
      any := any || added;
    }

    /**
     * The first part of adding a stackable item: with no stacks of it yet,
     * one new stack in the given slot or the first empty one; otherwise a
     * new stack or a top-up in the given slot, which is then dropped from
     * the item's slots.
     */
    method StacksAtSlot(id: Guid, slotIndex: int, item: ItemView, toAdd0: int, itemSlots0: seq<GridSlot>)
      returns (any: bool, left: int, itemSlots: seq<GridSlot>)
      requires Valid() && GuidValid(id) && toAdd0 > 0 && UniquePositions(itemSlots0)
      requires forall t :: t in itemSlots0 ==> t in slots && t.itemId == id
      requires forall i :: 0 <= i < |slots| && slots[i].itemId == id ==> slots[i] in itemSlots0
      modifies this
      ensures Valid() && Positions(slots) == Positions(old(slots))
      ensures forall i :: 0 <= i < |slots| ==> StackAdded(old(slots)[i], slots[i], id, item.maxStackSize)
      ensures UniquePositions(itemSlots) && forall t :: t in itemSlots ==> t in itemSlots0 && t in slots
      ensures StackSum(slots, id) + left == StackSum(old(slots), id) + toAdd0
      ensures !any ==> slots == old(slots) && left == toAdd0
      ensures item.maxStackSize > 0 && any ==> 0 <= left < toAdd0
      ensures item.maxStackSize > 0 && left > 0 ==> FullOrListed(slots, id, item.maxStackSize, itemSlots)
    {
      itemSlots := itemSlots0;
      left := toAdd0;
      any := false;
      if |itemSlots| == 0 {
        any, left := FirstStack(id, slotIndex, item, toAdd0);
      } else if slotIndex != IndexNone && InRange(slots, slotIndex) {
        any, left, itemSlots := StacksAtGiven(id, slotIndex, item, toAdd0, itemSlots0);
      }
    }

    /** StacksAtSlot when the grid holds none of the item: one new stack, in the given slot or the first empty one. */
    method FirstStack(id: Guid, slotIndex: int, item: ItemView, toAdd0: int) returns (any: bool, left: int)
      requires Valid() && GuidValid(id) && toAdd0 > 0
      requires forall i :: 0 <= i < |slots| ==> slots[i].itemId != id
      modifies this
      ensures Valid() && Positions(slots) == Positions(old(slots))
      ensures forall i :: 0 <= i < |slots| ==> StackAdded(old(slots)[i], slots[i], id, item.maxStackSize)
      ensures StackSum(slots, id) + left == StackSum(old(slots), id) + toAdd0
      ensures !any ==> slots == old(slots) && left == toAdd0
      ensures item.maxStackSize > 0 && any ==> 0 <= left < toAdd0
      ensures item.maxStackSize > 0 && left > 0 ==> StacksFull(slots, id, item.maxStackSize)
    {
      var maxStack := item.maxStackSize;
      left := toAdd0;
      any := false;
      var idx := if slotIndex != IndexNone then slotIndex else FindEmptySlotIndex(id);
      if idx != IndexNone && IsSlotEmpty(idx) {
        var q := Min(maxStack, left);
        assert StacksFull(slots, id, maxStack);
        var ok := NewStack(id, idx, item, q, old(slots));
        if ok {
          any := true;
          left := left - q;
          if maxStack > 0 && left > 0 {
            FullAfterWrite(old(slots), idx, slots[idx], id, maxStack);
          }
        }
      }
    }

    /** StacksAtSlot when the grid holds the item and the slot given is in range: a new stack there, or a top-up. */
    method StacksAtGiven(id: Guid, slotIndex: int, item: ItemView, toAdd0: int, itemSlots0: seq<GridSlot>)
      returns (any: bool, left: int, itemSlots: seq<GridSlot>)
      requires Valid() && GuidValid(id) && toAdd0 > 0 && UniquePositions(itemSlots0) && InRange(slots, slotIndex)
      requires forall t :: t in itemSlots0 ==> t in slots && t.itemId == id
      requires forall i :: 0 <= i < |slots| && slots[i].itemId == id ==> slots[i] in itemSlots0
      modifies this
      ensures Valid() && Positions(slots) == Positions(old(slots))
      ensures forall i :: 0 <= i < |slots| ==> StackAdded(old(slots)[i], slots[i], id, item.maxStackSize)
      ensures UniquePositions(itemSlots) && forall t :: t in itemSlots ==> t in itemSlots0 && t in slots
      ensures StackSum(slots, id) + left == StackSum(old(slots), id) + toAdd0
      ensures !any ==> slots == old(slots) && left == toAdd0
      ensures item.maxStackSize > 0 && any ==> 0 <= left < toAdd0
      ensures item.maxStackSize > 0 && left > 0 ==> FullOrListed(slots, id, item.maxStackSize, itemSlots)
    {
      var maxStack := item.maxStackSize;
      itemSlots := itemSlots0;
      left := toAdd0;
      any := false;
      var data := GetGridSlotData(slotIndex);
      if IsEmpty(data) {
        var q := Min(maxStack, left);
        var ok := NewStack(id, slotIndex, item, q, old(slots));
        if ok {
          data := GetGridSlotData(slotIndex);
          any := true;
          left := left - q;
        }
      } else if data.itemId == id {
        var q := Min(maxStack - data.quantity, left);
        if q > 0 {
          TopUp(id, slotIndex, data, q, old(slots), maxStack);
          any := true;
          left := left - q;
        }
      }
      itemSlots := WithoutPosition(itemSlots, data.position);
      WithoutPositionUnique(itemSlots0, data.position);
      KeptElsewhere(old(slots), slots, slotIndex, itemSlots);
    }

    /** Tops up the item's existing stacks in order, each to at most the maximum, while something is left. */
    method TopUpStacks(id: Guid, maxStack: int, itemSlots: seq<GridSlot>, left0: int, ghost o: seq<GridSlot>)
      returns (any: bool, left: int)
      requires Valid() && Positions(slots) == Positions(o) && UniquePositions(itemSlots)
      requires forall t :: t in itemSlots ==> t in slots && t.itemId == id
      requires forall i :: 0 <= i < |slots| ==> StackAdded(o[i], slots[i], id, maxStack)
      requires maxStack > 0 && left0 > 0 ==> FullOrListed(slots, id, maxStack, itemSlots)
      modifies this
      ensures Valid() && Positions(slots) == Positions(o)
      ensures forall i :: 0 <= i < |slots| ==> StackAdded(o[i], slots[i], id, maxStack)
      ensures StackSum(slots, id) + left == StackSum(old(slots), id) + left0
      ensures !any ==> slots == old(slots) && left == left0
      ensures left0 >= 0 ==> 0 <= left <= left0 && (any ==> left < left0)
      ensures maxStack > 0 && left > 0 ==> StacksFull(slots, id, maxStack)
    {
      left := left0;
      any := false;
      var k := 0;
      while k < |itemSlots|
        invariant 0 <= k <= |itemSlots|
        invariant Valid() && Positions(slots) == Positions(o)
        invariant forall i :: 0 <= i < |slots| ==> StackAdded(o[i], slots[i], id, maxStack)
        invariant forall m :: k <= m < |itemSlots| ==> itemSlots[m] in slots
        invariant StackSum(slots, id) + left == StackSum(old(slots), id) + left0
        invariant !any ==> slots == old(slots) && left == left0
        invariant left0 >= 0 ==> 0 <= left <= left0 && (any ==> left < left0)
        invariant maxStack > 0 && left > 0 ==> FullOrListed(slots, id, maxStack, itemSlots[k..])
      {
        if left <= 0 {
          break;
        }
        var s := itemSlots[k];
        var q := Min(maxStack - s.quantity, left);
        ghost var before := slots;
        ghost var j :| 0 <= j < |slots| && slots[j] == s;
        if q > 0 {
          TopUp(id, j, s, q, o, maxStack);
          OthersStay(before, j, s.(quantity := s.quantity + q), itemSlots, k);
          any := true;
          left := left - q;
        }
        if maxStack > 0 && left > 0 {
          ListedStep(before, slots, j, id, maxStack, itemSlots, k);
        }
        k := k + 1;
      }
    }

    /**
     * New stacks of at most the maximum in the first empty slots, while
     * something is left and a slot is found: what is left at the end found
     * no room, and every stack made while more remained is full.
     */
    method NewStacks(id: Guid, item: ItemView, left0: int, ghost o: seq<GridSlot>) returns (any: bool, left: int)
      requires Valid() && GuidValid(id) && Positions(slots) == Positions(o)
      requires forall i :: 0 <= i < |slots| ==> StackAdded(o[i], slots[i], id, item.maxStackSize)
      modifies this
      ensures Valid() && Positions(slots) == Positions(o)
      ensures forall i :: 0 <= i < |slots| ==> StackAdded(o[i], slots[i], id, item.maxStackSize)
      ensures StackSum(slots, id) + left == StackSum(old(slots), id) + left0
      ensures !any ==> slots == old(slots) && left == left0
      ensures item.maxStackSize > 0 && left0 >= 0 ==> 0 <= left <= left0 && (any ==> left < left0)
      ensures left <= 0 || NoRoom(slots)
      ensures item.maxStackSize > 0 && left > 0 && StacksFull(old(slots), id, item.maxStackSize) ==>
                StacksFull(slots, id, item.maxStackSize)
    {
      var maxStack := item.maxStackSize;
      left := left0;
      any := false;
      while left > 0
        invariant Valid() && Positions(slots) == Positions(o)
        invariant forall i :: 0 <= i < |slots| ==> StackAdded(o[i], slots[i], id, maxStack)
        invariant StackSum(slots, id) + left == StackSum(old(slots), id) + left0
        invariant !any ==> slots == old(slots) && left == left0
        invariant maxStack > 0 && left0 >= 0 ==> 0 <= left <= left0 && (any ==> left < left0)
        invariant maxStack > 0 && left > 0 && StacksFull(old(slots), id, maxStack) ==> StacksFull(slots, id, maxStack)
        decreases EmptyCount(slots)
      {
        var idx := FindEmptySlotIndex(id);
        if idx == IndexNone {
          assert NoRoom(slots);
          break;
        }
        var q := Min(maxStack, left);
        ghost var before := slots;
        var ok := NewStack(id, idx, item, q, o);
        if !ok {
          assert NoRoom(slots);
          break;
        }
        EmptyCountFill(before, idx, slots[idx]);
        if maxStack > 0 && left - q > 0 && StacksFull(old(slots), id, maxStack) {
          FullAfterWrite(before, idx, slots[idx], id, maxStack);
        }
        any := true;
        left := left - q;
      }
    }

    /** One reduction step: the stack at `j` keeps its item and loses `q` units, leaving at least one. */
    method ReduceStack(id: Guid, ghost j: int, s: GridSlot, q: int, ghost o: seq<GridSlot>)
      requires Valid() && Positions(slots) == Positions(o) && InRange(o, j) && o[j] == s && slots[j] == s
      requires s.itemId == id && 0 < q < s.quantity
      requires forall i :: 0 <= i < |slots| ==> StackRemoved(o[i], slots[i], id)
      modifies this
      ensures Valid() && Positions(slots) == Positions(old(slots))
      ensures forall i :: 0 <= i < |slots| ==> StackRemoved(o[i], slots[i], id)
      ensures slots == old(slots)[j := Reduced(s, q)]
      ensures StackSum(slots, id) == StackSum(old(slots), id) - q
      ensures NonNegativeStacks(old(slots), id) ==> NonNegativeStacks(slots, id)
    {
      assert Positions(slots)[j] == s.position;
      PositionIndex(slots, j);
      StackSumUpdate(slots, j, Reduced(s, q), id);
      UpdateSlotQuantity(s, s.quantity - q);
    }

    /**
     * One clearing step: the slot at `idx`, which holds the item, is reset
     * exactly when its widget accepts items, and the item's total loses
     * that slot's quantity.
     */
    method ClearStack(id: Guid, idx: int, ghost o: seq<GridSlot>) returns (ok: bool)
      requires Valid() && Positions(slots) == Positions(o) && GuidValid(id)
      requires InRange(slots, idx) && slots[idx].itemId == id
      requires forall i :: 0 <= i < |slots| ==> StackRemoved(o[i], slots[i], id)
      modifies this
      ensures Valid() && Positions(slots) == Positions(old(slots))
      ensures forall i :: 0 <= i < |slots| ==> StackRemoved(o[i], slots[i], id)
      ensures ok <==> AcceptsItems(old(slots)[idx])
      ensures ok ==> slots == old(slots)[idx := ResetSlot(old(slots)[idx])]
      ensures ok ==> StackSum(slots, id) == StackSum(old(slots), id) - old(slots)[idx].quantity
      ensures !ok ==> slots == old(slots)
      ensures NonNegativeStacks(old(slots), id) ==> NonNegativeStacks(slots, id)
    {
      assert StackRemoved(o[idx], slots[idx], id);
      StackSumUpdate(slots, idx, ResetSlot(slots[idx]), id);
      ok := RemoveItemFromSlot(idx);
    }

    /**
     * Removing quantity: from the given slot first when it holds the item,
     * then from the item's other slots, each slot either cleared entirely
     * or reduced by what is still to remove. A clear goes to the first slot
     * holding the item, whichever slot is being visited, and counts as an
     * update even when the slot's widget refuses it; a reduction counts as
     * one too. So the result is true exactly when some slot holds the item.
     * With no negative stacks, the item's total falls by at most the amount
     * to remove.
     */
    method RemoveStacks(id: Guid, slotIndex: int, toRemove0: int, itemSlots0: seq<GridSlot>) returns (any: bool)
      requires Valid() && GuidValid(id) && toRemove0 > 0
      requires itemSlots0 == SlotsWithItem(slots, id)
      modifies this
      ensures Valid() && Positions(slots) == Positions(old(slots))
      ensures StacksRemoved(old(slots), slots, id, slotIndex, toRemove0, any)
    {
      var itemSlots, left;
      ghost var Q, G;
      any, left, itemSlots, Q, G := RemoveAtGiven(id, slotIndex, toRemove0, itemSlots0);
      if AllAccept(old(slots), id) && left > 0 {
        HeldAfterGiven(old(slots), slots, id, Q, G);
      }
      if left > 0 {
        var updated;
        updated, left := RemoveFromOthers(id, itemSlots, left, old(slots), Q, G);
        any := any || updated;
      }
      if NonNegativeStacks(old(slots), id) && AllAccept(old(slots), id) {
        RemovedTotal(old(slots), slots, id, toRemove0, left);
      }
    }

    /**
     * The first part of removing: the given slot, when it holds the item.
     * `Q` indexes the listed slots that remain in the grid as it was, and
     * `G` is the given slot when it was handled, else INDEX_NONE.
     */
    method RemoveAtGiven(id: Guid, slotIndex: int, toRemove0: int, itemSlots0: seq<GridSlot>)
      returns (any: bool, left: int, itemSlots: seq<GridSlot>, ghost Q: seq<int>, ghost G: int)
      requires Valid() && GuidValid(id) && toRemove0 > 0
      requires itemSlots0 == SlotsWithItem(slots, id)
      modifies this
      ensures Valid() && Positions(slots) == Positions(old(slots))
      ensures forall i :: 0 <= i < |slots| ==> StackRemoved(old(slots)[i], slots[i], id)
      ensures IndexedBy(itemSlots, old(slots), Q) && G !in Q
      ensures forall m :: 0 <= m < |Q| ==> slots[Q[m]] == old(slots)[Q[m]] && old(slots)[Q[m]].itemId == id
      ensures forall i :: 0 <= i < |old(slots)| && old(slots)[i].itemId == id ==> i in Q || i == G
      ensures left > 0 && 0 <= G < |slots| && slots[G].itemId == id ==> !AcceptsItems(slots[G])
      ensures left > 0 && |Q| > 0 ==> Gate(slots, id, Q[0])
      ensures var v := FirstVisited(old(slots), slotIndex, id);
              G == IndexNone ==> slots == old(slots) && left == toRemove0 && !any
                                 && (|Q| == 0 <==> v == IndexNone) && (|Q| > 0 ==> Q[0] == v)
      ensures G != IndexNone ==> G == FirstVisited(old(slots), slotIndex, id) && any
      ensures G != IndexNone && old(slots)[G].quantity > toRemove0 ==>
                left == 0 && slots == old(slots)[G := Reduced(old(slots)[G], toRemove0)]
      ensures NonNegativeStacks(old(slots), id) ==>
                NonNegativeStacks(slots, id) && 0 <= left <= toRemove0
                && StackSum(old(slots), id) - (toRemove0 - left) <= StackSum(slots, id) <= StackSum(old(slots), id)
      ensures AllAccept(old(slots), id) ==> StackSum(slots, id) == StackSum(old(slots), id) - (toRemove0 - left)
    {
      ghost var o := slots;
      ghost var P := ItemIndices(o, id);
      Q := P;
      G := IndexNone;
      itemSlots := itemSlots0;
      left := toRemove0;
      any := false;
      if slotIndex != IndexNone && InRange(slots, slotIndex) {
        var data := GetGridSlotData(slotIndex);
        if data.itemId == id {
          left := RemoveFromGiven(id, slotIndex, data, toRemove0);
          any := true;
          itemSlots := WithoutPosition(itemSlots, data.position);
          Q := DropIndex(P, slotIndex);
          G := slotIndex;
          ListedAfterGiven(o, slots, id, G);
        }
      }
      if G == IndexNone {
        ListedFromStart(o, id);
      }
    }

    /** The given slot `data`, at `slotIndex` and holding the item, is cleared or reduced. */
    method RemoveFromGiven(id: Guid, slotIndex: int, data: GridSlot, toRemove0: int) returns (left: int)
      requires Valid() && GuidValid(id) && toRemove0 > 0
      requires InRange(slots, slotIndex) && slots[slotIndex] == data && data.itemId == id
      modifies this
      ensures Valid() && Positions(slots) == Positions(old(slots))
      ensures forall i :: 0 <= i < |slots| ==> StackRemoved(old(slots)[i], slots[i], id)
      ensures |slots| == |old(slots)| && slots == old(slots)[slotIndex := slots[slotIndex]]
      ensures data.quantity > toRemove0 ==> left == 0 && slots == old(slots)[slotIndex := Reduced(data, toRemove0)]
      ensures left > 0 && slots[slotIndex].itemId == id ==> !AcceptsItems(slots[slotIndex])
      ensures NonNegativeStacks(old(slots), id) ==>
                NonNegativeStacks(slots, id) && 0 <= left <= toRemove0
                && StackSum(old(slots), id) - (toRemove0 - left) <= StackSum(slots, id) <= StackSum(old(slots), id)
      ensures AcceptsItems(data) ==> StackSum(slots, id) == StackSum(old(slots), id) - (toRemove0 - left)
    {
      left := toRemove0;
      var q := Min(data.quantity, left);
      if q >= data.quantity {
        var _ := ClearStack(id, slotIndex, old(slots));
      } else {
        ReduceStack(id, slotIndex, data, q, old(slots));
      }
      left := left - q;
    }

    /**
     * The loop over the item's other slots. `Q` gives, for each listed
     * slot, its index in the grid `o` the update started from; `G` is the
     * given slot, already handled, or INDEX_NONE. The first pass decides
     * the outcome: it either clears a slot, and the loop goes on in
     * RemoveRest, or reduces one and uses up what was left.
     */
    method RemoveFromOthers(id: Guid, itemSlots: seq<GridSlot>, left0: int, ghost o: seq<GridSlot>, ghost Q: seq<int>, ghost G: int)
      returns (updated: bool, left: int)
      requires Valid() && GuidValid(id) && Positions(slots) == Positions(o)
      requires forall i :: 0 <= i < |slots| ==> StackRemoved(o[i], slots[i], id)
      requires IndexedBy(itemSlots, o, Q) && G !in Q
      requires forall m :: 0 <= m < |Q| ==> slots[Q[m]] == o[Q[m]] && o[Q[m]].itemId == id
      requires forall i :: 0 <= i < |o| && o[i].itemId == id ==> i in Q || i == G
      requires left0 > 0 && 0 <= G < |slots| && slots[G].itemId == id ==> !AcceptsItems(slots[G])
      requires left0 > 0 && |Q| > 0 ==> Gate(slots, id, Q[0])
      modifies this
      ensures Valid() && Positions(slots) == Positions(o)
      ensures forall i :: 0 <= i < |slots| ==> StackRemoved(o[i], slots[i], id)
      ensures updated <==> left0 > 0 && |Q| > 0
      ensures left0 <= 0 || |Q| == 0 ==> slots == old(slots) && left == left0
      ensures left0 > 0 && |Q| > 0 && o[Q[0]].quantity > left0 ==>
                left == 0 && slots == old(slots)[Q[0] := Reduced(o[Q[0]], left0)]
      ensures NonNegativeStacks(old(slots), id) && left0 >= 0 ==>
                NonNegativeStacks(slots, id) && 0 <= left <= left0
                && StackSum(old(slots), id) - (left0 - left) <= StackSum(slots, id) <= StackSum(old(slots), id)
      ensures AllAccept(o, id) && HeldOnlyAt(old(slots), id, Q) ==>
                StackSum(slots, id) == StackSum(old(slots), id) - (left0 - left)
                && (left > 0 ==> HeldOnlyAt(slots, id, []))
    {
      left := left0;
      updated := false;
      if left0 > 0 && |itemSlots| > 0 {
        assert Q[0..] == Q;
        left := RemoveVisited(id, itemSlots[0], left, o, Q, 0, G, StackSum(slots, id) - left0);
        updated := true;
        if left > 0 {
          left := RemoveRest(id, itemSlots, left, o, Q, G);
        }
      }
    }

    /** The loop of RemoveFromOthers after its first pass: each further listed slot is cleared or reduced. */
    method RemoveRest(id: Guid, itemSlots: seq<GridSlot>, left0: int, ghost o: seq<GridSlot>, ghost Q: seq<int>, ghost G: int)
      returns (left: int)
      requires Valid() && GuidValid(id) && Positions(slots) == Positions(o) && left0 > 0
      requires forall i :: 0 <= i < |slots| ==> StackRemoved(o[i], slots[i], id)
      requires IndexedBy(itemSlots, o, Q) && |Q| > 0
      requires forall m :: 1 <= m < |Q| ==> slots[Q[m]] == o[Q[m]] && o[Q[m]].itemId == id
      requires forall i :: 0 <= i < |o| && o[i].itemId == id ==> i in Q || i == G
      requires 0 <= G < |slots| && slots[G].itemId == id ==> !AcceptsItems(slots[G])
      requires 1 < |Q| ==> Gate(slots, id, Q[1])
      modifies this
      ensures Valid() && Positions(slots) == Positions(o)
      ensures forall i :: 0 <= i < |slots| ==> StackRemoved(o[i], slots[i], id)
      ensures NonNegativeStacks(old(slots), id) ==>
                NonNegativeStacks(slots, id) && 0 <= left <= left0
                && StackSum(old(slots), id) - (left0 - left) <= StackSum(slots, id) <= StackSum(old(slots), id)
      ensures AllAccept(o, id) && HeldOnlyAt(old(slots), id, Q[1..]) ==>
                StackSum(slots, id) == StackSum(old(slots), id) - (left0 - left)
                && (left > 0 ==> HeldOnlyAt(slots, id, []))
    {
      left := left0;
      ghost var s0 := slots;
      ghost var sum0 := StackSum(slots, id);
      ghost var exact := AllAccept(o, id) && Tally(slots, id, Q, 1, sum0 - left0, left0);
      var k := 1;
      while k < |itemSlots|
        invariant 1 <= k <= |itemSlots|
        invariant Valid() && Positions(slots) == Positions(o)
        invariant forall i :: 0 <= i < |slots| ==> StackRemoved(o[i], slots[i], id)
        invariant forall m :: k <= m < |Q| ==> slots[Q[m]] == o[Q[m]]
        invariant left > 0 && 0 <= G < |slots| && slots[G].itemId == id ==> !AcceptsItems(slots[G])
        invariant left > 0 && k < |Q| ==> Gate(slots, id, Q[k])
        invariant NonNegativeStacks(s0, id) ==>
                    NonNegativeStacks(slots, id) && 0 <= left <= left0
                    && StackSum(s0, id) - (left0 - left) <= StackSum(slots, id) <= StackSum(s0, id)
        invariant exact ==> Tally(slots, id, Q, k, sum0 - left0, left)
      {
        if left <= 0 {
          break;
        }
        left, k := RemoveNext(id, itemSlots[k], left, o, Q, G, k, left0, s0, sum0, exact);
      }
      if exact && left > 0 {
        assert k == |Q| && Q[k..] == [];
      }
    }

    /** One pass of RemoveRest's loop, visiting the listed slot at `Q[k]` and keeping the loop's invariants. */
    method RemoveNext(id: Guid, s: GridSlot, left: int, ghost o: seq<GridSlot>, ghost Q: seq<int>, ghost G: int, k: int,
                      ghost left0: int, ghost s0: seq<GridSlot>, ghost sum0: int, ghost exact: bool)
      returns (left': int, k': int)
      requires Valid() && GuidValid(id) && Positions(slots) == Positions(o) && left > 0
      requires Increasing(Q) && (forall m :: 0 <= m < |Q| ==> 0 <= Q[m] < |o|)
      requires 1 <= k < |Q| && s == o[Q[k]]
      requires forall m :: k <= m < |Q| ==> o[Q[m]].itemId == id
      requires forall i :: 0 <= i < |o| && o[i].itemId == id ==> i in Q || i == G
      requires exact ==> AllAccept(o, id)
      requires forall i :: 0 <= i < |slots| ==> StackRemoved(o[i], slots[i], id)
      requires forall m :: k <= m < |Q| ==> slots[Q[m]] == o[Q[m]]
      requires 0 <= G < |slots| && slots[G].itemId == id ==> !AcceptsItems(slots[G])
      requires Gate(slots, id, Q[k])
      requires NonNegativeStacks(s0, id) ==>
                 NonNegativeStacks(slots, id) && 0 <= left <= left0
                 && StackSum(s0, id) - (left0 - left) <= StackSum(slots, id) <= StackSum(s0, id)
      requires exact ==> Tally(slots, id, Q, k, sum0 - left0, left)
      modifies this
      ensures k' == k + 1
      ensures Valid() && Positions(slots) == Positions(o)
      ensures forall i :: 0 <= i < |slots| ==> StackRemoved(o[i], slots[i], id)
      ensures forall m :: k' <= m < |Q| ==> slots[Q[m]] == o[Q[m]]
      ensures left' > 0 && 0 <= G < |slots| && slots[G].itemId == id ==> !AcceptsItems(slots[G])
      ensures left' > 0 && k' < |Q| ==> Gate(slots, id, Q[k'])
      ensures NonNegativeStacks(s0, id) ==>
                NonNegativeStacks(slots, id) && 0 <= left' <= left0
                && StackSum(s0, id) - (left0 - left') <= StackSum(slots, id) <= StackSum(s0, id)
      ensures exact ==> Tally(slots, id, Q, k', sum0 - left0, left')
    {
      left' := RemoveVisited(id, s, left, o, Q, k, G, sum0 - left0);
      k' := k + 1;
    }

    /**
     * The clearing step of RemoveVisited: `s` fits in what is left, and the
     * first slot holding the item, at `idx`, is cleared.
     */
    method ClearVisited(id: Guid, s: GridSlot, idx: int, left0: int, ghost o: seq<GridSlot>, ghost Q: seq<int>, ghost k: int, ghost G: int)
      requires Valid() && GuidValid(id) && Positions(slots) == Positions(o) && s.quantity <= left0
      requires forall i :: 0 <= i < |slots| ==> StackRemoved(o[i], slots[i], id)
      requires Increasing(Q) && (forall m :: 0 <= m < |Q| ==> 0 <= Q[m] < |o|) && 0 <= k < |Q|
      requires slots[Q[k]] == s && s.itemId == id
      requires k + 1 < |Q| ==> slots[Q[k + 1]] == o[Q[k + 1]] && o[Q[k + 1]].itemId == id
      requires forall i :: 0 <= i < |o| && o[i].itemId == id ==> i in Q || i == G
      requires 0 <= G < |slots| && slots[G].itemId == id ==> !AcceptsItems(slots[G])
      requires Gate(slots, id, Q[k]) && idx == FirstWithItem(slots, id)
      modifies this
      ensures Valid() && Positions(slots) == Positions(o)
      ensures forall i :: 0 <= i < |slots| ==> StackRemoved(o[i], slots[i], id)
      ensures forall m :: k < m < |Q| ==> slots[Q[m]] == old(slots)[Q[m]]
      ensures s.quantity < left0 && 0 <= G < |slots| && slots[G].itemId == id ==> !AcceptsItems(slots[G])
      ensures s.quantity < left0 && k + 1 < |Q| ==> Gate(slots, id, Q[k + 1])
      ensures NonNegativeStacks(old(slots), id) ==>
                NonNegativeStacks(slots, id) && StackSum(old(slots), id) - s.quantity <= StackSum(slots, id) <= StackSum(old(slots), id)
      ensures AllAccept(o, id) ==>
                idx == Q[k] && slots == old(slots)[Q[k] := ResetSlot(s)]
                && StackSum(slots, id) == StackSum(old(slots), id) - s.quantity
    {
      ghost var before := slots;
      if AllAccept(o, id) {
        AcceptKept(o, slots, id);
        GateAccepting(slots, id, Q[k]);
      }
      var ok := ClearStack(id, idx, o);
      forall m | k < m < |Q| ensures slots[Q[m]] == before[Q[m]] {
        assert Q[k] < Q[m];
      }
      if k + 1 < |Q| {
        if ok {
          assert FirstWithItem(before, id) == Q[k];
          assert slots[Q[k + 1]] == o[Q[k + 1]];
          NoNewItems(o, slots, id);
          GateNext(before, slots, o, id, Q, k, G);
        } else {
          assert FirstWithItem(slots, id) == idx && !AcceptsItems(slots[idx]);
        }
      }
    }

    /**
     * One pass of that loop, visiting the listed slot `s` at index `Q[k]`:
     * the first slot holding the item is cleared when `s` fits in what is
     * left, otherwise `s` itself loses what is left.
     */
    method RemoveVisited(id: Guid, s: GridSlot, left0: int, ghost o: seq<GridSlot>, ghost Q: seq<int>, ghost k: int, ghost G: int, ghost base: int)
      returns (left: int)
      requires Valid() && GuidValid(id) && Positions(slots) == Positions(o) && left0 > 0
      requires forall i :: 0 <= i < |slots| ==> StackRemoved(o[i], slots[i], id)
      requires Increasing(Q) && (forall m :: 0 <= m < |Q| ==> 0 <= Q[m] < |o|) && 0 <= k < |Q|
      requires s == o[Q[k]] && slots[Q[k]] == s && s.itemId == id
      requires k + 1 < |Q| ==> slots[Q[k + 1]] == o[Q[k + 1]] && o[Q[k + 1]].itemId == id
      requires forall i :: 0 <= i < |o| && o[i].itemId == id ==> i in Q || i == G
      requires 0 <= G < |slots| && slots[G].itemId == id ==> !AcceptsItems(slots[G])
      requires Gate(slots, id, Q[k])
      modifies this
      ensures Valid() && Positions(slots) == Positions(o)
      ensures forall i :: 0 <= i < |slots| ==> StackRemoved(o[i], slots[i], id)
      ensures forall m :: k < m < |Q| ==> slots[Q[m]] == old(slots)[Q[m]]
      ensures s.quantity > left0 ==> left == 0 && slots == old(slots)[Q[k] := Reduced(s, left0)]
      ensures left > 0 && 0 <= G < |slots| && slots[G].itemId == id ==> !AcceptsItems(slots[G])
      ensures left > 0 && k + 1 < |Q| ==> Gate(slots, id, Q[k + 1])
      ensures NonNegativeStacks(old(slots), id) ==>
                NonNegativeStacks(slots, id) && 0 <= left <= left0
                && StackSum(old(slots), id) - (left0 - left) <= StackSum(slots, id) <= StackSum(old(slots), id)
      ensures AllAccept(o, id) && Tally(old(slots), id, Q, k, base, left0) ==> Tally(slots, id, Q, k + 1, base, left)
    {
      ghost var before := slots;
      left := left0;
      var idx := GetSlotIndexByItem(s.itemId);
      assert idx != IndexNone && idx <= Q[k];
      if idx != IndexNone {
        var q := Min(s.quantity, left);
        if q >= s.quantity {
          ClearVisited(id, s, idx, left0, o, Q, k, G);
          left := left - q;
          if AllAccept(o, id) && Tally(before, id, Q, k, base, left0) && left > 0 {
            HeldStep(before, slots, id, Q, k);
          }
        } else {
          assert q == left;
          ReduceStack(id, Q[k], s, q, o);
          left := left - q;
          forall m | k < m < |Q| ensures slots[Q[m]] == old(slots)[Q[m]] {
            assert Q[k] < Q[m];
          }
        }
      }
    }

    /**
     * The adding half of UpdateItemInSlot: the grid holds `current` of the
     * item, and the shortfall goes in as single-unit slots or as stacks, as
     * the item's stackability says.
     */
    method AddToTotal(id: Guid, slotIndex: int, v: ItemView, current: int, itemSlots: seq<GridSlot>) returns (ok: bool)
      requires Valid() && GuidValid(id) && v.quantity > current && itemSlots == SlotsWithItem(slots, id)
      modifies this
      ensures Valid() && Positions(slots) == Positions(old(slots))
      ensures TotalChanged(old(slots), slots, id, slotIndex, v, current, ok)
    {
      if !v.stackable {
        var left;
        ok, left := AddSingles(id, slotIndex, v, v.quantity - current);
      } else {
        var left;
        SlotsWithItemUnique(slots, id);
        ok, left := AddStacks(id, slotIndex, v, v.quantity - current, itemSlots);
      }
    }

    /** The branch of UpdateItemInSlot taken when the totals differ. */
    method ChangeTotal(id: Guid, slotIndex: int, v: ItemView, current: int, itemSlots: seq<GridSlot>) returns (ok: bool)
      requires Valid() && GuidValid(id) && current == StackSum(slots, id) && v.quantity != current
      requires itemSlots == SlotsWithItem(slots, id)
      modifies this
      ensures Valid() && Positions(slots) == Positions(old(slots))
      ensures TotalChanged(old(slots), slots, id, slotIndex, v, current, ok)
    {
      if v.quantity > current {
        ok := AddToTotal(id, slotIndex, v, current, itemSlots);
      } else {
        ok := RemoveStacks(id, slotIndex, current - v.quantity, itemSlots);
      }
    }

    /**
     * UpdateItemInSlot: brings the grid's total for the item to the
     * quantity the inventory reports, adding or removing as needed.
     */
    method UpdateItemInSlot(id: Guid, slotIndex: int, item: Option<ItemView>) returns (ok: bool)
      requires Valid()
      modifies this
      ensures Valid() && Positions(slots) == Positions(old(slots))
      ensures !GuidValid(id) || item.None? ==> !ok && slots == old(slots)
      ensures GuidValid(id) && item.Some? && item.value.quantity == StackSum(old(slots), id) ==>
                slots == old(slots) && (ok <==> SlotsWithItem(old(slots), id) == [])
      ensures GuidValid(id) && item.Some? && item.value.quantity != StackSum(old(slots), id) ==>
                TotalChanged(old(slots), slots, id, slotIndex, item.value, StackSum(old(slots), id), ok)
    {
      if !GuidValid(id) || item.None? {
        return false;
      }
      var v := item.value;
      var itemSlots := GetGridSlotsDataForItem(id);
      var current := GetStacksSizeForItem(id);
      var target := v.quantity;
      if current == target && |itemSlots| > 0 {
        return false;
      }
      if target != current {
        ok := ChangeTotal(id, slotIndex, v, current, itemSlots);
      } else {
        ok := true;
      }
    }
  }
}
