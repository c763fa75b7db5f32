// The item library's slot and stack arithmetic: how much fits, where an
// empty slot is, and how a slot's stacks grow and shrink. A slot is a value
// passed by reference in the source; here each operation returns the
// updated slot.
module InventoryItemBFL {
  import opened Common
  import opened ItemSlot

  /** ProcessItemAction's outcome: a bad request, or the action's own result. */
  datatype ActionOutcome = BadRequest | ProcessedByAction

  /** A missing action, a missing item or an item without a world is a bad request. */
  function ProcessItemAction(hasAction: bool, hasItem: bool, hasWorld: bool): (r: ActionOutcome)
    ensures r == ProcessedByAction <==> hasAction && hasItem && hasWorld
  {
    if !hasAction then BadRequest
    else if !hasItem then BadRequest
    else if !hasWorld then BadRequest
    else ProcessedByAction
  }

  /** DetermineMaxStackSize: zero without an item. */
  function DetermineMaxStackSize(item: Option<ItemRef>): (r: int)
    ensures item.None? ==> r == 0
    ensures item.Some? ==> r == item.value.maxStackSize
  {
    if item.None? then 0 else item.value.maxStackSize
  }

  /** CalculateAddAmount: the smaller of the request and the maximum stack size, zero without an item. */
  function CalculateAddAmount(item: Option<ItemRef>, quantity: int): (r: int)
    ensures item.None? ==> r == 0
    ensures item.Some? ==> r <= quantity && r <= item.value.maxStackSize
    ensures item.Some? ==> r == quantity || r == item.value.maxStackSize
  {
    if item.None? then 0 else Min(quantity, item.value.maxStackSize)
  }

  /**
   * FindEmptySlot: the first slot that is empty is looked up again with
   * Find, which compares slots by their item pointer. `isEmpty` stands
   * for FItemSlot::IsEmpty.
   */
  function FindEmptySlot(slots: seq<ItemSlot>, isEmpty: ItemSlot -> bool): (r: int)
    ensures r == IndexNone <==> forall i :: 0 <= i < |slots| ==> !isEmpty(slots[i])
    ensures r != IndexNone ==> 0 <= r < |slots|
    ensures r != IndexNone ==> exists k :: r <= k < |slots| && isEmpty(slots[k]) && SameSlot(slots[r], slots[k])
  {
    var k := FirstEmptyFrom(slots, isEmpty, 0);
    if k == IndexNone then IndexNone else FirstSameSlot(slots, slots[k], 0)
  }

  /** The first index at or after `from` whose slot is empty, or INDEX_NONE. */
  function FirstEmptyFrom(slots: seq<ItemSlot>, isEmpty: ItemSlot -> bool, from: nat): (r: int)
    requires from <= |slots|
    ensures r == IndexNone <==> forall i :: from <= i < |slots| ==> !isEmpty(slots[i])
    ensures r != IndexNone ==> from <= r < |slots| && isEmpty(slots[r])
    ensures r != IndexNone ==> forall i :: from <= i < r ==> !isEmpty(slots[i])
    decreases |slots| - from
  {
    if from == |slots| then IndexNone
    else if isEmpty(slots[from]) then from
    else FirstEmptyFrom(slots, isEmpty, from + 1)
  }

  /** The first index at or after `from` of a slot equal to `s`, or INDEX_NONE. */
  function FirstSameSlot(slots: seq<ItemSlot>, s: ItemSlot, from: nat): (r: int)
    requires from <= |slots|
    ensures r == IndexNone <==> forall i :: from <= i < |slots| ==> !SameSlot(slots[i], s)
    ensures r != IndexNone ==> from <= r < |slots| && SameSlot(slots[r], s)
    ensures r != IndexNone ==> forall i :: from <= i < r ==> !SameSlot(slots[i], s)
    decreases |slots| - from
  {
    if from == |slots| then IndexNone
    else if SameSlot(slots[from], s) then from
    else FirstSameSlot(slots, s, from + 1)
  }

  /** When emptiness depends on the item pointer alone, the lookup lands on the first empty slot itself. */
  lemma FindEmptySlotIsFirstEmpty(slots: seq<ItemSlot>, isEmpty: ItemSlot -> bool)
    requires forall a, b :: SameSlot(a, b) ==> isEmpty(a) == isEmpty(b)
    ensures FindEmptySlot(slots, isEmpty) == FirstEmptyFrom(slots, isEmpty, 0)
  {
  }

  /** A stack after filling: a full stack is left alone, a non-full one grows to at most the maximum. */
  predicate Refilled(o: SlotStack, n: SlotStack, maxStack: int)
  {
    n == o.(size := n.size)
    && (o.size >= maxStack ==> n == o)
    && (o.size < maxStack ==> o.size <= n.size <= maxStack)
  }

  /**
   * The progress of one round of UpdateStacksInSlot's new-stack loop as
   * written: a new stack of min(MaxStackSize, remaining) and that much
   * less remaining.
   */
  function NewStackRoundAsWritten(maxStack: int, remaining: int): int
  {
    remaining - Min(maxStack, remaining)
  }

  function RoundsAsWritten(maxStack: int, remaining: int, n: nat): int
    decreases n
  {
    if n == 0 then remaining else RoundsAsWritten(maxStack, NewStackRoundAsWritten(maxStack, remaining), n - 1)
  }

  /**
   * With a maximum stack size of zero or less (DetermineMaxStackSize
   * gives zero for a slot without an item) and something left to place,
   * the loop's guard still holds after any number of rounds: the loop
   * never ends.
   */
  lemma {:induction false} NewStackLoopNeverEnds(maxStack: int, remaining: int, n: nat)
    requires maxStack <= 0 && remaining > 0
    ensures RoundsAsWritten(maxStack, remaining, n) >= remaining > 0
    decreases n
  {
    if n > 0 {
      var next := NewStackRoundAsWritten(maxStack, remaining);
      NewStackLoopNeverEnds(maxStack, next, n - 1);
    }
  }

  /**
   * The filling loop of UpdateStacksInSlot as a reference definition: from
   * index `i` on, each stack below the maximum takes what fits of the
   * quantity still to place, and the loop ends as soon as nothing is left.
   * The result is the stacks and the quantity still to place.
   */
  function FillFrom(s: seq<SlotStack>, maxStack: int, remaining: int, i: nat): (seq<SlotStack>, int)
    requires i <= |s|
    decreases |s| - i
  {
    if i == |s| then (s, remaining)
    else if s[i].size < maxStack then
      var amount := Min(maxStack - s[i].size, remaining);
      var s' := s[i := s[i].(size := s[i].size + amount)];
      if remaining - amount <= 0 then (s', remaining - amount)
      else FillFrom(s', maxStack, remaining - amount, i + 1)
    else FillFrom(s, maxStack, remaining, i + 1)
  }

  /**
   * The new-stack loop as a reference definition: while something is left
   * (and the maximum is positive) a stack of the maximum, or of what is
   * left when that is less. The `j`-th new stack of a call takes the
   * stack guid `newGuids(j)`, and every one the slot's guid.
   */
  function NewStacks(maxStack: int, remaining: int, newGuids: nat -> Guid, j: nat, slotGuid: Guid): seq<SlotStack>
    decreases if remaining > 0 then remaining else 0
  {
    if remaining > 0 && maxStack > 0 then
      [SlotStack(Min(maxStack, remaining), newGuids(j), slotGuid)]
      + NewStacks(maxStack, remaining - Min(maxStack, remaining), newGuids, j + 1, slotGuid)
    else []
  }

  /** The stacks UpdateStacksInSlot leaves: the filled stacks, then the new ones for what was left. */
  function UpdatedStacks(stacks: seq<SlotStack>, maxStack: int, quantity: int, newGuids: nat -> Guid, slotGuid: Guid): seq<SlotStack>
  {
    var filled := FillFrom(stacks, maxStack, quantity, 0);
    filled.0 + NewStacks(maxStack, filled.1, newGuids, 0, slotGuid)
  }

  /** The guid source gives a different guid for every new stack. */
  ghost predicate DistinctGuids(newGuids: nat -> Guid)
  {
    forall a: nat, b: nat :: a != b ==> newGuids(a) != newGuids(b)
  }

  /**
   * The filling loop raises a stack only when every stack before it (from
   * where filling starts) is full, and leaves the stacks before that point
   * as they were.
   */
  lemma {:induction false} FillRaisesInOrder(s: seq<SlotStack>, maxStack: int, remaining: int, i: nat)
    requires i <= |s|
    ensures var r := FillFrom(s, maxStack, remaining, i).0;
            |r| == |s|
            && (forall k :: 0 <= k < i ==> r[k] == s[k])
            && (forall k :: 0 <= k < |s| ==> r[k] == s[k].(size := r[k].size))
            && (forall k, j :: i <= j < k < |s| && r[k].size > s[k].size ==> r[j].size >= maxStack)
    decreases |s| - i
  {
    if i < |s| {
      if s[i].size < maxStack {
        var amount := Min(maxStack - s[i].size, remaining);
        var s' := s[i := s[i].(size := s[i].size + amount)];
        if remaining - amount > 0 {
          FillRaisesInOrder(s', maxStack, remaining - amount, i + 1);
        }
      } else {
        FillRaisesInOrder(s, maxStack, remaining, i + 1);
      }
    }
  }

  /** The `k`-th new stack carries the guid `newGuids(j + k)` and the slot's guid. */
  lemma {:induction false} NewStacksGuids(maxStack: int, remaining: int, newGuids: nat -> Guid, j: nat, slotGuid: Guid)
    ensures forall k :: 0 <= k < |NewStacks(maxStack, remaining, newGuids, j, slotGuid)| ==>
              NewStacks(maxStack, remaining, newGuids, j, slotGuid)[k].stackGuid == newGuids(j + k)
              && NewStacks(maxStack, remaining, newGuids, j, slotGuid)[k].slotGuid == slotGuid
    decreases if remaining > 0 then remaining else 0
  {
    if remaining > 0 && maxStack > 0 {
      var a := Min(maxStack, remaining);
      NewStacksGuids(maxStack, remaining - a, newGuids, j + 1, slotGuid);
      var rest := NewStacks(maxStack, remaining - a, newGuids, j + 1, slotGuid);
      var n := [SlotStack(a, newGuids(j), slotGuid)] + rest;
      forall k | 1 <= k < |n|
        ensures n[k].stackGuid == newGuids(j + k) && n[k].slotGuid == slotGuid
      {
        assert n[k] == rest[k - 1] && (j + 1) + (k - 1) == j + k;
      }
    }
  }

  /**
   * Each new stack holds between one and the maximum; every one but the
   * last is full; together they hold what was left.
   */
  lemma {:induction false} NewStacksShape(maxStack: int, remaining: int, newGuids: nat -> Guid, j: nat, slotGuid: Guid)
    requires maxStack > 0
    ensures var n := NewStacks(maxStack, remaining, newGuids, j, slotGuid);
            (forall k :: 0 <= k < |n| ==> 0 < n[k].size <= maxStack)
            && (forall k :: 0 <= k < |n| - 1 ==> n[k].size == maxStack)
            && (remaining >= 0 ==> Total(n) == remaining)
    decreases if remaining > 0 then remaining else 0
  {
    if remaining > 0 {
      var a := Min(maxStack, remaining);
      NewStacksShape(maxStack, remaining - a, newGuids, j + 1, slotGuid);
      var rest := NewStacks(maxStack, remaining - a, newGuids, j + 1, slotGuid);
      var n := [SlotStack(a, newGuids(j), slotGuid)] + rest;
      assert n[1..] == rest;
      assert forall k :: 1 <= k < |n| ==> n[k] == rest[k - 1];
      if rest != [] {
        assert a == maxStack;
      }
    }
  }

  /** With a distinct guid source, no two new stacks of one call share a stack guid. */
  lemma NewStacksDistinct(maxStack: int, remaining: int, newGuids: nat -> Guid, j: nat, slotGuid: Guid)
    requires DistinctGuids(newGuids)
    ensures var n := NewStacks(maxStack, remaining, newGuids, j, slotGuid);
            forall k, l :: 0 <= k < l < |n| ==> n[k].stackGuid != n[l].stackGuid
  {
    NewStacksGuids(maxStack, remaining, newGuids, j, slotGuid);
  }

  /** Ten items with a maximum stack size of five fill an empty slot with two full stacks, of the first two new guids. */
  lemma TenInStacksOfFive(newGuids: nat -> Guid, slotGuid: Guid)
    ensures UpdatedStacks([], 5, 10, newGuids, slotGuid) == [SlotStack(5, newGuids(0), slotGuid), SlotStack(5, newGuids(1), slotGuid)]
  {
    assert NewStacks(5, 0, newGuids, 2, slotGuid) == [];
    assert NewStacks(5, 5, newGuids, 1, slotGuid) == [SlotStack(5, newGuids(1), slotGuid)];
  }

  /**
   * UpdateStacksInSlot, with the new-stack loop stopped when the maximum
   * stack size is not positive: non-full stacks are filled in order first,
   * and only once they are all full are new stacks of at most the maximum
   * appended. The `j`-th new stack takes the guid `newGuids(j)` and the
   * slot's guid.
   */
  method UpdateStacksInSlot(slot: ItemSlot, quantity: int, newGuids: nat -> Guid) returns (r: ItemSlot)
    ensures r.item == slot.item && r.slotGuid == slot.slotGuid
    ensures |r.stacks| >= |slot.stacks|
    ensures forall k :: 0 <= k < |slot.stacks| ==> r.stacks[k] == slot.stacks[k].(size := r.stacks[k].size)
    ensures quantity >= 0 ==>
              forall k :: 0 <= k < |slot.stacks| ==> Refilled(slot.stacks[k], r.stacks[k], DetermineMaxStackSize(slot.item))
    ensures forall k :: |slot.stacks| <= k < |r.stacks| ==>
              r.stacks[k] == SlotStack(r.stacks[k].size, newGuids(k - |slot.stacks|), slot.slotGuid)
              && 0 < r.stacks[k].size <= DetermineMaxStackSize(slot.item)
    ensures DistinctGuids(newGuids) ==>
              forall k, l :: |slot.stacks| <= k < l < |r.stacks| ==> r.stacks[k].stackGuid != r.stacks[l].stackGuid
    ensures |r.stacks| > |slot.stacks| ==>
              forall k :: 0 <= k < |slot.stacks| ==> r.stacks[k].size >= DetermineMaxStackSize(slot.item)
    ensures quantity >= 0 && DetermineMaxStackSize(slot.item) > 0 ==> Total(r.stacks) == Total(slot.stacks) + quantity
    ensures r == slot.(stacks := UpdatedStacks(slot.stacks, DetermineMaxStackSize(slot.item), quantity, newGuids, slot.slotGuid))
  {
    var maxStack := DetermineMaxStackSize(slot.item);
    var filled, remaining := FillStacks(slot.stacks, maxStack, quantity);
    var stacks := AppendStacks(filled, maxStack, remaining, quantity >= 0, newGuids, slot.slotGuid);
    r := slot.(stacks := stacks);
  }

  /** The first loop of UpdateStacksInSlot: the non-full stacks are filled in order until the quantity is placed. */
  method FillStacks(orig: seq<SlotStack>, maxStack: int, quantity: int) returns (stacks: seq<SlotStack>, remaining: int)
    ensures |stacks| == |orig|
    ensures forall k :: 0 <= k < |orig| ==> stacks[k] == orig[k].(size := stacks[k].size)
    ensures quantity >= 0 ==> remaining >= 0 && forall k :: 0 <= k < |orig| ==> Refilled(orig[k], stacks[k], maxStack)
    ensures remaining > 0 ==> forall k :: 0 <= k < |orig| ==> stacks[k].size >= maxStack
    ensures Total(stacks) + remaining == Total(orig) + quantity
    ensures (stacks, remaining) == FillFrom(orig, maxStack, quantity, 0)
  {
    stacks := orig;
    remaining := quantity;
    var i := 0;
    while i < |stacks|
      invariant 0 <= i <= |stacks| == |orig|
      invariant forall k :: 0 <= k < |stacks| ==> stacks[k] == orig[k].(size := stacks[k].size)
      invariant forall k :: i <= k < |stacks| ==> stacks[k] == orig[k]
      invariant quantity >= 0 ==> remaining >= 0
      invariant quantity >= 0 ==> forall k :: 0 <= k < i ==> Refilled(orig[k], stacks[k], maxStack)
      invariant forall k :: 0 <= k < i ==> stacks[k].size >= maxStack
      invariant Total(stacks) + remaining == Total(orig) + quantity
      invariant FillFrom(orig, maxStack, quantity, 0) == FillFrom(stacks, maxStack, remaining, i)
    {
      if stacks[i].size < maxStack {
        var amount := Min(maxStack - stacks[i].size, remaining);
        TotalUpdate(stacks, i, stacks[i].(size := stacks[i].size + amount));
        stacks := stacks[i := stacks[i].(size := stacks[i].size + amount)];
        remaining := remaining - amount;
        if remaining <= 0 {
          return;
        }
      }
      i := i + 1;
    }
  }

  /**
   * The second loop of UpdateStacksInSlot: while some quantity is left and
   * the maximum is positive, a new stack of at most the maximum is appended.
   */
  method AppendStacks(filled: seq<SlotStack>, maxStack: int, remaining0: int, ghost nonNeg: bool, newGuids: nat -> Guid, slotGuid: Guid)
    returns (stacks: seq<SlotStack>)
    requires nonNeg ==> remaining0 >= 0
    ensures |stacks| >= |filled| && stacks[..|filled|] == filled
    ensures forall k :: |filled| <= k < |stacks| ==>
              stacks[k] == SlotStack(stacks[k].size, newGuids(k - |filled|), slotGuid) && 0 < stacks[k].size <= maxStack
    ensures |stacks| > |filled| ==> remaining0 > 0
    ensures nonNeg && maxStack > 0 ==> Total(stacks) == Total(filled) + remaining0
    ensures stacks == filled + NewStacks(maxStack, remaining0, newGuids, 0, slotGuid)
  {
    stacks := filled;
    var remaining := remaining0;
    while remaining > 0 && maxStack > 0
      invariant |stacks| >= |filled| && stacks[..|filled|] == filled
      invariant forall k :: |filled| <= k < |stacks| ==>
                  stacks[k] == SlotStack(stacks[k].size, newGuids(k - |filled|), slotGuid) && 0 < stacks[k].size <= maxStack
      invariant |stacks| > |filled| ==> remaining0 > 0
      invariant nonNeg ==> remaining >= 0
      invariant Total(stacks) + remaining == Total(filled) + remaining0
      invariant stacks + NewStacks(maxStack, remaining, newGuids, |stacks| - |filled|, slotGuid)
                == filled + NewStacks(maxStack, remaining0, newGuids, 0, slotGuid)
      decreases remaining
    {
      var amount := Min(maxStack, remaining);
      var next := SlotStack(amount, newGuids(|stacks| - |filled|), slotGuid);
      assert stacks + NewStacks(maxStack, remaining, newGuids, |stacks| - |filled|, slotGuid)
          == (stacks + [next]) + NewStacks(maxStack, remaining - amount, newGuids, |stacks| + 1 - |filled|, slotGuid);
      TotalAppend(stacks, [next]);
      assert [next][1..] == [];
      stacks := stacks + [next];
      remaining := remaining - amount;
    }
  }

  /** MakeNewSlot: a slot for the item, holding the quantity in new stacks. */
  method MakeNewSlot(item: Option<ItemRef>, quantity: int, newGuids: nat -> Guid) returns (r: ItemSlot)
    ensures r.item == item && r.slotGuid == NewItemSlot(item).slotGuid
    ensures forall k :: 0 <= k < |r.stacks| ==>
              r.stacks[k].stackGuid == newGuids(k) && 0 < r.stacks[k].size <= DetermineMaxStackSize(item)
    ensures DistinctGuids(newGuids) ==> forall k, l :: 0 <= k < l < |r.stacks| ==> r.stacks[k].stackGuid != r.stacks[l].stackGuid
    ensures quantity >= 0 && DetermineMaxStackSize(item) > 0 ==> Total(r.stacks) == quantity
    ensures r == NewItemSlot(item).(stacks := UpdatedStacks(NewItemSlot(item).stacks, DetermineMaxStackSize(item), quantity, newGuids, NewItemSlot(item).slotGuid))
  {
    r := UpdateStacksInSlot(NewItemSlot(item), quantity, newGuids);
    forall k | 0 <= k < |r.stacks|
      ensures r.stacks[k].stackGuid == newGuids(k)
    {
      assert k - |NewItemSlot(item).stacks| == k;
    }
  }

  predicate SortedBySize(s: seq<SlotStack>)
  {
    forall j, k :: 0 <= j < k < |s| ==> s[j].size <= s[k].size
  }

  function InsertBySize(x: SlotStack, s: seq<SlotStack>): (r: seq<SlotStack>)
    ensures multiset(r) == multiset(s) + multiset{x}
    ensures |r| == |s| + 1
    ensures forall e :: e in r <==> e == x || e in s
  {
    if s == [] then [x]
    else if x.size <= s[0].size then [x] + s
    else
      assert s == [s[0]] + s[1..];
      [s[0]] + InsertBySize(x, s[1..])
  }

  lemma {:induction false} InsertSorted(x: SlotStack, s: seq<SlotStack>)
    requires SortedBySize(s)
    ensures SortedBySize(InsertBySize(x, s))
  {
    if s != [] && x.size > s[0].size {
      var rest := InsertBySize(x, s[1..]);
      InsertSorted(x, s[1..]);
      forall e | e in rest ensures s[0].size <= e.size {
        if e != x {
          var k :| 0 <= k < |s[1..]| && s[1..][k] == e;
          assert s[k + 1] == e;
        }
      }
      ConsSorted(s[0], rest);
    }
  }

  /** A stack no larger than any of an ordered sequence goes in front of it. */
  lemma ConsSorted(x: SlotStack, rest: seq<SlotStack>)
    requires SortedBySize(rest)
    requires forall e :: e in rest ==> x.size <= e.size
    ensures SortedBySize([x] + rest)
  {
    var r := [x] + rest;
    forall j, k | 0 <= j < k < |r| ensures r[j].size <= r[k].size {
      if j == 0 {
        assert r[k] in rest;
      } else {
        assert r[j] == rest[j - 1] && r[k] == rest[k - 1];
      }
    }
  }

  lemma {:induction false} InsertKeepsTotal(x: SlotStack, s: seq<SlotStack>)
    ensures Total(InsertBySize(x, s)) == x.size + Total(s)
  {
    if s != [] && x.size > s[0].size {
      InsertKeepsTotal(x, s[1..]);
      var r := InsertBySize(x, s);
      assert r[1..] == InsertBySize(x, s[1..]);
    } else if s != [] {
      assert ([x] + s)[1..] == s;
    }
  }

  /**
   * The stacks ordered from the smallest size up, as TArray::Sort with
   * `A.StackSize < B.StackSize` orders them. That sort is not stable; the
   * model keeps stacks of equal size in their original order.
   */
  function SortBySize(s: seq<SlotStack>): (r: seq<SlotStack>)
    ensures multiset(r) == multiset(s) && |r| == |s|
    ensures SortedBySize(r)
  {
    if s == [] then []
    else
      assert s == [s[0]] + s[1..];
      InsertSorted(s[0], SortBySize(s[1..]));
      InsertBySize(s[0], SortBySize(s[1..]))
  }

  lemma {:induction false} SortKeepsTotal(s: seq<SlotStack>)
    ensures Total(SortBySize(s)) == Total(s)
  {
    if s != [] {
      SortKeepsTotal(s[1..]);
      InsertKeepsTotal(s[0], SortBySize(s[1..]));
    }
  }

  /** TArray::Sort on the stacks, smallest first: an ordered permutation with the same total. */
  method SortStacks(s: seq<SlotStack>) returns (r: seq<SlotStack>)
    ensures SortedBySize(r) && multiset(r) == multiset(s) && |r| == |s|
    ensures Total(r) == Total(s)
    ensures r == SortBySize(s)
  {
    r := SortBySize(s);
    SortKeepsTotal(s);
  }

  /** TArray::RemoveAll with `StackSize <= 0`. */
  function Positives(s: seq<SlotStack>): (r: seq<SlotStack>)
    ensures forall e :: e in r <==> e in s && e.size > 0
  {
    if s == [] then []
    else (if s[0].size > 0 then [s[0]] else []) + Positives(s[1..])
  }

  /** The positive stacks appear in ascending order. */
  predicate SortedPositives(s: seq<SlotStack>)
  {
    forall j, k :: 0 <= j < k < |s| && s[j].size > 0 && s[k].size > 0 ==> s[j].size <= s[k].size
  }

  lemma {:induction false} PositivesSorted(s: seq<SlotStack>)
    requires SortedPositives(s)
    ensures SortedBySize(Positives(s))
  {
    if s != [] {
      PositivesSorted(s[1..]);
      var rest := Positives(s[1..]);
      if s[0].size > 0 {
        forall e | e in rest ensures s[0].size <= e.size {
          var k :| 0 <= k < |s[1..]| && s[1..][k] == e;
          assert s[k + 1] == e;
        }
        ConsSorted(s[0], rest);
      } else {
        assert Positives(s) == rest;
      }
    }
  }

  lemma {:induction false} PositivesKeepTotal(s: seq<SlotStack>)
    requires NonNegative(s)
    ensures Total(Positives(s)) == Total(s)
  {
    if s != [] {
      PositivesKeepTotal(s[1..]);
      var rest := Positives(s[1..]);
      if s[0].size > 0 {
        assert ([s[0]] + rest)[1..] == rest;
      } else {
        assert Positives(s) == rest;
      }
    }
  }

  /**
   * The drain of ReduceQuantityInStacks as a reference definition: from
   * index `i` on, each stack gives up what it can of the quantity `q`
   * still to take (ending at zero rather than below), until it is taken.
   */
  function DrainFrom(s: seq<SlotStack>, i: nat, q: int): seq<SlotStack>
    decreases |s| - i
  {
    if i >= |s| || q <= 0 then s
    else DrainFrom(s[i := s[i].(size := Drained(s[i].size, q))], i + 1, q - Min(q, s[i].size))
  }

  /** What holds while ReduceQuantityInStacks drains the sorted stacks, before index `i`. */
  ghost predicate DrainInv(sorted: seq<SlotStack>, stacks: seq<SlotStack>, i: int, q: int, quantity: int, nonNeg: bool)
  {
    0 <= i <= |stacks| == |sorted|
    && (forall k :: i <= k < |stacks| ==> stacks[k] == sorted[k])
    && (forall k :: 0 <= k < |stacks| ==> stacks[k] == sorted[k].(size := stacks[k].size))
    && (forall k :: 0 <= k < |stacks| && stacks[k].size > 0 ==> stacks[k].size <= sorted[k].size)
    && (q > 0 ==> forall k :: 0 <= k < i ==> stacks[k].size == 0)
    && SortedPositives(stacks)
    && (nonNeg ==> NonNegative(stacks) && q >= 0 && Total(stacks) == Total(sorted) - (quantity - q))
  }

  /** The stack size after one drain step. */
  function Drained(size: int, q: int): int
  {
    if size - Min(q, size) <= 0 then 0 else size - Min(q, size)
  }

  lemma DrainStep(sorted: seq<SlotStack>, stacks: seq<SlotStack>, i: int, q: int, quantity: int, nonNeg: bool)
    requires SortedBySize(sorted) && (nonNeg ==> NonNegative(sorted))
    requires DrainInv(sorted, stacks, i, q, quantity, nonNeg) && i < |stacks| && q > 0
    ensures DrainInv(sorted, stacks[i := stacks[i].(size := Drained(stacks[i].size, q))], i + 1,
                     q - Min(q, stacks[i].size), quantity, nonNeg)
  {
    var v := Drained(stacks[i].size, q);
    TotalUpdate(stacks, i, stacks[i].(size := v));
    DrainStepSorted(sorted, stacks, i, v);
  }

  /** Lowering the first stack not yet drained keeps the positive stacks in order. */
  lemma DrainStepSorted(sorted: seq<SlotStack>, stacks: seq<SlotStack>, i: int, v: int)
    requires SortedBySize(sorted) && SortedPositives(stacks) && |stacks| == |sorted| && 0 <= i < |stacks|
    requires forall k :: i <= k < |stacks| ==> stacks[k] == sorted[k]
    requires forall k :: 0 <= k < i ==> stacks[k].size == 0
    requires v == 0 || v <= stacks[i].size
    ensures SortedPositives(stacks[i := stacks[i].(size := v)])
  {
    var next := stacks[i := stacks[i].(size := v)];
    forall j, k | 0 <= j < k < |next| && next[j].size > 0 && next[k].size > 0
      ensures next[j].size <= next[k].size
    {
      if j == i {
        assert next[k] == sorted[k];
      } else if j > i {
        assert next[j] == stacks[j] && next[k] == stacks[k];
      }
    }
  }

  /**
   * ReduceQuantityInStacks: the stacks are sorted smallest first, drained
   * in that order until the quantity is taken, and the stacks left empty
   * are dropped.
   */
  method ReduceQuantityInStacks(slot: ItemSlot, quantity: int) returns (r: ItemSlot)
    ensures r.item == slot.item && r.slotGuid == slot.slotGuid
    ensures forall e :: e in r.stacks ==> e.size > 0
    ensures SortedBySize(r.stacks)
    ensures forall e :: e in r.stacks ==> exists t :: t in slot.stacks && e == t.(size := e.size) && e.size <= t.size
    ensures NonNegative(slot.stacks) && quantity >= 0 ==> Total(r.stacks) == Max(Total(slot.stacks) - quantity, 0)
    ensures r.stacks == Positives(DrainFrom(SortBySize(slot.stacks), 0, quantity))
  {
    var sorted := SortStacks(slot.stacks);
    var stacks := DrainSorted(slot.stacks, sorted, quantity);
    r := ItemSlot(slot.item, slot.slotGuid, Positives(stacks));
  }

  /** The loop of ReduceQuantityInStacks over the sorted stacks; empty stacks are left in place. */
  method DrainSorted(ghost orig: seq<SlotStack>, sorted: seq<SlotStack>, quantity: int) returns (stacks: seq<SlotStack>)
    requires SortedBySize(sorted) && multiset(sorted) == multiset(orig) && Total(sorted) == Total(orig)
    ensures forall e :: e in Positives(stacks) ==> e.size > 0
    ensures SortedBySize(Positives(stacks))
    ensures forall e :: e in Positives(stacks) ==> exists t :: t in orig && e == t.(size := e.size) && e.size <= t.size
    ensures NonNegative(orig) && quantity >= 0 ==> Total(Positives(stacks)) == Max(Total(orig) - quantity, 0)
    ensures stacks == DrainFrom(sorted, 0, quantity)
  {
    ghost var nonNeg := NonNegative(orig) && quantity >= 0;
    DrainStart(orig, sorted, quantity, nonNeg);
    var i, q;
    stacks, i, q := sorted, 0, quantity;
    while i < |stacks|
      invariant DrainInv(sorted, stacks, i, q, quantity, nonNeg)
      invariant DrainFrom(stacks, i, q) == DrainFrom(sorted, 0, quantity)
    {
      if q <= 0 {
        break;
      }
      DrainStep(sorted, stacks, i, q, quantity, nonNeg);
      var reduced := Min(q, stacks[i].size);
      var v := stacks[i].size - reduced;
      if v <= 0 {
        v := 0;
      }
      assert v == Drained(stacks[i].size, q);
      stacks := stacks[i := stacks[i].(size := v)];
      q := q - reduced;
      i := i + 1;
    }
    DrainResult(orig, sorted, stacks, i, q, quantity, nonNeg);
  }

  lemma DrainStart(orig: seq<SlotStack>, sorted: seq<SlotStack>, quantity: int, nonNeg: bool)
    requires SortedBySize(sorted) && multiset(sorted) == multiset(orig)
    requires nonNeg == (NonNegative(orig) && quantity >= 0)
    ensures DrainInv(sorted, sorted, 0, quantity, quantity, nonNeg)
    ensures nonNeg ==> NonNegative(sorted)
  {
    if nonNeg {
      forall k | 0 <= k < |sorted| ensures sorted[k].size >= 0 {
        assert sorted[k] in multiset(orig);
      }
    }
  }

  /** Once the loop stops, the positive stacks left are what the contract promises. */
  lemma DrainEnd(orig: seq<SlotStack>, sorted: seq<SlotStack>, stacks: seq<SlotStack>, i: int, q: int, quantity: int, nonNeg: bool)
    requires multiset(sorted) == multiset(orig) && Total(sorted) == Total(orig)
    requires nonNeg == (NonNegative(orig) && quantity >= 0)
    requires DrainInv(sorted, stacks, i, q, quantity, nonNeg)
    requires i == |stacks| || q <= 0
    ensures forall e :: e in Positives(stacks) ==> e.size > 0
    ensures SortedBySize(Positives(stacks))
    ensures forall e :: e in Positives(stacks) ==> exists t :: t in orig && e == t.(size := e.size) && e.size <= t.size
  {
    PositivesSorted(stacks);
    forall e | e in Positives(stacks)
      ensures exists t :: t in orig && e == t.(size := e.size) && e.size <= t.size
    {
      var k :| 0 <= k < |stacks| && stacks[k] == e;
      assert sorted[k] in multiset(orig);
    }
  }

  /** What ReduceQuantityInStacks promises, for the stacks the drain loop leaves. */
  lemma DrainResult(orig: seq<SlotStack>, sorted: seq<SlotStack>, stacks: seq<SlotStack>, i: int, q: int, quantity: int, nonNeg: bool)
    requires multiset(sorted) == multiset(orig) && Total(sorted) == Total(orig)
    requires nonNeg == (NonNegative(orig) && quantity >= 0)
    requires DrainInv(sorted, stacks, i, q, quantity, nonNeg)
    requires i == |stacks| || q <= 0
    ensures forall e :: e in Positives(stacks) ==> e.size > 0
    ensures SortedBySize(Positives(stacks))
    ensures forall e :: e in Positives(stacks) ==> exists t :: t in orig && e == t.(size := e.size) && e.size <= t.size
    ensures nonNeg ==> Total(Positives(stacks)) == Max(Total(orig) - quantity, 0)
  {
    DrainEnd(orig, sorted, stacks, i, q, quantity, nonNeg);
    if nonNeg {
      DrainEndTotal(orig, sorted, stacks, i, q, quantity);
    }
  }

  lemma DrainEndTotal(orig: seq<SlotStack>, sorted: seq<SlotStack>, stacks: seq<SlotStack>, i: int, q: int, quantity: int)
    requires Total(sorted) == Total(orig) && quantity >= 0
    requires 0 <= i <= |stacks| == |sorted| && (i == |stacks| || q <= 0)
    requires forall k :: i <= k < |stacks| ==> stacks[k] == sorted[k]
    requires q > 0 ==> forall k :: 0 <= k < i ==> stacks[k].size == 0
    requires NonNegative(stacks) && q >= 0 && Total(stacks) == Total(sorted) - (quantity - q)
    ensures Total(Positives(stacks)) == Max(Total(orig) - quantity, 0)
  {
    PositivesKeepTotal(stacks);
    if q > 0 {
      ZerosTotal(stacks);
    } else {
      TotalOfNonNegative(stacks);
    }
  }

  lemma {:induction false} ZerosTotal(s: seq<SlotStack>)
    requires forall k :: 0 <= k < |s| ==> s[k].size == 0
    ensures Total(s) == 0
  {
    if s != [] {
      ZerosTotal(s[1..]);
    }
  }

  /** The first stack with the guid, by operator== with a guid, or INDEX_NONE. */
  function FindStack(stacks: seq<SlotStack>, g: Guid): (r: int)
    ensures -1 <= r < |stacks|
    ensures r == -1 <==> forall i :: 0 <= i < |stacks| ==> stacks[i].stackGuid != g
    ensures r != -1 ==> stacks[r].stackGuid == g && forall i :: 0 <= i < r ==> stacks[i].stackGuid != g
  {
    if stacks == [] then -1
    else if stacks[0].stackGuid == g then 0
    else
      var k := FindStack(stacks[1..], g);
      if k == -1 then -1 else k + 1
  }

  /**
   * UpdateStack: an existing stack with the guid grows by what fits below
   * the maximum (and is removed if it ends at zero or less); otherwise a
   * new stack of at most the maximum is appended, built like the new
   * stacks of UpdateStacksInSlot. The result is the quantity that was not
   * added, paired with the updated slot.
   */
  function UpdateStack(slot: ItemSlot, g: Guid, quantity: int, newGuid: Guid): (r: (ItemSlot, int))
    ensures r.0.item == slot.item && r.0.slotGuid == slot.slotGuid
    ensures var k := FindStack(slot.stacks, g);
            var maxStack := DetermineMaxStackSize(slot.item);
            var added := quantity - r.1;
            (k != -1 ==> added <= maxStack - slot.stacks[k].size
                         && (slot.stacks[k].size + added > 0 ==> r.0.stacks == slot.stacks[k := slot.stacks[k].(size := slot.stacks[k].size + added)])
                         && (slot.stacks[k].size + added <= 0 ==> r.0.stacks == slot.stacks[..k] + slot.stacks[k + 1..]))
            && (k == -1 ==> added <= maxStack && r.0.stacks == slot.stacks + [SlotStack(added, newGuid, slot.slotGuid)])
            && (added == quantity || added == (if k == -1 then maxStack else maxStack - slot.stacks[k].size))
            && added <= quantity
  {
    var maxStack := DetermineMaxStackSize(slot.item);
    var k := FindStack(slot.stacks, g);
    if k != -1 then
      var amount := Min(maxStack - slot.stacks[k].size, quantity);
      var grown := slot.stacks[k].(size := slot.stacks[k].size + amount);
      if grown.size <= 0 then (slot.(stacks := slot.stacks[..k] + slot.stacks[k + 1..]), quantity - amount)
      else (slot.(stacks := slot.stacks[k := grown]), quantity - amount)
    else
      var amount := Min(maxStack, quantity);
      (slot.(stacks := slot.stacks + [SlotStack(amount, newGuid, slot.slotGuid)]), quantity - amount)
  }

  /** A request that fits in full leaves nothing over; filling an existing stack never passes the maximum. */
  lemma UpdateStackLeftover(slot: ItemSlot, g: Guid, quantity: int, newGuid: Guid)
    requires quantity >= 0
    ensures var k := FindStack(slot.stacks, g);
            var leftover := UpdateStack(slot, g, quantity, newGuid).1;
            leftover >= 0
            && (k != -1 && quantity <= DetermineMaxStackSize(slot.item) - slot.stacks[k].size ==> leftover == 0)
            && (k == -1 && quantity <= DetermineMaxStackSize(slot.item) ==> leftover == 0)
  {
  }
}
