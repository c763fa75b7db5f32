// FItemSlot and FItemSlotStack: an inventory slot refers to one instanced
// item and holds stacks of it. A stack is identified by its StackGuid; a
// slot compares equal to another slot, or to an item, by the item pointer
// it holds, and to a guid by its item's guid.
module ItemSlot {
  import opened Common

  /** The instanced item a slot points to; `pointer` stands for the pointer's identity. */
  datatype ItemRef = ItemRef(pointer: nat, guid: Guid, quantity: int, maxStackSize: int)

  datatype SlotStack = SlotStack(size: int, stackGuid: Guid, slotGuid: Guid)

  datatype ItemSlot = ItemSlot(item: Option<ItemRef>, slotGuid: Guid, stacks: seq<SlotStack>)

  /** The pointer an optional item stands for, None for null. */
  function ItemObject(item: Option<ItemRef>): Option<nat>
  {
    if item.Some? then Some(item.value.pointer) else None
  }

  /** FItemSlotStack == FItemSlotStack: decided by StackGuid alone. */
  predicate SameStack(a: SlotStack, b: SlotStack) { a.stackGuid == b.stackGuid }

  /** FItemSlotStack == FGuid. */
  predicate StackHasGuid(a: SlotStack, g: Guid) { a.stackGuid == g }

  /** Stacks equal by guid may differ in size and slot; any two stacks of one guid are equal. */
  lemma SameStackIgnoresSize(a: SlotStack, n: int, g: Guid)
    ensures SameStack(a, a.(size := n, slotGuid := g))
    ensures SameStack(a, SlotStack(n, a.stackGuid, g)) && StackHasGuid(a.(size := n), a.stackGuid)
  {
  }

  /** FItemSlot(Item): the slot takes the item's guid; with a null item the guid stays the default. */
  function NewItemSlot(item: Option<ItemRef>): (r: ItemSlot)
    ensures r.item == item && r.stacks == []
    ensures item.Some? ==> r.slotGuid == item.value.guid
    ensures item.None? ==> !GuidValid(r.slotGuid)
  {
    ItemSlot(item, if item.Some? then item.value.guid else InvalidGuid, [])
  }

  /** FItemSlot == FItemSlot and FItemSlot == item pointer: the item pointers agree. */
  predicate SameSlot(a: ItemSlot, b: ItemSlot) { ItemObject(a.item) == ItemObject(b.item) }

  predicate SlotHoldsItem(a: ItemSlot, item: Option<ItemRef>) { ItemObject(a.item) == ItemObject(item) }

  /** FItemSlot == FGuid: false without an item, else the item's guid decides. */
  predicate SlotHasGuid(a: ItemSlot, g: Guid)
  {
    a.item.Some? && a.item.value.guid == g
  }

  /** No slot without an item equals any guid; a slot with an item equals exactly its item's guid. */
  lemma SlotGuidComparison(a: ItemSlot, g: Guid)
    ensures a.item.None? ==> !SlotHasGuid(a, g)
    ensures a.item.Some? ==> (SlotHasGuid(a, g) <==> g == a.item.value.guid)
    ensures SlotHoldsItem(a, a.item) && (SameSlot(a, NewItemSlot(a.item)))
  {
  }

  /** The sum of the stack sizes. */
  function Total(stacks: seq<SlotStack>): int
  {
    if stacks == [] then 0 else stacks[0].size + Total(stacks[1..])
  }

  lemma {:induction false} TotalAppend(a: seq<SlotStack>, b: seq<SlotStack>)
    ensures Total(a + b) == Total(a) + Total(b)
  {
    if a != [] {
      assert (a + b)[0] == a[0] && (a + b)[1..] == a[1..] + b;
      TotalAppend(a[1..], b);
    } else {
      assert a + b == b;
    }
  }

  /** The running total over one more stack. */
  lemma TotalSnoc(s: seq<SlotStack>, k: int)
    requires 0 <= k < |s|
    ensures Total(s[..k + 1]) == Total(s[..k]) + s[k].size
  {
    assert s[..k + 1] == s[..k] + [s[k]];
    TotalAppend(s[..k], [s[k]]);
    assert [s[k]][1..] == [];
  }

  /** Writing one stack changes the total by the change in its size. */
  lemma {:induction false} TotalUpdate(s: seq<SlotStack>, k: int, v: SlotStack)
    requires 0 <= k < |s|
    ensures Total(s[k := v]) == Total(s) - s[k].size + v.size
  {
    if k > 0 {
      assert s[k := v][1..] == s[1..][k - 1 := v];
      TotalUpdate(s[1..], k - 1, v);
    } else {
      assert s[k := v][1..] == s[1..];
    }
  }

  predicate NonNegative(stacks: seq<SlotStack>)
  {
    forall i :: 0 <= i < |stacks| ==> stacks[i].size >= 0
  }

  lemma {:induction false} TotalOfNonNegative(s: seq<SlotStack>)
    requires NonNegative(s)
    ensures Total(s) >= 0
  {
    if s != [] {
      TotalOfNonNegative(s[1..]);
    }
  }

  /** With no negative stack, a running total never exceeds the whole total. */
  lemma PrefixTotalBounded(s: seq<SlotStack>, k: int)
    requires NonNegative(s) && 0 <= k <= |s|
    ensures 0 <= Total(s[..k]) <= Total(s)
  {
    assert s == s[..k] + s[k..];
    TotalAppend(s[..k], s[k..]);
    TotalOfNonNegative(s[..k]);
    TotalOfNonNegative(s[k..]);
  }

  /** AreStacksValid: always true without an item, else every stack must carry the item's guid. */
  method AreStacksValid(slot: ItemSlot) returns (r: bool)
    ensures r <==> slot.item.None? || forall i :: 0 <= i < |slot.stacks| ==> slot.stacks[i].stackGuid == slot.item.value.guid
  {
    if slot.item.None? {
      return true;
    }
    var g := slot.item.value.guid;
    var i := 0;
    while i < |slot.stacks|
      invariant 0 <= i <= |slot.stacks|
      invariant forall j :: 0 <= j < i ==> slot.stacks[j].stackGuid == g
    {
      if slot.stacks[i].stackGuid != g {
        return false;
      }
      i := i + 1;
    }
    return true;
  }

  /**
   * IsStackSizeValid: false as soon as the running total passes the
   * item's quantity. The source reads the item, without a null check,
   * once per stack, so a slot without stacks needs no item.
   */
  method IsStackSizeValid(slot: ItemSlot) returns (r: bool)
    requires slot.item.Some? || slot.stacks == []
    ensures r <==> forall k :: 0 < k <= |slot.stacks| ==> Total(slot.stacks[..k]) <= slot.item.value.quantity
  {
    var s := slot.stacks;
    var total := 0;
    var i := 0;
    while i < |s|
      invariant 0 <= i <= |s|
      invariant total == Total(s[..i])
      invariant forall k :: 0 < k <= i ==> Total(s[..k]) <= slot.item.value.quantity
    {
      TotalSnoc(s, i);
      total := total + s[i].size;
      if total > slot.item.value.quantity {
        return false;
      }
      i := i + 1;
    }
    return true;
  }

  /** Without negative stacks the running check is the check of the whole total. */
  lemma StackSizeValidMeansTotal(slot: ItemSlot)
    requires slot.item.Some? && NonNegative(slot.stacks)
    ensures (forall k :: 0 < k <= |slot.stacks| ==> Total(slot.stacks[..k]) <= slot.item.value.quantity)
            <==> (|slot.stacks| == 0 || Total(slot.stacks) <= slot.item.value.quantity)
  {
    var s := slot.stacks;
    if |s| > 0 {
      assert s[..|s|] == s;
      forall k | 0 < k <= |s| ensures Total(s[..k]) <= Total(s) {
        PrefixTotalBounded(s, k);
      }
    }
  }
}
