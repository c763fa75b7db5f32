// UActorInventoryComponent: an actor's inventory is an array of item
// object pointers (null entries allowed). Adding an item stacks it onto the
// stored item with the same data guid or stores it as a new entry; the
// saved layout is a map from slot coordinates to slot data.
module ActorInventory {
  import opened Common

  /** UInventoryItem::StaticClass(): the class every item object derives from. */
  const BaseItemClass: nat := 0

  datatype Category = Category(guid: Guid, maxQuantityPerStack: int)

  /** The item data fields the component reads; the data guid identifies the data. */
  datatype ItemData = ItemData(guid: Guid, quantity: int, maxQuantity: int, stackable: bool, category: Option<Category>)

  /** The item data's operator==: only the data guids are compared. */
  predicate SameData(a: ItemData, b: ItemData) { a.guid == b.guid }

  /** What OnInventoryUpdateRequestProcessed is given; Default means nothing was broadcast. */
  datatype InventoryContext = Default | FailedInvalidItem | FailedLimitReached | Success | SuccessSplitStack | SuccessRemovedItem

  class InventoryItem {
    var data: ItemData
    /** GetClass(): the object's own class. */
    const itemClass: nat

    constructor (data: ItemData, itemClass: nat)
      ensures this.data == data && this.itemClass == itemClass
    {
      this.data := data;
      this.itemClass := itemClass;
    }

    /** The data keeps everything but its quantity, which becomes q. */
    method SetQuantity(q: int)
      modifies this
      ensures data == old(data).(quantity := q)
    {
      data := data.(quantity := q);
    }
  }

  // ---------------------------------------------------------------------
  // Lookups over the item array, as functions of the current heap.

  /** The first non-null entry whose data guid is g, or -1. */
  function IndexWithGuid(s: seq<InventoryItem?>, g: Guid): (r: int)
    reads s
    ensures -1 <= r < |s|
    ensures r == -1 <==> forall k :: 0 <= k < |s| ==> s[k] == null || s[k].data.guid != g
    ensures r >= 0 ==> s[r] != null && s[r].data.guid == g
    ensures r >= 0 ==> forall k :: 0 <= k < r ==> s[k] == null || s[k].data.guid != g
  {
    if s == [] then -1
    else if s[0] != null && s[0].data.guid == g then 0
    else
      var k := IndexWithGuid(s[1..], g);
      if k == -1 then -1 else k + 1
  }

  /** The first non-null entry whose own class is c, or -1. */
  function IndexOfClass(s: seq<InventoryItem?>, c: nat): (r: int)
    ensures -1 <= r < |s|
    ensures r == -1 <==> forall k :: 0 <= k < |s| ==> s[k] == null || s[k].itemClass != c
    ensures r >= 0 ==> s[r] != null && s[r].itemClass == c
    ensures r >= 0 ==> forall k :: 0 <= k < r ==> s[k] == null || s[k].itemClass != c
  {
    if s == [] then -1
    else if s[0] != null && s[0].itemClass == c then 0
    else
      var k := IndexOfClass(s[1..], c);
      if k == -1 then -1 else k + 1
  }

  /** The first non-null entry, or -1. */
  function FirstNonNull(s: seq<InventoryItem?>): (r: int)
    ensures -1 <= r < |s|
    ensures r == -1 <==> forall k :: 0 <= k < |s| ==> s[k] == null
    ensures r >= 0 ==> s[r] != null && forall k :: 0 <= k < r ==> s[k] == null
  {
    if s == [] then -1
    else if s[0] != null then 0
    else
      var k := FirstNonNull(s[1..]);
      if k == -1 then -1 else k + 1
  }

  function At(s: seq<InventoryItem?>, k: int): InventoryItem?
  {
    if 0 <= k < |s| then s[k] else null
  }

  /**
   * GetItemByClass as written compares `Itr->StaticClass()` with the class:
   * StaticClass is static, so every entry reports the base item class.
   * The entry found is the first non-null one for the base class and
   * nothing for any other class, whatever the stored items' classes are.
   */
  function ClassLookupAsWritten(s: seq<InventoryItem?>, c: nat): (r: int)
    ensures c == BaseItemClass ==> r == FirstNonNull(s)
    ensures c != BaseItemClass ==> r == -1
  {
    if c == BaseItemClass then FirstNonNull(s) else -1
  }

  /** With one item of another class stored, the lookup as written finds it for the base class and the class lookup does not. */
  lemma ClassLookupIgnoresClass(it: InventoryItem)
    requires it.itemClass != BaseItemClass
    ensures ClassLookupAsWritten([it], BaseItemClass) == 0
    ensures IndexOfClass([it], BaseItemClass) == -1
    ensures ClassLookupAsWritten([it], it.itemClass) == -1 && IndexOfClass([it], it.itemClass) == 0
  {
  }

  // ---------------------------------------------------------------------
  // The quantity rules of AddItemToInventory, on values.

  datatype StackOutcome = StackOutcome(ok: bool, ctx: InventoryContext, existingQ: int, addingQ: int)

  /**
   * Adding `adding` onto a stored item with the same data: a stackable
   * item fills up to MaxQuantity and leaves the rest on the incoming item,
   * stops exactly at MaxQuantity, or takes everything when it has a
   * category; a non-stackable one refuses.
   */
  function StackOnto(existing: ItemData, adding: int): (r: StackOutcome)
    ensures r.ok <==> existing.stackable
                      && (existing.quantity + adding == existing.maxQuantity
                          || (existing.quantity + adding < existing.maxQuantity && existing.category.Some?))
    ensures r.ok ==> r.existingQ <= existing.maxQuantity && (r.ctx == Success || r.ctx == SuccessSplitStack)
    ensures !r.ok ==> r.ctx == FailedLimitReached || r.ctx == FailedInvalidItem
    ensures existing.stackable && existing.quantity + adding >= existing.maxQuantity ==>
              r.existingQ == existing.maxQuantity && r.existingQ + r.addingQ == existing.quantity + adding
    ensures existing.stackable && existing.quantity + adding > existing.maxQuantity ==> !r.ok && r.addingQ > 0
    ensures r.ok && existing.quantity + adding < existing.maxQuantity ==>
              r.existingQ == existing.quantity + adding && r.addingQ == adding
    ensures !existing.stackable || existing.quantity + adding < existing.maxQuantity ==>
              (r.ok || (r.existingQ == existing.quantity && r.addingQ == adding))
    ensures !existing.stackable ==> r.ctx == FailedLimitReached
  {
    var predicted := existing.quantity + adding;
    if !existing.stackable then StackOutcome(false, FailedLimitReached, existing.quantity, adding)
    else if predicted > existing.maxQuantity then
      StackOutcome(false, FailedLimitReached, existing.maxQuantity, predicted - existing.maxQuantity)
    else if predicted == existing.maxQuantity then StackOutcome(true, Success, existing.maxQuantity, 0)
    else if existing.category.Some? then
      StackOutcome(true, if predicted > existing.category.value.maxQuantityPerStack then SuccessSplitStack else Success,
                   predicted, adding)
    else StackOutcome(false, FailedInvalidItem, existing.quantity, adding)
  }

  /** Whatever the branch, the stored quantity never drops and nothing is lost between the two items when the limit is met. */
  lemma StackOntoNeverLoses(existing: ItemData, adding: int)
    requires adding >= 0 && existing.quantity <= existing.maxQuantity
    ensures StackOnto(existing, adding).existingQ >= existing.quantity
    ensures StackOnto(existing, adding).existingQ <= existing.maxQuantity
    ensures 0 <= StackOnto(existing, adding).addingQ <= adding
  {
  }

  datatype NewOutcome = NewOutcome(ok: bool, ctx: InventoryContext, stored: ItemData, leftover: int)

  /**
   * Storing an item no entry matches: over its MaxQuantity, a copy with a
   * new data guid and MaxQuantity is stored and the rest stays on the
   * incoming item; otherwise the item itself is stored.
   */
  function AddNew(adding: ItemData, newGuid: Guid): (r: NewOutcome)
    ensures r.ok <==> adding.quantity <= adding.maxQuantity
    ensures r.ok ==> r.ctx == Success && r.stored == adding && r.leftover == adding.quantity
    ensures !r.ok ==> r.ctx == SuccessSplitStack
                      && r.stored == adding.(guid := newGuid, quantity := adding.maxQuantity)
                      && r.leftover > 0 && r.stored.quantity + r.leftover == adding.quantity
  {
    if adding.quantity > adding.maxQuantity then
      var copy := adding.(guid := newGuid, quantity := Min(adding.quantity, adding.maxQuantity));
      NewOutcome(false, SuccessSplitStack, copy, adding.quantity - copy.quantity)
    else NewOutcome(true, Success, adding, adding.quantity)
  }

  /** The stored quantity that comes out of the existing branch when the incoming item is the stored item itself. */
  function AliasedQuantity(existing: ItemData, out: StackOutcome): int
  {
    if existing.stackable && existing.quantity + existing.quantity == existing.maxQuantity then out.addingQ
    else out.existingQ
  }

  // ---------------------------------------------------------------------
  // The saved layout.

  /** FInventorySlotData; the item pointer is its identity. */
  datatype SlotData = SlotData(coords: Point, item: Option<nat>, quantity: int, createdManually: bool)

  predicate KeepsSlot(slot: SlotData) { slot.item.Some? && slot.quantity > 0 && slot.createdManually }

  /**
   * SaveToInventoryLayout on the saved map: a known key is overwritten by a
   * valid slot and removed for an invalid one; an unknown key is added only
   * for a slot created manually.
   */
  function SaveSlot(saved: map<Point, SlotData>, slot: SlotData): (r: map<Point, SlotData>)
    ensures forall p :: p != slot.coords ==> (p in r <==> p in saved) && (p in r ==> r[p] == saved[p])
    ensures slot.coords in saved ==> (slot.coords in r <==> KeepsSlot(slot))
    ensures slot.coords !in saved ==> (slot.coords in r <==> slot.createdManually)
    ensures slot.coords in r ==> r[slot.coords] == slot
  {
    if slot.coords in saved then
      if KeepsSlot(slot) then saved[slot.coords := slot] else saved - {slot.coords}
    else if slot.createdManually then saved[slot.coords := slot]
    else saved
  }

  /** Saving a valid slot twice is saving it once; an invalid manual slot saved twice comes back. */
  lemma SaveSlotTwice(saved: map<Point, SlotData>, slot: SlotData)
    ensures KeepsSlot(slot) ==> SaveSlot(SaveSlot(saved, slot), slot) == SaveSlot(saved, slot)
    ensures slot.coords in saved && slot.createdManually && !KeepsSlot(slot) ==>
              slot.coords !in SaveSlot(saved, slot) && slot.coords in SaveSlot(SaveSlot(saved, slot), slot)
  {
  }

  // ---------------------------------------------------------------------
  // Removing several items.

  /** RemoveItemsFromInventory: RemoveSingle for every non-null item of the list, in order. */
  function RemoveEach(s: seq<InventoryItem?>, list: seq<InventoryItem?>): (r: seq<InventoryItem?>)
    ensures |r| <= |s| && multiset(r) <= multiset(s)
    ensures forall x :: x in s && x !in list ==> multiset(r)[x] == multiset(s)[x]
  {
    if list == [] then s
    else
      var once := if list[0] != null then RemoveFirst(s, list[0]) else s;
      RemoveEach(once, list[1..])
  }

  /** The non-null entries of a list, in order. */
  function NonNull(list: seq<InventoryItem?>): (r: seq<InventoryItem?>)
    ensures null !in r && |r| <= |list|
  {
    if list == [] then []
    else (if list[0] != null then [list[0]] else []) + NonNull(list[1..])
  }

  /** NonNull keeps every non-null entry as often as the list holds it. */
  lemma {:induction false} NonNullCounts(list: seq<InventoryItem?>, x: InventoryItem)
    ensures multiset(NonNull(list))[x] == multiset(list)[x]
  {
    if list != [] {
      NonNullCounts(list[1..], x);
      assert list == [list[0]] + list[1..];
    }
  }

  /** Multiset difference by two parts is difference by their sum. */
  lemma DiffDiff<T>(m: multiset<T>, a: multiset<T>, b: multiset<T>)
    ensures m - a - b == m - (a + b)
  {
    assert forall x :: (m - a - b)[x] == (m - (a + b))[x];
  }

  /** Removing a list takes one occurrence off the inventory per non-null listed entry, where there is one. */
  lemma {:induction false} RemoveEachRemoves(s: seq<InventoryItem?>, list: seq<InventoryItem?>)
    ensures multiset(RemoveEach(s, list)) == multiset(s) - multiset(NonNull(list))
  {
    if list != [] {
      var head: seq<InventoryItem?> := if list[0] != null then [list[0]] else [];
      var once := if list[0] != null then RemoveFirst(s, list[0]) else s;
      RemoveEachRemoves(once, list[1..]);
      assert multiset(once) == multiset(s) - multiset(head);
      assert NonNull(list) == head + NonNull(list[1..]);
      DiffDiff(multiset(s), multiset(head), multiset(NonNull(list[1..])));
    }
  }

  class ActorInventory {
    var items: seq<InventoryItem?>
    var savedLayout: map<Point, SlotData>

    constructor ()
      ensures items == [] && savedLayout == map[]
    {
      items, savedLayout := [], map[];
    }

    /** FindItemByGUID: whether some stored item has the data guid. */
    method FindItemByGUID(g: Guid) returns (r: bool)
      ensures r <==> exists k :: 0 <= k < |items| && items[k] != null && items[k].data.guid == g
    {
      var i := 0;
      while i < |items|
        invariant 0 <= i <= |items|
        invariant forall k :: 0 <= k < i ==> items[k] == null || items[k].data.guid != g
      {
        if items[i] != null && items[i].data.guid == g {
          return true;
        }
        i := i + 1;
      }
      return false;
    }

    /** GetItemByGUID: the first stored item with the data guid, or null. */
    method GetItemByGUID(g: Guid) returns (r: InventoryItem?)
      ensures r == At(items, IndexWithGuid(items, g))
      ensures r != null ==> r in items && r.data.guid == g
    {
      var i := 0;
      while i < |items|
        invariant 0 <= i <= |items|
        invariant forall k :: 0 <= k < i ==> items[k] == null || items[k].data.guid != g
      {
        if items[i] != null && items[i].data.guid == g {
          return items[i];
        }
        i := i + 1;
      }
      return null;
    }

    /** FindItemByData: operator== compares data guids, so this is FindItemByGUID of the data's guid. */
    method FindItemByData(d: ItemData) returns (r: bool)
      ensures r <==> exists k :: 0 <= k < |items| && items[k] != null && SameData(items[k].data, d)
    {
      var i := 0;
      while i < |items|
        invariant 0 <= i <= |items|
        invariant forall k :: 0 <= k < i ==> items[k] == null || !SameData(items[k].data, d)
      {
        if items[i] != null && SameData(items[i].data, d) {
          return true;
        }
        i := i + 1;
      }
      return false;
    }

    /** GetItemByData: the first stored item whose data equals d. */
    method GetItemByData(d: ItemData) returns (r: InventoryItem?)
      ensures r == At(items, IndexWithGuid(items, d.guid))
    {
      var i := 0;
      while i < |items|
        invariant 0 <= i <= |items|
        invariant forall k :: 0 <= k < i ==> items[k] == null || !SameData(items[k].data, d)
      {
        if items[i] != null && SameData(items[i].data, d) {
          return items[i];
        }
        i := i + 1;
      }
      return null;
    }

    /** FindItemByClass compares each item's own class. */
    method FindItemByClass(c: nat) returns (r: bool)
      ensures r <==> exists k :: 0 <= k < |items| && items[k] != null && items[k].itemClass == c
    {
      var i := 0;
      while i < |items|
        invariant 0 <= i <= |items|
        invariant forall k :: 0 <= k < i ==> items[k] == null || items[k].itemClass != c
      {
        if items[i] != null && items[i].itemClass == c {
          return true;
        }
        i := i + 1;
      }
      return false;
    }

    /** GetItemByClass as written: the static class of every entry is the base class. */
    method GetItemByClassAsWritten(c: nat) returns (r: InventoryItem?)
      ensures r == At(items, ClassLookupAsWritten(items, c))
    {
      var i := 0;
      while i < |items|
        invariant 0 <= i <= |items|
        invariant forall k :: 0 <= k < i ==> items[k] == null || BaseItemClass != c
      {
        if items[i] != null && BaseItemClass == c {
          return items[i];
        }
        i := i + 1;
      }
      return null;
    }

    /** GetItemByClass comparing each item's own class, as FindItemByClass does. */
    method GetItemByClass(c: nat) returns (r: InventoryItem?)
      ensures r == At(items, IndexOfClass(items, c))
      ensures r != null ==> r in items && r.itemClass == c
    {
      var i := 0;
      while i < |items|
        invariant 0 <= i <= |items|
        invariant forall k :: 0 <= k < i ==> items[k] == null || items[k].itemClass != c
      {
        if items[i] != null && items[i].itemClass == c {
          return items[i];
        }
        i := i + 1;
      }
      return null;
    }

    /** GetItemsByGUID: every stored item with the data guid, each once, in array order. */
    method GetItemsByGUID(g: Guid) returns (r: seq<InventoryItem?>)
      ensures NoDup(r)
      ensures forall x :: x in r <==> x in items && x != null && x.data.guid == g
    {
      r := [];
      var i := 0;
      while i < |items|
        invariant 0 <= i <= |items|
        invariant NoDup(r)
        invariant forall x :: x in r <==> x in items[..i] && x != null && x.data.guid == g
      {
        var x := items[i];
        if x != null && x.data.guid == g && x !in r {
          NoDupSnoc(r, x);
          r := r + [x];
        }
        assert items[..i + 1] == items[..i] + [x];
        i := i + 1;
      }
      assert items[..i] == items;
    }

    /** GetItemsByData: as GetItemsByGUID of the data's guid, since operator== compares guids. */
    method GetItemsByData(d: ItemData) returns (r: seq<InventoryItem?>)
      ensures NoDup(r)
      ensures forall x :: x in r <==> x in items && x != null && SameData(x.data, d)
    {
      r := [];
      var i := 0;
      while i < |items|
        invariant 0 <= i <= |items|
        invariant NoDup(r)
        invariant forall x :: x in r <==> x in items[..i] && x != null && SameData(x.data, d)
      {
        var x := items[i];
        if x != null && SameData(x.data, d) && x !in r {
          NoDupSnoc(r, x);
          r := r + [x];
        }
        assert items[..i + 1] == items[..i] + [x];
        i := i + 1;
      }
      assert items[..i] == items;
    }

    /** GetItemsByClass comparing each item's own class: every such item, each once. */
    method GetItemsByClass(c: nat) returns (r: seq<InventoryItem?>)
      ensures NoDup(r)
      ensures forall x :: x in r <==> x in items && x != null && x.itemClass == c
    {
      r := [];
      var i := 0;
      while i < |items|
        invariant 0 <= i <= |items|
        invariant NoDup(r)
        invariant forall x :: x in r <==> x in items[..i] && x != null && x.itemClass == c
      {
        var x := items[i];
        if x != null && x.itemClass == c && x !in r {
          NoDupSnoc(r, x);
          r := r + [x];
        }
        assert items[..i + 1] == items[..i] + [x];
        i := i + 1;
      }
      assert items[..i] == items;
    }

    /** GetItemsByClass as written: every non-null entry, each once, for the base class; nothing for any other class. */
    method GetItemsByClassAsWritten(c: nat) returns (r: seq<InventoryItem?>)
      ensures NoDup(r)
      ensures forall x :: x in r <==> x in items && x != null && c == BaseItemClass
    {
      r := [];
      var i := 0;
      while i < |items|
        invariant 0 <= i <= |items|
        invariant NoDup(r)
        invariant forall x :: x in r <==> x in items[..i] && x != null && c == BaseItemClass
      {
        var x := items[i];
        if x != null && BaseItemClass == c && x !in r {
          NoDupSnoc(r, x);
          r := r + [x];
        }
        assert items[..i + 1] == items[..i] + [x];
        i := i + 1;
      }
      assert items[..i] == items;
    }

    /** GetItemByCategory: the first stored item whose category has the guid. */
    method GetItemByCategory(g: Guid) returns (r: InventoryItem?)
      ensures r == null <==> forall k :: 0 <= k < |items| ==> items[k] == null || items[k].data.category.None? || items[k].data.category.value.guid != g
      ensures r != null ==> r.data.category.Some? && r.data.category.value.guid == g
      ensures r != null ==> exists k :: 0 <= k < |items| && items[k] == r
                              && (forall j :: 0 <= j < k ==> items[j] == null || items[j].data.category.None? || items[j].data.category.value.guid != g)
    {
      var i := 0;
      while i < |items|
        invariant 0 <= i <= |items|
        invariant forall k :: 0 <= k < i ==> items[k] == null || items[k].data.category.None? || items[k].data.category.value.guid != g
      {
        var x := items[i];
        if x != null && x.data.category.Some? && x.data.category.value.guid == g {
          return x;
        }
        i := i + 1;
      }
      return null;
    }

    /** GetItemsByCategory: every entry in that category, in array order, repeats kept. */
    method GetItemsByCategory(g: Guid) returns (r: seq<InventoryItem?>)
      ensures |r| <= |items|
      ensures forall x :: x in r <==> x in items && x != null && x.data.category.Some? && x.data.category.value.guid == g
      ensures forall x: InventoryItem? :: x != null && x.data.category.Some? && x.data.category.value.guid == g ==> multiset(r)[x] == multiset(items)[x]
    {
      r := [];
      var i := 0;
      while i < |items|
        invariant 0 <= i <= |items| && |r| <= i
        invariant forall x :: x in r <==> x in items[..i] && x != null && x.data.category.Some? && x.data.category.value.guid == g
        invariant forall x: InventoryItem? :: x != null && x.data.category.Some? && x.data.category.value.guid == g ==> multiset(r)[x] == multiset(items[..i])[x]
      {
        var x := items[i];
        if x != null && x.data.category.Some? && x.data.category.value.guid == g {
          r := r + [x];
        }
        assert items[..i + 1] == items[..i] + [x];
        i := i + 1;
      }
      assert items[..i] == items;
    }

    /** IsItemInInventory: false for null, else whether some stored item's data equals the item's. */
    method IsItemInInventory(item: InventoryItem?) returns (r: bool)
      ensures r <==> item != null && IndexWithGuid(items, item.data.guid) != -1
    {
      if item == null {
        return false;
      }
      r := FindItemByData(item.data);
    }

    /** GetItemQuantity: the quantity of the item passed in when it is in the inventory, else 0. */
    method GetItemQuantity(item: InventoryItem?) returns (r: int)
      ensures item != null && IndexWithGuid(items, item.data.guid) != -1 ==> r == item.data.quantity
      ensures item == null || IndexWithGuid(items, item.data.guid) == -1 ==> r == 0
    {
      var present := IsItemInInventory(item);
      if present {
        return item.data.quantity;
      }
      return 0;
    }

    /**
     * AddItemToInventory. The new data guid the copy constructor draws for
     * a split-off copy, and IsValidItem, are parameters. For any Stock `st`
     * the heap mirrors, the add moves it as AddTo says, `copy` being the new
     * object a split-off copy becomes (null when none is made).
     */
    method AddItemToInventory(item: InventoryItem?, isValidItem: ItemData -> bool, newGuid: Guid, ghost st: Stock)
      returns (ok: bool, ctx: InventoryContext, ghost copy: InventoryItem?)
      modifies this, item, set x: InventoryItem | x in items
      ensures old(Mirrors(st)) && (item != null ==> item in st.data) ==>
                var r := AddTo(st, item, isValidItem, newGuid, copy);
                ok == r.ok && ctx == r.ctx && Mirrors(r.stock)
      ensures copy != null ==> fresh(copy) && copy.itemClass == BaseItemClass
      ensures forall x :: x in items ==> x in old(items) || x == item || fresh(x)
      ensures savedLayout == old(savedLayout)
    {
      copy := null;
      if item == null {
        return false, FailedInvalidItem, copy;
      }
      if !isValidItem(item.data) {
        return false, FailedInvalidItem, copy;
      }
      if Mirrors(st) && item in st.data {
        GuidIndexMirrors(items, st.data, item.data.guid);
      }
      var existing := FindAddTarget(item);
      if existing != null {
        ok, ctx := StackExisting(existing, item, st);
      } else {
        ok, ctx, copy := AddUnmatched(item, newGuid, st);
      }
    }

    /** The entry an added item stacks onto: by data guid, then by data (which also compares guids). */
    method FindAddTarget(item: InventoryItem) returns (existing: InventoryItem?)
      ensures existing == At(items, IndexWithGuid(items, item.data.guid))
    {
      existing := null;
      var byGuid := FindItemByGUID(item.data.guid);
      if byGuid {
        existing := GetItemByGUID(item.data.guid);
      } else {
        var byData := FindItemByData(item.data);
        if byData {
          existing := GetItemByData(item.data);
        }
      }
    }

    /** The existing branch: the quantities move as StackOnto says, also when both items are one object. */
    method StackExisting(existing: InventoryItem, item: InventoryItem, ghost st: Stock) returns (ok: bool, ctx: InventoryContext)
      modifies existing, item
      ensures old(Mirrors(st)) && existing in st.data && item in st.data ==>
                var r := Stacked(st, existing, item); ok == r.ok && ctx == r.ctx && Mirrors(r.stock)
      ensures var out := StackOnto(old(existing.data), old(item.data.quantity));
              ok == out.ok && ctx == out.ctx
              && (existing != item ==> existing.data == old(existing.data).(quantity := out.existingQ)
                                       && item.data == old(item.data).(quantity := out.addingQ))
              && (existing == item ==> item.data == old(item.data).(quantity := AliasedQuantity(old(item.data), out)))
    {
      var process := item.data.quantity;
      var predicted := existing.data.quantity + process;
      var stacking := existing.data.stackable;
      var reachLimit := predicted > existing.data.maxQuantity;
      var applyToLimit := predicted == existing.data.maxQuantity;
      if stacking {
        if reachLimit {
          item.data := item.data.(quantity := predicted - existing.data.maxQuantity);
          existing.data := existing.data.(quantity := existing.data.maxQuantity);
          return false, FailedLimitReached;
        } else if applyToLimit {
          existing.data := existing.data.(quantity := existing.data.maxQuantity);
          item.data := item.data.(quantity := 0);
          return true, Success;
        } else if existing.data.category.Some? {
          ctx := if predicted > existing.data.category.value.maxQuantityPerStack then SuccessSplitStack else Success;
          existing.data := existing.data.(quantity := existing.data.quantity + process);
          return true, ctx;
        } else {
          return false, FailedInvalidItem;
        }
      } else {
        return false, FailedLimitReached;
      }
    }

    /** The branch no entry matches: the item is stored, or a capped copy of it is and the rest stays on it. */
    method AddUnmatched(item: InventoryItem, newGuid: Guid, ghost st: Stock) returns (ok: bool, ctx: InventoryContext, ghost copy: InventoryItem?)
      modifies this, item
      ensures savedLayout == old(savedLayout)
      ensures copy != null ==> fresh(copy) && copy.itemClass == BaseItemClass
      ensures forall x :: x in items ==> x in old(items) || x == item || fresh(x)
      ensures old(Mirrors(st)) && item in st.data ==>
                var r := Appended(st, item, newGuid, copy); ok == r.ok && ctx == r.ctx && Mirrors(r.stock)
      ensures var out := AddNew(old(item.data), newGuid);
              ok == out.ok && ctx == out.ctx
              && (ok ==> items == old(items) + [item] && item.data == old(item.data))
              && (!ok ==> |items| == |old(items)| + 1 && items[..|old(items)|] == old(items)
                          && items[|old(items)|] != null && fresh(items[|old(items)|])
                          && items[|old(items)|].data == out.stored
                          && items[|old(items)|].itemClass == BaseItemClass
                          && item.data == old(item.data).(quantity := out.leftover))
    {
      if item.data.quantity > item.data.maxQuantity {
        var newData := item.data.(guid := newGuid);
        newData := newData.(quantity := Min(item.data.quantity, item.data.maxQuantity));
        item.data := item.data.(quantity := item.data.quantity - newData.quantity);
        var newItem := new InventoryItem(newData, BaseItemClass);
        items := items + [newItem];
        return false, SuccessSplitStack, newItem;
      } else {
        items := items + [item];
        return true, Success, null;
      }
    }

    /**
     * AddItemsToInventory: adds the items in order and stops at the first
     * that is refused. The array and the data of every object involved end
     * as AddEach says; `copies` is, for each listed item, the new object
     * its split-off copy became, or null when none was made.
     */
    method AddItemsToInventory(list: seq<InventoryItem?>, isValidItem: ItemData -> bool, newGuids: seq<Guid>)
      returns (ok: bool, ghost copies: seq<InventoryItem?>)
      requires |newGuids| == |list|
      modifies this, set x: InventoryItem | x in list, set x: InventoryItem | x in items
      ensures |copies| == |list| && forall j :: 0 <= j < |list| && copies[j] != null ==> fresh(copies[j])
      ensures var r := AddEach(old(StockOf(items, list)), list, isValidItem, newGuids, copies);
              ok == r.ok && Mirrors(r.stock)
      ensures forall x :: x in items ==> x in old(items) || x in list || fresh(x)
      ensures savedLayout == old(savedLayout)
    {
      ghost var st0 := StockOf(items, list);
      ghost var st := st0;
      copies := [];
      ok := true;
      var i := 0;
      while i < |list| && ok
        invariant 0 <= i <= |list| && |copies| == i
        invariant var r := AddEach(st0, list[..i], isValidItem, newGuids[..i], copies); r.ok == ok && r.stock == st
        invariant Mirrors(st) && forall x :: x in list && x != null ==> x in st.data
        invariant forall j :: 0 <= j < i && copies[j] != null ==> fresh(copies[j])
        invariant forall x :: x in st.data ==> x in old(items) || x in list || fresh(x)
        invariant forall x :: x in items ==> x in old(items) || x in list || fresh(x)
        invariant savedLayout == old(savedLayout)
      {
        ok, st, copies := AddListed(list, isValidItem, newGuids, i, st0, st, copies);
        assert forall j :: 0 <= j < i + 1 && copies[j] != null ==> fresh(copies[j]);
        i := i + 1;
      }
      ghost var rest: seq<InventoryItem?> := seq(|list| - i, _ => null);
      assert (copies + rest)[..i] == copies;
      copies := copies + rest;
      if ok {
        assert list[..i] == list && newGuids[..i] == newGuids && copies == copies[..i];
      } else {
        AddEachStops(st0, list, isValidItem, newGuids, copies, i);
      }
    }

    /** One step of AddItemsToInventory: AddItemToInventory of the i-th listed item, keeping the fold in step. */
    method AddListed(list: seq<InventoryItem?>, isValidItem: ItemData -> bool, newGuids: seq<Guid>, i: int,
                     ghost st0: Stock, ghost st: Stock, ghost copies: seq<InventoryItem?>)
      returns (ok: bool, ghost st': Stock, ghost copies': seq<InventoryItem?>)
      requires |newGuids| == |list| && 0 <= i < |list| && |copies| == i
      requires var r := AddEach(st0, list[..i], isValidItem, newGuids[..i], copies); r.ok && r.stock == st
      requires Mirrors(st) && forall x :: x in list && x != null ==> x in st.data
      modifies this, set x: InventoryItem | x in list, set x: InventoryItem | x in items
      ensures |copies'| == i + 1 && (forall j :: 0 <= j < i ==> copies'[j] == copies[j]) && (copies'[i] != null ==> fresh(copies'[i]))
      ensures var r := AddEach(st0, list[..i + 1], isValidItem, newGuids[..i + 1], copies'); r.ok == ok && r.stock == st'
      ensures Mirrors(st') && forall x :: x in list && x != null ==> x in st'.data
      ensures forall x :: x in st'.data ==> x in st.data || fresh(x)
      ensures forall x :: x in items ==> x in old(items) || x in list || fresh(x)
      ensures savedLayout == old(savedLayout)
    {
      var ctx;
      ghost var c;
      ok, ctx, c := AddItemToInventory(list[i], isValidItem, newGuids[i], st);
      AddEachNext(st0, list, isValidItem, newGuids, copies, c, i);
      copies' := copies + [c];
      st' := AddTo(st, list[i], isValidItem, newGuids[i], c).stock;
    }

    /** The heap agrees with `st`: the array is st's, every stored object is one st knows, and each has the data st gives it. */
    ghost predicate Mirrors(st: Stock)
      reads this, st.data.Keys
    {
      items == st.items
      && (forall x :: x in st.data ==> x.data == st.data[x])
      && (forall x :: x in items && x != null ==> x in st.data)
    }

    /** RemoveItemFromInventory: RemoveSingle of a non-null item. */
    method RemoveItemFromInventory(item: InventoryItem?)
      modifies this
      ensures items == (if item == null then old(items) else RemoveFirst(old(items), item))
      ensures savedLayout == old(savedLayout)
    {
      if item != null {
        items := RemoveFirst(items, item);
      }
    }

    method RemoveItemsFromInventory(list: seq<InventoryItem?>)
      modifies this
      ensures items == RemoveEach(old(items), list)
      ensures multiset(items) == multiset(old(items)) - multiset(NonNull(list))
      ensures savedLayout == old(savedLayout)
    {
      RemoveEachRemoves(items, list);
      var i := 0;
      while i < |list|
        invariant 0 <= i <= |list|
        invariant RemoveEach(old(items), list) == RemoveEach(items, list[i..])
        invariant savedLayout == old(savedLayout)
      {
        assert list[i..][1..] == list[i + 1..];
        RemoveItemFromInventory(list[i]);
        i := i + 1;
      }
    }

    /**
     * SubtractItemFromInventory: the stored item is looked up by data guid,
     * then by data, then by class; it loses Amount, or is removed when that
     * takes it to zero or below.
     */
    method SubtractItemFromInventory(item: InventoryItem?, amount: int) returns (ctx: InventoryContext)
      modifies this, set x: InventoryItem | x in items
      ensures savedLayout == old(savedLayout)
      ensures item == null ==> ctx == FailedInvalidItem && items == old(items)
      ensures forall x :: x in old(items) && x != null && x != At(old(items), old(SubtractTarget(items, item))) ==> x.data == old(x.data)
      ensures item != null ==>
                var k := old(SubtractTarget(items, item));
                (k == -1 ==> ctx == Default && items == old(items))
                && (k != -1 ==>
                      var e := old(items)[k];
                      ctx == SuccessRemovedItem
                      && (old(e.data.quantity) - amount <= 0 ==> items == RemoveFirst(old(items), e) && e.data == old(e.data))
                      && (old(e.data.quantity) - amount > 0 ==> items == old(items) && e.data == old(e.data).(quantity := old(e.data.quantity) - amount)))
    {
      if item == null {
        return FailedInvalidItem;
      }
      var existing := FindSubtractTarget(item);
      ctx := Default;
      if existing != null {
        SubtractFrom(existing, amount);
        ctx := SuccessRemovedItem;
      }
    }

    /** The entry to subtract from: by data guid, then by data, then by class. */
    method FindSubtractTarget(item: InventoryItem) returns (existing: InventoryItem?)
      ensures existing == At(items, SubtractTarget(items, item))
    {
      existing := GetItemByGUID(item.data.guid);
      if existing == null {
        existing := GetItemByData(item.data);
        if existing == null {
          existing := GetItemByClass(item.itemClass);
        }
      }
    }

    /** The found entry loses the amount, or leaves the array when that takes it to zero or below. */
    method SubtractFrom(e: InventoryItem, amount: int)
      modifies this, e
      ensures savedLayout == old(savedLayout)
      ensures old(e.data.quantity) - amount <= 0 ==> items == RemoveFirst(old(items), e) && e.data == old(e.data)
      ensures old(e.data.quantity) - amount > 0 ==>
                items == old(items) && e.data == old(e.data).(quantity := old(e.data.quantity) - amount)
    {
      var left := e.data.quantity - amount;
      if left <= 0 {
        RemoveItemFromInventory(e);
      } else {
        e.SetQuantity(left);
      }
    }

    /**
     * SubtractItemFromInventory as written: the class fallback finds the
     * first non-null entry, whatever its class.
     */
    method SubtractItemFromInventoryAsWritten(item: InventoryItem?, amount: int) returns (ctx: InventoryContext)
      modifies this, set x: InventoryItem | x in items
      ensures savedLayout == old(savedLayout)
      ensures item == null ==> ctx == FailedInvalidItem && items == old(items)
      ensures forall x :: x in old(items) && x != null && x != At(old(items), old(SubtractTargetAsWritten(items, item))) ==> x.data == old(x.data)
      ensures item != null ==>
                var k := old(SubtractTargetAsWritten(items, item));
                (k == -1 ==> ctx == Default && items == old(items))
                && (k != -1 ==>
                      var e := old(items)[k];
                      ctx == SuccessRemovedItem
                      && (old(e.data.quantity) - amount <= 0 ==> items == RemoveFirst(old(items), e) && e.data == old(e.data))
                      && (old(e.data.quantity) - amount > 0 ==> items == old(items) && e.data == old(e.data).(quantity := old(e.data.quantity) - amount)))
    {
      if item == null {
        return FailedInvalidItem;
      }
      var existing := FindSubtractTargetAsWritten(item);
      ctx := Default;
      if existing != null {
        SubtractFrom(existing, amount);
        ctx := SuccessRemovedItem;
      }
    }

    /** The entry to subtract from as written: by data guid, then by data, then the class lookup as written on the base class. */
    method FindSubtractTargetAsWritten(item: InventoryItem) returns (existing: InventoryItem?)
      ensures existing == At(items, SubtractTargetAsWritten(items, item))
    {
      existing := GetItemByGUID(item.data.guid);
      if existing == null {
        existing := GetItemByData(item.data);
        if existing == null {
          existing := GetItemByClassAsWritten(BaseItemClass);
        }
      }
    }

    /**
     * SubtractItemsFromInventory: SubtractItemFromInventory for each pair
     * of the map, in the map's order; the array and the stored quantities
     * end as SubtractEach computes them from the array, the quantities and
     * the guids before the call.
     */
    method SubtractItemsFromInventory(list: seq<(InventoryItem?, int)>)
      modifies this, set x: InventoryItem | x in items
      ensures items == SubtractEach(old(items), old(Quantities(items)), old(GuidsOf(items, ListedItems(list))), list).0
      ensures forall x :: x in old(items) && x != null ==>
                x.data == old(x.data).(quantity := SubtractEach(old(items), old(Quantities(items)), old(GuidsOf(items, ListedItems(list))), list).1[x])
      ensures forall x :: x in items ==> x in old(items)
      ensures savedLayout == old(savedLayout)
    {
      ghost var s0, q0, guids := items, Quantities(items), GuidsOf(items, ListedItems(list));
      var i := 0;
      while i < |list|
        invariant 0 <= i <= |list|
        invariant items == SubtractEach(s0, q0, guids, list[..i]).0
        invariant forall x :: x in s0 && x != null ==> x.data == old(x.data).(quantity := SubtractEach(s0, q0, guids, list[..i]).1[x])
        invariant forall x :: x in items ==> x in s0
        invariant forall x :: x in ListedItems(list) ==> x in guids && guids[x] == x.data.guid
        invariant savedLayout == old(savedLayout)
      {
        ghost var done := SubtractEach(s0, q0, guids, list[..i]);
        SubtractOne(list[i].0, list[i].1, done.1, guids);
        assert list[..i + 1][..i] == list[..i];
        i := i + 1;
      }
      assert list[..i] == list;
    }

    /** One pair of SubtractItemsFromInventory, stated on the quantities q and the guids of the stored objects. */
    method SubtractOne(item: InventoryItem?, amount: int, ghost q: map<InventoryItem, int>, ghost guids: map<InventoryItem, Guid>)
      requires forall x :: x in items && x != null ==> x in q && q[x] == x.data.quantity && x in guids && guids[x] == x.data.guid
      requires item != null ==> item in guids && guids[item] == item.data.guid
      modifies this, set x: InventoryItem | x in items
      ensures items == SubtractStep(old(items), q, guids, item, amount).0
      ensures forall x :: x in old(items) && x != null ==> x.data == old(x.data).(quantity := SubtractStep(old(items), q, guids, item, amount).1[x])
      ensures savedLayout == old(savedLayout)
    {
      TargetAgrees(items, guids, item);
      var _ := SubtractItemFromInventory(item, amount);
    }

    method SaveToInventoryLayout(slot: SlotData)
      modifies this
      ensures savedLayout == SaveSlot(old(savedLayout), slot)
      ensures items == old(items)
    {
      if slot.coords in savedLayout {
        if slot.item.Some? && slot.quantity > 0 && slot.createdManually {
          savedLayout := savedLayout[slot.coords := slot];
        } else {
          savedLayout := savedLayout - {slot.coords};
        }
      } else if slot.createdManually {
        savedLayout := savedLayout[slot.coords := slot];
      }
    }
  }

  /** The entry SubtractItemFromInventory works on: by data guid (which is also the data lookup), else by class. */
  function SubtractTarget(s: seq<InventoryItem?>, item: InventoryItem?): (r: int)
    reads s, item
    ensures -1 <= r < |s|
    ensures item == null ==> r == -1
    ensures item != null && IndexWithGuid(s, item.data.guid) != -1 ==> r == IndexWithGuid(s, item.data.guid)
    ensures r != -1 ==> s[r] != null && (s[r].data.guid == item.data.guid || s[r].itemClass == item.itemClass)
  {
    if item == null then -1
    else if IndexWithGuid(s, item.data.guid) != -1 then IndexWithGuid(s, item.data.guid)
    else IndexOfClass(s, item.itemClass)
  }

  /**
   * The entry SubtractItemFromInventory works on as written: the class
   * fallback hands `Item->StaticClass()`, the base class, to the class
   * lookup as written, so it takes the first non-null entry whatever its
   * class.
   */
  function SubtractTargetAsWritten(s: seq<InventoryItem?>, item: InventoryItem?): (r: int)
    reads s, item
    ensures -1 <= r < |s|
    ensures item == null ==> r == -1
    ensures item != null && IndexWithGuid(s, item.data.guid) != -1 ==> r == IndexWithGuid(s, item.data.guid)
    ensures item != null && IndexWithGuid(s, item.data.guid) == -1 ==> r == FirstNonNull(s)
  {
    if item == null then -1
    else if IndexWithGuid(s, item.data.guid) != -1 then IndexWithGuid(s, item.data.guid)
    else ClassLookupAsWritten(s, BaseItemClass)
  }

  /**
   * When no entry has the item's guid, Subtract as written works on the
   * first non-null entry and finds nothing only in an array of nulls;
   * the class-checked target is always an entry of the item's class.
   */
  lemma SubtractAsWrittenTakesFirstEntry(s: seq<InventoryItem?>, item: InventoryItem)
    requires IndexWithGuid(s, item.data.guid) == -1
    ensures SubtractTargetAsWritten(s, item) == -1 <==> forall k :: 0 <= k < |s| ==> s[k] == null
    ensures SubtractTargetAsWritten(s, item) != -1 ==>
              forall k :: 0 <= k < SubtractTargetAsWritten(s, item) ==> s[k] == null
    ensures SubtractTarget(s, item) != -1 ==> s[SubtractTarget(s, item)].itemClass == item.itemClass
  {
  }

  /** One stored item with another guid and another class: Subtract as written drains it, the class-checked lookup leaves it alone. */
  lemma SubtractAsWrittenDrainsUnrelated(stored: InventoryItem, item: InventoryItem)
    requires stored.data.guid != item.data.guid && stored.itemClass != item.itemClass
    ensures SubtractTargetAsWritten([stored], item) == 0
    ensures SubtractTarget([stored], item) == -1
  {
    assert IndexWithGuid([stored], item.data.guid) == -1;
  }

  /** What an add reads and writes: the item array and the data of every object involved. */
  datatype Stock = Stock(items: seq<InventoryItem?>, data: map<InventoryItem, ItemData>)

  /** An add's verdict, the context it reports (Default when no add was attempted) and the Stock it leaves. */
  datatype Added = Added(ok: bool, ctx: InventoryContext, stock: Stock)

  /** The Stock the heap holds for the array `s` and the listed objects. */
  ghost function StockOf(s: seq<InventoryItem?>, list: seq<InventoryItem?>): Stock
    reads s, list
  {
    Stock(s, map x: InventoryItem | x in s + list :: x.data)
  }

  /** IndexWithGuid on a Stock: the first entry whose data has the guid g, or -1. */
  function GuidIndex(s: seq<InventoryItem?>, data: map<InventoryItem, ItemData>, g: Guid): (r: int)
    ensures -1 <= r < |s|
    ensures r == -1 <==> forall k :: 0 <= k < |s| ==> s[k] == null || s[k] !in data || data[s[k]].guid != g
    ensures r >= 0 ==> s[r] != null && s[r] in data && data[s[r]].guid == g
    ensures r >= 0 ==> forall k :: 0 <= k < r ==> s[k] == null || s[k] !in data || data[s[k]].guid != g
  {
    if s == [] then -1
    else if s[0] != null && s[0] in data && data[s[0]].guid == g then 0
    else
      var k := GuidIndex(s[1..], data, g);
      if k == -1 then -1 else k + 1
  }

  /** Where the heap agrees with `data`, IndexWithGuid finds what GuidIndex finds. */
  lemma {:induction false} GuidIndexMirrors(s: seq<InventoryItem?>, data: map<InventoryItem, ItemData>, g: Guid)
    requires forall x :: x in s && x != null ==> x in data && data[x] == x.data
    ensures IndexWithGuid(s, g) == GuidIndex(s, data, g)
    decreases |s|
  {
    if s != [] {
      GuidIndexMirrors(s[1..], data, g);
    }
  }

  /**
   * AddItemToInventory on a Stock. A null, unknown or invalid item is
   * refused with nothing changed; an item whose guid is stored stacks onto
   * that entry as StackOnto says; otherwise it is appended, or `copy`
   * takes a capped copy and the rest stays on the item, as AddNew says.
   */
  function AddTo(st: Stock, item: InventoryItem?, isValidItem: ItemData -> bool, newGuid: Guid, copy: InventoryItem?): (r: Added)
    ensures item == null || item !in st.data || !isValidItem(st.data[item]) ==> r == Added(false, FailedInvalidItem, st)
    ensures |st.items| <= |r.stock.items| <= |st.items| + 1 && r.stock.items[..|st.items|] == st.items
    ensures forall x :: x in st.data ==> x in r.stock.data
    ensures forall x :: x in r.stock.data ==> x in st.data || x == copy
    ensures forall x :: x in r.stock.data && x != item && x != copy && x in st.data
              && (var k := GuidIndex(st.items, st.data, st.data[x].guid); k == -1 || st.items[k] != x)
              ==> r.stock.data[x] == st.data[x]
  {
    if item == null || item !in st.data || !isValidItem(st.data[item]) then Added(false, FailedInvalidItem, st)
    else
      var k := GuidIndex(st.items, st.data, st.data[item].guid);
      if k != -1 then Stacked(st, st.items[k], item) else Appended(st, item, newGuid, copy)
  }

  /** The stacking branch on a Stock: the item's quantity moves onto the stored entry `e` as StackOnto says, also when both are one object. */
  function Stacked(st: Stock, e: InventoryItem, item: InventoryItem): (r: Added)
    requires e in st.data && item in st.data
    ensures r.stock.items == st.items && r.stock.data.Keys == st.data.Keys
    ensures var out := StackOnto(st.data[e], st.data[item].quantity); r.ok == out.ok && r.ctx == out.ctx
    ensures forall x :: x in st.data && x != e && x != item ==> r.stock.data[x] == st.data[x]
  {
    var d := st.data[item];
    var out := StackOnto(st.data[e], d.quantity);
    if e != item then
      Added(out.ok, out.ctx, st.(data := st.data[e := st.data[e].(quantity := out.existingQ)][item := d.(quantity := out.addingQ)]))
    else
      Added(out.ok, out.ctx, st.(data := st.data[item := d.(quantity := AliasedQuantity(d, out))]))
  }

  /** The branch no entry matches, on a Stock: the item is appended, or `copy` is, holding a capped copy, as AddNew says. */
  function Appended(st: Stock, item: InventoryItem, newGuid: Guid, copy: InventoryItem?): (r: Added)
    requires item in st.data
    ensures r.ok <==> st.data[item].quantity <= st.data[item].maxQuantity
    ensures r.ctx == AddNew(st.data[item], newGuid).ctx
    ensures r.ok ==> r.stock == st.(items := st.items + [item])
    ensures !r.ok && copy != null ==> r.stock.items == st.items + [copy] && r.stock.data.Keys == st.data.Keys + {copy}
    ensures forall x :: x in st.data ==> x in r.stock.data && (x != item && x != copy ==> r.stock.data[x] == st.data[x])
  {
    var d := st.data[item];
    var out := AddNew(d, newGuid);
    if out.ok then Added(true, out.ctx, st.(items := st.items + [item]))
    else if copy == null then Added(false, out.ctx, st)
    else Added(false, out.ctx, Stock(st.items + [copy], st.data[copy := out.stored][item := d.(quantity := out.leftover)]))
  }

  /**
   * AddItemsToInventory on a Stock: AddTo for each listed item in order,
   * with its new guid and copy, stopping at the first refusal.
   */
  function AddEach(st: Stock, list: seq<InventoryItem?>, isValidItem: ItemData -> bool, guids: seq<Guid>, copies: seq<InventoryItem?>): (r: Added)
    requires |guids| == |list| && |copies| == |list|
    decreases |list|
  {
    if list == [] then Added(true, Default, st)
    else
      var n := |list| - 1;
      var before := AddEach(st, list[..n], isValidItem, guids[..n], copies[..n]);
      if !before.ok then before else AddTo(before.stock, list[n], isValidItem, guids[n], copies[n])
  }

  /** AddEach over one more listed item: AddTo on what the list before it left, unless that was already refused. */
  lemma AddEachNext(st: Stock, list: seq<InventoryItem?>, isValidItem: ItemData -> bool, guids: seq<Guid>,
                    copies: seq<InventoryItem?>, c: InventoryItem?, i: int)
    requires |guids| == |list| && 0 <= i < |list| && |copies| == i
    ensures var before := AddEach(st, list[..i], isValidItem, guids[..i], copies);
            AddEach(st, list[..i + 1], isValidItem, guids[..i + 1], copies + [c])
              == if !before.ok then before else AddTo(before.stock, list[i], isValidItem, guids[i], c)
  {
    assert list[..i + 1][..i] == list[..i] && guids[..i + 1][..i] == guids[..i] && (copies + [c])[..i] == copies;
  }

  /** Once an item is refused, the rest of the list is not applied: the outcome is that of the list up to the refusal. */
  lemma {:induction false} AddEachStops(st: Stock, list: seq<InventoryItem?>, isValidItem: ItemData -> bool,
                                        guids: seq<Guid>, copies: seq<InventoryItem?>, j: int)
    requires |guids| == |list| && |copies| == |list| && 0 <= j <= |list|
    requires !AddEach(st, list[..j], isValidItem, guids[..j], copies[..j]).ok
    ensures AddEach(st, list, isValidItem, guids, copies) == AddEach(st, list[..j], isValidItem, guids[..j], copies[..j])
    decreases |list|
  {
    if j < |list| {
      var n := |list| - 1;
      assert list[..n][..j] == list[..j] && guids[..n][..j] == guids[..j] && copies[..n][..j] == copies[..j];
      AddEachStops(st, list[..n], isValidItem, guids[..n], copies[..n], j);
    } else {
      assert list[..j] == list && guids[..j] == guids && copies[..j] == copies;
    }
  }

  /** Adding a list never drops or reorders stored entries: the array only grows at its end. */
  lemma {:induction false} AddEachAppends(st: Stock, list: seq<InventoryItem?>, isValidItem: ItemData -> bool,
                                          guids: seq<Guid>, copies: seq<InventoryItem?>)
    requires |guids| == |list| && |copies| == |list|
    ensures var r := AddEach(st, list, isValidItem, guids, copies);
            |st.items| <= |r.stock.items| <= |st.items| + |list| && r.stock.items[..|st.items|] == st.items
    decreases |list|
  {
    if list != [] {
      var n := |list| - 1;
      AddEachAppends(st, list[..n], isValidItem, guids[..n], copies[..n]);
      var before := AddEach(st, list[..n], isValidItem, guids[..n], copies[..n]);
      if before.ok {
        var after := AddTo(before.stock, list[n], isValidItem, guids[n], copies[n]);
        assert after.stock.items[..|st.items|] == before.stock.items[..|before.stock.items|][..|st.items|];
      }
    }
  }

  /** A null entry is refused: the list stops there with nothing after it applied. */
  lemma NullStopsList(st: Stock, list: seq<InventoryItem?>, isValidItem: ItemData -> bool,
                      guids: seq<Guid>, copies: seq<InventoryItem?>, j: int)
    requires |guids| == |list| && |copies| == |list| && 0 <= j < |list| && list[j] == null
    ensures var r := AddEach(st, list, isValidItem, guids, copies);
            !r.ok && r.stock == AddEach(st, list[..j], isValidItem, guids[..j], copies[..j]).stock
  {
    AddEachNext(st, list, isValidItem, guids, copies[..j], copies[j], j);
    assert copies[..j] + [copies[j]] == copies[..j + 1];
    AddEachStops(st, list, isValidItem, guids, copies, j + 1);
  }

  /** The stored quantity of every non-null entry. */
  ghost function Quantities(s: seq<InventoryItem?>): (q: map<InventoryItem, int>)
    reads s
    ensures forall k :: 0 <= k < |s| && s[k] != null ==> s[k] in q && q[s[k]] == s[k].data.quantity
  {
    map x: InventoryItem | x in s :: x.data.quantity
  }

  /** The keys of the map SubtractItemsFromInventory is given, null left out. */
  function ListedItems(list: seq<(InventoryItem?, int)>): set<InventoryItem>
  {
    set k | 0 <= k < |list| && list[k].0 != null :: list[k].0
  }

  /** The data guid of every stored object and every listed item. */
  ghost function GuidsOf(s: seq<InventoryItem?>, listed: set<InventoryItem>): (guids: map<InventoryItem, Guid>)
    reads s, listed
    ensures forall x :: x in listed ==> x in guids && guids[x] == x.data.guid
    ensures forall k :: 0 <= k < |s| && s[k] != null ==> s[k] in guids && guids[s[k]] == s[k].data.guid
  {
    (map x: InventoryItem | x in s :: x.data.guid) + (map x: InventoryItem | x in listed :: x.data.guid)
  }

  /** IndexWithGuid on recorded guids: the first non-null entry whose guid is g, or -1. */
  function GuidIndexIn(s: seq<InventoryItem?>, guids: map<InventoryItem, Guid>, g: Guid): (r: int)
    ensures -1 <= r < |s|
    ensures r >= 0 ==> s[r] != null
  {
    if s == [] then -1
    else if s[0] != null && s[0] in guids && guids[s[0]] == g then 0
    else
      var k := GuidIndexIn(s[1..], guids, g);
      if k == -1 then -1 else k + 1
  }

  /** SubtractTarget on recorded guids. */
  function TargetIn(s: seq<InventoryItem?>, guids: map<InventoryItem, Guid>, item: InventoryItem?): (r: int)
    ensures -1 <= r < |s|
    ensures r >= 0 ==> s[r] != null
  {
    if item == null || item !in guids then -1
    else if GuidIndexIn(s, guids, guids[item]) != -1 then GuidIndexIn(s, guids, guids[item])
    else IndexOfClass(s, item.itemClass)
  }

  /** With the guids recorded as they are, the first entry of a guid is IndexWithGuid's. */
  lemma {:induction false} GuidIndexAgrees(s: seq<InventoryItem?>, guids: map<InventoryItem, Guid>, g: Guid)
    requires forall k :: 0 <= k < |s| && s[k] != null ==> s[k] in guids && guids[s[k]] == s[k].data.guid
    ensures GuidIndexIn(s, guids, g) == IndexWithGuid(s, g)
  {
    if s != [] {
      GuidIndexAgrees(s[1..], guids, g);
    }
  }

  /** With the guids recorded as they are, TargetIn is SubtractTarget. */
  lemma TargetAgrees(s: seq<InventoryItem?>, guids: map<InventoryItem, Guid>, item: InventoryItem?)
    requires forall k :: 0 <= k < |s| && s[k] != null ==> s[k] in guids && guids[s[k]] == s[k].data.guid
    requires item != null ==> item in guids && guids[item] == item.data.guid
    ensures TargetIn(s, guids, item) == SubtractTarget(s, item)
  {
    if item != null {
      GuidIndexAgrees(s, guids, item.data.guid);
    }
  }

  /**
   * One pair of SubtractItemsFromInventory on the array, the stored
   * quantities q and the recorded guids: the target loses the amount, or
   * leaves the array when that takes it to zero or below.
   */
  function SubtractStep(s: seq<InventoryItem?>, q: map<InventoryItem, int>, guids: map<InventoryItem, Guid>,
                        item: InventoryItem?, amount: int): (r: (seq<InventoryItem?>, map<InventoryItem, int>))
    ensures forall x :: x in r.0 ==> x in s
    ensures q.Keys <= r.1.Keys
  {
    var k := TargetIn(s, guids, item);
    if k == -1 then (s, q)
    else
      var e := s[k];
      var have := if e in q then q[e] else 0;
      if have - amount <= 0 then
        var t := RemoveFirst(s, e);
        assert forall x :: x in t ==> x in multiset(t);
        (t, q)
      else (s, q[e := have - amount])
  }

  /** SubtractItemsFromInventory: the pairs applied in order. */
  function SubtractEach(s: seq<InventoryItem?>, q: map<InventoryItem, int>, guids: map<InventoryItem, Guid>,
                        list: seq<(InventoryItem?, int)>): (r: (seq<InventoryItem?>, map<InventoryItem, int>))
    ensures forall x :: x in r.0 ==> x in s
    ensures q.Keys <= r.1.Keys
  {
    if list == [] then (s, q)
    else
      var front := SubtractEach(s, q, guids, list[..|list| - 1]);
      SubtractStep(front.0, front.1, guids, list[|list| - 1].0, list[|list| - 1].1)
  }
}
