// UMounteaInventoryComponent: an inventory holding FInventoryItem values
// in an array, looked up by guid. Quantity changes go through the item's
// own SetQuantity; RemoveItem drops every entry of a guid.
module MounteaInventory {
  import opened Common
  import opened MounteaItem

  /** The first index whose element satisfies p, or -1. */
  function FirstIndex<T>(s: seq<T>, p: T -> bool): (r: int)
    ensures -1 <= r < |s|
    ensures r == -1 <==> forall k :: 0 <= k < |s| ==> !p(s[k])
    ensures r >= 0 ==> p(s[r]) && forall k :: 0 <= k < r ==> !p(s[k])
  {
    if s == [] then -1
    else if p(s[0]) then 0
    else
      var k := FirstIndex(s[1..], p);
      if k == -1 then -1 else k + 1
  }

  /** FindItem: the first entry with the guid, or the default (invalid) item when there is none. */
  function FindItem(items: seq<Item>, g: Guid): (r: Item)
    ensures (forall k :: 0 <= k < |items| ==> items[k].guid != g) ==> r == DefaultItem()
    ensures forall k :: 0 <= k < |items| && items[k].guid == g && (forall j :: 0 <= j < k ==> items[j].guid != g) ==> r == items[k]
  {
    var k := FirstIndex(items, (x: Item) => x.guid == g);
    if k == -1 then DefaultItem() else items[k]
  }

  /** A valid result of FindItem is a stored entry carrying the guid; an invalid guid never finds a valid item. */
  lemma FindItemValid(items: seq<Item>, g: Guid)
    ensures IsItemValid(FindItem(items, g)) ==> FindItem(items, g) in items && FindItem(items, g).guid == g
    ensures !GuidValid(g) ==> !IsItemValid(FindItem(items, g))
  {
    var k := FirstIndex(items, (x: Item) => x.guid == g);
    if k != -1 {
      assert FindItem(items, g) == items[k];
    }
  }

  /** CanAddItem: a valid item with a template. */
  predicate CanAddItem(item: Item) { IsItemValid(item) && item.template.Some? }

  /** Items after TArray::RemoveAll on the guid: the others, in order. */
  function WithoutGuid(items: seq<Item>, g: Guid): (r: seq<Item>)
    ensures forall x :: x in r <==> x in items && x.guid != g
    ensures |r| <= |items|
    ensures (forall k :: 0 <= k < |items| ==> items[k].guid != g) ==> r == items
    ensures (exists k :: 0 <= k < |items| && items[k].guid == g) ==> |r| < |items|
  {
    if items == [] then []
    else if items[0].guid == g then WithoutGuid(items[1..], g)
    else [items[0]] + WithoutGuid(items[1..], g)
  }

  /** RemoveItem's result and new array: nothing happens unless FindItem returns a valid item. */
  function RemoveOutcome(items: seq<Item>, g: Guid): (bool, seq<Item>)
  {
    if IsItemValid(FindItem(items, g)) then (true, WithoutGuid(items, g)) else (false, items)
  }

  /** A successful removal leaves no entry of the guid and keeps every other entry. */
  lemma RemoveOutcomeProperties(items: seq<Item>, g: Guid)
    ensures RemoveOutcome(items, g).0 <==> IsItemValid(FindItem(items, g))
    ensures RemoveOutcome(items, g).0 ==> exists k :: 0 <= k < |items| && items[k].guid == g
    ensures RemoveOutcome(items, g).0 ==> forall x :: x in RemoveOutcome(items, g).1 <==> x in items && x.guid != g
    ensures !RemoveOutcome(items, g).0 ==> RemoveOutcome(items, g).1 == items
    ensures !GuidValid(g) ==> !RemoveOutcome(items, g).0
  {
    FindItemValid(items, g);
  }

  /** The entry IncreaseItemQuantity stops at: its guid matches and SetQuantity takes the raised value. */
  predicate Increases(x: Item, g: Guid, amount: int)
  {
    x.guid == g && SetQuantity(x, x.quantity + amount).0
  }

  /** IncreaseItemQuantity's result and new array. */
  function IncreaseOutcome(items: seq<Item>, g: Guid, amount: int): (r: (bool, seq<Item>))
    ensures r.0 <==> exists k :: 0 <= k < |items| && Increases(items[k], g, amount)
    ensures !r.0 ==> r.1 == items
    ensures r.0 ==> |r.1| == |items|
    ensures r.0 ==> (exists k :: 0 <= k < |items| && items[k].guid == g && items[k].template.Some? &&
                       r.1 == items[k := items[k].(quantity := items[k].quantity + amount)] &&
                       0 <= items[k].quantity + amount <= items[k].template.value.maxQuantity && amount != 0)
  {
    var k := FirstIndex(items, (x: Item) => Increases(x, g, amount));
    if k == -1 then (false, items)
    else (true, items[k := SetQuantity(items[k], items[k].quantity + amount).1])
  }

  /** The entry DecreaseItemQuantity stops at: its guid matches and the lowered value is exhausted or taken. */
  predicate Decreases(x: Item, g: Guid, amount: int)
  {
    x.guid == g && (x.quantity - amount <= 0 || SetQuantity(x, x.quantity - amount).0)
  }

  /**
   * DecreaseItemQuantity's result and new array: at the first entry it stops
   * at, an exhausted quantity removes the guid, otherwise the entry keeps
   * the lowered quantity.
   */
  function DecreaseOutcome(items: seq<Item>, g: Guid, amount: int): (r: (bool, seq<Item>))
    ensures (forall k :: 0 <= k < |items| ==> !Decreases(items[k], g, amount)) ==> r == (false, items)
  {
    var k := FirstIndex(items, (x: Item) => Decreases(x, g, amount));
    if k == -1 then (false, items)
    else if items[k].quantity - amount <= 0 then RemoveOutcome(items, g)
    else (true, items[k := SetQuantity(items[k], items[k].quantity - amount).1])
  }

  /** When the first entry of the guid is valid and runs out, the whole guid is removed. */
  lemma DecreaseToZeroRemoves(items: seq<Item>, g: Guid, amount: int, i: int)
    requires 0 <= i < |items| && items[i].guid == g && forall j :: 0 <= j < i ==> items[j].guid != g
    requires IsItemValid(items[i]) && items[i].quantity <= amount
    ensures DecreaseOutcome(items, g, amount).0
    ensures forall x :: x in DecreaseOutcome(items, g, amount).1 <==> x in items && x.guid != g
  {
    var p := (x: Item) => Decreases(x, g, amount);
    assert p(items[i]);
    assert FirstIndex(items, p) == i;
    assert FindItem(items, g) == items[i];
  }

  /** A decrease never touches entries of other guids. */
  lemma DecreaseKeepsOthers(items: seq<Item>, g: Guid, amount: int)
    ensures forall x :: x in items && x.guid != g ==> x in DecreaseOutcome(items, g, amount).1
  {
    var k := FirstIndex(items, (x: Item) => Decreases(x, g, amount));
    if k != -1 && items[k].quantity - amount > 0 {
      var r := DecreaseOutcome(items, g, amount).1;
      forall x | x in items && x.guid != g ensures x in r {
        var j :| 0 <= j < |items| && items[j] == x;
        assert r[j] == x;
      }
    }
  }

  /** At the entry a decrease stops at, a quantity that does not run out is lowered in place and stays in [1, MaxQuantity]. */
  lemma DecreaseLowers(items: seq<Item>, g: Guid, amount: int, k: int)
    requires 0 <= k < |items| && Decreases(items[k], g, amount) && forall j :: 0 <= j < k ==> !Decreases(items[j], g, amount)
    requires items[k].quantity - amount > 0
    ensures DecreaseOutcome(items, g, amount) == (true, items[k := items[k].(quantity := items[k].quantity - amount)])
    ensures 1 <= items[k].quantity - amount <= items[k].template.value.maxQuantity && amount != 0
  {
    assert FirstIndex(items, (x: Item) => Decreases(x, g, amount)) == k;
  }

  class InventoryComponent {
    var items: seq<Item>

    constructor()
      ensures items == []
    {
      items := [];
    }

    /** AddItem: true when the item can be added and its quantity is not zero; the array is left as it is. */
    method AddItem(item: Item, autoStack: bool) returns (ok: bool)
      ensures ok <==> CanAddItem(item) && item.quantity != 0
    {
      if !CanAddItem(item) {
        return false;
      }
      var amountToAdd := item.quantity;
      if amountToAdd == 0 {
        return false;
      }
      return true;
    }

    /** RemoveItem: refused for a guid FindItem does not resolve to a valid item; otherwise every entry of the guid goes. */
    method RemoveItem(g: Guid) returns (ok: bool)
      modifies this
      ensures (ok, items) == RemoveOutcome(old(items), g)
    {
      var found := FindItem(items, g);
      if !IsItemValid(found) {
        return false;
      }
      items := WithoutGuid(items, g);
      return true;
    }

    /** IncreaseItemQuantity: the first entry of the guid whose SetQuantity takes the raised value keeps it. */
    method IncreaseItemQuantity(g: Guid, amount: int) returns (ok: bool)
      modifies this
      ensures (ok, items) == IncreaseOutcome(old(items), g, amount)
    {
      var i := 0;
      while i < |items|
        invariant 0 <= i <= |items| && items == old(items)
        invariant forall k :: 0 <= k < i ==> !Increases(items[k], g, amount)
      {
        if items[i].guid == g {
          var oldQuantity := items[i].quantity;
          var setResult := SetQuantity(items[i], oldQuantity + amount);
          if setResult.0 {
            items := items[i := setResult.1];
            return true;
          }
        }
        i := i + 1;
      }
      return false;
    }

    /** DecreaseItemQuantity: at the first entry of the guid that runs out the guid is removed; otherwise the lowered value is set. */
    method DecreaseItemQuantity(g: Guid, amount: int) returns (ok: bool)
      modifies this
      ensures (ok, items) == DecreaseOutcome(old(items), g, amount)
    {
      var i := 0;
      while i < |items|
        invariant 0 <= i <= |items| && items == old(items)
        invariant forall k :: 0 <= k < i ==> !Decreases(items[k], g, amount)
      {
        if items[i].guid == g {
          var oldQuantity := items[i].quantity;
          var newQuantity := oldQuantity - amount;
          if newQuantity <= 0 {
            assert FirstIndex(items, (x: Item) => Decreases(x, g, amount)) == i;
            ok := RemoveItem(g);
            return;
          }
          var setResult := SetQuantity(items[i], newQuantity);
          if setResult.0 {
            assert FirstIndex(items, (x: Item) => Decreases(x, g, amount)) == i;
            items := items[i := setResult.1];
            return true;
          }
        }
        i := i + 1;
      }
      return false;
    }

    /**
     * SplitItemStack: refused (the default item) for an unknown guid, a
     * non-positive amount or an amount that is not below the quantity;
     * otherwise the stored quantity is decreased and a new item of the same
     * template and the split amount is returned. The new item is handed to
     * AddItem, which stores nothing.
     */
    method SplitItemStack(g: Guid, amount: int, newGuid: Guid) returns (r: Item)
      requires GuidValid(newGuid)
      modifies this
      ensures var f := FindItem(old(items), g);
        !IsItemValid(f) || amount <= 0 || f.quantity <= amount ==> r == DefaultItem() && items == old(items)
      ensures var f := FindItem(old(items), g);
        IsItemValid(f) && 0 < amount < f.quantity ==>
          items == DecreaseOutcome(old(items), g, amount).1
          && r == if DecreaseOutcome(old(items), g, amount).0 then NewItem(f.template, amount, None, newGuid) else DefaultItem()
    {
      var existing := FindItem(items, g);
      if !IsItemValid(existing) || amount <= 0 || existing.quantity <= amount {
        return DefaultItem();
      }
      var newItem := NewItem(existing.template, amount, None, newGuid);
      var decreased := DecreaseItemQuantity(g, amount);
      if decreased {
        var _ := AddItem(newItem, false);
        return newItem;
      }
      return DefaultItem();
    }

    /** ClearInventory: the array ends empty. */
    method ClearInventory()
      modifies this
      ensures items == []
    {
      items := [];
    }
  }

  /**
   * A split of a first entry whose quantity is within its template's bound
   * lowers that entry by the amount and returns an item of the amount, but
   * the array keeps its length and gains no entry of the new guid: the split
   * amount is not stored anywhere.
   */
  lemma SplitDropsAmount(items: seq<Item>, g: Guid, amount: int, i: int, newGuid: Guid)
    requires 0 <= i < |items| && items[i].guid == g && forall j :: 0 <= j < i ==> items[j].guid != g
    requires IsItemValid(items[i]) && 0 < amount < items[i].quantity <= items[i].template.value.maxQuantity
    requires GuidValid(newGuid) && forall k :: 0 <= k < |items| ==> items[k].guid != newGuid
    ensures DecreaseOutcome(items, g, amount).0
    ensures DecreaseOutcome(items, g, amount).1 == items[i := items[i].(quantity := items[i].quantity - amount)]
    ensures NewItem(FindItem(items, g).template, amount, None, newGuid).quantity == amount
    ensures forall k :: 0 <= k < |items| ==> DecreaseOutcome(items, g, amount).1[k].guid != newGuid
  {
    var p := (x: Item) => Decreases(x, g, amount);
    var q := items[i].quantity - amount;
    assert SetQuantity(items[i], q) == (true, items[i].(quantity := q));
    assert p(items[i]);
    assert FirstIndex(items, p) == i;
    assert DecreaseOutcome(items, g, amount) == (true, items[i := items[i].(quantity := q)]);
    assert FindItem(items, g) == items[i];
  }
}
