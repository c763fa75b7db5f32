// FInventoryItem: one runtime item instance, a value stored by copy in the
// inventory's item array. It refers to its template by pointer, carries a
// quantity, an owning inventory and a map of affector slots (gameplay tag
// to the guid of the item attached there).
module MounteaItem {
  import opened Common
  import GameplayTags

  /** A template pointer: `id` is its identity, MaxQuantity the field items read. */
  datatype TemplateRef = TemplateRef(id: nat, maxQuantity: int)

  /** The affector slots, a TMap in iteration order: pairs with pairwise different tags. */
  type Affectors = seq<(GameplayTags.Tag, Guid)>

  datatype Item = Item(guid: Guid, template: Option<TemplateRef>, quantity: int, affectors: Affectors, owner: Option<nat>)

  /** IsItemValid: a valid guid and a template. */
  predicate IsItemValid(i: Item) { GuidValid(i.guid) && i.template.Some? }

  /** IsItemInInventory: some inventory owns the item. */
  predicate IsItemInInventory(i: Item) { i.owner.Some? }

  /** operator==: guid and template pointer agree. */
  predicate SameItem(a: Item, b: Item) { a.guid == b.guid && a.template == b.template }

  /** The default constructor: no guid, no template, quantity -1. */
  function DefaultItem(): (r: Item)
    ensures !IsItemValid(r) && !GuidValid(r.guid) && r.template.None? && r.quantity == -1
    ensures !IsItemInInventory(r) && r.affectors == []
  {
    Item(InvalidGuid, None, -1, [], None)
  }

  /**
   * The template constructor. Without a template the guid stays invalid
   * and the quantity keeps its member default of 1; with one, the item
   * gets a new guid (a parameter here) and the quantity clamped to
   * [0, MaxQuantity].
   */
  function NewItem(template: Option<TemplateRef>, quantity: int, owner: Option<nat>, newGuid: Guid): (r: Item)
    requires GuidValid(newGuid)
    ensures r.owner == owner && r.template == template && r.affectors == []
    ensures template.None? ==> !IsItemValid(r) && r.quantity == 1
    ensures template.Some? ==> IsItemValid(r) && r.guid == newGuid
    ensures template.Some? && template.value.maxQuantity >= 0 ==> 0 <= r.quantity <= template.value.maxQuantity
    ensures template.Some? && 0 <= quantity <= template.value.maxQuantity ==> r.quantity == quantity
  {
    if template.None? then Item(InvalidGuid, None, 1, [], owner)
    else Item(newGuid, template, Clamp(quantity, 0, template.value.maxQuantity), [], owner)
  }

  /** SetTemplate: only a valid template other than the current one is taken. */
  function SetTemplate(i: Item, t: Option<TemplateRef>): (r: (bool, Item))
    ensures r.0 <==> t.Some? && t != i.template
    ensures r.0 ==> r.1 == i.(template := t)
    ensures !r.0 ==> r.1 == i
  {
    if t != i.template && t.Some? then (true, i.(template := t)) else (false, i)
  }

  /** SetGuid: only a valid guid other than the current one is taken. */
  function SetGuid(i: Item, g: Guid): (r: (bool, Item))
    ensures r.0 <==> g != i.guid && GuidValid(g)
    ensures r.1 == if r.0 then i.(guid := g) else i
  {
    if g != i.guid && GuidValid(g) then (true, i.(guid := g)) else (false, i)
  }

  /**
   * SetQuantity: refused when the value is the current one or there is no
   * template; accepted exactly when it lies in [0, MaxQuantity].
   */
  function SetQuantity(i: Item, q: int): (r: (bool, Item))
    ensures r.0 <==> q != i.quantity && i.template.Some? && 0 <= q <= i.template.value.maxQuantity
    ensures r.0 ==> r.1 == i.(quantity := q)
    ensures !r.0 ==> r.1 == i
  {
    if q == i.quantity || i.template.None? then (false, i)
    else if 0 <= q <= i.template.value.maxQuantity then (true, i.(quantity := q))
    else (false, i)
  }

  /** A quantity that was just set is refused a second time, and an accepted quantity is within the template's bound. */
  lemma SetQuantityTwice(i: Item, q: int)
    requires SetQuantity(i, q).0
    ensures !SetQuantity(SetQuantity(i, q).1, q).0
    ensures 0 <= SetQuantity(i, q).1.quantity <= i.template.value.maxQuantity
  {
  }

  /** SetOwningInventory: true when the owner changes. */
  function SetOwningInventory(i: Item, owner: Option<nat>): (r: (bool, Item))
    ensures r.0 <==> owner != i.owner
    ensures r.1 == i.(owner := owner) && IsItemInInventory(r.1) == owner.Some?
  {
    if owner == i.owner then (false, i) else (true, i.(owner := owner))
  }

  // ---------------------------------------------------------------------
  // Affector slots.

  predicate UniqueTags(m: Affectors)
  {
    forall a, b :: 0 <= a < b < |m| ==> m[a].0 != m[b].0
  }

  /** TMap::Find. */
  function FindAffector(m: Affectors, tag: GameplayTags.Tag): (r: Option<Guid>)
    ensures r.None? <==> forall k :: 0 <= k < |m| ==> m[k].0 != tag
    ensures r.Some? ==> exists k :: 0 <= k < |m| && m[k] == (tag, r.value)
    ensures UniqueTags(m) ==> forall k :: 0 <= k < |m| && m[k].0 == tag ==> r == Some(m[k].1)
  {
    if m == [] then None
    else if m[0].0 == tag then Some(m[0].1)
    else FindAffector(m[1..], tag)
  }

  /** A pair of the new map that the current map does not hold as it is. */
  predicate Differs(current: Affectors, pair: (GameplayTags.Tag, Guid))
  {
    FindAffector(current, pair.0) != Some(pair.1)
  }

  /** The first differing pair of the new map, or -1. */
  function FirstDifference(current: Affectors, m: Affectors): (r: int)
    ensures -1 <= r < |m|
    ensures r == -1 <==> forall k :: 0 <= k < |m| ==> !Differs(current, m[k])
    ensures r >= 0 ==> Differs(current, m[r]) && forall k :: 0 <= k < r ==> !Differs(current, m[k])
  {
    if m == [] then -1
    else if Differs(current, m[0]) then 0
    else
      var k := FirstDifference(current, m[1..]);
      if k == -1 then -1 else k + 1
  }

  predicate AllGuidsValid(m: Affectors)
  {
    forall k :: 0 <= k < |m| ==> GuidValid(m[k].1)
  }

  /**
   * When SetAffectorSlots as written takes the new map: a map of another
   * size when all its guids are valid; a map of the same size when its
   * first differing pair has a valid guid, whatever the later pairs hold.
   */
  predicate AcceptsAsWritten(current: Affectors, m: Affectors)
  {
    if |m| != |current| then AllGuidsValid(m)
    else FirstDifference(current, m) != -1 && GuidValid(m[FirstDifference(current, m)].1)
  }

  /** The intended rule: a map holding an invalid guid is refused, and an unchanged map is not taken. */
  predicate Accepts(current: Affectors, m: Affectors)
  {
    AllGuidsValid(m) && (|m| != |current| || FirstDifference(current, m) != -1)
  }

  /** The current map {A: 1, B: 2} and the new map {A: 3, B: 0}: taken as written, though B's guid is invalid. */
  lemma AffectorsAsWrittenTakeInvalidGuid()
    ensures AcceptsAsWritten([(["A"], 1), (["B"], 2)], [(["A"], 3), (["B"], 0)])
    ensures !Accepts([(["A"], 1), (["B"], 2)], [(["A"], 3), (["B"], 0)])
  {
    var current: Affectors := [(["A"], 1), (["B"], 2)];
    var m: Affectors := [(["A"], 3), (["B"], 0)];
    assert ["A"] != ["B"] by {
      assert ["A"][0] != ["B"][0];
    }
    assert FindAffector(current, ["A"]) == Some(1);
    assert Differs(current, m[0]);
    assert FirstDifference(current, m) == 0;
    assert !GuidValid(m[1].1);
  }

  /** Every taken map holds only valid guids, and a map equal to the current one, pair for pair, is never taken. */
  lemma AcceptsKeepsGuidsValid(current: Affectors, m: Affectors)
    ensures Accepts(current, m) ==> AllGuidsValid(m)
    ensures UniqueTags(current) && |m| == |current| && (forall k :: 0 <= k < |m| ==> m[k] in current) ==> !Accepts(current, m)
  {
    if UniqueTags(current) && |m| == |current| && (forall k :: 0 <= k < |m| ==> m[k] in current) {
      forall k | 0 <= k < |m| ensures !Differs(current, m[k]) {
        var j :| 0 <= j < |current| && current[j] == m[k];
      }
    }
  }

  /** The guid check over the new map: true when every guid in it is valid. */
  method CheckGuids(m: Affectors) returns (valid: bool)
    ensures valid <==> AllGuidsValid(m)
  {
    var i := 0;
    while i < |m|
      invariant 0 <= i <= |m|
      invariant forall k :: 0 <= k < i ==> GuidValid(m[k].1)
    {
      if !GuidValid(m[i].1) {
        return false;
      }
      i := i + 1;
    }
    return true;
  }

  /** The comparison loop: the position of the first pair the current map does not hold, or -1. */
  method FindDifference(current: Affectors, m: Affectors) returns (d: int)
    ensures d == FirstDifference(current, m)
  {
    var i := 0;
    while i < |m|
      invariant 0 <= i <= |m|
      invariant forall k :: 0 <= k < i ==> !Differs(current, m[k])
    {
      var existing := FindAffector(current, m[i].0);
      if existing.None? || existing.value != m[i].1 {
        return i;
      }
      i := i + 1;
    }
    return -1;
  }

  /**
   * SetAffectorSlots as written: the guids are checked only when the size
   * changes; otherwise only the guid of the first differing pair is.
   */
  method SetAffectorSlotsAsWritten(item: Item, m: Affectors) returns (ok: bool, r: Item)
    ensures ok <==> AcceptsAsWritten(item.affectors, m)
    ensures r == if ok then item.(affectors := m) else item
  {
    if |m| != |item.affectors| {
      var valid := CheckGuids(m);
      if !valid {
        return false, item;
      }
      return true, item.(affectors := m);
    }
    var d := FindDifference(item.affectors, m);
    if d != -1 && GuidValid(m[d].1) {
      return true, item.(affectors := m);
    }
    return false, item;
  }

  /** SetAffectorSlots checking every guid before comparing the maps. */
  method SetAffectorSlots(item: Item, m: Affectors) returns (ok: bool, r: Item)
    ensures ok <==> Accepts(item.affectors, m)
    ensures r == if ok then item.(affectors := m) else item
  {
    var valid := CheckGuids(m);
    if !valid {
      return false, item;
    }
    if |m| != |item.affectors| {
      return true, item.(affectors := m);
    }
    var d := FindDifference(item.affectors, m);
    if d != -1 {
      return true, item.(affectors := m);
    }
    return false, item;
  }
}
