// UMounteaInventoryEquipmentBFL: the grid "shadow" an item of a given
// area casts from its start cell, the check that a shadow can be dropped
// onto the grid, and the exclusion filter over instanced items.
module EquipmentBFL {
  import opened Common
  import GameplayTags

  /** The cells of the rectangle of `area` whose corner is `start`. */
  predicate InArea(start: Point, area: Point, p: Point)
  {
    start.x <= p.x < start.x + area.x && start.y <= p.y < start.y + area.y
  }

  /**
   * CalculateItemShadow: a TSet filled column by column with every cell of
   * the rectangle. The shadow is duplicate-free, holds exactly the cells of
   * the rectangle and has Area.X * Area.Y of them (none for a non-positive
   * side).
   */
  method CalculateItemShadow(start: Point, area: Point) returns (r: seq<Point>)
    ensures NoDup(r)
    ensures forall p :: p in r <==> InArea(start, area, p)
    ensures |r| == Max(area.x, 0) * Max(area.y, 0)
  {
    var ay := Max(area.y, 0);
    var results: seq<Point> := [];
    var x := start.x;
    var y := start.y;
    var i := 0;
    while i < area.x
      invariant 0 <= i <= Max(area.x, 0)
      invariant x == start.x + i && y == start.y
      invariant NoDup(results)
      invariant forall p :: p in results <==> start.x <= p.x < start.x + i && start.y <= p.y < start.y + ay
      invariant |results| == i * ay
    {
      var j := 0;
      while j < area.y
        invariant 0 <= j <= ay
        invariant x == start.x + i && y == start.y + j
        invariant NoDup(results)
        invariant forall p :: p in results <==> (start.x <= p.x < start.x + i && start.y <= p.y < start.y + ay) || (p.x == x && start.y <= p.y < y)
        invariant |results| == i * ay + j
      {
        var p := Point(x, y);
        if p !in results {
          NoDupSnoc(results, p);
          results := results + [p];
        }
        y := y + 1;
        j := j + 1;
      }
      assert |results| == (i + 1) * ay;
      x := x + 1;
      y := start.y;
      i := i + 1;
    }
    return results;
  }

  /** A shadow of an area with both sides positive is never smaller than its longer side. */
  lemma ShadowCoversLongerSide(area: Point)
    requires area.x >= 1 && area.y >= 1
    ensures Max(area.x, 0) * Max(area.y, 0) >= Max(area.x, area.y)
  {
    if area.x >= area.y {
      assert area.x * area.y >= area.x * 1;
    } else {
      assert area.x * area.y >= 1 * area.y;
    }
  }

  /** IsSafeSlot: computes the shadow and answers false whatever the input. */
  method IsSafeSlot(start: Point, area: Point) returns (r: bool)
    ensures !r
  {
    var _ := CalculateItemShadow(start, area);
    return false;
  }

  /** What a slot widget reports: whether it is empty and which item widget occupies it. */
  datatype SlotView = SlotView(empty: bool, occupying: Option<nat>)

  /** The slot reference at the index of `p` among the grid's coordinates; null where that index has no reference. */
  function SlotFor(coords: seq<Point>, refs: seq<Option<SlotView>>, p: Point): (r: Option<SlotView>)
    ensures p !in coords ==> r.None?
    ensures p in coords && IndexOf(coords, p) < |refs| ==> r == refs[IndexOf(coords, p)]
  {
    var k := IndexOf(coords, p);
    if 0 <= k < |refs| then refs[k] else None
  }

  /** A shadow cell that blocks the moved item: its slot is occupied by another item. */
  predicate Blocks(s: Option<SlotView>, moved: Option<nat>)
  {
    s.Some? && !s.value.empty && s.value.occupying != moved
  }

  /** The shadow passes the size check and lies on the grid. */
  predicate ShadowOnGrid(coords: seq<Point>, shadow: seq<Point>, moved: Option<nat>, area: Point)
  {
    moved.Some? && |shadow| >= Max(area.x, area.y) && forall k :: 0 <= k < |shadow| ==> shadow[k] in coords
  }

  /**
   * IsValidShadow: a moved item (its dimensions are `area`), a shadow at
   * least as large as the item's longer side, every cell on the grid, and
   * under every cell a slot that is empty or holds the moved item itself.
   * The source dereferences the slot found for each cell; the precondition
   * is that those slots exist once the earlier checks have passed.
   */
  method IsValidShadow(coords: seq<Point>, refs: seq<Option<SlotView>>, shadow: seq<Point>, moved: Option<nat>, area: Point) returns (r: bool)
    requires ShadowOnGrid(coords, shadow, moved, area) ==> forall k :: 0 <= k < |shadow| ==> SlotFor(coords, refs, shadow[k]).Some?
    ensures r <==> ShadowOnGrid(coords, shadow, moved, area) && forall k :: 0 <= k < |shadow| ==> !Blocks(SlotFor(coords, refs, shadow[k]), moved)
  {
    if moved.None? {
      return false;
    }
    if |shadow| < Max(area.x, area.y) {
      return false;
    }
    var i := 0;
    while i < |shadow|
      invariant 0 <= i <= |shadow|
      invariant forall k :: 0 <= k < i ==> shadow[k] in coords
    {
      if shadow[i] !in coords {
        return false;
      }
      i := i + 1;
    }
    // Collect the slots under the shadow.
    var slots: map<Point, Option<SlotView>> := map[];
    i := 0;
    while i < |shadow|
      invariant 0 <= i <= |shadow|
      invariant forall k :: 0 <= k < i ==> shadow[k] in slots && slots[shadow[k]] == SlotFor(coords, refs, shadow[k])
    {
      var index := IndexOf(coords, shadow[i]);
      var slot := if 0 <= index < |refs| then refs[index] else None;
      slots := slots[shadow[i] := slot];
      i := i + 1;
    }
    // Validate the slots under the shadow.
    i := 0;
    while i < |shadow|
      invariant 0 <= i <= |shadow|
      invariant forall k :: 0 <= k < i ==> !Blocks(SlotFor(coords, refs, shadow[k]), moved)
    {
      var slot := slots[shadow[i]];
      if !slot.value.empty {
        if slot.value.occupying != moved {
          return false;
        }
      }
      i := i + 1;
    }
    return true;
  }

  // ---------------------------------------------------------------------
  // ExcludeItems.

  /** An instanced item pointer: its identity, its flags, the classes it is an instance of and its guid. */
  datatype ItemHandle = ItemHandle(pointer: nat, flags: GameplayTags.Container, classes: set<nat>, guid: Guid)

  /**
   * FItemRetrievalFilter: `valid` is its IsValid, whose definition is not
   * part of this model; each criterion is switched on by its flag.
   */
  datatype RetrievalFilter = RetrievalFilter(
    valid: bool,
    byTag: bool, tags: GameplayTags.Container,
    byItem: bool, item: Option<nat>,
    byClass: bool, itemClass: Option<nat>,
    byGuid: bool, guid: Guid)

  /** The filter's criteria, tried in turn; any one that matches excludes the item. */
  predicate Excludes(f: RetrievalFilter, x: ItemHandle)
  {
    (f.byTag && GameplayTags.HasAny(x.flags, f.tags))
    || (f.byItem && f.item == Some(x.pointer))
    || (f.byClass && f.itemClass.Some? && f.itemClass.value in x.classes)
    || (f.byGuid && x.guid == f.guid)
  }

  /** The non-null items the filter does not exclude, in their order. */
  function Kept(f: RetrievalFilter, items: seq<Option<ItemHandle>>): (r: seq<Option<ItemHandle>>)
    ensures forall x :: x in r <==> x in items && x.Some? && !Excludes(f, x.value)
    ensures |r| <= |items|
    ensures (forall k :: 0 <= k < |items| ==> items[k].Some? && !Excludes(f, items[k].value)) ==> r == items
  {
    if items == [] then []
    else
      var last := items[|items| - 1];
      assert items == items[..|items| - 1] + [last];
      Kept(f, items[..|items| - 1]) + (if last.Some? && !Excludes(f, last.value) then [last] else [])
  }

  /** ExcludeItems: the input itself for an invalid filter, otherwise the kept items in order. */
  method ExcludeItems(f: RetrievalFilter, items: seq<Option<ItemHandle>>) returns (r: seq<Option<ItemHandle>>)
    ensures !f.valid ==> r == items
    ensures f.valid ==> r == Kept(f, items)
  {
    if !f.valid {
      return items;
    }
    var result: seq<Option<ItemHandle>> := [];
    var i := 0;
    while i < |items|
      invariant 0 <= i <= |items|
      invariant result == Kept(f, items[..i])
    {
      var x := items[i];
      var keep := false;
      if x.Some? {
        var exclude := ShouldExclude(f, x.value);
        keep := !exclude;
      }
      KeptSnoc(f, items, i);
      if keep {
        result := result + [x];
      }
      i := i + 1;
    }
    assert items[..|items|] == items;
    return result;
  }

  /** Kept over one more item: that item is appended when it is kept. */
  lemma KeptSnoc(f: RetrievalFilter, items: seq<Option<ItemHandle>>, i: int)
    requires 0 <= i < |items|
    ensures Kept(f, items[..i + 1]) ==
      Kept(f, items[..i]) + (if items[i].Some? && !Excludes(f, items[i].value) then [items[i]] else [])
  {
    assert items[..i + 1][..i] == items[..i];
  }

  /** One item's test in ExcludeItems: the criteria in turn, the first that matches excludes it. */
  method ShouldExclude(f: RetrievalFilter, x: ItemHandle) returns (exclude: bool)
    ensures exclude == Excludes(f, x)
  {
    exclude := false;
    if f.byTag && GameplayTags.HasAny(x.flags, f.tags) {
      exclude := true;
    } else if f.byItem && f.item == Some(x.pointer) {
      exclude := true;
    } else if f.byClass && f.itemClass.Some? && f.itemClass.value in x.classes {
      exclude := true;
    } else if f.byGuid && x.guid == f.guid {
      exclude := true;
    }
  }
}
