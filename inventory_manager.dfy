// UActorInventoryManagerComponent: the sets of allowed item categories and
// rarities an inventory UI shows, their editing operations, the cleanup at
// BeginPlay, the editor validation, and the automatic allowing of parent
// categories, bounded by a recursion depth. The sets are TSets of object
// pointers (null included) and are modelled as duplicate-free sequences in
// iteration order.
module ActorInventoryManager {
  import opened Common

  /** UInventoryCategory: its guid, whether it is the generic "all categories" one, and its parent. */
  class InventoryCategory {
    const guid: Guid
    const isAllCategories: bool
    const parent: InventoryCategory?

    constructor(guid: Guid, isAllCategories: bool, parent: InventoryCategory?)
      ensures this.guid == guid && this.isAllCategories == isAllCategories && this.parent == parent
    {
      this.guid := guid;
      this.isAllCategories := isAllCategories;
      this.parent := parent;
    }
  }

  /** UInventoryItemRarity, by its guid. */
  class ItemRarity {
    const guid: Guid

    constructor(guid: Guid)
      ensures this.guid == guid
    {
      this.guid := guid;
    }
  }

  // ---------------------------------------------------------------------
  // Set operations on duplicate-free sequences.

  /** TSet::Emplace of an element not yet present: appended. */
  function AddUnique<T(==)>(s: seq<T>, x: T): (r: seq<T>)
    ensures x in r && s <= r
    ensures forall y :: y in r ==> y in s || y == x
    ensures NoDup(s) ==> NoDup(r)
  {
    if x in s then s
    else
      if NoDup(s) then NoDupSnoc(s, x); s + [x] else s + [x]
  }

  /** TSet::Remove: the element is dropped and the order of the rest kept. */
  function Without<T(==)>(s: seq<T>, x: T): (r: seq<T>)
    ensures forall y :: y in r ==> y in s && y != x
    ensures forall y :: y in s && y != x ==> y in r
  {
    if s == [] then []
    else
      var init := s[..|s| - 1];
      var last := s[|s| - 1];
      assert s == init + [last];
      Without(init, x) + (if last == x then [] else [last])
  }

  /** The elements of s that are not in e, in order. */
  function FilterNotIn<T(==)>(s: seq<T>, e: seq<T>): (r: seq<T>)
    ensures forall y :: y in r ==> y in s && y !in e
    ensures forall y :: y in s && y !in e ==> y in r
  {
    if s == [] then []
    else
      var init := s[..|s| - 1];
      var last := s[|s| - 1];
      assert s == init + [last];
      FilterNotIn(init, e) + (if last in e then [] else [last])
  }

  lemma WithoutSnoc<T>(s: seq<T>, y: T, x: T)
    ensures Without(s + [y], x) == Without(s, x) + (if y == x then [] else [y])
  {
    assert (s + [y])[..|s|] == s;
  }

  lemma FilterNotInSnoc<T>(s: seq<T>, y: T, e: seq<T>)
    ensures FilterNotIn(s + [y], e) == FilterNotIn(s, e) + (if y in e then [] else [y])
  {
    assert (s + [y])[..|s|] == s;
  }

  /** Removing one more element from a filtered sequence filters by one more element. */
  lemma {:induction false} WithoutFilter<T>(s: seq<T>, e: seq<T>, x: T)
    ensures Without(FilterNotIn(s, e), x) == FilterNotIn(s, e + [x])
  {
    if s != [] {
      var init := s[..|s| - 1];
      var last := s[|s| - 1];
      WithoutFilter(init, e, x);
      if last !in e {
        WithoutSnoc(FilterNotIn(init, e), last, x);
      } else {
        assert FilterNotIn(init, e) + [] == FilterNotIn(init, e);
      }
    }
  }

  /** Removing keeps a duplicate-free sequence duplicate-free. */
  lemma {:induction false} WithoutNoDup<T>(s: seq<T>, x: T)
    requires NoDup(s)
    ensures NoDup(Without(s, x))
  {
    FilterNotInNoDup(s, [x]);
    WithoutIsFilter(s, x);
  }

  lemma {:induction false} WithoutIsFilter<T>(s: seq<T>, x: T)
    ensures Without(s, x) == FilterNotIn(s, [x])
  {
    if s != [] {
      WithoutIsFilter(s[..|s| - 1], x);
    }
  }

  /** Adding an element that was absent and removing it again restores the set. */
  lemma AddThenRemove<T>(s: seq<T>, x: T)
    requires x !in s
    ensures Without(AddUnique(s, x), x) == s
  {
    WithoutSnoc(s, x, x);
    WithoutAbsent(s, x);
  }

  /** Removing a present element and adding it back gives the same elements. */
  lemma RemoveThenAdd<T>(s: seq<T>, x: T)
    requires x in s
    ensures forall y :: y in AddUnique(Without(s, x), x) <==> y in s
  {
  }

  /** The elements of xs added one by one, in order. */
  function AddEach<T(==)>(s: seq<T>, xs: seq<T>): (r: seq<T>)
  {
    if xs == [] then s else AddUnique(AddEach(s, xs[..|xs| - 1]), xs[|xs| - 1])
  }

  /** The elements of xs removed one by one. */
  function RemoveEach<T(==)>(s: seq<T>, xs: seq<T>): (r: seq<T>)
  {
    if xs == [] then s else Without(RemoveEach(s, xs[..|xs| - 1]), xs[|xs| - 1])
  }

  /** AddEach keeps what was there in front, adds the new elements, and keeps the sequence duplicate-free. */
  lemma {:induction false} AddEachContents<T>(s: seq<T>, xs: seq<T>)
    ensures s <= AddEach(s, xs)
    ensures forall y :: y in AddEach(s, xs) <==> y in s || y in xs
    ensures NoDup(s) ==> NoDup(AddEach(s, xs))
  {
    if xs != [] {
      var init := xs[..|xs| - 1];
      AddEachContents(s, init);
      assert xs == init + [xs[|xs| - 1]];
    }
  }

  /** RemoveEach keeps the order and drops exactly the listed elements. */
  lemma {:induction false} RemoveEachIsFilter<T>(s: seq<T>, xs: seq<T>)
    ensures RemoveEach(s, xs) == FilterNotIn(s, xs)
  {
    if xs == [] {
      FilterNotInEmpty(s);
    } else {
      var init := xs[..|xs| - 1];
      RemoveEachIsFilter(s, init);
      WithoutFilter(s, init, xs[|xs| - 1]);
      assert init + [xs[|xs| - 1]] == xs;
    }
  }

  lemma {:induction false} FilterNotInEmpty<T>(s: seq<T>)
    ensures FilterNotIn(s, []) == s
  {
    if s != [] {
      FilterNotInEmpty(s[..|s| - 1]);
      assert s[..|s| - 1] + [s[|s| - 1]] == s;
    }
  }

  /** A filtered duplicate-free sequence is duplicate-free. */
  lemma {:induction false} FilterNotInNoDup<T>(s: seq<T>, e: seq<T>)
    requires NoDup(s)
    ensures NoDup(FilterNotIn(s, e))
  {
    if s != [] {
      var init := s[..|s| - 1];
      var last := s[|s| - 1];
      assert NoDup(init) by {
        forall i, j | 0 <= i < j < |init| ensures init[i] != init[j] {
          assert init[i] == s[i] && init[j] == s[j];
        }
      }
      FilterNotInNoDup(init, e);
      if last !in e {
        assert last !in init by {
          forall k | 0 <= k < |init| ensures init[k] != last {
            assert init[k] == s[k];
          }
        }
        NoDupSnoc(FilterNotIn(init, e), last);
      } else {
        assert FilterNotIn(init, e) + [] == FilterNotIn(init, e);
      }
    }
  }

  /** The loop of AddAllowedCategories / AddAllowedRarities. */
  method AddEachLoop<T(==)>(s: seq<T>, xs: seq<T>) returns (r: seq<T>)
    ensures r == AddEach(s, xs)
  {
    r := s;
    var i := 0;
    while i < |xs|
      invariant 0 <= i <= |xs|
      invariant r == AddEach(s, xs[..i])
    {
      assert xs[..i + 1][..i] == xs[..i];
      r := AddUnique(r, xs[i]);
      i := i + 1;
    }
    assert xs[..|xs|] == xs;
  }

  /** The loop of RemoveAllowedCategories / RemoveAllowedRarities. */
  method RemoveEachLoop<T(==)>(s: seq<T>, xs: seq<T>) returns (r: seq<T>)
    ensures r == RemoveEach(s, xs)
  {
    r := s;
    var i := 0;
    while i < |xs|
      invariant 0 <= i <= |xs|
      invariant r == RemoveEach(s, xs[..i])
    {
      assert xs[..i + 1][..i] == xs[..i];
      if xs[i] in r {
        r := Without(r, xs[i]);
      } else {
        WithoutAbsent(r, xs[i]);
      }
      i := i + 1;
    }
    assert xs[..|xs|] == xs;
  }

  lemma {:induction false} WithoutAbsent<T>(s: seq<T>, x: T)
    requires x !in s
    ensures Without(s, x) == s
  {
    if s != [] {
      WithoutAbsent(s[..|s| - 1], x);
      assert s[..|s| - 1] + [s[|s| - 1]] == s;
    }
  }

  // ---------------------------------------------------------------------
  // BeginPlay cleanup and the editor validation.

  predicate IsGeneric(c: InventoryCategory?)
  {
    c != null && c.isAllCategories
  }

  /** BeginPlay drops the entry at i: null, or a generic category after an earlier generic one. */
  predicate Drop(s: seq<InventoryCategory?>, i: int)
    requires 0 <= i < |s|
  {
    s[i] == null || (IsGeneric(s[i]) && exists k :: 0 <= k < i && IsGeneric(s[k]))
  }

  /** The entries among the first n that BeginPlay marks invalid, in order. */
  function DroppedUpTo(s: seq<InventoryCategory?>, n: int): seq<InventoryCategory?>
    requires 0 <= n <= |s|
  {
    if n == 0 then [] else DroppedUpTo(s, n - 1) + (if Drop(s, n - 1) then [s[n - 1]] else [])
  }

  /** The entries among the first n that BeginPlay keeps, in order. */
  function KeptUpTo(s: seq<InventoryCategory?>, n: int): seq<InventoryCategory?>
    requires 0 <= n <= |s|
  {
    if n == 0 then [] else KeptUpTo(s, n - 1) + (if Drop(s, n - 1) then [] else [s[n - 1]])
  }

  /** The allowed categories after BeginPlay. */
  function Cleaned(s: seq<InventoryCategory?>): seq<InventoryCategory?>
  {
    KeptUpTo(s, |s|)
  }

  lemma {:induction false} DroppedContents(s: seq<InventoryCategory?>, n: int, x: InventoryCategory?)
    requires 0 <= n <= |s|
    ensures x in DroppedUpTo(s, n) <==> exists k :: 0 <= k < n && Drop(s, k) && s[k] == x
  {
    if n > 0 {
      DroppedContents(s, n - 1, x);
    }
  }

  lemma {:induction false} KeptContents(s: seq<InventoryCategory?>, n: int, x: InventoryCategory?)
    requires 0 <= n <= |s|
    ensures x in KeptUpTo(s, n) <==> exists k :: 0 <= k < n && !Drop(s, k) && s[k] == x
  {
    if n > 0 {
      KeptContents(s, n - 1, x);
    }
  }

  /** Filtering out the dropped entries leaves the kept ones. */
  lemma FilterDroppedIsKept(s: seq<InventoryCategory?>, n: int)
    requires NoDup(s) && 0 <= n <= |s|
    ensures FilterNotIn(s[..n], DroppedUpTo(s, |s|)) == KeptUpTo(s, n)
  {
    forall i | 0 <= i < |s| ensures s[i] in DroppedUpTo(s, |s|) <==> Drop(s, i) {
      DroppedOnlyAt(s, i);
    }
    FilterDroppedPrefix(s, n);
  }

  /** FilterDroppedIsKept by induction on the prefix, given that exactly the dropped entries are among the dropped ones. */
  lemma {:induction false} FilterDroppedPrefix(s: seq<InventoryCategory?>, n: int)
    requires 0 <= n <= |s|
    requires forall i :: 0 <= i < |s| ==> (s[i] in DroppedUpTo(s, |s|) <==> Drop(s, i))
    ensures FilterNotIn(s[..n], DroppedUpTo(s, |s|)) == KeptUpTo(s, n)
  {
    if n > 0 {
      var e := DroppedUpTo(s, |s|);
      var x := s[n - 1];
      FilterDroppedPrefix(s, n - 1);
      var init := s[..n - 1];
      assert s[..n] == init + [x];
      FilterNotInSnoc(init, x, e);
    }
  }

  /** Without duplicates, an entry is among the dropped ones exactly when it is dropped itself. */
  lemma DroppedOnlyAt(s: seq<InventoryCategory?>, i: int)
    requires NoDup(s) && 0 <= i < |s|
    ensures s[i] in DroppedUpTo(s, |s|) <==> Drop(s, i)
  {
    DroppedContents(s, |s|, s[i]);
    if s[i] in DroppedUpTo(s, |s|) {
      var k :| 0 <= k < |s| && Drop(s, k) && s[k] == s[i];
      assert k == i;
    }
  }

  /** No null, and at most one generic category. */
  predicate ValidCategories(s: seq<InventoryCategory?>)
  {
    null !in s && forall i, j :: 0 <= i < j < |s| && IsGeneric(s[i]) ==> !IsGeneric(s[j])
  }

  lemma {:induction false} KeptIsValid(s: seq<InventoryCategory?>, n: int)
    requires 0 <= n <= |s|
    ensures ValidCategories(KeptUpTo(s, n))
  {
    if n > 0 {
      KeptIsValid(s, n - 1);
      var prev := KeptUpTo(s, n - 1);
      if !Drop(s, n - 1) {
        var r := prev + [s[n - 1]];
        forall i, j | 0 <= i < j < |r| && IsGeneric(r[i]) ensures !IsGeneric(r[j]) {
          if j == |prev| && IsGeneric(s[n - 1]) {
            KeptContents(s, n - 1, r[i]);
          }
        }
      }
    }
  }

  /**
   * What BeginPlay keeps: every non-null category that is not generic,
   * and of the generic ones only the first; nothing else.
   */
  lemma CleanedContents(s: seq<InventoryCategory?>)
    ensures ValidCategories(Cleaned(s))
    ensures forall c :: c in Cleaned(s) ==> c in s
    ensures forall c :: c in s && c != null && !c.isAllCategories ==> c in Cleaned(s)
    ensures forall k :: 0 <= k < |s| && IsGeneric(s[k]) && (forall m :: 0 <= m < k ==> !IsGeneric(s[m])) ==> s[k] in Cleaned(s)
  {
    KeptIsValid(s, |s|);
    forall c | c in Cleaned(s) ensures c in s {
      KeptContents(s, |s|, c);
    }
    forall c | c in s && c != null && !c.isAllCategories ensures c in Cleaned(s) {
      var k :| 0 <= k < |s| && s[k] == c;
      KeptContents(s, |s|, c);
    }
    forall k | 0 <= k < |s| && IsGeneric(s[k]) && (forall m :: 0 <= m < k ==> !IsGeneric(s[m])) ensures s[k] in Cleaned(s) {
      KeptContents(s, |s|, s[k]);
    }
  }

  datatype DataValidationResult = Valid | Invalid | NotValidated

  class ActorInventoryManagerComponent {
    var allowedCategories: seq<InventoryCategory?>
    var allowedRarities: seq<ItemRarity?>
    /** bAutoAllowParentCategories. */
    const autoAllowParentCategories: bool
    /** MaxRecursionDepth of AddParentCategory. */
    const maxRecursionDepth: int

    /** Both sets are TSets. */
    predicate Valid()
      reads this
    {
      NoDup(allowedCategories) && NoDup(allowedRarities)
    }

    constructor(maxRecursionDepth: int, autoAllowParentCategories: bool)
      ensures Valid() && allowedCategories == [] && allowedRarities == []
      ensures this.maxRecursionDepth == maxRecursionDepth && this.autoAllowParentCategories == autoAllowParentCategories
    {
      this.maxRecursionDepth := maxRecursionDepth;
      this.autoAllowParentCategories := autoAllowParentCategories;
      allowedCategories := [];
      allowedRarities := [];
    }

    /**
     * BeginPlay: one pass marks null entries and every generic category
     * after the first, then each marked entry is removed.
     */
    method BeginPlay()
      requires Valid()
      modifies this
      ensures Valid()
      ensures allowedCategories == Cleaned(old(allowedCategories))
      ensures allowedRarities == old(allowedRarities)
    {
      var s := allowedCategories;
      var genericCategory: InventoryCategory? := null;
      var invalidCategories: seq<InventoryCategory?> := [];
      var i := 0;
      while i < |s|
        invariant 0 <= i <= |s|
        invariant invalidCategories == DroppedUpTo(s, i)
        invariant (genericCategory != null) <==> exists k :: 0 <= k < i && IsGeneric(s[k])
      {
        var itr := s[i];
        if itr == null {
          invalidCategories := invalidCategories + [itr];
        }
        if itr != null && itr.isAllCategories {
          if genericCategory == null {
            genericCategory := itr;
          } else {
            invalidCategories := invalidCategories + [itr];
          }
        }
        i := i + 1;
      }
      var r := RemoveEachLoop(s, invalidCategories);
      RemoveEachIsFilter(s, invalidCategories);
      FilterDroppedIsKept(s, |s|);
      assert s[..|s|] == s;
      FilterNotInNoDup(s, invalidCategories);
      allowedCategories := r;
    }

    predicate ContainsAllowedCategory(category: InventoryCategory?)
      reads this
    {
      category in allowedCategories
    }

    predicate ContainsAllowedRarity(rarity: ItemRarity?)
      reads this
    {
      rarity in allowedRarities
    }

    /** IsValidCategory (and ValidateCategory, which has the same body): some allowed category has the guid. */
    method IsValidCategory(categoryGuid: Guid) returns (found: bool)
      ensures found <==> exists c :: c in allowedCategories && c != null && c.guid == categoryGuid
    {
      var i := 0;
      while i < |allowedCategories|
        invariant 0 <= i <= |allowedCategories|
        invariant forall k :: 0 <= k < i ==> allowedCategories[k] == null || allowedCategories[k].guid != categoryGuid
      {
        var itr := allowedCategories[i];
        if itr != null && itr.guid == categoryGuid {
          return true;
        }
        i := i + 1;
      }
      return false;
    }

    method ClearAllowedCategories()
      modifies this
      ensures allowedCategories == [] && allowedRarities == old(allowedRarities)
    {
      allowedCategories := [];
    }

    /** SetAllowedCategories: the whole set is replaced. */
    method SetAllowedCategories(categories: seq<InventoryCategory?>)
      requires NoDup(categories)
      modifies this
      ensures allowedCategories == categories && allowedRarities == old(allowedRarities)
    {
      ClearAllowedCategories();
      allowedCategories := categories;
    }

    /** AddAllowedCategory: appended unless already allowed. */
    method AddAllowedCategory(category: InventoryCategory?)
      requires Valid()
      modifies this
      ensures Valid()
      ensures allowedCategories == AddUnique(old(allowedCategories), category)
      ensures allowedRarities == old(allowedRarities)
    {
      if !ContainsAllowedCategory(category) {
        allowedCategories := allowedCategories + [category];
      }
    }

    method AddAllowedCategories(categories: seq<InventoryCategory?>)
      requires Valid()
      modifies this
      ensures Valid()
      ensures allowedCategories == AddEach(old(allowedCategories), categories)
      ensures allowedRarities == old(allowedRarities)
    {
      AddEachContents(allowedCategories, categories);
      allowedCategories := AddEachLoop(allowedCategories, categories);
    }

    /** RemoveAllowedCategory: removes a present entry; an absent one changes nothing. */
    method RemoveAllowedCategory(category: InventoryCategory?)
      requires Valid()
      modifies this
      ensures Valid()
      ensures allowedCategories == Without(old(allowedCategories), category)
      ensures category !in old(allowedCategories) ==> allowedCategories == old(allowedCategories)
      ensures allowedRarities == old(allowedRarities)
    {
      if ContainsAllowedCategory(category) {
        WithoutNoDup(allowedCategories, category);
        allowedCategories := Without(allowedCategories, category);
      } else {
        WithoutAbsent(allowedCategories, category);
      }
    }

    method RemoveAllowedCategories(categories: seq<InventoryCategory?>)
      requires Valid()
      modifies this
      ensures Valid()
      ensures allowedCategories == RemoveEach(old(allowedCategories), categories)
      ensures allowedRarities == old(allowedRarities)
    {
      RemoveEachIsFilter(allowedCategories, categories);
      FilterNotInNoDup(allowedCategories, categories);
      allowedCategories := RemoveEachLoop(allowedCategories, categories);
    }

    method ClearAllowedRarities()
      modifies this
      ensures allowedRarities == [] && allowedCategories == old(allowedCategories)
    {
      allowedRarities := [];
    }

    method SetAllowedRarities(rarities: seq<ItemRarity?>)
      requires NoDup(rarities)
      modifies this
      ensures allowedRarities == rarities && allowedCategories == old(allowedCategories)
    {
      ClearAllowedRarities();
      allowedRarities := rarities;
    }

    method AddAllowedRarity(rarity: ItemRarity?)
      requires Valid()
      modifies this
      ensures Valid()
      ensures allowedRarities == AddUnique(old(allowedRarities), rarity)
      ensures allowedCategories == old(allowedCategories)
    {
      if !ContainsAllowedRarity(rarity) {
        allowedRarities := allowedRarities + [rarity];
      }
    }

    method AddAllowedRarities(rarities: seq<ItemRarity?>)
      requires Valid()
      modifies this
      ensures Valid()
      ensures allowedRarities == AddEach(old(allowedRarities), rarities)
      ensures allowedCategories == old(allowedCategories)
    {
      AddEachContents(allowedRarities, rarities);
      allowedRarities := AddEachLoop(allowedRarities, rarities);
    }

    method RemoveAllowedRarity(rarity: ItemRarity?)
      requires Valid()
      modifies this
      ensures Valid()
      ensures allowedRarities == Without(old(allowedRarities), rarity)
      ensures rarity !in old(allowedRarities) ==> allowedRarities == old(allowedRarities)
      ensures allowedCategories == old(allowedCategories)
    {
      if ContainsAllowedRarity(rarity) {
        WithoutNoDup(allowedRarities, rarity);
        allowedRarities := Without(allowedRarities, rarity);
      } else {
        WithoutAbsent(allowedRarities, rarity);
      }
    }

    method RemoveAllowedRarities(rarities: seq<ItemRarity?>)
      requires Valid()
      modifies this
      ensures Valid()
      ensures allowedRarities == RemoveEach(old(allowedRarities), rarities)
      ensures allowedCategories == old(allowedCategories)
    {
      RemoveEachIsFilter(allowedRarities, rarities);
      FilterNotInNoDup(allowedRarities, rarities);
      allowedRarities := RemoveEachLoop(allowedRarities, rarities);
    }

    /**
     * ValidateCategories: when asked to check the flags, an asset that is
     * not loaded with an owner is accepted unchecked; otherwise a null
     * entry or a second generic category fails the check.
     */
    method ValidateCategories(shouldCheckForFlags: bool, loadedWithOwner: bool) returns (result: bool)
      ensures shouldCheckForFlags && !loadedWithOwner ==> result
      ensures !(shouldCheckForFlags && !loadedWithOwner) ==> (result <==> ValidCategories(allowedCategories))
    {
      if shouldCheckForFlags && !loadedWithOwner {
        return true;
      }
      result := true;
      var s := allowedCategories;
      var genericCategories := 0;
      var i := 0;
      while i < |s|
        invariant 0 <= i <= |s|
        invariant genericCategories >= 0
        invariant genericCategories == 0 <==> forall k :: 0 <= k < i ==> !IsGeneric(s[k])
        invariant genericCategories >= 2 <==> exists a, b :: 0 <= a < b < i && IsGeneric(s[a]) && IsGeneric(s[b])
        invariant result <==> null !in s[..i] && genericCategories < 2
      {
        assert s[..i + 1] == s[..i] + [s[i]];
        if s[i] == null {
          result := false;
        }
        if s[i] != null && s[i].isAllCategories {
          if genericCategories > 0 {
            var a :| 0 <= a < i && IsGeneric(s[a]);
            assert IsGeneric(s[a]) && IsGeneric(s[i]);
          }
          genericCategories := genericCategories + 1;
          if genericCategories > 1 {
            result := false;
          }
        }
        i := i + 1;
      }
      assert s[..|s|] == s;
      if !ValidCategories(s) && null !in s {
        var a, b :| 0 <= a < b < |s| && IsGeneric(s[a]) && IsGeneric(s[b]);
      }
    }

    /** IsDataValid: a failed category validation makes the component Invalid; otherwise the parent decides. */
    method IsDataValid(parent: DataValidationResult) returns (result: DataValidationResult)
      ensures !ValidCategories(allowedCategories) ==> result == Invalid
      ensures ValidCategories(allowedCategories) ==> result == parent
    {
      var ok := ValidateCategories(false, true);
      if !ok {
        return Invalid;
      }
      return parent;
    }

    /**
     * AddParentCategory: beyond the depth bound, or at a category that is
     * already allowed, it stops; otherwise it allows the category, counts
     * one level and continues with the parent.
     */
    method AddParentCategory(category: InventoryCategory, depthIndex: int) returns (newDepth: int)
      requires Valid()
      modifies this
      ensures Valid()
      ensures allowedCategories == old(allowedCategories) + ParentChain(category, old(allowedCategories), depthIndex, maxRecursionDepth)
      ensures newDepth == depthIndex + |ParentChain(category, old(allowedCategories), depthIndex, maxRecursionDepth)|
      ensures allowedRarities == old(allowedRarities)
      decreases if depthIndex > maxRecursionDepth then 0 else maxRecursionDepth - depthIndex + 1
    {
      if depthIndex > maxRecursionDepth {
        return depthIndex;
      }
      if ContainsAllowedCategory(category) {
        return depthIndex;
      }
      ParentChainProperties(category, allowedCategories, depthIndex, maxRecursionDepth);
      AddAllowedCategory(category);
      newDepth := depthIndex + 1;
      if category.parent != null {
        newDepth := AddParentCategory(category.parent, newDepth);
      }
    }

    /** UpdateCategories' first loop: each parent of an allowed category that is not allowed itself, once. */
    method CollectMissingParents() returns (parentCategories: seq<InventoryCategory?>)
      ensures parentCategories == MissingParents(allowedCategories, allowedCategories)
      ensures forall k :: 0 <= k < |allowedCategories| && allowedCategories[k] != null && allowedCategories[k].parent != null ==>
                allowedCategories[k].parent in parentCategories || allowedCategories[k].parent in allowedCategories
    {
      var s := allowedCategories;
      parentCategories := [];
      var i := 0;
      while i < |s|
        invariant 0 <= i <= |s|
        invariant forall k :: 0 <= k < i && s[k] != null && s[k].parent != null ==>
          s[k].parent in parentCategories || s[k].parent in s
        invariant parentCategories == MissingParents(s[..i], s)
      {
        assert s[..i + 1][..i] == s[..i];
        var itr := s[i];
        if itr != null && itr.parent != null && !ContainsAllowedCategory(itr.parent) {
          parentCategories := AddUnique(parentCategories, itr.parent);
        }
        i := i + 1;
      }
      assert s[..|s|] == s;
    }

    /**
     * UpdateCategories: with auto-allowing on, the parents of the allowed
     * categories that are not allowed yet are collected, and each still
     * missing one is allowed with its ancestors, starting at depth 1.
     */
    method UpdateCategories()
      requires Valid()
      modifies this
      ensures Valid()
      ensures old(allowedCategories) <= allowedCategories
      ensures !autoAllowParentCategories ==> allowedCategories == old(allowedCategories)
      ensures autoAllowParentCategories && maxRecursionDepth >= 1 ==>
        forall c :: c in old(allowedCategories) && c != null && c.parent != null ==> c.parent in allowedCategories
      ensures autoAllowParentCategories ==>
        allowedCategories == AllowChains(MissingParents(old(allowedCategories), old(allowedCategories)),
                                         old(allowedCategories), maxRecursionDepth)
      ensures forall x :: x in allowedCategories && x !in old(allowedCategories) ==>
                exists e :: e in old(allowedCategories) && x in Ancestors(e, Max(0, maxRecursionDepth))
      ensures allowedRarities == old(allowedRarities)
    {
      if !autoAllowParentCategories {
        return;
      }
      var s := allowedCategories;
      var parentCategories := CollectMissingParents();
      var j := 0;
      while j < |parentCategories|
        invariant 0 <= j <= |parentCategories|
        invariant NoDup(allowedCategories) && s <= allowedCategories
        invariant allowedRarities == old(allowedRarities)
        invariant maxRecursionDepth >= 1 ==> forall k :: 0 <= k < j ==> parentCategories[k] in allowedCategories
        invariant AllowChains(parentCategories[j..], allowedCategories, maxRecursionDepth)
                  == AllowChains(parentCategories, s, maxRecursionDepth)
      {
        var p := parentCategories[j];
        assert p in parentCategories;
        assert parentCategories[j..][1..] == parentCategories[j + 1..];
        if ContainsAllowedCategory(p) {
          assert allowedCategories + ParentChain(p, allowedCategories, 1, maxRecursionDepth) == allowedCategories;
        } else {
          ghost var before := allowedCategories;
          var searchDepth := AddParentCategory(p, 1);
          ParentChainProperties(p, before, 1, maxRecursionDepth);
          if maxRecursionDepth >= 1 {
            assert allowedCategories[|before|] == p;
          }
        }
        j := j + 1;
      }
      assert parentCategories[j..] == [];
      assert s[..|s|] == s;
      forall x | x in allowedCategories && x !in s
        ensures exists e :: e in s && x in Ancestors(e, Max(0, maxRecursionDepth))
      {
        AddedIsAncestor(s, maxRecursionDepth, x);
      }
    }
  }

  /**
   * The parents UpdateCategories collects from the allowed categories `s`:
   * in order, each non-allowed parent once.
   */
  function MissingParents(s: seq<InventoryCategory?>, allowed: seq<InventoryCategory?>): (r: seq<InventoryCategory?>)
    ensures forall p :: p in r ==> p != null && p !in allowed
    decreases |s|
  {
    if s == [] then []
    else
      var acc := MissingParents(s[..|s| - 1], allowed);
      var itr := s[|s| - 1];
      if itr != null && itr.parent != null && itr.parent !in allowed then AddUnique(acc, itr.parent) else acc
  }

  /** Every collected parent is the parent of one of the categories it was collected from. */
  lemma {:induction false} MissingParentsAreParents(s: seq<InventoryCategory?>, allowed: seq<InventoryCategory?>, p: InventoryCategory?)
    requires p in MissingParents(s, allowed)
    ensures exists e :: e in s && e != null && e.parent == p
    decreases |s|
  {
    var init := s[..|s| - 1];
    var itr := s[|s| - 1];
    if p in MissingParents(init, allowed) {
      MissingParentsAreParents(init, allowed, p);
      var e :| e in init && e != null && e.parent == p;
      assert e in s;
    } else {
      assert itr in s;
    }
  }

  /** The allowing loop of UpdateCategories: AddParentCategory at depth 1 for each collected parent in turn. */
  function AllowChains(parents: seq<InventoryCategory?>, allowed: seq<InventoryCategory?>, maxDepth: int): seq<InventoryCategory?>
    decreases |parents|
  {
    if parents == [] then allowed
    else if parents[0] == null then AllowChains(parents[1..], allowed, maxDepth)
    else AllowChains(parents[1..], allowed + ParentChain(parents[0], allowed, 1, maxDepth), maxDepth)
  }

  /** The first `n` ancestors of a category, nearest first. */
  function Ancestors(c: InventoryCategory, n: nat): seq<InventoryCategory?>
  {
    if n == 0 || c.parent == null then [] else [c.parent] + Ancestors(c.parent, n - 1)
  }

  /** What AddParentCategory allows from a category at a depth is the category itself or one of its ancestors within the remaining depth. */
  lemma {:induction false} ChainIsAncestry(c: InventoryCategory, allowed: seq<InventoryCategory?>, depth: int, maxDepth: int, x: InventoryCategory?)
    requires x in ParentChain(c, allowed, depth, maxDepth)
    ensures x == c || x in Ancestors(c, Max(0, maxDepth - depth))
    decreases if depth > maxDepth then 0 else maxDepth - depth + 1
  {
    if x != c {
      var tail := ParentChain(c.parent, allowed + [c], depth + 1, maxDepth);
      assert x in tail;
      ChainIsAncestry(c.parent, allowed + [c], depth + 1, maxDepth, x);
    }
  }

  /** Everything the allowing loop adds is one of the listed parents or one of its ancestors. */
  lemma {:induction false} AllowChainsAncestry(parents: seq<InventoryCategory?>, allowed: seq<InventoryCategory?>, maxDepth: int, x: InventoryCategory?)
    requires x in AllowChains(parents, allowed, maxDepth) && x !in allowed
    ensures maxDepth >= 1
    ensures exists p :: p in parents && (x == p || x in Ancestors(p, Max(0, maxDepth - 1)))
    decreases |parents|
  {
    var next := if parents[0] == null then allowed else allowed + ParentChain(parents[0], allowed, 1, maxDepth);
    if x in next {
      ChainIsAncestry(parents[0], allowed, 1, maxDepth, x);
      assert parents[0] in parents;
    } else {
      AllowChainsAncestry(parents[1..], next, maxDepth, x);
      var p :| p in parents[1..] && (x == p || x in Ancestors(p, Max(0, maxDepth - 1)));
      assert p in parents;
    }
  }

  /**
   * Every category UpdateCategories adds to the allowed ones `s` is an
   * ancestor, at most maxDepth generations up, of a category that was
   * already allowed.
   */
  lemma AddedIsAncestor(s: seq<InventoryCategory?>, maxDepth: int, x: InventoryCategory?)
    requires x in AllowChains(MissingParents(s, s), s, maxDepth) && x !in s
    ensures exists e :: e in s && x in Ancestors(e, Max(0, maxDepth))
  {
    AllowChainsAncestry(MissingParents(s, s), s, maxDepth, x);
    var p :| p in MissingParents(s, s) && (x == p || x in Ancestors(p, Max(0, maxDepth - 1)));
    MissingParentsAreParents(s, s, p);
    var e :| e in s && e != null && e.parent == p;
    assert Ancestors(e, Max(0, maxDepth)) == [p] + Ancestors(p, Max(0, maxDepth - 1));
  }

  /**
   * The categories AddParentCategory allows, in order: the category and
   * then its ancestors, until one is already allowed, there is no parent,
   * or the depth passes maxDepth.
   */
  function ParentChain(c: InventoryCategory, allowed: seq<InventoryCategory?>, depth: int, maxDepth: int): seq<InventoryCategory?>
    decreases if depth > maxDepth then 0 else maxDepth - depth + 1
  {
    if depth > maxDepth then []
    else if c in allowed then []
    else [c] + (if c.parent == null then [] else ParentChain(c.parent, allowed + [c], depth + 1, maxDepth))
  }

  /**
   * The chain starts at the category when it is within depth and not yet
   * allowed, runs up parent links, never exceeds the depth budget, holds
   * only categories that were not allowed, and keeps the set duplicate-free.
   */
  lemma {:induction false} ParentChainProperties(c: InventoryCategory, allowed: seq<InventoryCategory?>, depth: int, maxDepth: int)
    ensures var r := ParentChain(c, allowed, depth, maxDepth);
      && (depth <= maxDepth && c !in allowed ==> |r| > 0 && r[0] == c)
      && (depth > maxDepth || c in allowed ==> r == [])
      && |r| <= Max(0, maxDepth - depth + 1)
      && (forall k :: 0 <= k < |r| - 1 ==> r[k] != null && r[k + 1] == r[k].parent)
      && (forall x :: x in r ==> x !in allowed && x != null)
      && (NoDup(allowed) ==> NoDup(allowed + r))
    decreases if depth > maxDepth then 0 else maxDepth - depth + 1
  {
    if depth <= maxDepth && c !in allowed && c.parent != null {
      var next := allowed + [c];
      ParentChainProperties(c.parent, next, depth + 1, maxDepth);
      var tail := ParentChain(c.parent, next, depth + 1, maxDepth);
      var r := [c] + tail;
      assert r == ParentChain(c, allowed, depth, maxDepth);
      forall k | 0 <= k < |r| - 1 ensures r[k] != null && r[k + 1] == r[k].parent {
        if k > 0 {
          assert r[k] == tail[k - 1] && r[k + 1] == tail[k];
        }
      }
      if NoDup(allowed) {
        NoDupSnoc(allowed, c);
        assert allowed + r == next + tail;
      }
    } else if depth <= maxDepth && c !in allowed {
      if NoDup(allowed) {
        NoDupSnoc(allowed, c);
      }
    }
  }

  /** The cleanup BeginPlay performs is exactly what the editor validation asks for. */
  lemma BeginPlayPassesValidation(s: seq<InventoryCategory?>)
    ensures ValidCategories(Cleaned(s))
    ensures ValidCategories(s) ==> Cleaned(s) == s
  {
    CleanedContents(s);
    if ValidCategories(s) {
      KeptAllWhenValid(s, |s|);
    }
  }

  lemma {:induction false} KeptAllWhenValid(s: seq<InventoryCategory?>, n: int)
    requires ValidCategories(s) && 0 <= n <= |s|
    ensures KeptUpTo(s, n) == s[..n]
  {
    if n > 0 {
      KeptAllWhenValid(s, n - 1);
      assert s[n - 1] in s;
      assert s[..n] == s[..n - 1] + [s[n - 1]];
    }
  }
}
