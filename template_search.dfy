// The template editor's search box and filter menu: FMounteaTemplateFilters
// (which templates the list shows) and SMounteaInventoryTemplateSearchFilter
// (the search text, the category and rarity toggles, and the text match).
module TemplateSearch {
  import opened Common

  /**
   * A TSet<FString>: FString keys hash and compare ignoring case, so no
   * two entries are equal ignoring case and lookups ignore case too.
   */
  type StringSet = seq<string>

  predicate Has(s: StringSet, x: string)
  {
    exists k :: 0 <= k < |s| && EqualsCI(s[k], x)
  }

  predicate UniqueCI(s: seq<string>)
  {
    forall a, b :: 0 <= a < b < |s| ==> !EqualsCI(s[a], s[b])
  }

  /** Membership in a concatenation. */
  lemma HasConcat(a: StringSet, b: StringSet)
    ensures forall y :: Has(a + b, y) <==> Has(a, y) || Has(b, y)
  {
    forall y ensures Has(a + b, y) ==> Has(a, y) || Has(b, y) {
      if Has(a + b, y) {
        var k :| 0 <= k < |a + b| && EqualsCI((a + b)[k], y);
        if k >= |a| {
          assert b[k - |a|] == (a + b)[k];
        }
      }
    }
    forall y ensures Has(b, y) ==> Has(a + b, y) {
      if Has(b, y) {
        var k :| 0 <= k < |b| && EqualsCI(b[k], y);
        assert (a + b)[k + |a|] == b[k];
      }
    }
    forall y ensures Has(a, y) ==> Has(a + b, y) {
      if Has(a, y) {
        var k :| 0 <= k < |a| && EqualsCI(a[k], y);
        assert (a + b)[k] == a[k];
      }
    }
  }

  /** Membership in a one-key set. */
  lemma HasSingleton(x: string)
    ensures forall y :: Has([x], y) <==> EqualsCI(x, y)
  {
    forall y ensures Has([x], y) ==> EqualsCI(x, y) {
      if Has([x], y) {
        var k :| 0 <= k < 1 && EqualsCI([x][k], y);
      }
    }
    forall y ensures EqualsCI(x, y) ==> Has([x], y) {
      if EqualsCI(x, y) {
        assert EqualsCI([x][0], y);
      }
    }
  }

  /** The keys after the first of a set are a set without the first key. */
  lemma UniqueTailCI(s: StringSet)
    requires |s| > 0 && UniqueCI(s)
    ensures UniqueCI(s[1..]) && !Has(s[1..], s[0])
  {
    forall a, b | 0 <= a < b < |s[1..]| ensures !EqualsCI(s[1..][a], s[1..][b]) {
      assert s[1..][a] == s[a + 1] && s[1..][b] == s[b + 1];
    }
    forall k | 0 <= k < |s[1..]| ensures !EqualsCI(s[1..][k], s[0]) {
      assert s[1..][k] == s[k + 1];
    }
  }

  /** A key missing from a set can be put in front of it. */
  lemma UniqueConsCI(h: string, rest: StringSet)
    requires UniqueCI(rest) && !Has(rest, h)
    ensures UniqueCI([h] + rest)
  {
    var r := [h] + rest;
    forall a, b | 0 <= a < b < |r| ensures !EqualsCI(r[a], r[b]) {
      assert r[b] == rest[b - 1];
      if a > 0 {
        assert r[a] == rest[a - 1];
      }
    }
  }

  /** TSet::Add: a key already present, ignoring case, is not added again. */
  function SetAdd(s: StringSet, x: string): (r: StringSet)
    ensures forall y :: Has(r, y) <==> Has(s, y) || EqualsCI(x, y)
    ensures UniqueCI(s) ==> UniqueCI(r)
    ensures !Has(s, x) ==> |r| == |s| + 1
  {
    HasConcat(s, [x]);
    HasSingleton(x);
    if Has(s, x) then s else s + [x]
  }

  /** TSet::Remove: drops the key equal, ignoring case, to x. */
  function SetRemove(s: StringSet, x: string): (r: StringSet)
    ensures forall y :: Has(r, y) <==> Has(s, y) && !EqualsCI(x, y)
    ensures UniqueCI(s) ==> UniqueCI(r)
  {
    if s == [] then []
    else
      var rest := SetRemove(s[1..], x);
      assert s == [s[0]] + s[1..];
      HasConcat([s[0]], s[1..]);
      HasSingleton(s[0]);
      HasConcat([s[0]], rest);
      if EqualsCI(s[0], x) then rest
      else
        assert UniqueCI(s) ==> UniqueCI([s[0]] + rest) by {
          if UniqueCI(s) {
            UniqueTailCI(s);
            UniqueConsCI(s[0], rest);
          }
        }
        [s[0]] + rest
  }

  /** TSet<FString>(TArray): the entries of the array, one per key ignoring case. */
  function SetFromArray(a: seq<string>): (r: StringSet)
    ensures forall y :: Has(r, y) <==> Has(a, y)
    ensures UniqueCI(r)
    ensures UniqueCI(a) ==> |r| == |a|
  {
    if a == [] then []
    else
      var init := a[..|a| - 1];
      var rest := SetFromArray(init);
      assert forall y :: Has(a, y) <==> Has(init, y) || EqualsCI(a[|a| - 1], y) by {
        forall y ensures Has(a, y) ==> Has(init, y) || EqualsCI(a[|a| - 1], y) {
          if Has(a, y) {
            var k :| 0 <= k < |a| && EqualsCI(a[k], y);
            if k < |a| - 1 {
              assert init[k] == a[k];
            }
          }
        }
      }
      assert UniqueCI(a) ==> UniqueCI(init) && !Has(init, a[|a| - 1]);
      SetAdd(rest, a[|a| - 1])
  }

  /** ToggleCategory / ToggleRarity: remove the key when present, add it otherwise. */
  function Toggle(s: StringSet, x: string): (r: StringSet)
    ensures UniqueCI(s) ==> UniqueCI(r)
  {
    if Has(s, x) then SetRemove(s, x) else SetAdd(s, x)
  }

  /** A toggle flips the membership of its key and of nothing else. */
  lemma ToggleFlips(s: StringSet, x: string, y: string)
    ensures Has(Toggle(s, x), y) <==> if EqualsCI(x, y) then !Has(s, y) else Has(s, y)
  {
  }

  /** Toggling the same key twice gives back the same membership. */
  lemma ToggleTwice(s: StringSet, x: string, y: string)
    ensures Has(Toggle(Toggle(s, x), x), y) <==> Has(s, y)
  {
    ToggleFlips(s, x, y);
    ToggleFlips(Toggle(s, x), x, y);
  }

  datatype Filters = Filters(
    showDirty: bool, showClean: bool,
    byName: bool, byGuid: bool, byCategory: bool, byRarity: bool,
    allowedCategories: StringSet, allowedRarities: StringSet)

  /**
   * The member defaults and Reset: dirty and clean shown, name and guid
   * search on, category and rarity search off, every available category
   * and rarity allowed.
   */
  function DefaultFilters(categories: seq<string>, rarities: seq<string>): (r: Filters)
    ensures r.showDirty && r.showClean && r.byName && r.byGuid && !r.byCategory && !r.byRarity
    ensures forall y :: Has(r.allowedCategories, y) <==> Has(categories, y)
    ensures forall y :: Has(r.allowedRarities, y) <==> Has(rarities, y)
  {
    Filters(true, true, true, true, false, false, SetFromArray(categories), SetFromArray(rarities))
  }

  /** IsDefault: the flags are the defaults and the allowed sets have as many keys as are available. */
  predicate IsDefault(f: Filters, categories: seq<string>, rarities: seq<string>)
  {
    f.showDirty && f.showClean && f.byName && f.byGuid && !f.byCategory && !f.byRarity
    && |f.allowedCategories| == |categories| && |f.allowedRarities| == |rarities|
  }

  /** With available keys distinct (they are the keys of a map), the defaults are default. */
  lemma ResetIsDefault(categories: seq<string>, rarities: seq<string>)
    requires UniqueCI(categories) && UniqueCI(rarities)
    ensures IsDefault(DefaultFilters(categories, rarities), categories, rarities)
  {
  }

  /**
   * IsDefault counts keys and does not compare them: allowing as many
   * categories as are available reads as default even when an available
   * category is no longer allowed.
   */
  lemma IsDefaultCountsOnly(categories: seq<string>, rarities: seq<string>, allowed: StringSet, missing: string)
    requires UniqueCI(rarities) && |allowed| == |categories| && Has(categories, missing) && !Has(allowed, missing)
    ensures IsDefault(DefaultFilters(categories, rarities).(allowedCategories := allowed), categories, rarities)
    ensures Has(DefaultFilters(categories, rarities).allowedCategories, missing)
  {
  }

  /** PassesFilter: the dirty/clean switch, then the template's category and rarity must be allowed. */
  predicate PassesFilter(f: Filters, isDirty: bool, category: string, rarity: string)
  {
    (isDirty ==> f.showDirty) && (!isDirty ==> f.showClean)
    && Has(f.allowedCategories, category) && Has(f.allowedRarities, rarity)
  }

  /** The defaults let through exactly the templates whose category and rarity are available. */
  lemma DefaultPasses(categories: seq<string>, rarities: seq<string>, isDirty: bool, category: string, rarity: string)
    ensures PassesFilter(DefaultFilters(categories, rarities), isDirty, category, rarity)
            <==> Has(categories, category) && Has(rarities, rarity)
  {
  }

  /** What DoesTemplateMatchSearch reads of a template; `guidText` is its guid as FGuid::ToString prints it. */
  datatype TemplateInfo = TemplateInfo(displayName: string, pathName: string, guidText: string, category: string, rarity: string)

  class SearchFilterWidget {
    const categories: seq<string>
    const rarities: seq<string>
    var filters: Filters
    var searchText: string

    /** Construct: the allowed sets start as every available key. */
    constructor(categories: seq<string>, rarities: seq<string>)
      ensures this.categories == categories && this.rarities == rarities
      ensures filters == DefaultFilters(categories, rarities) && searchText == ""
    {
      this.categories := categories;
      this.rarities := rarities;
      filters := DefaultFilters(categories, rarities);
      searchText := "";
    }

    /** OnResetFilters: the filters go back to the defaults; the text stays. */
    method OnResetFilters()
      modifies this
      ensures filters == DefaultFilters(categories, rarities) && searchText == old(searchText)
    {
      filters := DefaultFilters(categories, rarities);
    }

    method OnSearchChanged(text: string)
      modifies this
      ensures searchText == text && filters == old(filters)
    {
      searchText := text;
    }

    /** ClearSearch: the text becomes empty, so every valid template matches again. */
    method ClearSearch()
      modifies this
      ensures searchText == "" && filters == old(filters)
    {
      searchText := "";
    }

    method ToggleCategory(category: string)
      modifies this
      ensures filters == old(filters).(allowedCategories := Toggle(old(filters).allowedCategories, category))
      ensures searchText == old(searchText)
    {
      filters := filters.(allowedCategories := Toggle(filters.allowedCategories, category));
    }

    method ToggleRarity(rarity: string)
      modifies this
      ensures filters == old(filters).(allowedRarities := Toggle(old(filters).allowedRarities, rarity))
      ensures searchText == old(searchText)
    {
      filters := filters.(allowedRarities := Toggle(filters.allowedRarities, rarity));
    }

    predicate HasSearchText()
      reads this
    {
      !IsBlank(searchText)
    }

    /**
     * DoesTemplateMatchSearch: a stale template never matches; blank text
     * matches every template; otherwise an allowed category or rarity with
     * its search switched on matches outright, and the other fields match
     * when they contain the text, ignoring case.
     */
    predicate DoesTemplateMatchSearch(t: Option<TemplateInfo>)
      reads this
    {
      if t.None? then false
      else if IsBlank(searchText) then true
      else
        var search := Lower(searchText);
        var x := t.value;
        (filters.byCategory && Has(filters.allowedCategories, x.category))
        || (filters.byRarity && Has(filters.allowedRarities, x.rarity))
        || (filters.byName && ContainsCI(Lower(x.displayName), search))
        || (filters.byName && ContainsCI(Lower(x.pathName), search))
        || (filters.byGuid && ContainsCI(Lower(x.guidText), search))
        || (filters.byCategory && ContainsCI(Lower(x.category), search))
        || (filters.byRarity && ContainsCI(Lower(x.rarity), search))
    }
  }

  /** After ClearSearch every valid template matches, and a stale one never does. */
  lemma ClearedSearchMatchesAll(w: SearchFilterWidget, t: TemplateInfo)
    requires w.searchText == ""
    ensures w.DoesTemplateMatchSearch(Some(t)) && !w.DoesTemplateMatchSearch(None)
  {
  }

  /** With every search switched off, a non-blank text matches nothing. */
  lemma NoSearchMatchesNothing(w: SearchFilterWidget, t: TemplateInfo)
    requires !IsBlank(w.searchText)
    requires !w.filters.byName && !w.filters.byGuid && !w.filters.byCategory && !w.filters.byRarity
    ensures !w.DoesTemplateMatchSearch(Some(t))
  {
  }

  /** With category search on, a template of an allowed category matches whatever the text. */
  lemma AllowedCategoryMatchesAnyText(w: SearchFilterWidget, t: TemplateInfo)
    requires w.filters.byCategory && Has(w.filters.allowedCategories, t.category)
    ensures w.DoesTemplateMatchSearch(Some(t))
  {
  }
}
