// SMounteaInventoryTemplateEditor: the template list as a tree of
// categories, its filtered view, how one template is labelled, the check
// run before a template is saved, and the set of templates with unsaved
// changes.
module TemplateEditor {
  import opened Common
  import TemplateSearch

  /**
   * A template asset as the editor sees it: `id` stands for the object
   * pointer, `info` for the fields the search reads, `objectName` for
   * GetName, `package` for its package's name (None without a package).
   */
  datatype TemplateRec = TemplateRec(id: nat, info: TemplateSearch.TemplateInfo, objectName: string, transient: bool, package: Option<string>)

  /** A category node of the tree and the template nodes under it. */
  datatype CategoryNode = CategoryNode(name: string, children: seq<TemplateRec>)

  // ---------------------------------------------------------------------
  // Ordering of category names: FString's operator< compares ignoring case.

  /** Lexicographic order of character sequences, a proper prefix first. */
  predicate LexLess(a: string, b: string)
  {
    if |a| == 0 then |b| > 0
    else if |b| == 0 then false
    else if a[0] != b[0] then a[0] < b[0]
    else LexLess(a[1..], b[1..])
  }

  lemma {:induction false} LexIrreflexive(a: string)
    ensures !LexLess(a, a)
  {
    if |a| > 0 {
      LexIrreflexive(a[1..]);
    }
  }

  lemma {:induction false} LexTransitive(a: string, b: string, c: string)
    requires LexLess(a, b) && LexLess(b, c)
    ensures LexLess(a, c)
  {
    if |a| > 0 && a[0] == b[0] && b[0] == c[0] {
      LexTransitive(a[1..], b[1..], c[1..]);
    }
  }

  lemma {:induction false} LexTotal(a: string, b: string)
    ensures a == b || LexLess(a, b) || LexLess(b, a)
  {
    if |a| > 0 && |b| > 0 && a[0] == b[0] {
      LexTotal(a[1..], b[1..]);
      if a[1..] == b[1..] {
        assert a == [a[0]] + a[1..] && b == [b[0]] + b[1..];
      }
    }
  }

  lemma {:induction false} LexAsymmetric(a: string, b: string)
    requires LexLess(a, b)
    ensures !LexLess(b, a)
  {
    if |a| > 0 && |b| > 0 && a[0] == b[0] {
      LexAsymmetric(a[1..], b[1..]);
    }
  }

  /** A category sorts before another: TreeRootItems.Sort's predicate. */
  predicate NameLess(x: CategoryNode, y: CategoryNode)
  {
    LexLess(Lower(x.name), Lower(y.name))
  }

  predicate Sorted(s: seq<CategoryNode>)
  {
    forall i, j :: 0 <= i < j < |s| ==> !NameLess(s[j], s[i])
  }

  /** No two categories whose names are equal ignoring case (the keys of the category map). */
  predicate NamesUnique(s: seq<CategoryNode>)
  {
    forall i, j :: 0 <= i < j < |s| ==> !EqualsCI(s[i].name, s[j].name)
  }

  /** Inserting before the first category that does not sort before x. */
  function Insert(x: CategoryNode, s: seq<CategoryNode>): (r: seq<CategoryNode>)
    ensures multiset(r) == multiset(s) + multiset{x}
  {
    if s == [] then [x]
    else if !NameLess(s[0], x) then [x] + s
    else
      assert s == [s[0]] + s[1..];
      [s[0]] + Insert(x, s[1..])
  }

  lemma SortedTail(s: seq<CategoryNode>)
    requires |s| > 0 && Sorted(s)
    ensures Sorted(s[1..])
  {
    forall i, j | 0 <= i < j < |s[1..]| ensures !NameLess(s[1..][j], s[1..][i]) {
      assert s[1..][i] == s[i + 1] && s[1..][j] == s[j + 1];
    }
  }

  lemma UniqueTail(s: seq<CategoryNode>)
    requires |s| > 0 && NamesUnique(s)
    ensures NamesUnique(s[1..])
  {
    forall i, j | 0 <= i < j < |s[1..]| ensures !EqualsCI(s[1..][i].name, s[1..][j].name) {
      assert s[1..][i] == s[i + 1] && s[1..][j] == s[j + 1];
    }
  }

  /** An element of an insertion is x or an element of s. */
  lemma InsertMember(x: CategoryNode, s: seq<CategoryNode>, y: CategoryNode)
    requires y in Insert(x, s)
    ensures y == x || y in s
  {
    assert y in multiset(Insert(x, s));
  }

  /** Putting x before a category it does not follow keeps the order. */
  lemma InsertFrontSorted(x: CategoryNode, s: seq<CategoryNode>)
    requires |s| > 0 && Sorted(s) && !NameLess(s[0], x)
    ensures Sorted([x] + s)
  {
    var r := [x] + s;
    forall i, j | 0 <= i < j < |r| ensures !NameLess(r[j], r[i]) {
      if i == 0 {
        assert r[j] == s[j - 1];
        if NameLess(r[j], x) && j - 1 > 0 {
          assert !NameLess(s[j - 1], s[0]);
          LexTotal(Lower(s[j - 1].name), Lower(s[0].name));
          if Lower(s[j - 1].name) != Lower(s[0].name) {
            LexTransitive(Lower(s[0].name), Lower(s[j - 1].name), Lower(x.name));
          }
        }
      } else {
        assert r[i] == s[i - 1] && r[j] == s[j - 1];
      }
    }
  }

  lemma {:induction false} InsertSorted(x: CategoryNode, s: seq<CategoryNode>)
    requires Sorted(s)
    ensures Sorted(Insert(x, s))
  {
    if s != [] {
      if !NameLess(s[0], x) {
        InsertFrontSorted(x, s);
      } else {
        SortedTail(s);
        InsertSorted(x, s[1..]);
        var rest := Insert(x, s[1..]);
        forall e | e in rest ensures !NameLess(e, s[0]) {
          InsertMember(x, s[1..], e);
          if e == x {
            LexAsymmetric(Lower(s[0].name), Lower(x.name));
          } else {
            var k :| 0 <= k < |s[1..]| && s[1..][k] == e;
            assert s[k + 1] == e;
          }
        }
        ConsSorted(s[0], rest);
      }
    }
  }

  /** A category that no later one sorts before can head a sorted list. */
  lemma ConsSorted(y: CategoryNode, rest: seq<CategoryNode>)
    requires Sorted(rest) && forall e :: e in rest ==> !NameLess(e, y)
    ensures Sorted([y] + rest)
  {
    var r := [y] + rest;
    forall i, j | 0 <= i < j < |r| ensures !NameLess(r[j], r[i]) {
      assert r[j] == rest[j - 1];
      if i > 0 {
        assert r[i] == rest[i - 1];
      }
    }
  }

  lemma {:induction false} InsertUnique(x: CategoryNode, s: seq<CategoryNode>)
    requires NamesUnique(s) && forall y :: y in s ==> !EqualsCI(y.name, x.name)
    ensures NamesUnique(Insert(x, s))
  {
    if s != [] && NameLess(s[0], x) {
      UniqueTail(s);
      InsertUnique(x, s[1..]);
      var rest := Insert(x, s[1..]);
      var r := [s[0]] + rest;
      forall i, j | 0 <= i < j < |r| ensures !EqualsCI(r[i].name, r[j].name) {
        if i == 0 {
          assert r[j] in rest;
          InsertMember(x, s[1..], r[j]);
          if r[j] != x {
            var k :| 0 <= k < |s[1..]| && s[1..][k] == r[j];
            assert s[k + 1] == r[j];
          }
        } else {
          assert r[i] == rest[i - 1] && r[j] == rest[j - 1];
        }
      }
    }
  }

  /** TreeRootItems.Sort by category name, as insertion sort. */
  function SortByName(s: seq<CategoryNode>): (r: seq<CategoryNode>)
    ensures multiset(r) == multiset(s)
  {
    if s == [] then []
    else
      assert s == [s[0]] + s[1..];
      Insert(s[0], SortByName(s[1..]))
  }

  /** The sorted tree is in name order, and keeps names unique when they were. */
  lemma {:induction false} SortByNameProperties(s: seq<CategoryNode>)
    ensures Sorted(SortByName(s))
    ensures NamesUnique(s) ==> NamesUnique(SortByName(s))
  {
    if s != [] {
      SortByNameProperties(s[1..]);
      var rest := SortByName(s[1..]);
      InsertSorted(s[0], rest);
      if NamesUnique(s) {
        UniqueTail(s);
        forall y | y in rest ensures !EqualsCI(y.name, s[0].name) {
          assert y in multiset(rest);
          var k :| 0 <= k < |s[1..]| && s[1..][k] == y;
          assert s[k + 1] == y;
        }
        InsertUnique(s[0], rest);
      }
    }
  }

  /** Sorted with unique names: each category's name sorts strictly before every later one. */
  lemma SortedStrictly(s: seq<CategoryNode>)
    requires Sorted(s) && NamesUnique(s)
    ensures forall i, j :: 0 <= i < j < |s| ==> NameLess(s[i], s[j])
  {
    forall i, j | 0 <= i < j < |s| ensures NameLess(s[i], s[j]) {
      LexTotal(Lower(s[i].name), Lower(s[j].name));
    }
  }

  // ---------------------------------------------------------------------
  // Grouping templates by category.

  /** The category map's lookup: the node whose name equals `name` ignoring case, or -1. */
  function FindCategory(g: seq<CategoryNode>, name: string): (r: int)
    ensures -1 <= r < |g|
    ensures r == -1 <==> forall k :: 0 <= k < |g| ==> !EqualsCI(g[k].name, name)
    ensures r >= 0 ==> EqualsCI(g[r].name, name)
  {
    if g == [] then -1
    else if EqualsCI(g[|g| - 1].name, name) then |g| - 1
    else FindCategory(g[..|g| - 1], name)
  }

  /** One template placed: a new category node for a new category, else a child of its node. */
  function Place(g: seq<CategoryNode>, t: TemplateRec): seq<CategoryNode>
  {
    var k := FindCategory(g, t.info.category);
    if k == -1 then g + [CategoryNode(t.info.category, [t])]
    else g[k := g[k].(children := g[k].children + [t])]
  }

  /** The tree before sorting: the valid templates placed in order. */
  function Group(ts: seq<Option<TemplateRec>>): seq<CategoryNode>
  {
    if ts == [] then []
    else
      var g := Group(ts[..|ts| - 1]);
      var t := ts[|ts| - 1];
      if t.None? then g else Place(g, t.value)
  }

  /** RebuildTreeStructure's loop: each valid template added to its category, a new category appended when none matches. */
  method GroupTemplates(ts: seq<Option<TemplateRec>>) returns (roots: seq<CategoryNode>)
    ensures roots == Group(ts)
  {
    roots := [];
    var i := 0;
    while i < |ts|
      invariant 0 <= i <= |ts|
      invariant roots == Group(ts[..i])
    {
      assert ts[..i + 1][..i] == ts[..i];
      var t := ts[i];
      if t.Some? {
        var g := roots;
        var category := t.value.info.category;
        var k := FindCategory(roots, category);
        if k == -1 {
          roots := roots + [CategoryNode(category, [])];
          k := |roots| - 1;
          assert roots[k].children + [t.value] == [t.value];
          roots := roots[k := roots[k].(children := roots[k].children + [t.value])];
          assert roots == g + [CategoryNode(category, [t.value])];
        } else {
          roots := roots[k := roots[k].(children := roots[k].children + [t.value])];
        }
        assert roots == Place(g, t.value);
      }
      i := i + 1;
    }
    assert ts[..|ts|] == ts;
  }

  /** What the tree promises about a list of templates. */
  ghost predicate Grouped(g: seq<CategoryNode>, ts: seq<Option<TemplateRec>>)
  {
    NamesUnique(g) && ChildrenBelong(g, ts) && AllPlaced(g, ts)
  }

  /** Every category is non-empty and holds only valid templates of that category. */
  ghost predicate ChildrenBelong(g: seq<CategoryNode>, ts: seq<Option<TemplateRec>>)
  {
    forall k :: 0 <= k < |g| ==>
      |g[k].children| > 0 && forall c :: c in g[k].children ==> Some(c) in ts && EqualsCI(c.info.category, g[k].name)
  }

  /** Every valid template is under some category. */
  ghost predicate AllPlaced(g: seq<CategoryNode>, ts: seq<Option<TemplateRec>>)
  {
    forall t :: Some(t) in ts ==> exists k :: 0 <= k < |g| && t in g[k].children
  }

  lemma PlaceKeepsGrouped(g: seq<CategoryNode>, ts: seq<Option<TemplateRec>>, t: TemplateRec)
    requires Grouped(g, ts)
    ensures Grouped(Place(g, t), ts + [Some(t)])
  {
    var ts' := ts + [Some(t)];
    var g' := Place(g, t);
    var k := FindCategory(g, t.info.category);
    forall x | Some(x) in ts ensures Some(x) in ts' {
      var j :| 0 <= j < |ts| && ts[j] == Some(x);
      assert ts'[j] == ts[j];
    }
    assert ts'[|ts|] == Some(t);
    if k == -1 {
      assert g'[|g|] == CategoryNode(t.info.category, [t]);
      forall x | Some(x) in ts' ensures exists j :: 0 <= j < |g'| && x in g'[j].children {
        if x != t {
          assert Some(x) in ts;
          var j :| 0 <= j < |g| && x in g[j].children;
          assert g'[j] == g[j];
        } else {
          assert x in g'[|g|].children;
        }
      }
    } else {
      forall x | Some(x) in ts' ensures exists j :: 0 <= j < |g'| && x in g'[j].children {
        if x != t {
          assert Some(x) in ts;
          var j :| 0 <= j < |g| && x in g[j].children;
          assert x in g'[j].children;
        } else {
          assert x in g'[k].children;
        }
      }
    }
  }

  lemma {:induction false} GroupIsGrouped(ts: seq<Option<TemplateRec>>)
    ensures Grouped(Group(ts), ts)
  {
    if ts != [] {
      var init := ts[..|ts| - 1];
      GroupIsGrouped(init);
      assert ts == init + [ts[|ts| - 1]];
      if ts[|ts| - 1].None? {
        forall t | Some(t) in ts ensures Some(t) in init {
          var j :| 0 <= j < |ts| && ts[j] == Some(t);
        }
        forall k, c | 0 <= k < |Group(init)| && c in Group(init)[k].children ensures Some(c) in ts {
          var j :| 0 <= j < |init| && init[j] == Some(c);
          assert ts[j] == init[j];
        }
      } else {
        PlaceKeepsGrouped(Group(init), init, ts[|ts| - 1].value);
      }
    }
  }

  /** Sorting only reorders the categories. */
  lemma SortSameCategories(g: seq<CategoryNode>)
    ensures forall n :: n in SortByName(g) <==> n in g
  {
    var r := SortByName(g);
    forall n ensures n in r <==> n in g {
      assert n in r <==> n in multiset(r);
      assert n in g <==> n in multiset(g);
    }
  }

  lemma SortKeepsChildrenBelong(g: seq<CategoryNode>, ts: seq<Option<TemplateRec>>)
    requires ChildrenBelong(g, ts)
    ensures ChildrenBelong(SortByName(g), ts)
  {
    var r := SortByName(g);
    SortSameCategories(g);
    forall k | 0 <= k < |r| ensures |r[k].children| > 0 && forall c :: c in r[k].children ==> Some(c) in ts && EqualsCI(c.info.category, r[k].name) {
      assert r[k] in g;
      var j :| 0 <= j < |g| && g[j] == r[k];
    }
  }

  lemma SortKeepsAllPlaced(g: seq<CategoryNode>, ts: seq<Option<TemplateRec>>)
    requires AllPlaced(g, ts)
    ensures AllPlaced(SortByName(g), ts)
  {
    var r := SortByName(g);
    SortSameCategories(g);
    forall t | Some(t) in ts ensures exists k :: 0 <= k < |r| && t in r[k].children {
      var j :| 0 <= j < |g| && t in g[j].children;
      assert g[j] in r;
      var k :| 0 <= k < |r| && r[k] == g[j];
    }
  }

  /** Sorting keeps the grouping. */
  lemma SortKeepsGrouped(g: seq<CategoryNode>, ts: seq<Option<TemplateRec>>)
    requires Grouped(g, ts)
    ensures Grouped(SortByName(g), ts)
  {
    SortByNameProperties(g);
    SortKeepsChildrenBelong(g, ts);
    SortKeepsAllPlaced(g, ts);
  }

  // ---------------------------------------------------------------------
  // Filtering the tree.

  /** PassesFilters and DoesTemplateMatchSearch: the template stays in the filtered view. */
  predicate Keeps(w: TemplateSearch.SearchFilterWidget, dirty: set<nat>, t: TemplateRec)
    reads w
  {
    TemplateSearch.PassesFilter(w.filters, t.id in dirty, t.info.category, t.info.rarity)
    && w.DoesTemplateMatchSearch(Some(t.info))
  }

  /** The children of one category that the filter keeps, in order. */
  function FilterChildren(w: TemplateSearch.SearchFilterWidget, dirty: set<nat>, cs: seq<TemplateRec>): (r: seq<TemplateRec>)
    reads w
    ensures forall c :: c in r <==> c in cs && Keeps(w, dirty, c)
  {
    if cs == [] then []
    else
      var init := cs[..|cs| - 1];
      var last := cs[|cs| - 1];
      assert cs == init + [last];
      FilterChildren(w, dirty, init) + (if Keeps(w, dirty, last) then [last] else [])
  }

  /** One category of the filtered tree: its name and the children kept. */
  function FilterNode(w: TemplateSearch.SearchFilterWidget, dirty: set<nat>, n: CategoryNode): CategoryNode
    reads w
  {
    CategoryNode(n.name, FilterChildren(w, dirty, n.children))
  }

  /** The filtered tree: each category with its kept children, categories left empty dropped. */
  function FilterTree(w: TemplateSearch.SearchFilterWidget, dirty: set<nat>, roots: seq<CategoryNode>): (r: seq<CategoryNode>)
    reads w
    ensures forall n :: n in r <==> (exists m :: m in roots && n == FilterNode(w, dirty, m)) && |n.children| > 0
  {
    if roots == [] then []
    else
      var init := roots[..|roots| - 1];
      var last := roots[|roots| - 1];
      assert roots == init + [last];
      var n := FilterNode(w, dirty, last);
      FilterTree(w, dirty, init) + (if |n.children| > 0 then [n] else [])
  }

  /**
   * Every category left in the filtered tree is non-empty and holds only
   * templates that pass; every template that passes is shown under its
   * category's name.
   */
  lemma FilterTreeProperties(w: TemplateSearch.SearchFilterWidget, dirty: set<nat>, roots: seq<CategoryNode>)
    ensures forall n :: n in FilterTree(w, dirty, roots) ==> |n.children| > 0
    ensures forall n, c :: n in FilterTree(w, dirty, roots) && c in n.children ==> Keeps(w, dirty, c)
    ensures forall m, c :: m in roots && c in m.children && Keeps(w, dirty, c) ==>
              exists n :: n in FilterTree(w, dirty, roots) && n.name == m.name && c in n.children
  {
    forall m, c | m in roots && c in m.children && Keeps(w, dirty, c)
      ensures exists n :: n in FilterTree(w, dirty, roots) && n.name == m.name && c in n.children
    {
      assert c in FilterNode(w, dirty, m).children;
      assert FilterNode(w, dirty, m) in FilterTree(w, dirty, roots);
    }
  }

  /** The loop over one category's children in ApplySearchFilter. */
  method FilterChildrenOf(w: TemplateSearch.SearchFilterWidget, dirty: set<nat>, cs: seq<TemplateRec>) returns (kids: seq<TemplateRec>)
    ensures kids == FilterChildren(w, dirty, cs)
  {
    kids := [];
    var j := 0;
    while j < |cs|
      invariant 0 <= j <= |cs|
      invariant kids == FilterChildren(w, dirty, cs[..j])
    {
      assert cs[..j + 1][..j] == cs[..j];
      if Keeps(w, dirty, cs[j]) {
        kids := kids + [cs[j]];
      }
      j := j + 1;
    }
    assert cs[..|cs|] == cs;
  }

  /** ApplySearchFilter's loop over the categories. */
  method FilterTreeOf(w: TemplateSearch.SearchFilterWidget, dirty: set<nat>, roots: seq<CategoryNode>) returns (filtered: seq<CategoryNode>)
    ensures filtered == FilterTree(w, dirty, roots)
  {
    filtered := [];
    var i := 0;
    while i < |roots|
      invariant 0 <= i <= |roots|
      invariant filtered == FilterTree(w, dirty, roots[..i])
    {
      assert roots[..i + 1][..i] == roots[..i];
      var category := roots[i];
      var kids := FilterChildrenOf(w, dirty, category.children);
      if |kids| > 0 {
        filtered := filtered + [CategoryNode(category.name, kids)];
      }
      i := i + 1;
    }
    assert roots[..|roots|] == roots;
  }

  // ---------------------------------------------------------------------
  // Labels.

  /** FTemplateDisplayInfo; its declaration is not part of this model, its members default to empty. */
  datatype DisplayInfo = DisplayInfo(isTransient: bool, isDirty: bool, fullText: string, displayText: string, assetPath: string)

  const MaxDisplayLength: int := 32

  /** The label before truncation: the display name, or the object name when it is empty, marked " *" when transient or dirty. */
  function Marked(t: TemplateRec, dirty: set<nat>): string
  {
    var base := if t.info.displayName == "" then t.objectName else t.info.displayName;
    if t.transient || t.id in dirty then base + " *" else base
  }

  /**
   * GenerateTemplateDisplayInfo: a label of at most 32 characters shown
   * as is, a longer one cut to its first 32 and "..." appended; the path is
   * "Unsaved" for a transient template with a package.
   */
  function GenerateTemplateDisplayInfo(t: Option<TemplateRec>, dirty: set<nat>): (r: DisplayInfo)
    ensures t.None? ==> r == DisplayInfo(false, false, "", "", "")
    ensures t.Some? ==> r.isTransient == t.value.transient && r.isDirty == (t.value.id in dirty)
    ensures t.Some? ==> r.fullText == (if t.value.info.displayName == "" then t.value.objectName else t.value.info.displayName)
    ensures t.Some? ==> |r.displayText| <= MaxDisplayLength + 3
    ensures t.Some? && |Marked(t.value, dirty)| <= MaxDisplayLength ==> r.displayText == Marked(t.value, dirty)
    ensures t.Some? && |Marked(t.value, dirty)| > MaxDisplayLength ==>
              r.displayText == Marked(t.value, dirty)[..MaxDisplayLength] + "..."
    ensures t.Some? && t.value.package.Some? ==> r.assetPath == if t.value.transient then "Unsaved" else t.value.package.value
    ensures t.Some? && t.value.package.None? ==> r.assetPath == ""
  {
    if t.None? then DisplayInfo(false, false, "", "", "")
    else
      var x := t.value;
      var base := if x.info.displayName == "" then x.objectName else x.info.displayName;
      var shown := Marked(x, dirty);
      var text := if |shown| > MaxDisplayLength then shown[..MaxDisplayLength] + "..." else shown;
      var path := if x.package.Some? then (if x.transient then "Unsaved" else x.package.value) else "";
      DisplayInfo(x.transient, x.id in dirty, base, text, path)
  }

  /** A marked label ends in " *" and the mark is exactly transient-or-dirty. */
  lemma MarkedLabel(t: TemplateRec, dirty: set<nat>)
    ensures var base := if t.info.displayName == "" then t.objectName else t.info.displayName;
      (t.transient || t.id in dirty) <==> Marked(t, dirty) == base + " *"
  {
    var base := if t.info.displayName == "" then t.objectName else t.info.displayName;
    if !(t.transient || t.id in dirty) {
      assert |Marked(t, dirty)| != |base + " *"|;
    }
  }

  /**
   * ValidateTemplateData's answer: a missing template, then an empty
   * display name, then an empty category. On success the source leaves
   * its error-message out-parameter as the caller passed it; the model
   * returns "" there, as for a caller passing an empty message.
   */
  function ValidateTemplateData(current: Option<TemplateRec>): (r: (bool, string))
    ensures r.0 <==> current.Some? && current.value.info.displayName != "" && current.value.info.category != ""
    ensures current.None? ==> r.1 == "No template selected"
    ensures current.Some? && current.value.info.displayName == "" ==> r.1 == "Display name cannot be empty"
    ensures current.Some? && current.value.info.displayName != "" && current.value.info.category == "" ==> r.1 == "Item category cannot be empty"
    ensures r.0 ==> r.1 == ""
  {
    if current.None? then (false, "No template selected")
    else if current.value.info.displayName == "" then (false, "Display name cannot be empty")
    else if current.value.info.category == "" then (false, "Item category cannot be empty")
    else (true, "")
  }

  class TemplateEditorWindow {
    var availableTemplates: seq<Option<TemplateRec>>
    var treeRootItems: seq<CategoryNode>
    var filteredTreeRootItems: seq<CategoryNode>
    var dirtyTemplates: set<nat>
    var searchFilterWidget: TemplateSearch.SearchFilterWidget?

    constructor(available: seq<Option<TemplateRec>>, widget: TemplateSearch.SearchFilterWidget?)
      ensures availableTemplates == available && searchFilterWidget == widget
      ensures treeRootItems == [] && filteredTreeRootItems == [] && dirtyTemplates == {}
    {
      availableTemplates := available;
      searchFilterWidget := widget;
      treeRootItems := [];
      filteredTreeRootItems := [];
      dirtyTemplates := {};
    }

    /**
     * RebuildTreeStructure: one node per category (names compared ignoring
     * case, as the category map's keys are), each valid template under its
     * category's node in list order, the nodes sorted by name.
     */
    method RebuildTreeStructure()
      modifies this
      ensures treeRootItems == SortByName(Group(availableTemplates))
      ensures Grouped(treeRootItems, availableTemplates)
      ensures forall i, j :: 0 <= i < j < |treeRootItems| ==> NameLess(treeRootItems[i], treeRootItems[j])
      ensures availableTemplates == old(availableTemplates) && dirtyTemplates == old(dirtyTemplates)
      ensures filteredTreeRootItems == old(filteredTreeRootItems) && searchFilterWidget == old(searchFilterWidget)
    {
      var roots := GroupTemplates(availableTemplates);
      treeRootItems := SortByName(roots);
      GroupIsGrouped(availableTemplates);
      SortKeepsGrouped(roots, availableTemplates);
      SortByNameProperties(roots);
      SortedStrictly(treeRootItems);
    }

    /**
     * ApplySearchFilter: without a search widget the whole tree; otherwise
     * each category with the children that pass both predicates, empty
     * categories dropped.
     */
    method ApplySearchFilter()
      modifies this
      ensures searchFilterWidget == null ==> filteredTreeRootItems == treeRootItems
      ensures searchFilterWidget != null ==> filteredTreeRootItems == FilterTree(searchFilterWidget, dirtyTemplates, treeRootItems)
      ensures treeRootItems == old(treeRootItems) && dirtyTemplates == old(dirtyTemplates)
      ensures availableTemplates == old(availableTemplates) && searchFilterWidget == old(searchFilterWidget)
    {
      if searchFilterWidget == null {
        filteredTreeRootItems := treeRootItems;
        return;
      }
      filteredTreeRootItems := FilterTreeOf(searchFilterWidget, dirtyTemplates, treeRootItems);
    }

    /** TrackDirtyAsset: a null template is ignored. */
    method TrackDirtyAsset(t: Option<nat>)
      modifies this
      ensures dirtyTemplates == if t.Some? then old(dirtyTemplates) + {t.value} else old(dirtyTemplates)
      ensures treeRootItems == old(treeRootItems) && filteredTreeRootItems == old(filteredTreeRootItems)
      ensures availableTemplates == old(availableTemplates) && searchFilterWidget == old(searchFilterWidget)
    {
      if t.Some? {
        dirtyTemplates := dirtyTemplates + {t.value};
      }
    }

    /** UntrackDirtyAsset: a null template is ignored. */
    method UntrackDirtyAsset(t: Option<nat>)
      modifies this
      ensures dirtyTemplates == if t.Some? then old(dirtyTemplates) - {t.value} else old(dirtyTemplates)
      ensures treeRootItems == old(treeRootItems) && filteredTreeRootItems == old(filteredTreeRootItems)
      ensures availableTemplates == old(availableTemplates) && searchFilterWidget == old(searchFilterWidget)
    {
      if t.Some? {
        dirtyTemplates := dirtyTemplates - {t.value};
      }
    }

    /** HasUnsavedChanges: some template is tracked as dirty. */
    predicate HasUnsavedChanges()
      reads this
    {
      |dirtyTemplates| > 0
    }
  }

  /** After tracking a template there are unsaved changes; untracking the only dirty template clears them. */
  lemma TrackAndUntrack(dirty: set<nat>, t: nat)
    ensures |dirty + {t}| > 0
    ensures dirty <= {t} ==> |dirty - {t}| == 0
  {
    if dirty <= {t} {
      assert dirty - {t} == {};
    }
  }
}
