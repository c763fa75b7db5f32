// SMounteaItemTemplatesEditorHelp: the links a help page reports through
// its console ("MIAE_LINK:<type>:<url>") and the shared stylesheet and
// script injected into every page.
module EditorHelp {
  import opened Common

  // ---------------------------------------------------------------------
  // FCString::Atoi.

  predicate IsDigit(c: char)
  {
    '0' <= c <= '9'
  }

  predicate AllDigits(s: string)
  {
    forall i :: 0 <= i < |s| ==> IsDigit(s[i])
  }

  /** The longest prefix made of digits. */
  function LeadingDigits(s: string): (r: string)
    ensures |r| <= |s| && r == s[..|r|] && AllDigits(r)
    ensures |r| < |s| ==> !IsDigit(s[|r|])
  {
    if s == [] || !IsDigit(s[0]) then [] else [s[0]] + LeadingDigits(s[1..])
  }

  /** The number a digit string spells. */
  function DigitsValue(d: string): nat
    requires AllDigits(d)
  {
    if d == [] then 0 else DigitsValue(d[..|d| - 1]) * 10 + (d[|d| - 1] as int - '0' as int)
  }

  function SkipWhitespace(s: string): (r: string)
    ensures |r| <= |s| && r == s[|s| - |r|..]
    ensures |r| > 0 ==> !IsWhitespace(r[0])
  {
    if s != [] && IsWhitespace(s[0]) then SkipWhitespace(s[1..]) else s
  }

  /**
   * FCString::Atoi: leading white space skipped, an optional sign, then the
   * longest run of digits; 0 when there are none.
   */
  function Atoi(s: string): int
  {
    var t := SkipWhitespace(s);
    if |t| > 0 && t[0] == '-' then -(DigitsValue(LeadingDigits(t[1..])) as int)
    else if |t| > 0 && t[0] == '+' then DigitsValue(LeadingDigits(t[1..]))
    else DigitsValue(LeadingDigits(t))
  }


  lemma {:induction false} DecimalValue(n: nat)
    ensures AllDigits(Decimal(n)) && DigitsValue(Decimal(n)) == n
  {
    if n >= 10 {
      DecimalValue(n / 10);
      var d := Decimal(n);
      assert d[..|d| - 1] == Decimal(n / 10);
    }
  }

  lemma {:induction false} LeadingDigitsOfDigits(s: string, rest: string)
    requires AllDigits(s) && (rest == [] || !IsDigit(rest[0]))
    ensures LeadingDigits(s + rest) == s
  {
    if s != [] {
      assert (s + rest)[1..] == s[1..] + rest;
      LeadingDigitsOfDigits(s[1..], rest);
    }
  }

  /** Atoi reads a run of digits, and the run after a minus sign, as the number they spell. */
  lemma AtoiOfDigits(d: string)
    requires AllDigits(d) && d != []
    ensures Atoi(d) == DigitsValue(d)
    ensures Atoi("-" + d) == -(DigitsValue(d) as int)
  {
    LeadingDigitsOfDigits(d, []);
    assert d + [] == d;
    assert !IsWhitespace(d[0]);
    var m := "-" + d;
    assert m[0] == '-' && !IsWhitespace(m[0]) && m[1..] == d;
  }

  /** Atoi reads back the decimal text of a number, and of its negation. */
  lemma AtoiDecimal(n: nat)
    ensures Atoi(Decimal(n)) == n
    ensures Atoi("-" + Decimal(n)) == -(n as int)
  {
    DecimalValue(n);
    AtoiOfDigits(Decimal(n));
  }

  // ---------------------------------------------------------------------
  // Links.

  const LinkPrefix: string := "MIAE_LINK:"

  /** What the help window does for a console message. */
  datatype LinkAction =
    | Ignored
    | SyncContentBrowser
    | SwitchToPage(pageId: int)
    | LaunchUrl(url: string)
    | OpenSettings(section: string)
    | OpenInventoryConfig

  /**
   * FString::Split at the first ':': the text before it and the text after
   * it. The search ignores case, which does not affect ':'.
   */
  function SplitAtColon(s: string): (r: Option<(string, string)>)
    ensures r.None? <==> ':' !in s
    ensures r.Some? ==> s == r.value.0 + ":" + r.value.1 && ':' !in r.value.0
  {
    var p := IndexOf(s, ':');
    if p == -1 then None
    else
      assert s == s[..p] + ":" + s[p + 1..];
      Some((s[..p], s[p + 1..]))
  }

  /** Text split at a first ':' splits only one way. */
  lemma FirstColonUnique(a: string, b: string, c: string, d: string)
    requires a + ":" + b == c + ":" + d && ':' !in a && ':' !in c
    ensures a == c && b == d
  {
    var s := a + ":" + b;
    assert s[..|a|] == a && s[|a|] == ':';
    assert s[..|c|] == c && s[|c|] == ':';
    assert IndexOf(s, ':') == |a|;
    assert IndexOf(s, ':') == |c|;
    assert s[|a| + 1..] == b && s[|c| + 1..] == d;
  }

  /** The action for a link type and its url; the type is compared exactly. */
  function Dispatch(dataType: string, url: string): LinkAction
  {
    if dataType == "content" then SyncContentBrowser
    else if dataType == "page" then SwitchToPage(Atoi(url))
    else if dataType == "external" then LaunchUrl(url)
    else if dataType == "settings" then OpenSettings("Mountea Inventory System")
    else if dataType == "editor-settings" then OpenSettings("Mountea Inventory System (Editor)")
    else if dataType == "inventory-configuration" then OpenInventoryConfig
    else Ignored
  }

  /**
   * HandleConsoleMessage: a message that starts with "MIAE_LINK:" (ignoring
   * case) is split at its first ':' into a type and a url, and the type
   * selects the action; anything else is ignored.
   */
  function HandleConsoleMessage(message: string): (r: LinkAction)
    ensures !StartsWithCI(message, LinkPrefix) ==> r == Ignored
    ensures r != Ignored ==> StartsWithCI(message, LinkPrefix) && ':' in message[|LinkPrefix|..]
  {
    if !StartsWithCI(message, LinkPrefix) then Ignored
    else
      match SplitAtColon(message[|LinkPrefix|..])
      case None => Ignored
      case Some((dataType, url)) => Dispatch(dataType, url)
  }

  /**
   * A message made of the prefix (in any case), a type without ':', a ':'
   * and a url is dispatched on that type and that url.
   */
  lemma PrefixedMessage(message: string, prefix: string, kind: string, url: string)
    requires EqualsCI(prefix, LinkPrefix) && message == prefix + kind + ":" + url && ':' !in kind
    ensures HandleConsoleMessage(message) == Dispatch(kind, url)
  {
    var rest := kind + ":" + url;
    ConcatAssoc(prefix, kind, ":", url);
    assert |prefix| == |LinkPrefix|;
    assert message[..|LinkPrefix|] == prefix;
    assert message[|LinkPrefix|..] == rest;
    var r := SplitAtColon(rest);
    FirstColonUnique(r.value.0, r.value.1, kind, url);
  }

  /** prefix + kind + ":" + url read as the prefix followed by the rest. */
  lemma ConcatAssoc(a: string, b: string, c: string, d: string)
    ensures a + b + c + d == a + (b + c + d)
  {
  }

  /** A page link carrying the decimal text of a page id switches to that page. */
  lemma PageLinkRoundTrip(pageId: nat, message: string)
    requires message == LinkPrefix + "page" + ":" + Decimal(pageId)
    ensures HandleConsoleMessage(message) == SwitchToPage(pageId)
  {
    KnownTypesHaveNoColon();
    PrefixedMessage(message, LinkPrefix, "page", Decimal(pageId));
    AtoiDecimal(pageId);
  }

  /** An external link opens its url whole, colons and all. */
  lemma ExternalLinkRoundTrip(url: string, message: string)
    requires message == LinkPrefix + "external" + ":" + url
    ensures HandleConsoleMessage(message) == LaunchUrl(url)
  {
    KnownTypesHaveNoColon();
    PrefixedMessage(message, LinkPrefix, "external", url);
  }

  /** None of the known link types contains ':'. */
  lemma KnownTypesHaveNoColon()
    ensures forall t :: t in KnownTypes ==> ':' !in t
  {
  }

  lemma LowerPointwise(a: string, b: string)
    requires |a| == |b| && forall i :: 0 <= i < |a| ==> LowerChar(a[i]) == LowerChar(b[i])
    ensures EqualsCI(a, b)
  {
  }

  /** The prefix is matched ignoring case: "miae_link:" is as good as "MIAE_LINK:". */
  lemma LowerCasePrefixAccepted()
    ensures EqualsCI("miae_link:", LinkPrefix)
  {
    LowerPointwise("miae_link:", LinkPrefix);
  }

  /** The link types the help window acts on. */
  const KnownTypes: set<string> := {"content", "page", "external", "settings", "editor-settings", "inventory-configuration"}

  /** A link whose type is none of the known ones does nothing. */
  lemma UnknownTypeIgnored(kind: string, url: string, message: string)
    requires message == LinkPrefix + kind + ":" + url && ':' !in kind && kind !in KnownTypes
    ensures HandleConsoleMessage(message) == Ignored
  {
    PrefixedMessage(message, LinkPrefix, kind, url);
    assert kind != "content" && kind != "page" && kind != "external";
    assert kind != "settings" && kind != "editor-settings" && kind != "inventory-configuration";
  }

  // ---------------------------------------------------------------------
  // Shared assets.

  /** The editor settings' two shared files; an empty path switches that file off. */
  datatype EditorSettings = EditorSettings(sharedStylesheetPath: string, sharedScriptPath: string)

  /** Where a tag goes: before the first `marker` (ignoring case), else at the front or the end. */
  function InsertionPoint(html: string, marker: string, atFront: bool): (p: int)
    ensures 0 <= p <= |html|
  {
    var found := FindCI(html, marker);
    if found != -1 then found else if atFront then 0 else |html|
  }

  /** One tag injected: nothing when the page contains it already (ignoring case). */
  function InjectTag(html: string, tag: string, marker: string, atFront: bool): string
  {
    if ContainsCI(html, tag) then html
    else
      var p := InsertionPoint(html, marker, atFront);
      html[..p] + tag + html[p..]
  }

  lemma ContainsAt(s: string, sub: string, p: nat)
    requires p + |sub| <= |s| && s[p..p + |sub|] == sub
    ensures ContainsCI(s, sub)
  {
    assert MatchesAtCI(s, sub, p);
  }

  /** An injected page holds the tag. */
  lemma InjectTagContains(html: string, tag: string, marker: string, atFront: bool)
    ensures ContainsCI(InjectTag(html, tag, marker, atFront), tag)
  {
    if !ContainsCI(html, tag) {
      var r := InjectTag(html, tag, marker, atFront);
      var p := InsertionPoint(html, marker, atFront);
      assert r[p..p + |tag|] == tag;
      ContainsAt(r, tag, p);
    }
  }

  /** The pieces of a page with text inserted at p. */
  lemma InsertedPieces(html: string, tag: string, p: int)
    requires 0 <= p <= |html|
    ensures var r := html[..p] + tag + html[p..];
      |r| == |html| + |tag| && r[..p] == html[..p] && r[p..p + |tag|] == tag && r[p + |tag|..] == html[p..]
  {
  }

  /**
   * A tag not yet on the page is inserted once, at the insertion point
   * (the front or the end when the page has no marker), and taking it out
   * again gives back the page.
   */
  lemma InjectTagInserts(html: string, tag: string, marker: string, atFront: bool)
    requires !ContainsCI(html, tag)
    ensures var r := InjectTag(html, tag, marker, atFront);
      var p := InsertionPoint(html, marker, atFront);
      |r| == |html| + |tag| && r[p..p + |tag|] == tag && r[..p] + r[p + |tag|..] == html
      && (!ContainsCI(html, marker) ==> p == if atFront then 0 else |html|)
  {
    var p := InsertionPoint(html, marker, atFront);
    assert InjectTag(html, tag, marker, atFront) == html[..p] + tag + html[p..];
    InsertedPieces(html, tag, p);
    assert html[..p] + html[p..] == html;
  }

  /** On a page with a marker, the tag goes directly before its first occurrence. */
  lemma InjectTagBeforeMarker(html: string, tag: string, marker: string, atFront: bool)
    requires !ContainsCI(html, tag) && ContainsCI(html, marker)
    ensures var p := InsertionPoint(html, marker, atFront);
      MatchesAtCI(InjectTag(html, tag, marker, atFront), marker, p + |tag|)
      && forall j :: 0 <= j < p ==> !MatchesAtCI(html, marker, j)
  {
    var p := InsertionPoint(html, marker, atFront);
    assert p == FindCI(html, marker);
    MarkerAfterInsert(html, tag, marker, p);
  }

  /** A match at p moves along by the length of the text inserted at p. */
  lemma MarkerAfterInsert(html: string, tag: string, marker: string, p: int)
    requires 0 <= p <= |html| && MatchesAtCI(html, marker, p)
    ensures MatchesAtCI(html[..p] + tag + html[p..], marker, p + |tag|)
  {
    var r := html[..p] + tag + html[p..];
    InsertedPieces(html, tag, p);
    assert r[p + |tag|..][..|marker|] == html[p..][..|marker|];
    assert r[p + |tag|..p + |tag| + |marker|] == html[p..p + |marker|];
  }

  /** Injecting the same tag twice is injecting it once. */
  lemma InjectTagIdempotent(html: string, tag: string, marker: string, atFront: bool)
    ensures InjectTag(InjectTag(html, tag, marker, atFront), tag, marker, atFront) == InjectTag(html, tag, marker, atFront)
  {
    InjectTagContains(html, tag, marker, atFront);
  }

  /** One injection step of InjectSharedAssets: skipped when the page holds the tag. */
  method InjectInto(html: string, tag: string, marker: string, atFront: bool) returns (result: string)
    ensures result == InjectTag(html, tag, marker, atFront)
  {
    result := html;
    if !ContainsCI(result, tag) {
      var endPos := FindCI(result, marker);
      if endPos != -1 {
        result := result[..endPos] + tag + result[endPos..];
      } else if atFront {
        result := tag + result;
      } else {
        result := result + tag;
      }
    }
  }

  function StyleTag(css: string): string
  {
    "<style>" + css + "</style>"
  }

  function ScriptTag(script: string): string
  {
    "<script>" + script + "</script>"
  }

  /**
   * InjectSharedAssets. `css` and `script` are what loading the configured
   * files yields (None when a load fails); with no settings the page is
   * returned as it is. The style tag goes before "</head>" or to the front,
   * the script tag before "</body>" or to the end.
   */
  method InjectSharedAssets(html: string, settings: Option<EditorSettings>, css: Option<string>, script: Option<string>) returns (result: string)
    ensures settings.None? ==> result == html
    ensures settings.Some? ==>
      var styled := if settings.value.sharedStylesheetPath != "" && css.Some? then InjectTag(html, StyleTag(css.value), "</head>", true) else html;
      result == if settings.value.sharedScriptPath != "" && script.Some? then InjectTag(styled, ScriptTag(script.value), "</body>", false) else styled
  {
    if settings.None? {
      return html;
    }
    result := html;
    if settings.value.sharedStylesheetPath != "" && css.Some? {
      result := InjectInto(result, StyleTag(css.value), "</head>", true);
    }
    if settings.value.sharedScriptPath != "" && script.Some? {
      result := InjectInto(result, ScriptTag(script.value), "</body>", false);
    }
  }
}
