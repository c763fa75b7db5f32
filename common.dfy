// Shared vocabulary of the inventory model: optional values, GUIDs,
// Unreal's clamp and the case-insensitive string searches FString uses.
module Common {

  datatype Option<T> = None | Some(value: T)

  /** A GUID; 0 plays the role of the default (invalid) FGuid(). */
  type Guid = nat

  const InvalidGuid: Guid := 0

  predicate GuidValid(g: Guid) { g != InvalidGuid }

  /** Unreal's INDEX_NONE. */
  const IndexNone: int := -1

  /** Two-dimensional integer coordinates (FIntPoint). */
  datatype Point = Point(x: int, y: int)

  function Min(a: int, b: int): (r: int)
    ensures r <= a && r <= b && (r == a || r == b)
  {
    if a < b then a else b
  }

  function Max(a: int, b: int): (r: int)
    ensures r >= a && r >= b && (r == a || r == b)
  {
    if a > b then a else b
  }

  /** FMath::Clamp: the lower bound is tested first, so with lo > hi the result is lo below lo and hi otherwise. */
  function Clamp(x: int, lo: int, hi: int): (r: int)
    ensures lo <= hi ==> lo <= r <= hi
    ensures lo <= x <= hi ==> r == x
    ensures x < lo ==> r == lo
    ensures lo <= x && hi < x ==> r == hi
  {
    if x < lo then lo else if x < hi then x else hi
  }

  // ---------------------------------------------------------------------
  // Strings. FString comparisons other than Equals ignore case by default;
  // case folding is modelled on ASCII letters.

  function LowerChar(c: char): (r: char)
    ensures 'A' <= c <= 'Z' ==> 'a' <= r <= 'z'
    ensures !('A' <= c <= 'Z') ==> r == c
  {
    if 'A' <= c <= 'Z' then (c as int - 'A' as int + 'a' as int) as char else c
  }

  function Lower(s: string): (r: string)
    ensures |r| == |s|
    ensures forall i :: 0 <= i < |s| ==> r[i] == LowerChar(s[i])
  {
    if s == [] then [] else [LowerChar(s[0])] + Lower(s[1..])
  }

  /** Case-insensitive equality of two strings. */
  predicate EqualsCI(a: string, b: string)
  {
    Lower(a) == Lower(b)
  }

  predicate StartsWithCI(s: string, prefix: string)
  {
    |prefix| <= |s| && EqualsCI(s[..|prefix|], prefix)
  }

  predicate EndsWithCI(s: string, suffix: string)
  {
    |suffix| <= |s| && EqualsCI(s[|s| - |suffix|..], suffix)
  }

  predicate MatchesAtCI(s: string, sub: string, i: nat)
  {
    i + |sub| <= |s| && EqualsCI(s[i..i + |sub|], sub)
  }

  /** FString::Find from the start ignoring case: the first match position, or -1. */
  function FindFromCI(s: string, sub: string, i: nat): (r: int)
    requires i <= |s|
    ensures r == -1 || (i <= r && MatchesAtCI(s, sub, r))
    ensures r == -1 ==> forall j :: i <= j <= |s| ==> !MatchesAtCI(s, sub, j)
    ensures r != -1 ==> forall j :: i <= j < r ==> !MatchesAtCI(s, sub, j)
    decreases |s| - i
  {
    if MatchesAtCI(s, sub, i) then i
    else if i == |s| then -1
    else FindFromCI(s, sub, i + 1)
  }

  function FindCI(s: string, sub: string): (r: int)
    ensures r == -1 || (0 <= r && MatchesAtCI(s, sub, r))
    ensures r == -1 ==> forall j :: 0 <= j <= |s| ==> !MatchesAtCI(s, sub, j)
    ensures r != -1 ==> forall j :: 0 <= j < r ==> !MatchesAtCI(s, sub, j)
  {
    FindFromCI(s, sub, 0)
  }

  /** FString::Contains with the default ignore-case search. */
  predicate ContainsCI(s: string, sub: string)
  {
    FindCI(s, sub) != -1
  }

  predicate IsWhitespace(c: char)
  {
    c == ' ' || c == '\t' || c == '\n' || c == '\r' || c == '\U{B}' || c == '\U{C}'
  }

  /** FString::IsEmpty on the trimmed text: blank or whitespace only. */
  predicate IsBlank(s: string)
  {
    forall i :: 0 <= i < |s| ==> IsWhitespace(s[i])
  }

  /** Replaces every occurrence of one character with another. */
  function ReplaceChar(s: string, from: char, to: char): (r: string)
    ensures |r| == |s|
    ensures forall i :: 0 <= i < |s| ==> r[i] == (if s[i] == from then to else s[i])
  {
    if s == [] then [] else [if s[0] == from then to else s[0]] + ReplaceChar(s[1..], from, to)
  }

  // ---------------------------------------------------------------------
  // Duplicate-free sequences model TSet and TMap keys in insertion order.

  predicate NoDup<T(==)>(s: seq<T>)
  {
    forall i, j :: 0 <= i < j < |s| ==> s[i] != s[j]
  }

  /** Appending an element not yet present keeps a sequence duplicate-free. */
  lemma NoDupSnoc<T>(s: seq<T>, x: T)
    requires NoDup(s) && x !in s
    ensures NoDup(s + [x])
  {
    var r := s + [x];
    forall i, j | 0 <= i < j < |r| ensures r[i] != r[j] {
      if j == |s| {
        assert r[i] == s[i];
      }
    }
  }

  function IndexOf<T(==)>(s: seq<T>, x: T): (r: int)
    ensures -1 <= r < |s|
    ensures r == -1 <==> x !in s
    ensures r != -1 ==> s[r] == x && x !in s[..r]
  {
    if |s| == 0 then -1
    else if s[0] == x then 0
    else
      var k := IndexOf(s[1..], x);
      assert s[1..][..if k == -1 then 0 else k] == s[1..1 + (if k == -1 then 0 else k)];
      if k == -1 then -1 else k + 1
  }

  /** TArray::Remove / TSet::Remove: drops every element equal to x, keeping order. */
  function RemoveAll<T(==,!new)>(s: seq<T>, x: T): (r: seq<T>)
    ensures x !in r
    ensures forall y :: y in r <==> y in s && y != x
    ensures |r| <= |s|
  {
    if s == [] then []
    else if s[0] == x then RemoveAll(s[1..], x)
    else [s[0]] + RemoveAll(s[1..], x)
  }

  lemma {:induction false} RemoveAllKeepsNoDup<T(!new)>(s: seq<T>, x: T)
    requires NoDup(s)
    ensures NoDup(RemoveAll(s, x))
  {
    if s != [] {
      var rest := RemoveAll(s[1..], x);
      RemoveAllKeepsNoDup(s[1..], x);
      if s[0] != x {
        var r := [s[0]] + rest;
        forall i, j | 0 <= i < j < |r| ensures r[i] != r[j] {
          if i == 0 {
            assert r[j] in rest;
          } else {
            assert r[i] == rest[i - 1] && r[j] == rest[j - 1];
          }
        }
      }
    }
  }

  lemma {:induction false} RemoveAllAbsent<T(!new)>(s: seq<T>, x: T)
    requires x !in s
    ensures RemoveAll(s, x) == s
  {
    if s != [] {
      RemoveAllAbsent(s[1..], x);
    }
  }

  /** TArray::RemoveSingle: drops the first element equal to x and keeps the order of the rest. */
  function RemoveFirst<T(==)>(s: seq<T>, x: T): (r: seq<T>)
    ensures multiset(r) == multiset(s) - multiset{x}
    ensures x !in s ==> r == s
    ensures x in s ==> |r| == |s| - 1 && r[..IndexOf(s, x)] == s[..IndexOf(s, x)]
                       && r[IndexOf(s, x)..] == s[IndexOf(s, x) + 1..]
  {
    var k := IndexOf(s, x);
    if k == -1 then s
    else
      assert s == s[..k] + [x] + s[k + 1..];
      s[..k] + s[k + 1..]
  }

  // ---------------------------------------------------------------------
  // Decimal text of numbers.

  function DigitChar(d: int): char
    requires 0 <= d < 10
  {
    "0123456789"[d]
  }

  /** The decimal text of a non-negative number, as %d prints it. */
  function Decimal(n: nat): (r: string)
    ensures |r| >= 1
    ensures n >= 10 ==> |r| >= 2
  {
    if n < 10 then [DigitChar(n)] else Decimal(n / 10) + [DigitChar(n % 10)]
  }

  /** Different numbers print differently. */
  lemma {:induction false} DecimalInjective(a: nat, b: nat)
    requires Decimal(a) == Decimal(b)
    ensures a == b
  {
    if a >= 10 && b >= 10 {
      var da, db := Decimal(a), Decimal(b);
      assert da[|da| - 1] == DigitChar(a % 10) && db[|db| - 1] == DigitChar(b % 10);
      assert da[..|da| - 1] == Decimal(a / 10) && db[..|db| - 1] == Decimal(b / 10);
      DecimalInjective(a / 10, b / 10);
    } else if a < 10 && b < 10 {
      assert Decimal(a)[0] == DigitChar(a);
    }
  }
}
