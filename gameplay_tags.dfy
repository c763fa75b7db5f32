// Gameplay tags and tag containers as the plugin queries them. A tag is
// the sequence of its dot-separated segments ("Item.Weapon" is
// ["Item", "Weapon"]); the empty tag is the invalid FGameplayTag. A
// container holds explicit tags; a query tag matches an explicit tag that
// is the tag itself or one of its descendants, so parents are implied.
module GameplayTags {

  type Tag = seq<string>

  type Container = seq<Tag>

  predicate TagValid(t: Tag) { |t| > 0 }

  /** FGameplayTag::MatchesTag: `query` is `t` itself or one of its parents. */
  predicate MatchesTag(t: Tag, query: Tag)
  {
    TagValid(query) && query <= t
  }

  /** FGameplayTagContainer::HasTag, parents included: an explicit valid tag is found, an invalid query never is. */
  predicate HasTag(c: Container, query: Tag)
    ensures HasTag(c, query) ==> TagValid(query)
    ensures TagValid(query) && query in c ==> HasTag(c, query)
  {
    exists u :: u in c && MatchesTag(u, query)
  }

  /** HasAny: false for an empty query. */
  predicate HasAny(c: Container, query: Container)
  {
    exists q :: q in query && HasTag(c, q)
  }

  /** HasAll: true for an empty query. */
  predicate HasAll(c: Container, query: Container)
  {
    forall q :: q in query ==> HasTag(c, q)
  }

  predicate IsEmpty(c: Container) { |c| == 0 }

  /** AddTag: an invalid tag is ignored and an explicit tag is never duplicated. */
  function AddTag(c: Container, t: Tag): (r: Container)
    ensures TagValid(t) ==> t in r
    ensures forall u :: u in r <==> u in c || (u == t && TagValid(t))
  {
    if !TagValid(t) || t in c then c else c + [t]
  }

  /** After AddTag the container has the new tag, and keeps every tag it had. */
  lemma AddTagQuery(c: Container, t: Tag, q: Tag)
    ensures TagValid(t) ==> HasTag(AddTag(c, t), t)
    ensures HasTag(c, q) ==> HasTag(AddTag(c, t), q)
  {
    if TagValid(t) { assert MatchesTag(t, t); }
  }

  /** RemoveTag: drops the explicit tag `t`, leaving every other tag. */
  function RemoveTag(c: Container, t: Tag): (r: Container)
    ensures t !in r
    ensures forall u :: u in r <==> u in c && u != t
  {
    if c == [] then []
    else if c[0] == t then RemoveTag(c[1..], t)
    else [c[0]] + RemoveTag(c[1..], t)
  }

  /**
   * After RemoveTag the container still has `t` exactly when a strict
   * descendant of `t` remains: removing a parent tag does not clear it.
   */
  lemma RemoveTagQuery(c: Container, t: Tag)
    requires TagValid(t)
    ensures HasTag(RemoveTag(c, t), t) <==> exists u :: u in c && u != t && t <= u
  {
    var r := RemoveTag(c, t);
    if exists u :: u in c && u != t && t <= u {
      var u :| u in c && u != t && t <= u;
      assert u in r && MatchesTag(u, t);
    }
  }

  /** HasAny and HasAll agree on a one-tag query. */
  lemma SingleQuery(c: Container, t: Tag)
    ensures HasAny(c, [t]) == HasTag(c, t)
    ensures HasAll(c, [t]) == HasTag(c, t)
  {
    assert t in [t];
  }

  /** A non-empty query satisfied in full is satisfied in part. */
  lemma AllImpliesAny(c: Container, query: Container)
    requires |query| > 0 && HasAll(c, query)
    ensures HasAny(c, query)
  {
    assert query[0] in query;
  }
}
