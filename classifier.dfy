/**
 * The entity classifier (src/implementation.ts:92-106): an element of
 * `entities` is an embedded link exactly when it has an `href` key, and an
 * embedded representation otherwise. No other key is consulted.
 */
module Classifier {
  import opened Wrappers
  import Siren

  /** `isEmbeddedLink`: `'href' in object`. */
  predicate IsEmbeddedLink<P>(e: Siren.Entity<P>)
  {
    e.href.Some?
  }

  /** `isEmbeddedRepresentation`: `!('href' in object)`. */
  predicate IsEmbeddedRepresentation<P>(e: Siren.Entity<P>)
  {
    !e.href.Some?
  }

  /**
   * The view of an entity as a `siren.EmbeddedLink` that the type guard
   * `isEmbeddedLink` licenses: the link keys, read off the same object.
   */
  function AsEmbeddedLink<P>(e: Siren.Entity<P>): (l: Siren.Link)
    requires IsEmbeddedLink(e)
  {
    Siren.Link(e.rel, e.classes, e.title, e.href.value, e.mediaType)
  }

  /** The two guards are complements: every entity is exactly one of the two. */
  lemma ExactlyOneKind<P>(e: Siren.Entity<P>)
    ensures IsEmbeddedLink(e) <==> !IsEmbeddedRepresentation(e)
  {
  }

  /**
   * `href` is authoritative: an entity that has one is a link whatever
   * representation-only keys it also carries, and two entities that agree on
   * the presence of `href` are classified alike.
   */
  lemma HrefDecides<P>(e1: Siren.Entity<P>, e2: Siren.Entity<P>)
    requires e1.href.Some? <==> e2.href.Some?
    ensures IsEmbeddedLink(e1) <==> IsEmbeddedLink(e2)
    ensures IsEmbeddedRepresentation(e1) <==> IsEmbeddedRepresentation(e2)
    ensures e1.href.Some? ==> IsEmbeddedLink(e1) && AsEmbeddedLink(e1).href == e1.href.value
  {
  }
}
