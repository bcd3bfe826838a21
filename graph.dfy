/**
 * The graph builder (src/implementation.ts:19-90): a wire response, and
 * recursively every embedded representation in it, becomes a navigable
 * resource. The `entities` list is split into embedded links and embedded
 * representations, each kept in input order; navigational links are mapped
 * one for one; actions become a name-keyed map; absent lists become empty.
 *
 * This revision's `wrapResponse` takes no base URL and copies every `href`
 * verbatim. The repository's tests call it with a base URL and expect
 * resolved addresses; that later revision is not modelled. The `client`
 * argument is threaded through but never read by this code, so it is
 * not a parameter here.
 */
module Graph {
  import opened Wrappers
  import Siren
  import Resource
  import opened Classifier
  import Actions
  import Tags

  /** `wrapLink` (lines 53-61). */
  function WrapLink(l: Siren.Link): Resource.EmbeddedLink
  {
    Resource.EmbeddedLink(l.rel, OrEmpty(l.classes), l.title, l.href, l.mediaType)
  }

  /** An output link read back as a wire link, its class list written out. */
  function UnwrapLink(r: Resource.EmbeddedLink): Siren.Link
  {
    Siren.Link(r.rel, Some(r.classes), r.title, r.href, r.mediaType)
  }

  /**
   * `wrapLink` loses nothing: `href`, `title`, `type` and `rel` come back
   * unchanged, and only a missing `class` is replaced by [].
   */
  lemma WrapLinkCopies(l: Siren.Link)
    ensures UnwrapLink(WrapLink(l)) == l.(classes := Some(OrEmpty(l.classes)))
    ensures l.classes.None? ==> WrapLink(l).classes == []
    ensures l.classes.Some? ==> UnwrapLink(WrapLink(l)) == l
  {
  }

  /** Every output link is the wrapping of some wire link. */
  lemma WrapLinkOnto(r: Resource.EmbeddedLink)
    ensures WrapLink(UnwrapLink(r)) == r
  {
  }

  /** `links.map((link) => wrapLink(client, link))`. */
  function WrapLinks(links: seq<Siren.Link>): seq<Resource.EmbeddedLink>
  {
    seq(|links|, i requires 0 <= i < |links| => WrapLink(links[i]))
  }

  /** The `entityLinks` that the `forEach` over `entities` collects. */
  function EntityLinksOf<P>(es: seq<Siren.Entity<P>>): seq<Resource.EmbeddedLink>
  {
    if es == [] then []
    else
      (if IsEmbeddedLink(es[0]) then [WrapLink(AsEmbeddedLink(es[0]))] else [])
      + EntityLinksOf(es[1..])
  }

  /** The `entityRepresentations` that the `forEach` over `entities` collects. */
  function EntityRepresentationsOf<P>(es: seq<Siren.Entity<P>>): seq<Resource.Representation<P>>
  {
    if es == [] then []
    else
      (if IsEmbeddedRepresentation(es[0]) then [RepresentationOf(es[0])] else [])
      + EntityRepresentationsOf(es[1..])
  }

  /** What `wrapEntity` returns for an embedded representation (lines 69-90). */
  function RepresentationOf<P>(e: Siren.Entity<P>): Resource.Representation<P>
    requires IsEmbeddedRepresentation(e)
  {
    var es := Siren.Items(e.entities);
    // matched rather than read through Items, so that termination is structural
    var nested := match e.entities
      case Absent => []
      case Present(items) => EntityRepresentationsOf(items);
    Resource.Representation(
      e.rel, OrEmpty(e.classes), e.title, e.properties,
      EntityLinksOf(es), nested,
      WrapLinks(OrEmpty(e.links)), Actions.ActionsOf(OrEmpty(e.actions)))
  }

  /** What `wrapResponse` returns (lines 25-45). */
  function ResourceOf<T, P>(response: Siren.Response<T, P>): Resource.Resource<T, P>
  {
    var es := Siren.Items(response.entities);
    Resource.Resource(
      response.title, response.properties, OrEmpty(response.classes),
      EntityLinksOf(es), EntityRepresentationsOf(es),
      WrapLinks(OrEmpty(response.links)), Actions.ActionsOf(OrEmpty(response.actions)))
  }

  /** Partitioning distributes over concatenation of the entity list. */
  lemma {:induction false} EntityLinksConcat<P>(a: seq<Siren.Entity<P>>, b: seq<Siren.Entity<P>>)
    ensures EntityLinksOf(a + b) == EntityLinksOf(a) + EntityLinksOf(b)
  {
    if a == [] {
      assert a + b == b;
    } else {
      assert (a + b)[0] == a[0];
      assert (a + b)[1..] == a[1..] + b;
      EntityLinksConcat(a[1..], b);
    }
  }

  lemma {:induction false} EntityRepresentationsConcat<P>(a: seq<Siren.Entity<P>>, b: seq<Siren.Entity<P>>)
    ensures EntityRepresentationsOf(a + b) == EntityRepresentationsOf(a) + EntityRepresentationsOf(b)
  {
    if a == [] {
      assert a + b == b;
    } else {
      var head := if IsEmbeddedRepresentation(a[0]) then [RepresentationOf(a[0])] else [];
      assert (a + b)[0] == a[0];
      assert (a + b)[1..] == a[1..] + b;
      assert EntityRepresentationsOf(a + b) == head + EntityRepresentationsOf(a[1..] + b);
      EntityRepresentationsConcat(a[1..], b);
      assert EntityRepresentationsOf(a) == head + EntityRepresentationsOf(a[1..]);
    }
  }

  /**
   * One step of the `forEach`: entity `i` is appended to exactly one of the
   * two lists, the link list when it has an `href` and the representation
   * list otherwise, and the other list is unchanged.
   */
  lemma PartitionStep<P>(es: seq<Siren.Entity<P>>, i: nat)
    requires i < |es|
    ensures IsEmbeddedLink(es[i]) ==>
      && EntityLinksOf(es[..i + 1]) == EntityLinksOf(es[..i]) + [WrapLink(AsEmbeddedLink(es[i]))]
      && EntityRepresentationsOf(es[..i + 1]) == EntityRepresentationsOf(es[..i])
    ensures IsEmbeddedRepresentation(es[i]) ==>
      && EntityLinksOf(es[..i + 1]) == EntityLinksOf(es[..i])
      && EntityRepresentationsOf(es[..i + 1]) == EntityRepresentationsOf(es[..i]) + [RepresentationOf(es[i])]
  {
    assert es[..i + 1] == es[..i] + [es[i]];
    EntityLinksConcat(es[..i], [es[i]]);
    EntityRepresentationsConcat(es[..i], [es[i]]);
  }

  /** The two lists together are exactly as long as the entity list. */
  lemma {:induction false} PartitionSizes<P>(es: seq<Siren.Entity<P>>)
    ensures |EntityLinksOf(es)| + |EntityRepresentationsOf(es)| == |es|
  {
    if es != [] {
      PartitionSizes(es[1..]);
    }
  }

  /**
   * The link at input position `i` sits in `entityLinks` at the number of
   * links before it; so links keep their relative input order.
   */
  lemma EntityLinkPosition<P>(es: seq<Siren.Entity<P>>, i: nat)
    requires i < |es| && IsEmbeddedLink(es[i])
    ensures |EntityLinksOf(es[..i])| < |EntityLinksOf(es)|
    ensures EntityLinksOf(es)[|EntityLinksOf(es[..i])|] == WrapLink(AsEmbeddedLink(es[i]))
  {
    assert es == es[..i + 1] + es[i + 1..];
    EntityLinksConcat(es[..i + 1], es[i + 1..]);
    PartitionStep(es, i);
  }

  /** Likewise for representations: position = representations before it. */
  lemma EntityRepresentationPosition<P>(es: seq<Siren.Entity<P>>, i: nat)
    requires i < |es| && IsEmbeddedRepresentation(es[i])
    ensures |EntityRepresentationsOf(es[..i])| < |EntityRepresentationsOf(es)|
    ensures EntityRepresentationsOf(es)[|EntityRepresentationsOf(es[..i])|] == RepresentationOf(es[i])
  {
    assert es == es[..i + 1] + es[i + 1..];
    EntityRepresentationsConcat(es[..i + 1], es[i + 1..]);
    PartitionStep(es, i);
  }

  /** Two entities of the same kind land in their list in input order. */
  lemma PartitionKeepsOrder<P>(es: seq<Siren.Entity<P>>, i: nat, j: nat)
    requires i < j < |es|
    ensures IsEmbeddedLink(es[i]) ==>
      |EntityLinksOf(es[..i])| < |EntityLinksOf(es[..j])|
    ensures IsEmbeddedRepresentation(es[i]) ==>
      |EntityRepresentationsOf(es[..i])| < |EntityRepresentationsOf(es[..j])|
  {
    assert es[..j] == es[..i + 1] + es[i + 1..j];
    EntityLinksConcat(es[..i + 1], es[i + 1..j]);
    EntityRepresentationsConcat(es[..i + 1], es[i + 1..j]);
    PartitionStep(es, i);
  }

  /** `wrapEntity` (lines 69-90): the same `forEach` as `wrapResponse`, plus `rel`. */
  method WrapEntity<P>(entity: Siren.Entity<P>) returns (r: Resource.Representation<P>)
    requires IsEmbeddedRepresentation(entity)
    ensures r == RepresentationOf(entity)
    decreases entity
  {
    var entityLinks: seq<Resource.EmbeddedLink> := [];
    var entityRepresentations: seq<Resource.Representation<P>> := [];
    var es := Siren.Items(entity.entities);
    for i := 0 to |es|
      invariant entityLinks == EntityLinksOf(es[..i])
      invariant entityRepresentations == EntityRepresentationsOf(es[..i])
    {
      var child := es[i];
      if IsEmbeddedLink(child) {
        entityLinks := entityLinks + [WrapLink(AsEmbeddedLink(child))];
      } else if IsEmbeddedRepresentation(child) {
        assert child in entity.entities.items;
        var w := WrapEntity(child);
        entityRepresentations := entityRepresentations + [w];
      }
      PartitionStep(es, i);
    }
    assert es[..|es|] == es;
    var actions := Actions.WrapActions(OrEmpty(entity.actions));
    r := Resource.Representation(
      entity.rel, OrEmpty(entity.classes), entity.title, entity.properties,
      entityLinks, entityRepresentations, WrapLinks(OrEmpty(entity.links)), actions);
  }

  /** `wrapResponse` (lines 25-45). */
  method WrapResponse<T, P>(response: Siren.Response<T, P>) returns (r: Resource.Resource<T, P>)
    ensures r == ResourceOf(response)
  {
    var entityLinks: seq<Resource.EmbeddedLink> := [];
    var entityRepresentations: seq<Resource.Representation<P>> := [];
    var es := Siren.Items(response.entities);
    for i := 0 to |es|
      invariant entityLinks == EntityLinksOf(es[..i])
      invariant entityRepresentations == EntityRepresentationsOf(es[..i])
    {
      var entity := es[i];
      if IsEmbeddedLink(entity) {
        entityLinks := entityLinks + [WrapLink(AsEmbeddedLink(entity))];
      } else if IsEmbeddedRepresentation(entity) {
        var w := WrapEntity(entity);
        entityRepresentations := entityRepresentations + [w];
      }
      PartitionStep(es, i);
    }
    assert es[..|es|] == es;
    var actions := Actions.WrapActions(OrEmpty(response.actions));
    r := Resource.Resource(
      response.title, response.properties, OrEmpty(response.classes),
      entityLinks, entityRepresentations, WrapLinks(OrEmpty(response.links)), actions);
  }

  /**
   * Absent `entities`, `links`, `actions` and `class` become [], [], {} and
   * []; `title` and `properties` pass through, absent or not.
   */
  lemma ResourceDefaults<T, P>(response: Siren.Response<T, P>)
    ensures var r := ResourceOf(response);
      && r.title == response.title
      && r.properties == response.properties
      && (response.entities.Absent? ==> r.entityLinks == [] && r.entityRepresentations == [])
      && (response.links.None? ==> r.links == [])
      && (response.actions.None? ==> r.actions == map[])
      && (response.classes.None? ==> r.classes == [])
      && (response.classes.Some? ==> r.classes == response.classes.value)
  {
  }

  /**
   * An empty document: the built resource has no title or properties, empty
   * lists and no actions, and no class query on it succeeds.
   */
  lemma EmptyResponse<T, P>(x: string, q: seq<string>)
    ensures var empty: Siren.Response<T, P> := Siren.Response(None, None, None, Siren.Absent, None, None);
      var r := ResourceOf(empty);
      && r == Resource.Resource(None, None, [], [], [], [], map[])
      && !Tags.HasValue(r.classes, x)
      && (q != [] ==> !Tags.AllIn(r.classes, q) && !Tags.AnyIn(r.classes, q))
  {
    if q != [] {
      Tags.AllImpliesAny([], q);
    }
  }

  /**
   * The navigational links keep length and order, each copied unchanged
   * except that a missing `class` becomes [].
   */
  lemma NavigationLinksCopied<T, P>(response: Siren.Response<T, P>)
    ensures var ls, r := OrEmpty(response.links), ResourceOf(response);
      && |r.links| == |ls|
      && forall i :: 0 <= i < |ls| ==>
           UnwrapLink(r.links[i]) == ls[i].(classes := Some(OrEmpty(ls[i].classes)))
  {
  }

  /** The entity list of a response is split without loss. */
  lemma ResourcePartition<T, P>(response: Siren.Response<T, P>)
    ensures var r := ResourceOf(response);
      |r.entityLinks| + |r.entityRepresentations| == |Siren.Items(response.entities)|
  {
    PartitionSizes(Siren.Items(response.entities));
  }

  /** An embedded representation read as a response of its own. */
  function AsResponse<P>(e: Siren.Entity<P>): Siren.Response<P, P>
  {
    Siren.Response(e.title, e.properties, e.classes, e.entities, e.links, e.actions)
  }

  /**
   * `wrapEntity` applies exactly the rules of `wrapResponse` to a nested
   * representation, and in addition copies its `rel` verbatim.
   */
  lemma RepresentationFollowsResourceRules<P>(e: Siren.Entity<P>)
    requires IsEmbeddedRepresentation(e)
    ensures var rep, res := RepresentationOf(e), ResourceOf(AsResponse(e));
      && rep.rel == e.rel
      && rep.title == res.title
      && rep.properties == res.properties
      && rep.classes == res.classes
      && rep.entityLinks == res.entityLinks
      && rep.entityRepresentations == res.entityRepresentations
      && rep.links == res.links
      && rep.actions == res.actions
  {
  }
}
