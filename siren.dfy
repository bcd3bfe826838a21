/**
 * The Siren wire format as the server sends it (src/siren.ts). Every
 * collection and most scalars are optional; `Option` stands for a property
 * that may be missing from the JSON object. `T` is the opaque properties bag
 * of the top-level response and `P` the equally opaque (`any`) bag of an
 * embedded representation; their contents are never inspected.
 *
 * Field names follow the wire keys except where the key is a Dafny keyword:
 * `class` is `classes`, `type` is `mediaType` (links), `encoding` (actions)
 * or `inputType` (fields), and `method` is `httpMethod`.
 */
module Siren {
  import opened Wrappers

  /** A Siren entity as returned at the top level of a response. */
  datatype Response<T, P> = Response(
    title: Option<string>,
    properties: Option<T>,
    classes: Option<seq<string>>,
    entities: EntityList<P>,
    links: Option<seq<Link>>,
    actions: Option<seq<Action>>)

  /**
   * The optional `entities` list. It is its own datatype rather than an
   * `Option<seq<Entity<P>>>` so that nesting ends by structural recursion:
   * an entity in `items` is structurally smaller than its parent.
   */
  datatype EntityList<P> = Absent | Present(items: seq<Entity<P>>)

  /**
   * An element of `entities`: the union `EmbeddedLink | EmbeddedRepresentation`
   * as one record. The keys common to both (`rel`, `class`, `title`) come
   * first, then the link-only keys (`href`, `type`), then the
   * representation-only keys. Whether `href` is present decides which of the
   * two it is; see module Classifier.
   */
  datatype Entity<P> = Entity(
    rel: seq<string>,
    classes: Option<seq<string>>,
    title: Option<string>,
    href: Option<string>,
    mediaType: Option<string>,
    properties: Option<P>,
    entities: EntityList<P>,
    links: Option<seq<Link>>,
    actions: Option<seq<Action>>)

  /** An embedded link as it appears in a `links` list: `href` is required. */
  datatype Link = Link(
    rel: seq<string>,
    classes: Option<seq<string>>,
    title: Option<string>,
    href: string,
    mediaType: Option<string>)

  /** An action: `name` and `href` are required, everything else optional. */
  datatype Action = Action(
    name: string,
    href: string,
    classes: Option<seq<string>>,
    httpMethod: Option<string>,
    title: Option<string>,
    encoding: Option<string>,
    fields: Option<seq<Field>>)

  /** A field of an action: only `name` is required. */
  datatype Field = Field(
    name: string,
    classes: Option<seq<string>>,
    inputType: Option<string>,
    value: Option<string>,
    title: Option<string>)

  /** `entities ?? []`. */
  function Items<P>(l: EntityList<P>): seq<Entity<P>>
  {
    match l
    case Absent => []
    case Present(items) => items
  }
}
