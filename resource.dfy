/**
 * The navigable output model (src/resource.ts). Unlike the wire format, every
 * collection is always present: only `title`, `properties`, a link's media
 * type and a field's `value` may be absent. Actions and fields are maps keyed
 * by name, and an output action or field no longer carries its name.
 *
 * The closure members that the source attaches next to each tag list
 * (`hasClass`, `hasAllClasses`, `hasAnyClass`, `hasRel`, `hasAllRels`,
 * `hasAnyRel`) are not stored: they are the predicates of module Tags applied
 * to the stored `classes` or `rel` list.
 */
module Resource {
  import opened Wrappers

  datatype Resource<T, P> = Resource(
    title: Option<string>,
    properties: Option<T>,
    classes: seq<string>,
    entityLinks: seq<EmbeddedLink>,
    entityRepresentations: seq<Representation<P>>,
    links: seq<EmbeddedLink>,
    actions: map<string, Action>)

  /** An embedded link, also used for the navigational `links`. */
  datatype EmbeddedLink = EmbeddedLink(
    rel: seq<string>,
    classes: seq<string>,
    title: Option<string>,
    href: string,
    mediaType: Option<string>)

  /** An embedded representation: a resource of its own plus `rel`. */
  datatype Representation<P> = Representation(
    rel: seq<string>,
    classes: seq<string>,
    title: Option<string>,
    properties: Option<P>,
    entityLinks: seq<EmbeddedLink>,
    entityRepresentations: seq<Representation<P>>,
    links: seq<EmbeddedLink>,
    actions: map<string, Action>)

  datatype Action = Action(
    href: string,
    classes: seq<string>,
    httpMethod: string,
    encoding: string,
    title: Option<string>,
    fields: map<string, Field>)

  datatype Field = Field(
    classes: seq<string>,
    inputType: string,
    value: Option<string>,
    title: Option<string>)
}
