# Siren response mapping (butes), modelled in Dafny

butes is a TypeScript client for hypermedia APIs that speak Siren. When the
server returns a Siren document, the client turns it into a navigable
`Resource`. The document's `entities` list is split into embedded links and
embedded representations. Navigational `links` are wrapped one for one. The
`actions` list becomes a map keyed by action name, and each action's `fields`
list becomes a map keyed by field name. Every `class` and `rel` list gets three
matching predicates: `has…`, `hasAll…` and `hasAny…`.

This project models that mapping as it is written in `src/implementation.ts`.
The wire format of `src/siren.ts` and the output format of `src/resource.ts`
become datatypes. The operations are modelled in the form the source gives
them. The `forEach` push loops of `wrapResponse` and `wrapEntity`, the nested
dictionary-filling loops of `wrapActions`, and the early-return loops of
`hasAllValues` and `hasAnyValue` are methods. Each method is proved equal to a
specification function, or to the property the source promises. The
single-expression helpers are functions. Every property is proved about the
specification functions as lemmas.

Modules (one file each):

- `Wrappers` (wrappers.dfy): `Option` for a JavaScript property that may be
  absent. It also gives `??` as `GetOr` and `?? []` as `OrEmpty`.
- `Siren` (siren.dfy): the wire types of `src/siren.ts:1-189`. Every top-level
  `Response` key is optional. An element of `entities` is one recursive record
  `Entity` whose `href` is optional, so the union
  `EmbeddedLink | EmbeddedRepresentation` of `src/siren.ts:116` is decided by
  that one key. `rel` is required on every entity. `Action` requires `name` and
  `href`, and `Field` requires `name`. The `properties` bag is an opaque type
  parameter: `T` at the top level and `P` (the source's `any`) in embedded
  representations. `entities` is its own datatype (`Absent | Present(items)`),
  so nesting ends by structural recursion.
- `Resource` (resource.dfy): the output types of `src/resource.ts:1-176`. All
  lists are present, and only `title`, `properties`, a link's `type` and a
  field's `value`/`title` may be absent. `actions` and `fields` are maps, and
  an output action or field has no `name`.
- `Tags` (tags.dfy): `hasValue`, `hasAllValues`, `hasAnyValue`, and the
  `indexOf` they rely on.
- `Classifier` (classifier.dfy): `isEmbeddedLink` and
  `isEmbeddedRepresentation`.
- `Actions` (actions.dfy): `wrapActions`. The generic last-wins left fold
  `KeyedLastWins` is the meaning of "assign `dict[name] = …` in list order",
  and it is used for both actions and fields.
- `Graph` (graph.dfy): `wrapLink`, `wrapEntity` and `wrapResponse`.
- `Scenarios` (scenarios.dfy): the order document of `src/resource.test.ts`
  run through the model.

Where the code and the tests disagree, the model follows the code. In this
revision `wrapResponse(client, response)` has no base URL and copies every `href`
verbatim (`src/implementation.ts:55`, `src/implementation.ts:130`). The tests
call `wrapResponse(client, 'http://api.x.io/', …)` and expect resolved,
absolute hrefs (`src/resource.test.ts:9`, `src/resource.test.ts:87`). The
Scenarios lemmas therefore expect `"/orders/41"` where the test expects
`"http://api.x.io/orders/41"`. Relative href resolution, action submission and
content-type dispatch belong to that later revision. None of them is in
`src/implementation.ts`, so none is modelled.

## Model

| member | source | states |
|---|---|---|
| `Tags.IndexOf` | src/implementation.ts:172-174 | `indexOf` gives -1 exactly when the value is absent. Otherwise it gives a position holding the value with no earlier occurrence. |
| `Tags.HasValue` | src/implementation.ts:172-174 | `hasValue(matches)(input)` holds iff `input` is a member of `matches`. |
| `Tags.HasAllValues` | src/implementation.ts:180-189 | The early-return scan answers true iff every queried value is a member. It is true for an empty query. |
| `Tags.HasAnyValue` | src/implementation.ts:195-204 | The early-return scan answers true iff some queried value is a member. It is false for an empty query. |
| `Tags.QueryOrderIrrelevant` | src/implementation.ts:180-204 | Two queries with the same elements get the same "all" and "any" answers, whatever their order or repetitions. |
| `Tags.QueryPermutationIrrelevant` | src/implementation.ts:180-204 | A reordering (permutation) of the query does not change either answer. |
| `Tags.QueryConcat` | src/implementation.ts:180-204 | For a concatenated query, "all" is the conjunction and "any" the disjunction of the answers for the parts. |
| `Tags.AllImpliesAny` | src/implementation.ts:180-204 | For a non-empty query, "all" implies "any". An empty tag list matches no non-empty query. |
| `Classifier.ExactlyOneKind` | src/implementation.ts:96-106 | `isEmbeddedLink` and `isEmbeddedRepresentation` are exact complements: each entity is exactly one kind. |
| `Classifier.HrefDecides` | src/implementation.ts:96-98 | Only the presence of `href` decides the kind. An entity with `href` is a link whatever representation keys it also has. |
| `Actions.KeyedKeys` | src/implementation.ts:113-140 | Filling a dictionary by name in list order yields exactly the set of names as keys. |
| `Actions.KeyedLastEntryWins` | src/implementation.ts:116-137 | The entry that is last with its name is the value stored under that name. |
| `Actions.KeyedLookup` | src/implementation.ts:116-137 | Any stored value is the wrapping of the last entry with that name. |
| `Actions.WrapActions` | src/implementation.ts:113-140 | The nested loops build exactly the last-wins action map. Each action's fields map is the last-wins map of its fields, and an absent `fields` list gives `{}`. |
| `Actions.ActionKeysAreNames` | src/implementation.ts:129 | The keys of the action map are exactly the action names. |
| `Actions.FieldKeysAreNames` | src/implementation.ts:119-126 | The keys of a fields map are exactly the field names. |
| `Actions.FieldLastWins` | src/implementation.ts:119-126 | The last field with a name is stored. Its `type` defaults to "text" and its `class` to [], and `value` and `title` are copied. |
| `Actions.ActionLastWins` | src/implementation.ts:116-137 | The last action with a name is stored. `href` and `title` are copied, `method` defaults to "GET", `type` to "application/x-www-form-urlencoded" and `class` to []. Its fields are keyed by field name. |
| `Actions.ActionLookup` | src/implementation.ts:116-137 | Each stored action comes from the last wire action with that name, so an earlier duplicate never survives. |
| `Actions.DuplicateNameLaterWins` | src/implementation.ts:129 | With two actions of the same name, the map holds only the later one. |
| `Graph.WrapLinkCopies` | src/implementation.ts:53-61 | `wrapLink` copies `href`, `title`, `type` and `rel` unchanged. Only a missing `class` becomes []. |
| `Graph.WrapLinkOnto` | src/implementation.ts:53-61 | Every output link is the `wrapLink` of a wire link (the inverse direction). |
| `Graph.EntityLinksConcat` | src/implementation.ts:28-34 | The collected `entityLinks` of a concatenated entity list is the concatenation of the parts' `entityLinks`. |
| `Graph.EntityRepresentationsConcat` | src/implementation.ts:28-34 | The same for `entityRepresentations`. |
| `Graph.PartitionStep` | src/implementation.ts:28-34 | Each `forEach` step appends the entity to exactly one list, chosen by `href`, and leaves the other list unchanged. |
| `Graph.PartitionSizes` | src/implementation.ts:28-34 | The lengths of `entityLinks` and `entityRepresentations` sum to the length of `entities`. |
| `Graph.EntityLinkPosition` | src/implementation.ts:28-34 | A link at input position i lands in `entityLinks` at the number of links before it. |
| `Graph.EntityRepresentationPosition` | src/implementation.ts:28-34 | A representation at input position i lands in `entityRepresentations` at the number of representations before it. |
| `Graph.PartitionKeepsOrder` | src/implementation.ts:28-34 | Two entities of the same kind keep their relative input order in their output list. |
| `Graph.WrapEntity` | src/implementation.ts:69-90 | The recursive `wrapEntity` with its push loop returns exactly the specified representation. |
| `Graph.WrapResponse` | src/implementation.ts:25-45 | `wrapResponse` with its push loop returns exactly the specified resource. |
| `Graph.ResourceDefaults` | src/implementation.ts:36-44 | Absent `entities`, `links`, `actions` and `class` become [], [], {} and []. `title` and `properties` pass through unchanged, absent or not. |
| `Graph.EmptyResponse` | src/resource.test.ts:8-26 | `{}` gives a resource with no title or properties and with empty lists and actions. No class query on it succeeds. |
| `Graph.NavigationLinksCopied` | src/implementation.ts:39 | `links` keeps the input length and order. Each link is copied unchanged except that a missing `class` becomes []. |
| `Graph.ResourcePartition` | src/implementation.ts:26-41 | The top-level `entityLinks` and `entityRepresentations` together are exactly as long as `entities`. |
| `Graph.RepresentationFollowsResourceRules` | src/implementation.ts:69-90 | `wrapEntity` gives a nested representation the same partition, link, action and default rules as `wrapResponse`, and copies its `rel` verbatim. |
| `Scenarios.OrderDocumentLinks` | src/resource.test.ts:73-102 | For the order document: no title, class ["order"], the properties as given, and three links in order with `class` []. The hrefs are left as written. |
| `Scenarios.OrderDocumentEntities` | src/resource.test.ts:104-131 | For the order document: one embedded link and one embedded representation. The representation has its own wrapped `self` link and no actions. |
| `Scenarios.OrderDocumentActions` | src/resource.test.ts:133-138 | For the order document: one action, "add-item", with method POST, the form encoding, title "Add Item" and class []. |
| `Scenarios.AddItemFields` | src/resource.test.ts:140-155 | The fields of "add-item" are keyed by name. A declared type is kept, a missing type becomes "text", and value and class are as the test expects. |
| `Scenarios.ClassLookups` | src/resource.test.ts:158-173 | The class queries of the test on the class list ["order"] give the expected answers. |

## Left out

- `ClientImpl.get` (`src/implementation.ts:10-17`) is left out. It is network I/O through `node-fetch` plus JSON parsing, so it has no logic to model. `newClient`, the `Client` interface and `ApiResponse` are also left out, because they are only wiring and declarations.
- The `client` argument is left out. `wrapResponse`, `wrapEntity`, `wrapLink` and `wrapActions` pass it along but never read it.
- The closure members `hasClass`, `hasAllClasses`, `hasAnyClass`, `hasRel`, `hasAllRels` and `hasAnyRel` are not stored as fields. Function-valued fields would make the output records impossible to compare. Each output record keeps the captured `class` or `rel` list that `wrapClasses` / `wrapRels` close over. The three predicates are `Tags.HasValue`, `Tags.HasAllValues` and `Tags.HasAnyValue` applied to that list.
- The model does not tell a missing key apart from a key whose value is `undefined`, and it has no `null`. `'href' in object` counts a key present with the value `undefined` as a link. `??` also replaces `null`. Both the absent and the undefined cases are `None` here.
- JavaScript object dictionaries are modelled as Dafny maps. The special key `__proto__`, which a plain object does not store as an own key, is not modelled. Neither is the insertion order of `Object.keys`.
- The contents of `properties` are not modelled. The bag is an opaque type parameter.
- Base-URL resolution of hrefs, action submission, link fetching, problem documents and content-type dispatch are not modelled. They appear only in the tests and in `src/problem`, and `src/problem` is not part of this model. This revision copies hrefs verbatim, and the model does the same.
