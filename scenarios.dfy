/**
 * The order document used by src/resource.test.ts, run through the model.
 * The expectations are those of the test, with one deliberate difference:
 * this revision's `wrapResponse` has no base URL, so every `href` stays relative
 * ("/orders/42") where the test, written against a later revision that
 * resolves against "http://api.x.io/", expects an absolute address.
 */
module Scenarios {
  import opened Wrappers
  import Siren
  import Resource
  import Graph
  import Actions
  import Tags

  function OrderItemsLink<P>(): Siren.Entity<P>
  {
    Siren.Entity(["http://x.io/rels/order-items"], Some(["items", "collection"]), None,
                 Some("/orders/42/items"), None, None, Siren.Absent, None, None)
  }

  function CustomerRepresentation<P>(customer: P): Siren.Entity<P>
  {
    Siren.Entity(["http://x.io/rels/customer"], Some(["info", "customer"]), None,
                 None, None, Some(customer), Siren.Absent,
                 Some([Siren.Link(["self"], None, None, "/customers/pj123", None)]), None)
  }

  function AddItemAction(): Siren.Action
  {
    Siren.Action("add-item", "/orders/42/items", None, Some("POST"), Some("Add Item"),
                 Some("application/x-www-form-urlencoded"),
                 Some([Siren.Field("orderNumber", None, Some("hidden"), Some("42"), None),
                       Siren.Field("productCode", None, Some("text"), None, None),
                       Siren.Field("quantity", None, Some("number"), None, None)]))
  }

  function OrderDocument<T, P>(order: T, customer: P): Siren.Response<T, P>
  {
    Siren.Response(None, Some(order), Some(["order"]),
                   Siren.Present([OrderItemsLink(), CustomerRepresentation(customer)]),
                   Some([Siren.Link(["self"], None, None, "/orders/42", None),
                         Siren.Link(["previous"], None, None, "/orders/41", None),
                         Siren.Link(["next"], None, None, "/orders/43", None)]),
                   Some([AddItemAction()]))
  }

  /** 'Parse full model', top level and navigational links (hrefs as given). */
  lemma OrderDocumentLinks<T, P>(order: T, customer: P)
    ensures var r := Graph.ResourceOf(OrderDocument(order, customer));
      && r.title == None
      && r.classes == ["order"]
      && r.properties == Some(order)
      && |r.links| == 3
      && r.links[0] == Resource.EmbeddedLink(["self"], [], None, "/orders/42", None)
      && r.links[1] == Resource.EmbeddedLink(["previous"], [], None, "/orders/41", None)
      && r.links[2] == Resource.EmbeddedLink(["next"], [], None, "/orders/43", None)
  {
  }

  /** 'Parse full model', the embedded link and the embedded representation. */
  lemma OrderDocumentEntities<T, P>(order: T, customer: P)
    ensures var r := Graph.ResourceOf(OrderDocument(order, customer));
      && r.entityLinks == [Resource.EmbeddedLink(["http://x.io/rels/order-items"],
                                                 ["items", "collection"], None,
                                                 "/orders/42/items", None)]
      && |r.entityRepresentations| == 1
      && r.entityRepresentations[0] == Resource.Representation(
           ["http://x.io/rels/customer"], ["info", "customer"], None, Some(customer), [], [],
           [Resource.EmbeddedLink(["self"], [], None, "/customers/pj123", None)], map[])
  {
    var es := [OrderItemsLink<P>(), CustomerRepresentation(customer)];
    assert es[1..][1..] == [];
    assert Graph.EntityLinksOf(es[1..]) == [];
    assert Graph.EntityRepresentationsOf(es[1..]) == [Graph.RepresentationOf(es[1])];
  }

  /** 'Parse full model', the action map. */
  lemma OrderDocumentActions<T, P>(order: T, customer: P)
    ensures var r := Graph.ResourceOf(OrderDocument(order, customer));
      && r.actions.Keys == {"add-item"}
      && r.actions["add-item"].href == "/orders/42/items"
      && r.actions["add-item"].httpMethod == "POST"
      && r.actions["add-item"].encoding == "application/x-www-form-urlencoded"
      && r.actions["add-item"].title == Some("Add Item")
      && r.actions["add-item"].classes == []
      && r.actions["add-item"].fields == Actions.FieldsOf(AddItemAction().fields.value)
  {
    var a := AddItemAction();
    assert Graph.ResourceOf(OrderDocument(order, customer)).actions == Actions.ActionsOf([a]);
    Actions.ActionLastWins([a], 0);
    Actions.ActionKeysAreNames([a]);
  }

  /** 'Parse full model', the fields map of the "add-item" action. */
  lemma AddItemFields()
    ensures var fields := Actions.FieldsOf(AddItemAction().fields.value);
      && fields.Keys == {"orderNumber", "productCode", "quantity"}
      && fields["orderNumber"] == Resource.Field([], "hidden", Some("42"), None)
      && fields["productCode"] == Resource.Field([], "text", None, None)
      && fields["quantity"] == Resource.Field([], "number", None, None)
  {
    var fs := AddItemAction().fields.value;
    Actions.FieldLastWins(fs, 0);
    Actions.FieldLastWins(fs, 1);
    Actions.FieldLastWins(fs, 2);
    Actions.FieldKeysAreNames(fs);
    assert (set f | f in fs :: f.name) == {"orderNumber", "productCode", "quantity"};
  }

  /** 'Look up classes in full model', on the class list ["order"]. */
  lemma ClassLookups()
    ensures Tags.HasValue(["order"], "order") && !Tags.HasValue(["order"], "unknown")
    ensures Tags.AllIn(["order"], ["order"])
    ensures !Tags.AllIn(["order"], ["unknown"])
    ensures !Tags.AllIn(["order"], ["unknown", "order"])
    ensures !Tags.AllIn(["order"], ["order", "unknown"])
    ensures Tags.AnyIn(["order"], ["order"])
    ensures !Tags.AnyIn(["order"], ["unknown"])
    ensures Tags.AnyIn(["order"], ["unknown", "order"])
    ensures Tags.AnyIn(["order"], ["order", "unknown"])
  {
    assert "order" in ["unknown", "order"];
    assert "order" in ["order", "unknown"];
    assert "unknown" in ["unknown", "order"];
    assert "unknown" in ["order", "unknown"];
  }
}
