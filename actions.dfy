/**
 * The action wrapper (src/implementation.ts:108-140): the wire list of
 * actions becomes a map from action name to output action, and each action's
 * list of fields a map from field name to output field. Both maps are filled
 * by assignment in list order, so when two entries share a name the later one
 * wins. Missing `method`, `type` (encoding), field `type` and `class` lists
 * are filled with fixed defaults.
 */
module Actions {
  import opened Wrappers
  import Siren
  import Resource

  /** `action.method ?? 'GET'`. */
  const DefaultMethod: string := "GET"
  /** `action.type ?? 'application/x-www-form-urlencoded'`. */
  const DefaultEncoding: string := "application/x-www-form-urlencoded"
  /** `field.type ?? 'text'`. */
  const DefaultInputType: string := "text"

  /**
   * Filling a dictionary `result[key(x)] = wrap(x)` for each `x` of `xs` in
   * order: a left fold, so the last entry for a key is the one that stays.
   */
  function KeyedLastWins<X, K, V>(xs: seq<X>, key: X -> K, wrap: X -> V): map<K, V>
  {
    if xs == [] then map[]
    else
      var n := |xs| - 1;
      KeyedLastWins(xs[..n], key, wrap)[key(xs[n]) := wrap(xs[n])]
  }

  /** The keys of the filled dictionary are exactly the keys of the entries. */
  lemma {:induction false} KeyedKeys<X, K, V>(xs: seq<X>, key: X -> K, wrap: X -> V)
    ensures KeyedLastWins(xs, key, wrap).Keys == set x | x in xs :: key(x)
  {
    if xs != [] {
      var n := |xs| - 1;
      KeyedKeys(xs[..n], key, wrap);
      assert xs == xs[..n] + [xs[n]];
      assert forall x :: x in xs <==> x in xs[..n] || x == xs[n];
    }
  }

  /** The entry that is last with its key is the one stored under that key. */
  lemma {:induction false} KeyedLastEntryWins<X, K, V>(xs: seq<X>, key: X -> K, wrap: X -> V, i: nat)
    requires i < |xs|
    requires forall j :: i < j < |xs| ==> key(xs[j]) != key(xs[i])
    ensures key(xs[i]) in KeyedLastWins(xs, key, wrap)
    ensures KeyedLastWins(xs, key, wrap)[key(xs[i])] == wrap(xs[i])
  {
    var n := |xs| - 1;
    if i < n {
      KeyedLastEntryWins(xs[..n], key, wrap, i);
    }
  }

  /** The position of the last entry with key `k`, or -1 when there is none. */
  function LastIndexOfKey<X, K(==)>(xs: seq<X>, key: X -> K, k: K): (i: int)
    ensures -1 <= i < |xs|
    ensures i == -1 <==> forall j :: 0 <= j < |xs| ==> key(xs[j]) != k
    ensures 0 <= i ==> key(xs[i]) == k && forall j :: i < j < |xs| ==> key(xs[j]) != k
  {
    if xs == [] then -1
    else if key(xs[|xs| - 1]) == k then |xs| - 1
    else LastIndexOfKey(xs[..|xs| - 1], key, k)
  }

  /** Conversely, whatever is stored under a key came from the last entry with that key. */
  lemma KeyedLookup<X, K, V>(xs: seq<X>, key: X -> K, wrap: X -> V, k: K)
    requires k in KeyedLastWins(xs, key, wrap)
    ensures 0 <= LastIndexOfKey(xs, key, k)
    ensures KeyedLastWins(xs, key, wrap)[k] == wrap(xs[LastIndexOfKey(xs, key, k)])
  {
    KeyedKeys(xs, key, wrap);
    var x :| x in xs && key(x) == k;
    var j :| 0 <= j < |xs| && xs[j] == x;
    KeyedLastEntryWins(xs, key, wrap, LastIndexOfKey(xs, key, k));
  }

  function FieldName(f: Siren.Field): string { f.name }

  function ActionName(a: Siren.Action): string { a.name }

  /** The output field built for one wire field (lines 120-125). */
  function WrapField(f: Siren.Field): Resource.Field
  {
    Resource.Field(OrEmpty(f.classes), GetOr(f.inputType, DefaultInputType), f.value, f.title)
  }

  /** The fields dictionary of one action. */
  function FieldsOf(fields: seq<Siren.Field>): map<string, Resource.Field>
  {
    KeyedLastWins(fields, FieldName, WrapField)
  }

  /** The output action built for one wire action (lines 117-136). */
  function WrapAction(a: Siren.Action): Resource.Action
  {
    Resource.Action(a.href, OrEmpty(a.classes), GetOr(a.httpMethod, DefaultMethod),
                    GetOr(a.encoding, DefaultEncoding), a.title, FieldsOf(OrEmpty(a.fields)))
  }

  /** What `wrapActions(client, actions)` returns. */
  function ActionsOf(actions: seq<Siren.Action>): map<string, Resource.Action>
  {
    KeyedLastWins(actions, ActionName, WrapAction)
  }

  /** `wrapActions`: nested loops that fill the `result` and `fields` dictionaries. */
  method WrapActions(actions: seq<Siren.Action>) returns (result: map<string, Resource.Action>)
    ensures result == ActionsOf(actions)
  {
    result := map[];
    for i := 0 to |actions|
      invariant result == KeyedLastWins(actions[..i], ActionName, WrapAction)
    {
      var action := actions[i];
      var fields: map<string, Resource.Field> := map[];
      if action.fields.Some? {
        var fs := action.fields.value;
        for j := 0 to |fs|
          invariant fields == KeyedLastWins(fs[..j], FieldName, WrapField)
        {
          var field := fs[j];
          fields := fields[field.name := Resource.Field(
            OrEmpty(field.classes),
            GetOr(field.inputType, DefaultInputType),
            field.value,
            field.title)];
          assert fs[..j + 1][..j] == fs[..j];
        }
        assert fs[..|fs|] == fs;
      }
      result := result[action.name := Resource.Action(
        action.href,
        OrEmpty(action.classes),
        GetOr(action.httpMethod, DefaultMethod),
        GetOr(action.encoding, DefaultEncoding),
        action.title,
        fields)];
      assert actions[..i + 1][..i] == actions[..i];
    }
    assert actions[..|actions|] == actions;
  }

  /** The keys of the action map are exactly the action names. */
  lemma ActionKeysAreNames(actions: seq<Siren.Action>)
    ensures ActionsOf(actions).Keys == set a | a in actions :: a.name
  {
    KeyedKeys(actions, ActionName, WrapAction);
  }

  /** The keys of a fields map are exactly the field names. */
  lemma FieldKeysAreNames(fields: seq<Siren.Field>)
    ensures FieldsOf(fields).Keys == set f | f in fields :: f.name
  {
    KeyedKeys(fields, FieldName, WrapField);
  }

  /**
   * The last field with a given name is the one stored, with its `type`
   * defaulted to "text", its `class` to [], and `value`/`title` copied.
   */
  lemma FieldLastWins(fields: seq<Siren.Field>, i: nat)
    requires i < |fields|
    requires forall j :: i < j < |fields| ==> fields[j].name != fields[i].name
    ensures fields[i].name in FieldsOf(fields)
    ensures var f, r := fields[i], FieldsOf(fields)[fields[i].name];
      && r.inputType == (if f.inputType.Some? then f.inputType.value else "text")
      && r.classes == (if f.classes.Some? then f.classes.value else [])
      && r.value == f.value
      && r.title == f.title
  {
    KeyedLastEntryWins(fields, FieldName, WrapField, i);
  }

  /**
   * The last action with a given name is the one stored: `href` and `title`
   * copied, `method` defaulted to GET, `type` to the form encoding, `class`
   * to [], and its fields keyed by field name.
   */
  lemma ActionLastWins(actions: seq<Siren.Action>, i: nat)
    requires i < |actions|
    requires forall j :: i < j < |actions| ==> actions[j].name != actions[i].name
    ensures actions[i].name in ActionsOf(actions)
    ensures var a, r := actions[i], ActionsOf(actions)[actions[i].name];
      && r.href == a.href
      && r.title == a.title
      && r.httpMethod == (if a.httpMethod.Some? then a.httpMethod.value else "GET")
      && r.encoding == (if a.encoding.Some? then a.encoding.value
                        else "application/x-www-form-urlencoded")
      && r.classes == (if a.classes.Some? then a.classes.value else [])
      && r.fields == FieldsOf(if a.fields.Some? then a.fields.value else [])
      && r.fields.Keys == set f | f in OrEmpty(a.fields) :: f.name
  {
    KeyedLastEntryWins(actions, ActionName, WrapAction, i);
    FieldKeysAreNames(OrEmpty(actions[i].fields));
  }

  /**
   * Every stored action is the wrapping of the last wire action with its
   * name: an earlier duplicate never survives.
   */
  lemma ActionLookup(actions: seq<Siren.Action>, name: string)
    requires name in ActionsOf(actions)
    ensures var i := LastIndexOfKey(actions, ActionName, name);
      && 0 <= i && actions[i].name == name
      && (forall j :: i < j < |actions| ==> actions[j].name != name)
      && ActionsOf(actions)[name] == WrapAction(actions[i])
  {
    KeyedLookup(actions, ActionName, WrapAction, name);
  }

  /** An action list with a repeated name keeps only the later action. */
  lemma DuplicateNameLaterWins(a1: Siren.Action, a2: Siren.Action)
    requires a1.name == a2.name
    ensures ActionsOf([a1, a2]) == map[a2.name := WrapAction(a2)]
  {
    assert [a1, a2][..1] == [a1];
    assert [a1][..0] == [];
    assert KeyedLastWins([a1], ActionName, WrapAction)
        == KeyedLastWins([], ActionName, WrapAction)[a1.name := WrapAction(a1)];
  }
}
