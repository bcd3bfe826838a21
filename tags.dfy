/**
 * The tag-matching predicates that `wrapClasses` and `wrapRels` attach to
 * every class list and rel list (src/implementation.ts:146-204). The source
 * builds them as closures over the captured list `matches`; here that list is
 * the first parameter. Matching is by `Array.prototype.indexOf`, i.e. strict
 * equality, which on strings is equality of the character sequences.
 */
module Tags {

  /** `matches.indexOf(x)`: the first position of `x`, or -1 when absent. */
  function IndexOf<T(==)>(matches: seq<T>, x: T): (i: int)
    ensures -1 <= i < |matches|
    ensures i == -1 <==> x !in matches
    ensures 0 <= i ==> matches[i] == x && x !in matches[..i]
  {
    if matches == [] then -1
    else if matches[0] == x then 0
    else
      var j := IndexOf(matches[1..], x);
      if j == -1 then -1
      else
        assert matches[..j + 1] == [matches[0]] + matches[1..][..j];
        j + 1
  }

  /** `hasValue(matches)(input)`. */
  predicate HasValue<T(==)>(matches: seq<T>, input: T)
    ensures HasValue(matches, input) <==> input in matches
  {
    IndexOf(matches, input) != -1
  }

  /** What `hasAllValues` promises: every queried value is a member. */
  ghost predicate AllIn<T>(matches: seq<T>, input: seq<T>)
  {
    forall x :: x in input ==> x in matches
  }

  /** What `hasAnyValue` promises: some queried value is a member. */
  ghost predicate AnyIn<T>(matches: seq<T>, input: seq<T>)
  {
    exists x :: x in input && x in matches
  }

  /** `hasAllValues(matches)(input)`: a scan that stops at the first miss. */
  method HasAllValues<T(==)>(matches: seq<T>, input: seq<T>) returns (r: bool)
    ensures r <==> AllIn(matches, input)
    ensures input == [] ==> r
  {
    for i := 0 to |input|
      invariant forall j :: 0 <= j < i ==> input[j] in matches
    {
      if IndexOf(matches, input[i]) == -1 {
        return false;
      }
    }
    return true;
  }

  /** `hasAnyValue(matches)(input)`: a scan that stops at the first hit. */
  method HasAnyValue<T(==)>(matches: seq<T>, input: seq<T>) returns (r: bool)
    ensures r <==> AnyIn(matches, input)
    ensures input == [] ==> !r
  {
    for i := 0 to |input|
      invariant forall j :: 0 <= j < i ==> input[j] !in matches
    {
      if IndexOf(matches, input[i]) != -1 {
        return true;
      }
    }
    return false;
  }

  /** Neither predicate depends on the order (or multiplicity) of the query. */
  lemma QueryOrderIrrelevant<T>(matches: seq<T>, q1: seq<T>, q2: seq<T>)
    requires forall x :: x in q1 <==> x in q2
    ensures AllIn(matches, q1) <==> AllIn(matches, q2)
    ensures AnyIn(matches, q1) <==> AnyIn(matches, q2)
  {
  }

  /** A reordering of the query, in particular, gives the same answers. */
  lemma QueryPermutationIrrelevant<T>(matches: seq<T>, q1: seq<T>, q2: seq<T>)
    requires multiset(q1) == multiset(q2)
    ensures AllIn(matches, q1) <==> AllIn(matches, q2)
    ensures AnyIn(matches, q1) <==> AnyIn(matches, q2)
  {
    forall x ensures x in q1 <==> x in q2 {
      assert x in q1 <==> x in multiset(q1);
      assert x in q2 <==> x in multiset(q2);
    }
    QueryOrderIrrelevant(matches, q1, q2);
  }

  /** "All" and "any" split over concatenated queries. */
  lemma QueryConcat<T>(matches: seq<T>, q1: seq<T>, q2: seq<T>)
    ensures AllIn(matches, q1 + q2) <==> AllIn(matches, q1) && AllIn(matches, q2)
    ensures AnyIn(matches, q1 + q2) <==> AnyIn(matches, q1) || AnyIn(matches, q2)
  {
  }

  /** For a non-empty query, "all" implies "any"; an empty tag list matches nothing. */
  lemma AllImpliesAny<T>(matches: seq<T>, input: seq<T>)
    requires input != []
    ensures AllIn(matches, input) ==> AnyIn(matches, input)
    ensures matches == [] ==> !AllIn(matches, input) && !AnyIn(matches, input)
  {
    assert input[0] in input;
  }
}
