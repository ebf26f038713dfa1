/** The `filter` of the source's arrays: a reference definition, and what it keeps. */
module Filters {

  function Filter<T>(s: seq<T>, keep: T -> bool): seq<T> {
    if s == [] then []
    else Filter(s[..|s| - 1], keep) + if keep(s[|s| - 1]) then [s[|s| - 1]] else []
  }

  lemma {:induction false} FilterConcat<T>(a: seq<T>, b: seq<T>, keep: T -> bool)
    ensures Filter(a + b, keep) == Filter(a, keep) + Filter(b, keep)
  {
    if b == [] {
      assert a + b == a;
    } else {
      assert (a + b)[..|a + b| - 1] == a + b[..|b| - 1];
      FilterConcat(a, b[..|b| - 1], keep);
    }
  }

  lemma FilterFront<T>(s: seq<T>, keep: T -> bool)
    requires s != []
    ensures Filter(s, keep) == (if keep(s[0]) then [s[0]] else []) + Filter(s[1..], keep)
  {
    assert s == [s[0]] + s[1..];
    FilterConcat([s[0]], s[1..], keep);
    assert [s[0]][..0] == [];
  }

  lemma {:induction false} FilterAll<T>(s: seq<T>, keep: T -> bool)
    requires forall x :: x in s ==> keep(x)
    ensures Filter(s, keep) == s
  {
    if s != [] {
      assert s[|s| - 1] in s;
      FilterAll(s[..|s| - 1], keep);
    }
  }

  /** A strictly rising list of places. */
  ghost predicate Rising(places: seq<nat>) {
    forall a, b :: 0 <= a < b < |places| ==> places[a] < places[b]
  }

  /** The places of the elements to keep. */
  ghost function Places<T>(s: seq<T>, keep: T -> bool): seq<nat> {
    if s == [] then []
    else Places(s[..|s| - 1], keep) + if keep(s[|s| - 1]) then [|s| - 1] else []
  }

  /** What is kept are the elements at those places, in the order of the places. */
  lemma {:induction false} FilterPlaces<T>(s: seq<T>, keep: T -> bool)
    ensures |Places(s, keep)| == |Filter(s, keep)| && Rising(Places(s, keep))
    ensures forall k :: 0 <= k < |Places(s, keep)| ==>
              Places(s, keep)[k] < |s| && Filter(s, keep)[k] == s[Places(s, keep)[k]]
  {
    if s != [] {
      FilterPlaces(s[..|s| - 1], keep);
    }
  }

  /** Every element to keep has its place. */
  lemma {:induction false} PlacesAll<T>(s: seq<T>, keep: T -> bool, i: nat)
    ensures i in Places(s, keep) <==> i < |s| && keep(s[i])
  {
    if s != [] {
      PlacesAll(s[..|s| - 1], keep, i);
    }
  }
}
