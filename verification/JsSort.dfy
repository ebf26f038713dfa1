/** The stable ascending `Array.prototype.sort` of the source, by a numeric rank. */
module JsSort {

  ghost predicate SortedBy<T>(xs: seq<T>, rank: T -> real) {
    forall i, j :: 0 <= i < j < |xs| ==> rank(xs[i]) <= rank(xs[j])
  }

  /** Just behind the last element whose rank is not larger than that of `x`. */
  function Slot<T>(xs: seq<T>, x: T, rank: T -> real): (i: nat)
    ensures i <= |xs|
    ensures i > 0 ==> rank(xs[i - 1]) <= rank(x)
    ensures forall j :: i <= j < |xs| ==> rank(xs[j]) > rank(x)
  {
    if xs == [] || rank(xs[|xs| - 1]) <= rank(x) then |xs|
    else Slot(xs[..|xs| - 1], x, rank)
  }

  function Insert<T>(xs: seq<T>, x: T, rank: T -> real): (r: seq<T>)
    ensures multiset(r) == multiset(xs) + multiset{x}
    ensures |r| == |xs| + 1
  {
    var i := Slot(xs, x, rank);
    assert xs == xs[..i] + xs[i..];
    xs[..i] + [x] + xs[i..]
  }

  function Sort<T>(xs: seq<T>, rank: T -> real): (r: seq<T>)
    ensures multiset(r) == multiset(xs)
    ensures |r| == |xs|
  {
    if xs == [] then []
    else
      assert xs == xs[..|xs| - 1] + [xs[|xs| - 1]];
      Insert(Sort(xs[..|xs| - 1], rank), xs[|xs| - 1], rank)
  }

  lemma InsertSorted<T>(xs: seq<T>, x: T, rank: T -> real)
    requires SortedBy(xs, rank)
    ensures SortedBy(Insert(xs, x, rank), rank)
  {
    var i := Slot(xs, x, rank);
    assert forall j :: 0 <= j < i ==> rank(xs[j]) <= rank(xs[i - 1]) <= rank(x);
  }

  lemma {:induction false} SortSorted<T>(xs: seq<T>, rank: T -> real)
    ensures SortedBy(Sort(xs, rank), rank)
  {
    if xs != [] {
      SortSorted(xs[..|xs| - 1], rank);
      InsertSorted(Sort(xs[..|xs| - 1], rank), xs[|xs| - 1], rank);
    }
  }

  /** Sorting only rearranges. */
  lemma SortMembers<T>(xs: seq<T>, rank: T -> real)
    ensures forall x :: x in Sort(xs, rank) <==> x in xs
  {
    forall x
      ensures x in Sort(xs, rank) <==> x in xs
    {
      assert x in multiset(xs) <==> x in xs;
      assert x in multiset(Sort(xs, rank)) <==> x in Sort(xs, rank);
    }
  }

  ghost function WithRank<T>(xs: seq<T>, rank: T -> real, v: real): seq<T> {
    if xs == [] then []
    else WithRank(xs[..|xs| - 1], rank, v) + if rank(xs[|xs| - 1]) == v then [xs[|xs| - 1]] else []
  }

  /** Elements of equal rank keep their order. */
  lemma {:induction false} SortStable<T>(xs: seq<T>, rank: T -> real, v: real)
    ensures WithRank(Sort(xs, rank), rank, v) == WithRank(xs, rank, v)
  {
    if xs != [] {
      var front, last := xs[..|xs| - 1], xs[|xs| - 1];
      SortStable(front, rank, v);
      SortSorted(front, rank);
      InsertStable(Sort(front, rank), last, rank, v);
    }
  }

  lemma InsertStable<T>(xs: seq<T>, x: T, rank: T -> real, v: real)
    requires SortedBy(xs, rank)
    ensures WithRank(Insert(xs, x, rank), rank, v) == WithRank(xs, rank, v) + if rank(x) == v then [x] else []
  {
    var i := Slot(xs, x, rank);
    var low, high := xs[..i], xs[i..];
    WithRankConcat(low + [x], high, rank, v);
    WithRankConcat(low, [x], rank, v);
    WithRankConcat(low, high, rank, v);
    assert xs == low + high;
    assert WithRank([x], rank, v) == if rank(x) == v then [x] else [] by {
      assert [x][..0] == [];
    }
    if rank(x) == v {
      NoneWithRank(high, rank, v);
    }
    Joined(WithRank(low, rank, v), WithRank([x], rank, v), WithRank(high, rank, v));
  }

  lemma Joined<T>(a: seq<T>, b: seq<T>, c: seq<T>)
    ensures b == [] || c == [] ==> a + b + c == a + c + b
  {
  }

  lemma {:induction false} WithRankConcat<T>(xs: seq<T>, ys: seq<T>, rank: T -> real, v: real)
    ensures WithRank(xs + ys, rank, v) == WithRank(xs, rank, v) + WithRank(ys, rank, v)
  {
    if ys == [] {
      assert xs + ys == xs;
    } else {
      assert (xs + ys)[..|xs + ys| - 1] == xs + ys[..|ys| - 1];
      WithRankConcat(xs, ys[..|ys| - 1], rank, v);
    }
  }

  lemma {:induction false} NoneWithRank<T>(xs: seq<T>, rank: T -> real, v: real)
    requires forall j :: 0 <= j < |xs| ==> rank(xs[j]) != v
    ensures WithRank(xs, rank, v) == []
  {
    if xs != [] {
      NoneWithRank(xs[..|xs| - 1], rank, v);
    }
  }

  ghost predicate NoRepeats<T>(s: seq<T>) {
    forall i, j :: 0 <= i < j < |s| ==> s[i] != s[j]
  }

  lemma {:induction false} CountAtMostOnce<T>(s: seq<T>, x: T)
    requires NoRepeats(s)
    ensures multiset(s)[x] <= 1
  {
    if s != [] {
      assert s == [s[0]] + s[1..];
      CountAtMostOnce(s[1..], x);
      assert s[0] !in s[1..];
      assert s[0] !in multiset(s[1..]);
    }
  }

  lemma CountTwice<T>(s: seq<T>, i: nat, j: nat)
    requires i < j < |s| && s[i] == s[j]
    ensures multiset(s)[s[i]] >= 2
  {
    assert s == s[..i] + [s[i]] + s[i + 1..];
    assert s[j] == s[i + 1..][j - i - 1];
    assert s[j] in multiset(s[i + 1..]);
  }

  /** Rearranging a list without repeats gives a list without repeats. */
  lemma PermutedNoRepeats<T>(xs: seq<T>, ys: seq<T>)
    requires NoRepeats(xs) && multiset(xs) == multiset(ys)
    ensures NoRepeats(ys)
  {
    forall i, j | 0 <= i < j < |ys|
      ensures ys[i] != ys[j]
    {
      CountAtMostOnce(xs, ys[i]);
      if ys[i] == ys[j] { CountTwice(ys, i, j); }
    }
  }
}
