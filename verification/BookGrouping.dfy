/** Order-book levels bucketed to a coarser price step. Prices and quantities are exact reals; a bucket is named
    by the whole number of steps below its prices. */
module BookGrouping {
  import opened JsMap
  import opened JsSort
  import opened OrderBookFill
  import opened RealOrder

  /** The finest step shown for a price. */
  function TickSize(price: real): (t: real)
    ensures t > 0.0
  {
    if price >= 10000.0 then 1.0
    else if price >= 1000.0 then 0.1
    else if price >= 100.0 then 0.01
    else if price >= 10.0 then 0.001
    else if price >= 1.0 then 0.0001
    else if price >= 0.1 then 0.00001
    else 0.000001
  }

  function PowerOfTen(idx: nat): (r: nat)
    ensures r > 0
  {
    if idx == 0 then 1 else 10 * PowerOfTen(idx - 1)
  }

  function GroupSize(price: real, idx: nat): (g: real)
    ensures g > 0.0
  {
    MulStrict(0.0, TickSize(price), PowerOfTen(idx) as real);
    TickSize(price) * PowerOfTen(idx) as real
  }

  /** Whole steps below a price. */
  function Bucket(price: real, step: real): int
    requires step > 0.0
  {
    (price / step).Floor
  }

  function PriceOf(bucket: int, step: real): real {
    bucket as real * step
  }

  // ---------------------------------------------------------------- what the code computes

  /** The bucket map after the given levels. */
  function Bucketed(levels: seq<Level>, step: real): Entries<int, real>
    requires step > 0.0
  {
    if levels == [] then []
    else Added(Bucketed(levels[..|levels| - 1], step), levels[|levels| - 1], step)
  }

  function Added(m: Entries<int, real>, l: Level, step: real): Entries<int, real>
    requires step > 0.0
  {
    var b := Bucket(l.price, step);
    Set(m, b, (if Has(m, b) then Get(m, b) else 0.0) + l.qty)
  }

  /** The buckets, highest price first. */
  function Grouping(levels: seq<Level>, step: real): seq<(int, real)>
    requires step > 0.0
  {
    Sort(Bucketed(levels, step), (e: (int, real)) => -(e.0 as real))
  }

  function ToLevels(rows: seq<(int, real)>, step: real): (r: seq<Level>)
    ensures |r| == |rows| && forall i :: 0 <= i < |r| ==> r[i] == Level(PriceOf(rows[i].0, step), rows[i].1)
  {
    seq(|rows|, i requires 0 <= i < |rows| => Level(PriceOf(rows[i].0, step), rows[i].1))
  }

  /** One pass over the levels that sums quantities per bucket, then a sort. */
  method GroupBookLevels(levels: seq<Level>, groupSize: real) returns (grouped: seq<Level>)
    requires groupSize > 0.0
    ensures grouped == ToLevels(Grouping(levels, groupSize), groupSize)
  {
    var m: Entries<int, real> := [];
    var i := 0;
    while i < |levels|
      invariant 0 <= i <= |levels|
      invariant m == Bucketed(levels[..i], groupSize)
    {
      assert levels[..i + 1][..i] == levels[..i];
      var b := Bucket(levels[i].price, groupSize);
      m := Set(m, b, (if Has(m, b) then Get(m, b) else 0.0) + levels[i].qty);
      i := i + 1;
    }
    assert levels[..i] == levels;
    var rows := Sort(m, (e: (int, real)) => -(e.0 as real));
    grouped := ToLevels(rows, groupSize);
  }

  // ---------------------------------------------------------------- meaning

  /** A choice of buckets: all, one, or those that make up one bucket of a coarser step. */
  datatype Selection = All | Only(bucket: int) | Within(factor: int, coarse: int) {
    ghost predicate Picks(b: int) {
      match this
      case All => true
      case Only(bucket) => b == bucket
      case Within(factor, coarse) => factor > 0 && b / factor == coarse
    }
  }

  /** Quantity of the raw levels whose bucket is selected. */
  ghost function QtyWhere(levels: seq<Level>, step: real, sel: Selection): real
    requires step > 0.0
  {
    if levels == [] then 0.0
    else
      var last := levels[|levels| - 1];
      QtyWhere(levels[..|levels| - 1], step, sel) + if sel.Picks(Bucket(last.price, step)) then last.qty else 0.0
  }

  /** Quantity of the grouped rows whose bucket is selected. */
  ghost function RowsWhere(rows: seq<(int, real)>, sel: Selection): real {
    if rows == [] then 0.0
    else RowsWhere(rows[..|rows| - 1], sel) + if sel.Picks(rows[|rows| - 1].0) then rows[|rows| - 1].1 else 0.0
  }

  ghost predicate Occupied(levels: seq<Level>, step: real, b: int)
    requires step > 0.0
  {
    exists i :: 0 <= i < |levels| && Bucket(levels[i].price, step) == b
  }

  /** What it is to be the grouping of some levels: highest bucket first, no bucket twice, exactly the occupied
      buckets, each with the quantity of its levels. */
  ghost predicate IsGrouping(rows: seq<(int, real)>, levels: seq<Level>, step: real)
    requires step > 0.0
  {
    && (forall i, j :: 0 <= i < j < |rows| ==> rows[i].0 > rows[j].0)
    && (forall b :: b in Keys(rows) <==> Occupied(levels, step, b))
    && (forall i :: 0 <= i < |rows| ==> rows[i].1 == QtyWhere(levels, step, Only(rows[i].0)))
  }

  lemma {:induction false} RowsWhereConcat(a: seq<(int, real)>, b: seq<(int, real)>, sel: Selection)
    ensures RowsWhere(a + b, sel) == RowsWhere(a, sel) + RowsWhere(b, sel)
  {
    if b == [] {
      assert a + b == a;
    } else {
      assert (a + b)[..|a + b| - 1] == a + b[..|b| - 1];
      RowsWhereConcat(a, b[..|b| - 1], sel);
    }
  }

  /** Rearranging rows does not change their quantity. */
  lemma {:induction false} RowsWhereOfSame(a: seq<(int, real)>, b: seq<(int, real)>, sel: Selection)
    requires multiset(a) == multiset(b)
    ensures RowsWhere(a, sel) == RowsWhere(b, sel)
    decreases |a|
  {
    if a == [] {
      assert |multiset(b)| == 0;
    } else {
      hide Selection.Picks;
      var front, last := a[..|a| - 1], a[|a| - 1];
      var i := WithoutOne(a, b);
      RowsWhereOfSame(front, b[..i] + b[i + 1..], sel);
      MiddleRow(b[..i], last, b[i + 1..], sel);
      assert b == b[..i] + [last] + b[i + 1..];
    }
  }

  lemma WithoutOne(a: seq<(int, real)>, b: seq<(int, real)>) returns (i: nat)
    requires a != [] && multiset(a) == multiset(b)
    ensures i < |b| && b[i] == a[|a| - 1]
    ensures multiset(a[..|a| - 1]) == multiset(b[..i] + b[i + 1..])
  {
    var front, last := a[..|a| - 1], a[|a| - 1];
    assert a == front + [last];
    assert last in multiset(b);
    i :| 0 <= i < |b| && b[i] == last;
    TakenFromMiddle(b[..i], last, b[i + 1..]);
    assert b == b[..i] + [last] + b[i + 1..];
    OneLess(multiset(front), multiset(b[..i] + b[i + 1..]), last);
  }

  lemma TakenFromMiddle(low: seq<(int, real)>, e: (int, real), high: seq<(int, real)>)
    ensures multiset(low + [e] + high) == multiset(low + high) + multiset{e}
  {
  }

  lemma OneLess(a: multiset<(int, real)>, b: multiset<(int, real)>, e: (int, real))
    requires a + multiset{e} == b + multiset{e}
    ensures a == b
  {
    assert a == (a + multiset{e}) - multiset{e};
  }

  lemma MiddleRow(low: seq<(int, real)>, e: (int, real), high: seq<(int, real)>, sel: Selection)
    ensures RowsWhere(low + [e] + high, sel) == RowsWhere(low + high, sel) + if sel.Picks(e.0) then e.1 else 0.0
  {
    RowsWhereConcat(low + [e], high, sel);
    RowsWhereConcat(low, [e], sel);
    RowsWhereConcat(low, high, sel);
    SingleRow(e.0, e.1, sel);
  }

  /** Adding a level adds its quantity to whatever selects its bucket. */
  lemma AddedQty(m: Entries<int, real>, l: Level, step: real, sel: Selection)
    requires step > 0.0 && Distinct(m)
    ensures RowsWhere(Added(m, l, step), sel) ==
            RowsWhere(m, sel) + if sel.Picks(Bucket(l.price, step)) then l.qty else 0.0
  {
    var b := Bucket(l.price, step);
    if Has(m, b) {
      var at, q := IndexOf(m, b), Get(m, b);
      var low, high := m[..at], m[at + 1..];
      assert m == low + [(b, q)] + high;
      assert Added(m, l, step) == low + [(b, q + l.qty)] + high;
      MiddleRow(low, (b, q), high, sel);
      MiddleRow(low, (b, q + l.qty), high, sel);
    } else {
      assert Added(m, l, step) == m + [(b, l.qty)];
      RowsWhereConcat(m, [(b, l.qty)], sel);
      SingleRow(b, l.qty, sel);
    }
  }

  lemma SingleRow(b: int, q: real, sel: Selection)
    ensures RowsWhere([(b, q)], sel) == if sel.Picks(b) then q else 0.0
  {
    assert [(b, q)][..0] == [];
  }

  lemma {:induction false} BucketedQty(levels: seq<Level>, step: real, sel: Selection)
    requires step > 0.0
    ensures Distinct(Bucketed(levels, step))
    ensures RowsWhere(Bucketed(levels, step), sel) == QtyWhere(levels, step, sel)
  {
    hide Bucket;
    if levels != [] {
      var m, l := Bucketed(levels[..|levels| - 1], step), levels[|levels| - 1];
      BucketedQty(levels[..|levels| - 1], step, sel);
      AddedQty(m, l, step, sel);
      AddedKeys(m, l, step, 0);
    }
  }

  lemma AddedKeys(m: Entries<int, real>, l: Level, step: real, b: int)
    requires step > 0.0 && Distinct(m)
    ensures Distinct(Added(m, l, step))
    ensures b in Keys(Added(m, l, step)) <==> b in Keys(m) || b == Bucket(l.price, step)
  {
    hide Bucket;
    var lb := Bucket(l.price, step);
    var q := (if Has(m, lb) then Get(m, lb) else 0.0) + l.qty;
    SetDistinct(m, lb, q);
    SetLookup(m, lb, q, b);
    HasIffKey(m, b);
    HasIffKey(Added(m, l, step), b);
  }

  lemma {:induction false} BucketedKeys(levels: seq<Level>, step: real, b: int)
    requires step > 0.0
    ensures Distinct(Bucketed(levels, step))
    ensures b in Keys(Bucketed(levels, step)) <==> Occupied(levels, step, b)
  {
    hide Bucket, Occupied, Added;
    if levels == [] {
      assert !Occupied(levels, step, b) by { NothingOccupied(step, b); }
    } else {
      var front := levels[..|levels| - 1];
      BucketedKeys(front, step, b);
      AddedKeys(Bucketed(front, step), levels[|levels| - 1], step, b);
      OccupiedStep(levels, step, b);
    }
  }

  lemma NothingOccupied(step: real, b: int)
    requires step > 0.0
    ensures !Occupied([], step, b)
  {
  }

  lemma OccupiedStep(levels: seq<Level>, step: real, b: int)
    requires step > 0.0 && levels != []
    ensures Occupied(levels, step, b) <==>
              Occupied(levels[..|levels| - 1], step, b) || Bucket(levels[|levels| - 1].price, step) == b
  {
    hide Bucket;
    var front := levels[..|levels| - 1];
    if Occupied(front, step, b) {
      var i :| 0 <= i < |front| && Bucket(front[i].price, step) == b;
      assert levels[i] == front[i];
    }
    if Occupied(levels, step, b) {
      var i :| 0 <= i < |levels| && Bucket(levels[i].price, step) == b;
      assert i < |front| ==> front[i] == levels[i];
    }
  }

  /** A row's own quantity, read off a list without repeated buckets. */
  lemma {:induction false} RowOfBucket(rows: seq<(int, real)>, i: nat)
    requires i < |rows| && Distinct(rows)
    ensures RowsWhere(rows, Only(rows[i].0)) == rows[i].1
  {
    var last := |rows| - 1;
    if i == last {
      NoRowOfBucket(rows[..last], rows[i].0);
    } else {
      RowOfBucket(rows[..last], i);
    }
  }

  lemma {:induction false} NoRowOfBucket(rows: seq<(int, real)>, k: int)
    requires forall j :: 0 <= j < |rows| ==> rows[j].0 != k
    ensures RowsWhere(rows, Only(k)) == 0.0
  {
    if rows != [] {
      NoRowOfBucket(rows[..|rows| - 1], k);
    }
  }

  // ---------------------------------------------------------------- main results

  /** The code's grouping is the grouping, and conserves quantity over any selection of buckets. */
  lemma GroupingIsGrouping(levels: seq<Level>, step: real)
    requires step > 0.0
    ensures IsGrouping(Grouping(levels, step), levels, step)
  {
    hide Bucket, Occupied;
    var rows := Grouping(levels, step);
    GroupingSorted(levels, step);
    hide Grouping;
    forall b
      ensures b in Keys(rows) <==> Occupied(levels, step, b)
    {
      BucketedKeys(levels, step, b);
      SameKeys(Bucketed(levels, step), rows, b);
    }
    forall i | 0 <= i < |rows|
      ensures rows[i].1 == QtyWhere(levels, step, Only(rows[i].0))
    {
      RowQty(levels, step, rows, i);
    }
  }

  lemma GroupingSorted(levels: seq<Level>, step: real)
    requires step > 0.0
    ensures var rows := Grouping(levels, step);
            && (forall e :: e in rows <==> e in Bucketed(levels, step))
            && (forall i, j :: 0 <= i < j < |rows| ==> rows[i].0 > rows[j].0)
  {
    hide Bucket, Bucketed;
    var m, rank := Bucketed(levels, step), (e: (int, real)) => -(e.0 as real);
    BucketedQty(levels, step, All);
    SortMembers(m, rank);
    SortSorted(m, rank);
    SortedDistinct(m, Grouping(levels, step), rank);
  }

  lemma RowQty(levels: seq<Level>, step: real, rows: seq<(int, real)>, i: nat)
    requires step > 0.0 && rows == Grouping(levels, step) && i < |rows|
    requires forall a, b :: 0 <= a < b < |rows| ==> rows[a].0 > rows[b].0
    ensures rows[i].1 == QtyWhere(levels, step, Only(rows[i].0))
  {
    hide Grouping;
    RowOfBucket(rows, i);
    GroupingConserves(levels, step, Only(rows[i].0));
  }

  lemma GroupingConserves(levels: seq<Level>, step: real, sel: Selection)
    requires step > 0.0
    ensures RowsWhere(Grouping(levels, step), sel) == QtyWhere(levels, step, sel)
  {
    BucketedQty(levels, step, sel);
    RowsWhereOfSame(Grouping(levels, step), Bucketed(levels, step), sel);
  }

  lemma SameKeys(m: seq<(int, real)>, rows: seq<(int, real)>, b: int)
    requires forall e :: e in rows <==> e in m
    ensures b in Keys(rows) <==> b in Keys(m)
  {
    if b in Keys(rows) {
      var i :| 0 <= i < |rows| && Keys(rows)[i] == b;
      assert rows[i] in m;
      var j :| 0 <= j < |m| && m[j] == rows[i];
      assert Keys(m)[j] == b;
    }
    if b in Keys(m) {
      var i :| 0 <= i < |m| && Keys(m)[i] == b;
      assert m[i] in rows;
      var j :| 0 <= j < |rows| && rows[j] == m[i];
      assert Keys(rows)[j] == b;
    }
  }

  /** Sorting a map by falling bucket gives strictly falling buckets. */
  lemma SortedDistinct(m: seq<(int, real)>, rows: seq<(int, real)>, rank: ((int, real)) -> real)
    requires Distinct(m) && multiset(rows) == multiset(m) && SortedBy(rows, rank)
    requires forall e :: rank(e) == -(e.0 as real)
    ensures forall i, j :: 0 <= i < j < |rows| ==> rows[i].0 > rows[j].0
  {
    assert NoRepeats(m);
    PermutedNoRepeats(m, rows);
    forall i, j | 0 <= i < j < |rows|
      ensures rows[i].0 > rows[j].0
    {
      assert rank(rows[i]) <= rank(rows[j]);
      assert rows[i] in multiset(m) && rows[j] in multiset(m);
      SameKeySameEntry(m, rows[i], rows[j]);
    }
  }

  lemma SameKeySameEntry(m: seq<(int, real)>, x: (int, real), y: (int, real))
    requires Distinct(m) && x in m && y in m && x != y
    ensures x.0 != y.0
  {
    var a :| 0 <= a < |m| && m[a] == x;
    var b :| 0 <= b < |m| && m[b] == y;
  }

  /** The description pins the result down: two groupings of the same levels are equal. */
  lemma GroupingUnique(a: seq<(int, real)>, b: seq<(int, real)>, levels: seq<Level>, step: real)
    requires step > 0.0 && IsGrouping(a, levels, step) && IsGrouping(b, levels, step)
    ensures a == b
  {
    forall k
      ensures k in Keys(a) <==> k in Keys(b)
    {
    }
    FallingUnique(Keys(a), Keys(b));
    assert forall i :: 0 <= i < |a| ==> a[i].0 == Keys(a)[i] == Keys(b)[i] == b[i].0;
  }

  lemma {:induction false} FallingUnique(a: seq<int>, b: seq<int>)
    requires forall i, j :: 0 <= i < j < |a| ==> a[i] > a[j]
    requires forall i, j :: 0 <= i < j < |b| ==> b[i] > b[j]
    requires forall k :: k in a <==> k in b
    ensures a == b
  {
    assert a == [] || (a[0] in a && a[0] in b);
    assert b == [] || (b[0] in b && b[0] in a);
    if a != [] {
      assert a[0] in b && b != [] && b[0] in a;
      assert a[0] == b[0];
      forall k
        ensures k in a[1..] <==> k in b[1..]
      {
        assert k in a <==> k == a[0] || k in a[1..];
        assert k in b <==> k == b[0] || k in b[1..];
      }
      FallingUnique(a[1..], b[1..]);
    }
  }

  /** No quantity is lost: the grouped book holds what the raw book holds. */
  lemma TotalConserved(levels: seq<Level>, step: real)
    requires step > 0.0
    ensures RowsWhere(Grouping(levels, step), All) == QtyWhere(levels, step, All) == TotalQty(levels)
  {
    GroupingConserves(levels, step, All);
    AllQty(levels, step);
  }

  ghost function TotalQty(levels: seq<Level>): real {
    if levels == [] then 0.0 else TotalQty(levels[..|levels| - 1]) + levels[|levels| - 1].qty
  }

  lemma {:induction false} AllQty(levels: seq<Level>, step: real)
    requires step > 0.0
    ensures QtyWhere(levels, step, All) == TotalQty(levels)
  {
    if levels != [] {
      AllQty(levels[..|levels| - 1], step);
    }
  }

  // ---------------------------------------------------------------- order of buckets

  /** A bucket's price and one more step enclose every price in it. */
  lemma BucketEncloses(price: real, step: real)
    requires step > 0.0
    ensures PriceOf(Bucket(price, step), step) <= price < PriceOf(Bucket(price, step) + 1, step)
  {
    var x, b := price / step, Bucket(price, step);
    assert x * step == price;
    MulMono(b as real, x, step);
    MulStrict(x, (b + 1) as real, step);
  }

  /** ... and nothing else does. */
  lemma BucketIs(price: real, step: real, b: int)
    requires step > 0.0 && PriceOf(b, step) <= price < PriceOf(b + 1, step)
    ensures Bucket(price, step) == b
  {
    var x := price / step;
    assert x * step == price;
    if x < b as real { MulStrict(x, b as real, step); }
    if x >= (b + 1) as real { MulMono((b + 1) as real, x, step); }
  }

  lemma BucketMonotone(p1: real, p2: real, step: real)
    requires step > 0.0 && p1 <= p2
    ensures Bucket(p1, step) <= Bucket(p2, step)
  {
    hide Bucket, PriceOf;
    var b1, b2 := Bucket(p1, step), Bucket(p2, step);
    BucketEncloses(p1, step);
    BucketEncloses(p2, step);
    if b2 + 1 <= b1 {
      PriceGrows(b2 + 1, b1, step);
    }
  }

  lemma PriceGrows(b1: int, b2: int, step: real)
    requires step > 0.0
    ensures b1 <= b2 ==> PriceOf(b1, step) <= PriceOf(b2, step)
    ensures b1 < b2 ==> PriceOf(b1, step) < PriceOf(b2, step)
  {
    if b1 < b2 { MulStrict(b1 as real, b2 as real, step); }
  }

  lemma BucketOfBucketPrice(b: int, step: real)
    requires step > 0.0
    ensures Bucket(PriceOf(b, step), step) == b
  {
    MulStrict(b as real, (b + 1) as real, step);
    BucketIs(PriceOf(b, step), step, b);
  }

  /** Every row holds some level. */
  lemma LevelInRow(rows: seq<(int, real)>, levels: seq<Level>, step: real, i: nat) returns (x: nat)
    requires step > 0.0 && IsGrouping(rows, levels, step) && i < |rows|
    ensures x < |levels| && Bucket(levels[x].price, step) == rows[i].0
  {
    assert Keys(rows)[i] == rows[i].0;
    assert Occupied(levels, step, rows[i].0);
    x :| 0 <= x < |levels| && Bucket(levels[x].price, step) == rows[i].0;
  }

  /** Grouping never makes an uncrossed book cross: every displayed bid is at most every displayed ask. */
  lemma NeverCrosses(bids: seq<Level>, asks: seq<Level>, step: real)
    requires step > 0.0
    requires forall b, a :: b in bids && a in asks ==> b.price <= a.price
    ensures forall b, a :: b in ToLevels(Grouping(bids, step), step) && a in ToLevels(Grouping(asks, step), step) ==>
              b.price <= a.price
  {
    hide Bucket, PriceOf, Grouping;
    var bidRows, askRows := Grouping(bids, step), Grouping(asks, step);
    GroupingIsGrouping(bids, step);
    GroupingIsGrouping(asks, step);
    forall i, j | 0 <= i < |bidRows| && 0 <= j < |askRows|
      ensures PriceOf(bidRows[i].0, step) <= PriceOf(askRows[j].0, step)
    {
      var x := LevelInRow(bidRows, bids, step, i);
      var y := LevelInRow(askRows, asks, step, j);
      assert bids[x] in bids && asks[y] in asks;
      BucketMonotone(bids[x].price, asks[y].price, step);
      PriceGrows(bidRows[i].0, askRows[j].0, step);
    }
  }

  ghost predicate OnStep(price: real, step: real) {
    exists n: int :: price == PriceOf(n, step)
  }

  /** Displayed prices fall strictly and are whole multiples of the step. */
  lemma PricesFall(levels: seq<Level>, step: real)
    requires step > 0.0
    ensures var shown := ToLevels(Grouping(levels, step), step);
            && (forall i, j :: 0 <= i < j < |shown| ==> shown[i].price > shown[j].price)
            && (forall i :: 0 <= i < |shown| ==> OnStep(shown[i].price, step))
  {
    hide PriceOf, Grouping, Bucket;
    var rows := Grouping(levels, step);
    GroupingIsGrouping(levels, step);
    forall i, j | 0 <= i < j < |rows|
      ensures PriceOf(rows[i].0, step) > PriceOf(rows[j].0, step)
    {
      PriceGrows(rows[j].0, rows[i].0, step);
    }
    var shown := ToLevels(rows, step);
    forall i | 0 <= i < |shown|
      ensures OnStep(shown[i].price, step)
    {
      assert shown[i].price == PriceOf(rows[i].0, step);
    }
  }

  // ---------------------------------------------------------------- nesting

  /** The finest step is a power of ten from a millionth to one, such that a price is ten thousand to a hundred thousand
      of them, as far as that range goes. */
  lemma TickReads(price: real)
    ensures TickSize(price) in {1.0, 0.1, 0.01, 0.001, 0.0001, 0.00001, 0.000001}
    ensures TickSize(price) > 0.000001 ==> price >= 10000.0 * TickSize(price)
    ensures TickSize(price) < 1.0 ==> price < 100000.0 * TickSize(price)
  {
  }

  /** The first depth button shows the finest step, and each next one multiplies it by ten. */
  lemma NextDepth(price: real, idx: nat)
    ensures GroupSize(price, 0) == TickSize(price)
    ensures GroupSize(price, idx + 1) == 10.0 * GroupSize(price, idx)
  {
    var t, n := TickSize(price), PowerOfTen(idx);
    assert PowerOfTen(idx + 1) == 10 * n;
    assert (10 * n) as real == 10.0 * n as real;
  }

  /** A bucket of a step `k` times as large is the bucket of the bucket. */
  lemma BucketNests(price: real, step: real, k: int)
    requires step > 0.0 && k > 0
    ensures step * k as real > 0.0
    ensures Bucket(price, step * k as real) == Bucket(price, step) / k
  {
    hide Bucket, PriceOf;
    var b := Bucket(price, step);
    var n := b / k;
    MulStrict(0.0, step, k as real);
    BucketEncloses(price, step);
    DivEncloses(b, k);
    ScaledPrice(n, step, k);
    ScaledPrice(n + 1, step, k);
    PriceGrows(n * k, b, step);
    PriceGrows(b + 1, (n + 1) * k, step);
    BucketIs(price, step * k as real, n);
  }

  lemma DivEncloses(b: int, k: int)
    requires k > 0
    ensures (b / k) * k <= b && b + 1 <= (b / k + 1) * k
  {
    var n := b / k;
    assert b == n * k + b % k && 0 <= b % k < k;
    assert (n + 1) * k == n * k + k;
  }

  lemma ScaledPrice(n: int, step: real, k: int)
    ensures PriceOf(n, step * k as real) == PriceOf(n * k, step)
  {
    assert (n * k) as real == n as real * k as real;
  }

  /** Quantity in one coarse bucket, read off the raw levels or off the finer buckets. */
  lemma {:induction false} CoarseQty(levels: seq<Level>, step: real, k: int, coarse: int)
    requires step > 0.0 && k > 0
    ensures step * k as real > 0.0
    ensures QtyWhere(levels, step * k as real, Only(coarse)) == QtyWhere(levels, step, Within(k, coarse))
  {
    hide Bucket;
    BucketNests(0.0, step, k);
    if levels != [] {
      BucketNests(levels[|levels| - 1].price, step, k);
      CoarseQty(levels[..|levels| - 1], step, k, coarse);
    }
  }

  lemma {:induction false} CoarseQtyOfRows(rows: seq<(int, real)>, step: real, k: int, coarse: int)
    requires step > 0.0 && k > 0
    ensures step * k as real > 0.0
    ensures QtyWhere(ToLevels(rows, step), step * k as real, Only(coarse)) == RowsWhere(rows, Within(k, coarse))
  {
    hide Bucket;
    BucketNests(0.0, step, k);
    if rows != [] {
      var last := rows[|rows| - 1];
      assert ToLevels(rows, step)[..|rows| - 1] == ToLevels(rows[..|rows| - 1], step);
      CoarseQtyOfRows(rows[..|rows| - 1], step, k, coarse);
      BucketNests(PriceOf(last.0, step), step, k);
      BucketOfBucketPrice(last.0, step);
    }
  }

  lemma CoarseOccupied(levels: seq<Level>, rows: seq<(int, real)>, step: real, k: int, coarse: int)
    requires step > 0.0 && k > 0 && IsGrouping(rows, levels, step)
    ensures step * k as real > 0.0
    ensures Occupied(levels, step * k as real, coarse) <==> Occupied(ToLevels(rows, step), step * k as real, coarse)
  {
    BucketNests(0.0, step, k);
    hide Bucket;
    var big, shown := step * k as real, ToLevels(rows, step);
    if Occupied(levels, big, coarse) {
      var i :| 0 <= i < |levels| && Bucket(levels[i].price, big) == coarse;
      var b := Bucket(levels[i].price, step);
      BucketNests(levels[i].price, step, k);
      assert Occupied(levels, step, b);
      var j :| 0 <= j < |rows| && Keys(rows)[j] == b;
      BucketOfBucketPrice(b, step);
      BucketNests(PriceOf(b, step), step, k);
      assert Bucket(shown[j].price, big) == coarse;
    }
    if Occupied(shown, big, coarse) {
      var j :| 0 <= j < |shown| && Bucket(shown[j].price, big) == coarse;
      var b := rows[j].0;
      BucketOfBucketPrice(b, step);
      BucketNests(PriceOf(b, step), step, k);
      var i := LevelInRow(rows, levels, step, j);
      BucketNests(levels[i].price, step, k);
      assert Bucket(levels[i].price, big) == coarse;
    }
  }

  /** Grouping nests: bucketing the raw book at a coarser step gives the same rows as bucketing the finer display. */
  lemma GroupingNests(levels: seq<Level>, step: real, k: int)
    requires step > 0.0 && k > 0
    ensures step * k as real > 0.0
    ensures Grouping(ToLevels(Grouping(levels, step), step), step * k as real) == Grouping(levels, step * k as real)
  {
    BucketNests(0.0, step, k);
    hide Bucket, Grouping;
    var fine, big := Grouping(levels, step), step * k as real;
    var shown := ToLevels(fine, step);
    var direct, regrouped := Grouping(levels, big), Grouping(shown, big);
    GroupingIsGrouping(levels, step);
    GroupingIsGrouping(levels, big);
    GroupingIsGrouping(shown, big);
    forall b
      ensures b in Keys(regrouped) <==> Occupied(levels, big, b)
    {
      CoarseOccupied(levels, fine, step, k, b);
    }
    forall i | 0 <= i < |regrouped|
      ensures regrouped[i].1 == QtyWhere(levels, big, Only(regrouped[i].0))
    {
      CoarseQtyOfRows(fine, step, k, regrouped[i].0);
      CoarseQty(levels, step, k, regrouped[i].0);
      GroupingConserves(levels, step, Within(k, regrouped[i].0));
    }
    GroupingUnique(regrouped, direct, levels, big);
  }

  /** Two neighbouring depth buttons: regrouping what one shows gives what the next one shows. */
  lemma DepthsNest(levels: seq<Level>, price: real, idx: nat)
    ensures var step := GroupSize(price, idx);
            Grouping(ToLevels(Grouping(levels, step), step), GroupSize(price, idx + 1)) ==
            Grouping(levels, GroupSize(price, idx + 1))
  {
    hide GroupSize, Grouping;
    NextDepth(price, idx);
    GroupingNests(levels, GroupSize(price, idx), 10);
  }
}
