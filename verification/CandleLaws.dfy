/** What candle charts promise, however they are built. */
module CandleLaws {
  import opened JsMap
  import opened JsSort
  import opened Candles

  // ---------------------------------------------------------------- one bucket

  /** One more sample of the bucket extends its candle. */
  lemma ExtendCandle(c: Candle, s: seq<Reading>, x: Reading)
    requires IsCandleOf(c, s)
    ensures IsCandleOf(Extended(c, x.value), s + [x])
  {
    var e, all := Extended(c, x.value), s + [x];
    var hi :| 0 <= hi < |s| && s[hi].value == c.high;
    var lo :| 0 <= lo < |s| && s[lo].value == c.low;
    assert all[if x.value > c.high then |s| else hi].value == e.high;
    assert all[if x.value < c.low then |s| else lo].value == e.low;
  }

  lemma FreshCandle(t: int, x: Reading)
    ensures IsCandleOf(Fresh(t, x.value), [x])
  {
    assert [x][0].value == x.value;
  }

  /** A bucket has only one candle. */
  lemma CandleUnique(c1: Candle, c2: Candle, s: seq<Reading>)
    requires IsCandleOf(c1, s) && IsCandleOf(c2, s) && c1.time == c2.time
    ensures c1 == c2
  {
    var h1 :| 0 <= h1 < |s| && s[h1].value == c1.high;
    var h2 :| 0 <= h2 < |s| && s[h2].value == c2.high;
    var l1 :| 0 <= l1 < |s| && s[l1].value == c1.low;
    var l2 :| 0 <= l2 < |s| && s[l2].value == c2.low;
  }

  lemma {:induction false} OccupiedBucket(samples: seq<Reading>, size: int, t: int)
    requires size > 0
    ensures InBucket(samples, size, t) != []
       <==> exists i :: 0 <= i < |samples| && BucketStart(samples[i].at, size) == t
  {
    hide BucketStart;
    if samples != [] {
      var front := samples[..|samples| - 1];
      OccupiedBucket(front, size, t);
      if InBucket(front, size, t) != [] {
        var i :| 0 <= i < |front| && BucketStart(front[i].at, size) == t;
        assert BucketStart(samples[i].at, size) == t;
      } else if i :| 0 <= i < |samples| && BucketStart(samples[i].at, size) == t {
        assert i < |front| ==> BucketStart(front[i].at, size) == t;
      }
    }
  }

  // ---------------------------------------------------------------- a chart is determined by its samples

  lemma ChartTimes(cs: seq<Candle>, samples: seq<Reading>, size: int, t: int)
    requires size > 0 && IsChart(cs, samples, size)
    ensures HasTime(cs, t) <==> InBucket(samples, size, t) != []
  {
    hide BucketStart;
    OccupiedBucket(samples, size, t);
  }

  lemma ChartUnique(a: seq<Candle>, b: seq<Candle>, samples: seq<Reading>, size: int)
    requires size > 0 && IsChart(a, samples, size) && IsChart(b, samples, size)
    ensures a == b
  {
    hide BucketStart, IsCandleOf;
    forall t
      ensures HasTime(a, t) <==> HasTime(b, t)
    {
      ChartTimes(a, samples, size, t);
      ChartTimes(b, samples, size, t);
    }
    RisingUnique(a, b);
    forall i | 0 <= i < |a|
      ensures a[i] == b[i]
    {
      CandleUnique(a[i], b[i], InBucket(samples, size, a[i].time));
    }
  }

  lemma {:induction false} RisingUnique(a: seq<Candle>, b: seq<Candle>)
    requires forall i, j :: 0 <= i < j < |a| ==> a[i].time < a[j].time
    requires forall i, j :: 0 <= i < j < |b| ==> b[i].time < b[j].time
    requires forall t :: HasTime(a, t) <==> HasTime(b, t)
    ensures |a| == |b| && forall i :: 0 <= i < |a| ==> a[i].time == b[i].time
  {
    assert a == [] || (HasTime(a, a[0].time) && HasTime(b, a[0].time));
    assert b == [] || (HasTime(b, b[0].time) && HasTime(a, b[0].time));
    if a != [] {
      assert a[0].time == b[0].time;
      forall t
        ensures HasTime(a[1..], t) <==> HasTime(b[1..], t)
      {
        TailTimes(a, t);
        TailTimes(b, t);
      }
      RisingUnique(a[1..], b[1..]);
      assert forall i :: 0 < i < |a| ==> a[i].time == a[1..][i - 1].time == b[1..][i - 1].time == b[i].time;
    }
  }

  lemma TailTimes(a: seq<Candle>, t: int)
    requires a != [] && forall i, j :: 0 <= i < j < |a| ==> a[i].time < a[j].time
    ensures HasTime(a[1..], t) <==> HasTime(a, t) && t != a[0].time
  {
    if HasTime(a, t) && t != a[0].time {
      var i :| 0 <= i < |a| && a[i].time == t;
      assert a[1..][i - 1].time == t;
    }
    if HasTime(a[1..], t) {
      var i :| 0 <= i < |a[1..]| && a[1..][i].time == t;
      assert a[i + 1].time == t;
    }
  }

  // ---------------------------------------------------------------- the incremental build

  /** Built one sample at a time without going back to an earlier bucket, the chart is right: one candle per occupied
      bucket, in order, each with the first, highest, lowest and last value of its bucket. */
  lemma {:induction false} ChartIsChart(samples: seq<Reading>, size: int)
    requires size > 0 && BucketsInOrder(samples, size)
    ensures IsChart(Chart(samples, size), samples, size)
    ensures samples != [] ==>
              var cs := Chart(samples, size);
              cs != [] && cs[|cs| - 1].time == BucketStart(samples[|samples| - 1].at, size)
  {
    if samples == [] {
      EmptyChart(size);
    } else {
      hide BucketStart, IsChart, Push;
      var front, x := samples[..|samples| - 1], samples[|samples| - 1];
      assert samples == front + [x];
      ChartIsChart(front, size);
      PushIsChart(Chart(front, size), front, x, size);
      ChartUnfold(front, x, size);
    }
  }

  lemma ChartUnfold(front: seq<Reading>, x: Reading, size: int)
    requires size > 0
    ensures Chart(front + [x], size) == Push(Chart(front, size), BucketStart(x.at, size), x.value)
  {
    assert (front + [x])[..|front|] == front;
  }

  lemma EmptyChart(size: int)
    requires size > 0
    ensures IsChart([], [], size)
  {
  }

  lemma PushIsChart(cs: seq<Candle>, front: seq<Reading>, x: Reading, size: int)
    requires size > 0 && IsChart(cs, front, size)
    requires cs == [] || cs[|cs| - 1].time <= BucketStart(x.at, size)
    ensures var cs' := Push(cs, BucketStart(x.at, size), x.value);
            IsChart(cs', front + [x], size) && cs' != [] && cs'[|cs'| - 1].time == BucketStart(x.at, size)
  {
    hide BucketStart, IsCandleOf, Extended, Fresh, Push;
    PushCandles(cs, front, x, size);
    PushTimes(cs, front, x, size);
  }

  lemma Multiples(x: int, y: int, size: int)
    requires size > 0
    ensures x <= y ==> x * size <= y * size
    ensures x > y ==> x * size >= y * size + size
  {
    if x <= y {
      assert (y - x) * size >= 0;
    } else {
      assert (x - y - 1) * size >= 0;
    }
  }

  lemma PushTimes(cs: seq<Candle>, front: seq<Reading>, x: Reading, size: int)
    requires size > 0 && IsChart(cs, front, size)
    requires cs == [] || cs[|cs| - 1].time <= BucketStart(x.at, size)
    ensures var cs' := Push(cs, BucketStart(x.at, size), x.value);
            && (forall i, j :: 0 <= i < j < |cs'| ==> cs'[i].time < cs'[j].time)
            && (forall i :: 0 <= i < |front + [x]| ==> HasTime(cs', BucketStart((front + [x])[i].at, size)))
            && cs' != [] && cs'[|cs'| - 1].time == BucketStart(x.at, size)
  {
    hide BucketStart, IsCandleOf;
    var t := BucketStart(x.at, size);
    var cs' := Push(cs, t, x.value);
    assert cs'[|cs'| - 1].time == t;
    assert forall i :: 0 <= i < |cs| ==> cs'[i].time == cs[i].time;
    forall u | HasTime(cs, u)
      ensures HasTime(cs', u)
    {
      var i :| 0 <= i < |cs| && cs[i].time == u;
      assert cs'[i].time == u;
    }
    assert HasTime(cs', t);
  }

  lemma PushCandles(cs: seq<Candle>, front: seq<Reading>, x: Reading, size: int)
    requires size > 0 && IsChart(cs, front, size)
    requires cs == [] || cs[|cs| - 1].time <= BucketStart(x.at, size)
    ensures var cs' := Push(cs, BucketStart(x.at, size), x.value);
            forall i :: 0 <= i < |cs'| ==> IsCandleOf(cs'[i], InBucket(front + [x], size, cs'[i].time))
  {
    hide BucketStart, IsCandleOf, Extended, Fresh;
    var t, all := BucketStart(x.at, size), front + [x];
    var cs' := Push(cs, t, x.value);
    assert all[..|all| - 1] == front;
    FreshTime(t, x.value);
    forall i | 0 <= i < |cs'|
      ensures IsCandleOf(cs'[i], InBucket(all, size, cs'[i].time))
    {
      if cs != [] && cs[|cs| - 1].time == t && i == |cs| - 1 {
        ExtendCandle(cs[i], InBucket(front, size, t), x);
        ExtendedTime(cs[i], x.value);
        assert InBucket(all, size, t) == InBucket(front, size, t) + [x];
      } else if i == |cs| {
        NotYet(cs, front, size, t);
        FreshCandle(t, x);
        assert InBucket(all, size, t) == [] + [x] == [x];
      } else {
        assert cs'[i] == cs[i] && cs[i].time < t;
        assert InBucket(all, size, cs[i].time) == InBucket(front, size, cs[i].time);
      }
    }
  }

  lemma FreshTime(t: int, v: real)
    ensures Fresh(t, v).time == t
  {
  }

  lemma ExtendedTime(c: Candle, v: real)
    ensures Extended(c, v).time == c.time
  {
  }

  /** A bucket later than the last candle has no samples yet. */
  lemma NotYet(cs: seq<Candle>, front: seq<Reading>, size: int, t: int)
    requires size > 0 && IsChart(cs, front, size)
    requires cs == [] || cs[|cs| - 1].time < t
    ensures InBucket(front, size, t) == []
  {
    ChartTimes(cs, front, size, t);
    assert forall i :: 0 <= i < |cs| ==> cs[i].time < t;
  }

  /** The live chart before it is trimmed. */
  lemma {:induction false} LiveIsChart(samples: seq<Reading>)
    ensures PushAll([], samples) == Chart(samples, LIVE_BUCKET)
  {
    if samples != [] {
      LiveIsChart(samples[..|samples| - 1]);
    }
  }

  // ---------------------------------------------------------------- the batch build

  lemma {:induction false} CollectedOk(samples: seq<Reading>, size: int, t: int)
    requires size > 0
    ensures Distinct(Collected(samples, size))
    ensures Has(Collected(samples, size), t) <==> InBucket(samples, size, t) != []
    ensures Has(Collected(samples, size), t) ==>
              && Get(Collected(samples, size), t).time == t
              && IsCandleOf(Get(Collected(samples, size), t), InBucket(samples, size, t))
  {
    hide BucketStart, IsCandleOf, Extended, Fresh, Set;
    if samples != [] {
      var front, x := samples[..|samples| - 1], samples[|samples| - 1];
      var m, b := Collected(front, size), BucketStart(x.at, size);
      CollectedOk(front, size, t);
      CollectLookup(m, b, x.value, t);
      if t == b {
        if Has(m, t) {
          ExtendCandle(Get(m, t), InBucket(front, size, t), x);
          ExtendedTime(Get(m, t), x.value);
        } else {
          FreshCandle(t, x);
          FreshTime(t, x.value);
          assert InBucket(samples, size, t) == [] + [x] == [x];
        }
      } else {
        assert InBucket(samples, size, t) == InBucket(front, size, t);
      }
    }
  }

  lemma CollectLookup(m: Entries<int, Candle>, b: int, v: real, t: int)
    requires Distinct(m)
    ensures Distinct(Collect(m, b, v))
    ensures Has(Collect(m, b, v), t) <==> t == b || Has(m, t)
    ensures Has(Collect(m, b, v), t) ==>
              Get(Collect(m, b, v), t) ==
              if t != b then Get(m, t) else if Has(m, b) then Extended(Get(m, b), v) else Fresh(b, v)
  {
    hide Extended, Fresh;
    var c := if Has(m, b) then Extended(Get(m, b), v) else Fresh(b, v);
    SetContent(m, b, c);
    HasIffKey(m, t);
    HasIffKey(Set(m, b, c), t);
    assert Has(Set(m, b, c), t) ==> Get(Set(m, b, c), t) == Content(Set(m, b, c))[t];
  }

  /** Every candle of the batch map is its bucket's candle. */
  lemma CollectedCandles(samples: seq<Reading>, size: int)
    requires size > 0
    ensures var m := Collected(samples, size);
            && Distinct(m)
            && (forall i :: 0 <= i < |m| ==> m[i].1.time == m[i].0)
            && (forall c :: c in Values(m) ==> IsCandleOf(c, InBucket(samples, size, c.time)))
  {
    hide BucketStart, IsCandleOf;
    var m := Collected(samples, size);
    CollectedOk(samples, size, 0);
    forall i | 0 <= i < |m|
      ensures m[i].1.time == m[i].0 && IsCandleOf(m[i].1, InBucket(samples, size, m[i].0))
    {
      GetAt(m, i);
      CollectedOk(samples, size, m[i].0);
    }
  }

  lemma CollectedTimes(samples: seq<Reading>, size: int, i: nat) returns (c: Candle)
    requires size > 0 && i < |samples|
    ensures c in Values(Collected(samples, size)) && c.time == BucketStart(samples[i].at, size)
  {
    var m, t := Collected(samples, size), BucketStart(samples[i].at, size);
    OccupiedBucket(samples, size, t);
    CollectedOk(samples, size, t);
    c := Get(m, t);
    assert Values(m)[IndexOf(m, t)] == c;
  }

  /** Built in one go from the history, whatever its order, the chart is right. */
  lemma BatchIsChart(samples: seq<Reading>, size: int)
    requires size > 0
    ensures IsChart(BatchChart(samples, size), samples, size)
  {
    hide BucketStart, IsCandleOf, Collected;
    var m, rank := Collected(samples, size), (c: Candle) => c.time as real;
    var cs := Sort(Values(m), rank);
    CollectedCandles(samples, size);
    SortMembers(Values(m), rank);
    SortSorted(Values(m), rank);
    SortedTimes(m, cs, rank);
    forall i | 0 <= i < |samples|
      ensures HasTime(cs, BucketStart(samples[i].at, size))
    {
      var c := CollectedTimes(samples, size, i);
      assert c in cs;
    }
    assert forall i :: 0 <= i < |cs| ==> cs[i] in cs && cs[i] in Values(m);
  }

  lemma SortedTimes(m: Entries<int, Candle>, cs: seq<Candle>, rank: Candle -> real)
    requires Distinct(m) && forall i :: 0 <= i < |m| ==> m[i].1.time == m[i].0
    requires multiset(cs) == multiset(Values(m)) && SortedBy(cs, rank) && forall c :: rank(c) == c.time as real
    ensures forall i, j :: 0 <= i < j < |cs| ==> cs[i].time < cs[j].time
  {
    assert forall i, j :: 0 <= i < j < |m| ==> Values(m)[i].time != Values(m)[j].time;
    assert NoRepeats(Values(m));
    PermutedNoRepeats(Values(m), cs);
    forall i, j | 0 <= i < j < |cs|
      ensures cs[i].time < cs[j].time
    {
      assert rank(cs[i]) <= rank(cs[j]);
      assert cs[i] in multiset(Values(m)) && cs[j] in multiset(Values(m));
      SameTimeSameCandle(Values(m), cs[i], cs[j]);
    }
  }

  lemma SameTimeSameCandle(cs: seq<Candle>, x: Candle, y: Candle)
    requires forall i, j :: 0 <= i < j < |cs| ==> cs[i].time != cs[j].time
    requires x in cs && y in cs && x != y
    ensures x.time != y.time
  {
    var a :| 0 <= a < |cs| && cs[a] == x;
    var b :| 0 <= b < |cs| && cs[b] == y;
  }

  // ---------------------------------------------------------------- coarser buckets

  /** Joins a finer candle onto a coarser chart. */
  function Joined(cs: seq<Candle>, c: Candle, big: int): seq<Candle>
    requires big > 0
  {
    var t := BucketStart(c.time, big);
    if cs == [] || cs[|cs| - 1].time != t then cs + [c.(time := t)]
    else
      var last := cs[|cs| - 1];
      cs[..|cs| - 1] + [last.(high := if c.high > last.high then c.high else last.high,
                              low := if c.low < last.low then c.low else last.low,
                              close := c.close)]
  }

  function Coarsened(cs: seq<Candle>, big: int): seq<Candle>
    requires big > 0
  {
    if cs == [] then [] else Joined(Coarsened(cs[..|cs| - 1], big), cs[|cs| - 1], big)
  }

  /** A coarse bucket is the bucket of its finer buckets. */
  lemma StartNests(at: int, size: int, k: int)
    requires size > 0 && k > 0
    ensures size * k > 0 && BucketStart(BucketStart(at, size), size * k) == BucketStart(at, size * k)
  {
    var n := at / size;
    var N, m := n / k, n % k;
    assert at == n * size + at % size && n == N * k + m;
    Regroup(N, m, size, k);
    QuotientIs(at, size * k, N, m * size + at % size);
    QuotientIs(n * size, size * k, N, m * size);
  }

  lemma Regroup(N: int, m: int, size: int, k: int)
    requires size > 0 && 0 <= m < k
    ensures size * k > 0 && 0 <= m * size <= size * k - size
    ensures (N * k + m) * size == N * (size * k) + m * size
  {
    Multiples(0, m, size);
    Multiples(m, k - 1, size);
    assert (k - 1) * size == size * k - size;
    assert (N * k + m) * size == (N * k) * size + m * size;
  }

  lemma QuotientIs(a: int, d: int, q: int, r: int)
    requires d > 0 && a == q * d + r && 0 <= r < d
    ensures a / d == q
  {
    var x := q - a / d;
    assert a == (a / d) * d + a % d;
    assert x * d == a % d - r by {
      assert x * d == q * d - (a / d) * d;
    }
    SmallMultiple(x, d);
  }

  lemma SmallMultiple(x: int, d: int)
    requires -d < x * d < d
    ensures x == 0
  {
    assert x >= 1 ==> (x - 1) * d >= 0;
    assert x <= -1 ==> (-x - 1) * d >= 0;
  }

  /** Candles of a bucket size that divides another one join into exactly the larger one's candles. */
  lemma {:induction false} CoarseningExact(samples: seq<Reading>, size: int, k: int)
    requires size > 0 && k > 0
    ensures size * k > 0
    ensures Coarsened(Chart(samples, size), size * k) == Chart(samples, size * k)
  {
    StartNests(0, size, k);
    hide BucketStart;
    if samples != [] {
      var front, x := samples[..|samples| - 1], samples[|samples| - 1];
      CoarseningExact(front, size, k);
      StartNests(x.at, size, k);
      PushJoins(Chart(front, size), BucketStart(x.at, size), x.value, size * k);
    }
  }

  lemma PushJoins(cs: seq<Candle>, t: int, v: real, big: int)
    requires big > 0
    ensures Coarsened(Push(cs, t, v), big) == Push(Coarsened(cs, big), BucketStart(t, big), v)
  {
    if cs == [] || cs[|cs| - 1].time != t {
      PushJoinsFresh(cs, t, v, big);
    } else {
      var front, last := cs[..|cs| - 1], cs[|cs| - 1];
      ExtendJoined(Coarsened(front, big), last, v, big);
      ExtendedTime(last, v);
      assert Push(cs, t, v) == front + [Extended(last, v)];
      assert (front + [Extended(last, v)])[..|front|] == front;
    }
  }

  lemma PushJoinsFresh(cs: seq<Candle>, t: int, v: real, big: int)
    requires big > 0 && (cs == [] || cs[|cs| - 1].time != t)
    ensures Coarsened(Push(cs, t, v), big) == Push(Coarsened(cs, big), BucketStart(t, big), v)
  {
    hide BucketStart;
    var cs' := cs + [Fresh(t, v)];
    assert cs'[..|cs'| - 1] == cs;
    JoinFresh(Coarsened(cs, big), t, v, big);
  }

  lemma JoinFresh(m: seq<Candle>, t: int, v: real, big: int)
    requires big > 0
    ensures Joined(m, Fresh(t, v), big) == Push(m, BucketStart(t, big), v)
  {
    hide BucketStart;
  }

  /** Extending the last fine candle extends the coarse candle it was joined into. */
  lemma ExtendJoined(m: seq<Candle>, c: Candle, v: real, big: int)
    requires big > 0
    ensures Joined(m, Extended(c, v), big) == Push(Joined(m, c, big), BucketStart(c.time, big), v)
  {
    hide BucketStart;
  }

  // ---------------------------------------------------------------- eviction

  lemma {:induction false} InBucketOfTail(samples: seq<Reading>, size: int, t: int)
    requires size > 0 && samples != [] && BucketStart(samples[0].at, size) != t
    ensures InBucket(samples[1..], size, t) == InBucket(samples, size, t)
  {
    hide BucketStart;
    if |samples| == 1 {
      assert samples[..0] == [];
    } else {
      InBucketOfTail(samples[..|samples| - 1], size, t);
      assert samples[1..][..|samples| - 2] == samples[..|samples| - 1][1..];
    }
  }

  /** Evicting the oldest sample changes no candle outside that sample's own bucket. */
  lemma EvictionIsLocal(samples: seq<Reading>, size: int, c: Candle)
    requires size > 0 && samples != [] && c.time != BucketStart(samples[0].at, size)
    ensures c in BatchChart(samples, size) <==> c in BatchChart(samples[1..], size)
  {
    hide BucketStart, IsCandleOf, IsChart, BatchChart;
    BatchIsChart(samples, size);
    BatchIsChart(samples[1..], size);
    InBucketOfTail(samples, size, c.time);
    CandleIn(BatchChart(samples, size), samples, size, c);
    CandleIn(BatchChart(samples[1..], size), samples[1..], size, c);
  }

  /** A candle is on the chart exactly when it is its bucket's candle. */
  lemma CandleIn(cs: seq<Candle>, samples: seq<Reading>, size: int, c: Candle)
    requires size > 0 && IsChart(cs, samples, size)
    ensures c in cs <==> IsCandleOf(c, InBucket(samples, size, c.time))
  {
    if IsCandleOf(c, InBucket(samples, size, c.time)) {
      ChartTimes(cs, samples, size, c.time);
      var i :| 0 <= i < |cs| && cs[i].time == c.time;
      CandleUnique(cs[i], c, InBucket(samples, size, c.time));
    }
  }
}
