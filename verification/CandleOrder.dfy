/** In which order readings must come for the two ways of building candles to agree. */
module CandleOrder {
  import opened JsSort
  import opened Candles
  import opened CandleLaws

  // ---------------------------------------------------------------- the incremental build

  ghost predicate TimesRise(cs: seq<Candle>) {
    forall i, j :: 0 <= i < j < |cs| ==> cs[i].time < cs[j].time
  }

  /** Times rise along the incremental chart exactly when no reading goes back to an earlier bucket. */
  lemma {:induction false} RiseIff(samples: seq<Reading>, size: int)
    requires size > 0
    ensures TimesRise(Chart(samples, size)) <==> BucketsInOrder(samples, size)
    ensures samples != [] ==>
              var cs := Chart(samples, size);
              cs != [] && cs[|cs| - 1].time == BucketStart(samples[|samples| - 1].at, size)
  {
    if samples != [] {
      hide BucketStart, Push, TimesRise, BucketsInOrder;
      var front, x := samples[..|samples| - 1], samples[|samples| - 1];
      RiseIff(front, size);
      RiseStep(front, x, Chart(front, size), size);
      ChartUnfold(front, x, size);
      assert samples == front + [x];
    }
  }

  lemma RiseStep(front: seq<Reading>, x: Reading, cs: seq<Candle>, size: int)
    requires size > 0 && (TimesRise(cs) <==> BucketsInOrder(front, size)) && (front == [] ==> cs == [])
    requires front != [] ==> cs != [] && cs[|cs| - 1].time == BucketStart(front[|front| - 1].at, size)
    ensures var cs' := Push(cs, BucketStart(x.at, size), x.value);
            && (TimesRise(cs') <==> BucketsInOrder(front + [x], size))
            && cs' != [] && cs'[|cs'| - 1].time == BucketStart(x.at, size)
  {
    hide BucketStart, Push, TimesRise, BucketsInOrder;
    PushRises(cs, BucketStart(x.at, size), x.value);
    OrderUnfold(front, x, size);
  }

  lemma OrderUnfold(front: seq<Reading>, x: Reading, size: int)
    requires size > 0
    ensures BucketsInOrder(front + [x], size) <==>
            BucketsInOrder(front, size) &&
            (front != [] ==> BucketStart(front[|front| - 1].at, size) <= BucketStart(x.at, size))
  {
    hide BucketStart;
    var all := front + [x];
    assert forall i :: 0 <= i < |front| ==> all[i] == front[i];
    if BucketsInOrder(all, size) && front != [] {
      assert BucketStart(all[|front| - 1].at, size) <= BucketStart(all[|front|].at, size);
    }
  }

  lemma PushRises(cs: seq<Candle>, t: int, v: real)
    ensures var cs' := Push(cs, t, v);
            && cs' != [] && cs'[|cs'| - 1].time == t
            && (TimesRise(cs') <==> TimesRise(cs) && (cs != [] ==> cs[|cs| - 1].time <= t))
  {
    var cs' := Push(cs, t, v);
    assert forall i :: 0 <= i < |cs| ==> cs'[i].time == cs[i].time;
    if TimesRise(cs') && cs != [] {
      assert |cs'| > |cs| ==> cs'[|cs| - 1].time < cs'[|cs|].time;
    }
  }

  /** The incremental chart is right if and only if no reading goes back to an earlier bucket. */
  lemma ChartIsChartIff(samples: seq<Reading>, size: int)
    requires size > 0
    ensures IsChart(Chart(samples, size), samples, size) <==> BucketsInOrder(samples, size)
  {
    RiseIff(samples, size);
    if BucketsInOrder(samples, size) {
      ChartIsChart(samples, size);
    }
  }

  /** The two builds agree if and only if no reading goes back to an earlier bucket. */
  lemma BatchIsIncrementalIff(samples: seq<Reading>, size: int)
    requires size > 0
    ensures BatchChart(samples, size) == Chart(samples, size) <==> BucketsInOrder(samples, size)
  {
    hide BucketsInOrder, IsChart, BatchChart, Chart;
    BatchIsChart(samples, size);
    ChartIsChartIff(samples, size);
    if BucketsInOrder(samples, size) {
      ChartUnique(BatchChart(samples, size), Chart(samples, size), samples, size);
    }
  }

  /** A clock that steps back over the boundary of a bucket: the live chart ends in an older candle. */
  lemma StepBackParts()
    ensures var readings := [Reading(5000, 1.0), Reading(4999, 2.0)];
            && Chart(readings, LIVE_BUCKET) == [Fresh(5000, 1.0), Fresh(0, 2.0)]
            && BatchChart(readings, LIVE_BUCKET) != Chart(readings, LIVE_BUCKET)
  {
    var a, b := Reading(5000, 1.0), Reading(4999, 2.0);
    assert BucketStart(a.at, LIVE_BUCKET) == 5000 && BucketStart(b.at, LIVE_BUCKET) == 0;
    hide BucketStart, BatchChart, Fresh, Chart;
    TwoSteps(a, b, LIVE_BUCKET);
    FreshTime(5000, 1.0);
    assert [Fresh(5000, 1.0)] + [Fresh(0, 2.0)] == [Fresh(5000, 1.0), Fresh(0, 2.0)];
    StepBack(a, b, LIVE_BUCKET);
  }

  lemma StepBack(a: Reading, b: Reading, size: int)
    requires size > 0 && BucketStart(a.at, size) > BucketStart(b.at, size)
    ensures BatchChart([a, b], size) != Chart([a, b], size)
  {
    hide BucketStart, BatchChart, Chart;
    BatchIsIncrementalIff([a, b], size);
    assert BucketStart([a, b][0].at, size) > BucketStart([a, b][1].at, size);
  }

  lemma TwoSteps(a: Reading, b: Reading, size: int)
    requires size > 0
    ensures var s, t := BucketStart(a.at, size), BucketStart(b.at, size);
            Chart([a, b], size) == Push([Fresh(s, a.value)], t, b.value)
  {
    hide BucketStart, Fresh;
    ChartUnfold([], a, size);
    ChartUnfold([a], b, size);
    assert [] + [a] == [a] && [a] + [b] == [a, b];
  }

  // ---------------------------------------------------------------- the live chart

  /** After a run without such a step the live chart is the newest part of the batch build of the same readings; and
      as long as nothing was trimmed, only then. */
  lemma LiveIsNewestOfBatch(samples: seq<Reading>)
    ensures BucketsInOrder(samples, LIVE_BUCKET) ==>
              Newest(PushAll([], samples), LIVE_LIMIT) == Newest(BatchChart(samples, LIVE_BUCKET), LIVE_LIMIT)
    ensures |PushAll([], samples)| <= LIVE_LIMIT ==>
              (Newest(PushAll([], samples), LIVE_LIMIT) == Newest(BatchChart(samples, LIVE_BUCKET), LIVE_LIMIT)
               <==> BucketsInOrder(samples, LIVE_BUCKET))
  {
    hide BucketsInOrder, Chart, PushAll;
    LiveIsChart(samples);
    BatchIsIncrementalIff(samples, LIVE_BUCKET);
    CollectedNoLonger(samples, LIVE_BUCKET);
  }

  /** The batch map never has more candles than the incremental chart. */
  lemma {:induction false} CollectedNoLonger(samples: seq<Reading>, size: int)
    requires size > 0
    ensures |Collected(samples, size)| <= |Chart(samples, size)|
  {
    if samples != [] {
      hide BucketStart, Extended, Fresh;
      var front, x := samples[..|samples| - 1], samples[|samples| - 1];
      CollectedNoLonger(front, size);
      RiseIff(front, size);
      if front != [] && BucketStart(front[|front| - 1].at, size) == BucketStart(x.at, size) {
        OccupiedBucket(front, size, BucketStart(x.at, size));
        CollectedOk(front, size, BucketStart(x.at, size));
      }
    }
  }

  // ---------------------------------------------------------------- coarser buckets

  /** The readings in order of their buckets, those of a bucket in the order in which they came. */
  function ByBucket(samples: seq<Reading>, size: int): seq<Reading>
    requires size > 0
  {
    Sort(samples, (r: Reading) => BucketStart(r.at, size) as real)
  }

  lemma {:induction false} BucketIsRank(samples: seq<Reading>, size: int, t: int)
    requires size > 0
    ensures InBucket(samples, size, t) == WithRank(samples, (r: Reading) => BucketStart(r.at, size) as real, t as real)
  {
    hide BucketStart;
    if samples != [] {
      BucketIsRank(samples[..|samples| - 1], size, t);
    }
  }

  lemma ByBucketKeeps(samples: seq<Reading>, size: int, t: int)
    requires size > 0
    ensures InBucket(ByBucket(samples, size), size, t) == InBucket(samples, size, t)
  {
    hide BucketStart;
    BucketIsRank(samples, size, t);
    BucketIsRank(ByBucket(samples, size), size, t);
    SortStable(samples, (r: Reading) => BucketStart(r.at, size) as real, t as real);
  }

  lemma ByBucketInOrder(samples: seq<Reading>, size: int)
    requires size > 0
    ensures BucketsInOrder(ByBucket(samples, size), size)
  {
    var rank := (r: Reading) => BucketStart(r.at, size) as real;
    SortSorted(samples, rank);
    var s := ByBucket(samples, size);
    forall i | 0 < i < |s|
      ensures BucketStart(s[i - 1].at, size) <= BucketStart(s[i].at, size)
    {
      assert rank(s[i - 1]) <= rank(s[i]);
    }
  }

  /** The batch chart is the incremental chart of the readings in order of their buckets. */
  lemma BatchByBucket(samples: seq<Reading>, size: int)
    requires size > 0
    ensures BatchChart(samples, size) == Chart(ByBucket(samples, size), size)
  {
    hide BatchChart, Chart, ByBucket, BucketStart;
    var sorted := ByBucket(samples, size);
    BatchIsChart(samples, size);
    ByBucketInOrder(samples, size);
    ChartIsChart(sorted, size);
    forall t
      ensures InBucket(sorted, size, t) == InBucket(samples, size, t)
    {
      ByBucketKeeps(samples, size, t);
    }
    SameBucketsSameChart(Chart(sorted, size), sorted, samples, size);
    ChartUnique(BatchChart(samples, size), Chart(sorted, size), samples, size);
  }

  lemma SameBucketsSameChart(cs: seq<Candle>, a: seq<Reading>, b: seq<Reading>, size: int)
    requires size > 0 && IsChart(cs, a, size)
    requires forall t :: InBucket(a, size, t) == InBucket(b, size, t)
    ensures IsChart(cs, b, size)
  {
    hide BucketStart, IsCandleOf, InBucket;
    forall i | 0 <= i < |b|
      ensures HasTime(cs, BucketStart(b[i].at, size))
    {
      OccupiedBucket(b, size, BucketStart(b[i].at, size));
      ChartTimes(cs, a, size, BucketStart(b[i].at, size));
    }
  }

  lemma {:induction false} InBucketCount(a: seq<Reading>, size: int, t: int, r: Reading)
    requires size > 0
    ensures multiset(InBucket(a, size, t))[r] == if BucketStart(r.at, size) == t then multiset(a)[r] else 0
  {
    hide BucketStart;
    if a != [] {
      var front, last := a[..|a| - 1], a[|a| - 1];
      InBucketCount(front, size, t, r);
      assert a == front + [last];
    }
  }

  lemma ByBucketSameRows(samples: seq<Reading>, size: int, big: int, t: int)
    requires size > 0 && big > 0
    ensures multiset(InBucket(ByBucket(samples, size), big, t)) == multiset(InBucket(samples, big, t))
  {
    hide BucketStart, InBucket;
    var a, b := InBucket(ByBucket(samples, size), big, t), InBucket(samples, big, t);
    forall r
      ensures multiset(a)[r] == multiset(b)[r]
    {
      InBucketCount(ByBucket(samples, size), big, t, r);
      InBucketCount(samples, big, t, r);
    }
    assert multiset(a) == multiset(b);
  }

  /** The first and last reading of two lists have the same values. */
  ghost predicate SameEnds(a: seq<Reading>, b: seq<Reading>) {
    (a == [] <==> b == []) &&
    (a != [] && b != [] ==> a[0].value == b[0].value && a[|a| - 1].value == b[|b| - 1].value)
  }

  /** A bucket's readings end alike in two lists. */
  ghost predicate EndsAlike(a: seq<Reading>, b: seq<Reading>, size: int, t: int)
    requires size > 0
  {
    SameEnds(InBucket(a, size, t), InBucket(b, size, t))
  }

  /** Candles of the same readings in another order differ only in their first and last values. */
  lemma CandlesOfSameRows(c: Candle, d: Candle, a: seq<Reading>, b: seq<Reading>)
    requires IsCandleOf(c, a) && IsCandleOf(d, b) && c.time == d.time && multiset(a) == multiset(b)
    ensures c == d <==> SameEnds(a, b)
  {
    HighLow(c, d, a, b);
    HighLow(d, c, b, a);
  }

  lemma HighLow(c: Candle, d: Candle, a: seq<Reading>, b: seq<Reading>)
    requires IsCandleOf(c, a) && IsCandleOf(d, b) && multiset(a) == multiset(b)
    ensures c.high <= d.high && c.low >= d.low
  {
    var h :| 0 <= h < |a| && a[h].value == c.high;
    var l :| 0 <= l < |a| && a[l].value == c.low;
    assert a[h] in multiset(a) && a[l] in multiset(a);
    assert a[h] in b && a[l] in b;
  }

  /** Joining the candles of a batch build gives the batch build of any multiple of its bucket size if and only if in
      every coarse bucket the readings end as they would in order of their fine buckets. */
  lemma BatchCoarsensIff(samples: seq<Reading>, size: int, k: int)
    requires size > 0 && k > 0
    ensures size * k > 0
    ensures Coarsened(BatchChart(samples, size), size * k) == BatchChart(samples, size * k)
       <==> forall t :: EndsAlike(ByBucket(samples, size), samples, size * k, t)
  {
    hide BatchChart, Chart, ByBucket, BucketStart, IsChart, EndsAlike, BucketsInOrder, InBucket;
    var sorted, big := ByBucket(samples, size), size * k;
    CoarseningExact(sorted, size, k);
    BatchByBucket(samples, size);
    BatchIsChart(samples, big);
    ByBucketInOrder(samples, size);
    CoarserInOrder(sorted, size, k);
    ChartIsChart(sorted, big);
    forall t
      ensures multiset(InBucket(sorted, big, t)) == multiset(InBucket(samples, big, t))
    {
      ByBucketSameRows(samples, size, big, t);
    }
    SameChartsIff(Chart(sorted, big), BatchChart(samples, big), sorted, samples, big);
  }

  /** Readings in order of fine buckets are in order of coarse ones. */
  lemma CoarserInOrder(samples: seq<Reading>, size: int, k: int)
    requires size > 0 && k > 0 && BucketsInOrder(samples, size)
    ensures size * k > 0 && BucketsInOrder(samples, size * k)
  {
    StartNests(0, size, k);
    forall i | 0 < i < |samples|
      ensures BucketStart(samples[i - 1].at, size * k) <= BucketStart(samples[i].at, size * k)
    {
      StartNests(samples[i - 1].at, size, k);
      StartNests(samples[i].at, size, k);
      StartMonotone(BucketStart(samples[i - 1].at, size), BucketStart(samples[i].at, size), size * k);
    }
  }

  lemma StartMonotone(a: int, b: int, size: int)
    requires size > 0 && a <= b
    ensures BucketStart(a, size) <= BucketStart(b, size)
  {
    var x, y := a / size, b / size;
    assert a == x * size + a % size && b == y * size + b % size;
    Multiples(x, y, size);
  }

  /** Charts of the same readings in two orders are equal exactly when every bucket ends alike in both. */
  lemma SameChartsIff(c: seq<Candle>, d: seq<Candle>, a: seq<Reading>, b: seq<Reading>, size: int)
    requires size > 0 && IsChart(c, a, size) && IsChart(d, b, size)
    requires forall t :: multiset(InBucket(a, size, t)) == multiset(InBucket(b, size, t))
    ensures c == d <==> forall t :: EndsAlike(a, b, size, t)
  {
    hide BucketStart, InBucket, IsChart, EndsAlike;
    if c == d {
      forall t
        ensures EndsAlike(a, b, size, t)
      {
        EndsOfChart(c, a, b, size, t);
      }
    } else if forall t :: EndsAlike(a, b, size, t) {
      ChartOfSameEnds(c, a, b, size);
      ChartUnique(c, d, b, size);
    }
  }

  lemma EndsOfChart(c: seq<Candle>, a: seq<Reading>, b: seq<Reading>, size: int, t: int)
    requires size > 0 && IsChart(c, a, size) && IsChart(c, b, size)
    requires multiset(InBucket(a, size, t)) == multiset(InBucket(b, size, t))
    ensures EndsAlike(a, b, size, t)
  {
    hide BucketStart, InBucket;
    ChartTimes(c, a, size, t);
    ChartTimes(c, b, size, t);
    if i :| 0 <= i < |c| && c[i].time == t {
      CandlesOfSameRows(c[i], c[i], InBucket(a, size, t), InBucket(b, size, t));
    }
  }

  lemma ChartOfSameEnds(c: seq<Candle>, a: seq<Reading>, b: seq<Reading>, size: int)
    requires size > 0 && IsChart(c, a, size)
    requires forall t :: multiset(InBucket(a, size, t)) == multiset(InBucket(b, size, t))
    requires forall t :: EndsAlike(a, b, size, t)
    ensures IsChart(c, b, size)
  {
    hide BucketStart, InBucket, IsCandleOf;
    forall i | 0 <= i < |c|
      ensures IsCandleOf(c[i], InBucket(b, size, c[i].time))
    {
      assert EndsAlike(a, b, size, c[i].time);
      SameRowsSameCandle(c[i], InBucket(a, size, c[i].time), InBucket(b, size, c[i].time));
    }
    forall i | 0 <= i < |b|
      ensures HasTime(c, BucketStart(b[i].at, size))
    {
      var t := BucketStart(b[i].at, size);
      OccupiedBucket(b, size, t);
      ChartTimes(c, a, size, t);
      assert multiset(InBucket(a, size, t)) == multiset(InBucket(b, size, t));
    }
  }

  lemma SameRowsSameCandle(c: Candle, a: seq<Reading>, b: seq<Reading>)
    requires IsCandleOf(c, a) && multiset(a) == multiset(b) && SameEnds(a, b)
    ensures IsCandleOf(c, b)
  {
    var h :| 0 <= h < |a| && a[h].value == c.high;
    var l :| 0 <= l < |a| && a[l].value == c.low;
    assert a[h] in multiset(a) && a[l] in multiset(a);
    assert a[h] in b && a[l] in b;
    forall i | 0 <= i < |b|
      ensures c.low <= b[i].value <= c.high
    {
      assert b[i] in multiset(b);
      assert b[i] in a;
    }
  }

  /** It is not when the clock steps back to an earlier fine bucket of the same coarse one: the coarse candle opens with
      the first reading, the joined one with the second. */
  lemma StepBackSpoilsJoin(a: Reading, b: Reading, size: int, k: int)
    requires size > 0 && k > 0 && a.value != b.value
    requires BucketStart(a.at, size) > BucketStart(b.at, size)
    requires size * k > 0 && BucketStart(a.at, size * k) == BucketStart(b.at, size * k)
    ensures Coarsened(BatchChart([a, b], size), size * k) != BatchChart([a, b], size * k)
  {
    hide BucketStart, BatchChart, ByBucket, Coarsened, BucketsInOrder, InBucket;
    var readings, big, t := [a, b], size * k, BucketStart(a.at, size * k);
    BatchCoarsensIff(readings, size, k);
    ByBucketInOrder(readings, size);
    ByBucketRearranges(readings, size);
    Swapped(ByBucket(readings, size), a, b, size);
    AllInBucket([a, b], big, t);
    AllInBucket([b, a], big, t);
    assert !EndsAlike([b, a], [a, b], big, t);
  }

  lemma ByBucketRearranges(samples: seq<Reading>, size: int)
    requires size > 0
    ensures multiset(ByBucket(samples, size)) == multiset(samples) && |ByBucket(samples, size)| == |samples|
  {
  }

  lemma Swapped(r: seq<Reading>, a: Reading, b: Reading, size: int)
    requires size > 0 && multiset(r) == multiset([a, b]) && |r| == 2 && BucketsInOrder(r, size)
    requires BucketStart(a.at, size) > BucketStart(b.at, size)
    ensures r == [b, a]
  {
    hide BucketStart;
    var s := [a, b];
    assert r[0] in multiset(r) && r[1] in multiset(r);
    assert r[0] in s && r[1] in s;
    assert r == [r[0], r[1]];
  }

  lemma {:induction false} AllInBucket(s: seq<Reading>, size: int, t: int)
    requires size > 0 && forall i :: 0 <= i < |s| ==> BucketStart(s[i].at, size) == t
    ensures InBucket(s, size, t) == s
  {
    hide BucketStart;
    if s != [] {
      AllInBucket(s[..|s| - 1], size, t);
    }
  }

  /** Joining is exact for readings that never go back to an earlier fine bucket. */
  lemma BatchCoarsens(samples: seq<Reading>, size: int, k: int)
    requires size > 0 && k > 0 && BucketsInOrder(samples, size)
    ensures size * k > 0
    ensures Coarsened(BatchChart(samples, size), size * k) == BatchChart(samples, size * k)
  {
    hide BatchChart, Chart, BucketsInOrder;
    CoarseningExact(samples, size, k);
    CoarserInOrder(samples, size, k);
    BatchIsIncrementalIff(samples, size);
    BatchIsIncrementalIff(samples, size * k);
  }
}
