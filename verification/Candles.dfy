/** Open/high/low/close candles: built one sample at a time, or in one go from the sample history.
    Times are whole milliseconds; a bucket is named by the time at which it starts. */
module Candles {
  import opened Filters
  import opened JsMap
  import opened JsSort

  datatype Reading = Reading(at: int, value: real)
  datatype Candle = Candle(time: int, open: real, high: real, low: real, close: real)

  const LIVE_BUCKET := 5000
  const LIVE_LIMIT := 1200

  /** The start of the bucket that holds a time. */
  function BucketStart(at: int, size: int): int
    requires size > 0
  {
    at / size * size
  }

  /** A bucket starts at the last whole multiple of its size that is not after the time. */
  lemma BucketReads(at: int, size: int)
    requires size > 0
    ensures BucketStart(at, size) <= at < BucketStart(at, size) + size
    ensures exists n :: BucketStart(at, size) == n * size
  {
    assert at == at / size * size + at % size;
    assert BucketStart(at, size) == (at / size) * size;
  }

  /** No sample falls into an earlier bucket than the one before it; within a bucket the clock may step back. */
  ghost predicate BucketsInOrder(samples: seq<Reading>, size: int)
    requires size > 0
  {
    forall i :: 0 < i < |samples| ==> BucketStart(samples[i - 1].at, size) <= BucketStart(samples[i].at, size)
  }

  // ---------------------------------------------------------------- reference: one bucket's samples

  ghost function InBucket(samples: seq<Reading>, size: int, t: int): seq<Reading>
    requires size > 0
  {
    if samples == [] then []
    else
      InBucket(samples[..|samples| - 1], size, t) +
      if BucketStart(samples[|samples| - 1].at, size) == t then [samples[|samples| - 1]] else []
  }

  /** The candle of some samples: first, largest, smallest, last. */
  ghost predicate IsCandleOf(c: Candle, s: seq<Reading>) {
    && s != []
    && c.open == s[0].value && c.close == s[|s| - 1].value
    && (forall i :: 0 <= i < |s| ==> c.low <= s[i].value <= c.high)
    && (exists i :: 0 <= i < |s| && s[i].value == c.high)
    && (exists i :: 0 <= i < |s| && s[i].value == c.low)
  }

  /** A candle list that shows every occupied bucket once, in order of time. */
  ghost predicate IsChart(cs: seq<Candle>, samples: seq<Reading>, size: int)
    requires size > 0
  {
    && (forall i, j :: 0 <= i < j < |cs| ==> cs[i].time < cs[j].time)
    && (forall i :: 0 <= i < |cs| ==> IsCandleOf(cs[i], InBucket(samples, size, cs[i].time)))
    && (forall i :: 0 <= i < |samples| ==> HasTime(cs, BucketStart(samples[i].at, size)))
  }

  ghost predicate HasTime(cs: seq<Candle>, t: int) {
    exists i :: 0 <= i < |cs| && cs[i].time == t
  }

  // ---------------------------------------------------------------- what the code computes

  function Fresh(t: int, v: real): Candle {
    Candle(t, v, v, v, v)
  }

  function Extended(c: Candle, v: real): Candle {
    c.(high := if v > c.high then v else c.high, low := if v < c.low then v else c.low, close := v)
  }

  /** One more sample at the right-hand end of the chart. */
  function Push(cs: seq<Candle>, t: int, v: real): seq<Candle> {
    if cs == [] || cs[|cs| - 1].time != t then cs + [Fresh(t, v)]
    else cs[..|cs| - 1] + [Extended(cs[|cs| - 1], v)]
  }

  /** The chart without any limit on its length. */
  function Chart(samples: seq<Reading>, size: int): seq<Candle>
    requires size > 0
  {
    if samples == [] then []
    else
      var last := samples[|samples| - 1];
      Push(Chart(samples[..|samples| - 1], size), BucketStart(last.at, size), last.value)
  }

  function Newest(cs: seq<Candle>, limit: nat): seq<Candle> {
    if |cs| > limit then cs[|cs| - limit..] else cs
  }

  /** The batch build keeps a map from bucket start to candle. */
  function Collected(samples: seq<Reading>, size: int): Entries<int, Candle>
    requires size > 0
  {
    if samples == [] then []
    else
      var last := samples[|samples| - 1];
      Collect(Collected(samples[..|samples| - 1], size), BucketStart(last.at, size), last.value)
  }

  function Collect(m: Entries<int, Candle>, t: int, v: real): Entries<int, Candle> {
    Set(m, t, if Has(m, t) then Extended(Get(m, t), v) else Fresh(t, v))
  }

  function BatchChart(samples: seq<Reading>, size: int): seq<Candle>
    requires size > 0
  {
    Sort(Values(Collected(samples, size)), (c: Candle) => c.time as real)
  }

  /** One sample of the entry/exit history. */
  datatype Point = Point(at: int, inPct: real, outPct: real)

  function InSeries(hist: seq<Point>): seq<Reading> {
    if hist == [] then []
    else InSeries(hist[..|hist| - 1]) + [Reading(hist[|hist| - 1].at, hist[|hist| - 1].inPct)]
  }

  function OutSeries(hist: seq<Point>): seq<Reading> {
    if hist == [] then []
    else OutSeries(hist[..|hist| - 1]) + [Reading(hist[|hist| - 1].at, hist[|hist| - 1].outPct)]
  }

  /** The two series carry the entry and the exit percentages at the times of the samples. */
  lemma {:induction false} SeriesRead(hist: seq<Point>, i: nat)
    requires i < |hist|
    ensures |InSeries(hist)| == |hist| && InSeries(hist)[i] == Reading(hist[i].at, hist[i].inPct)
    ensures |OutSeries(hist)| == |hist| && OutSeries(hist)[i] == Reading(hist[i].at, hist[i].outPct)
  {
    var front := hist[..|hist| - 1];
    if i < |front| {
      SeriesRead(front, i);
    } else if front != [] {
      SeriesRead(front, 0);
    }
  }

  /** One pass over the history fills both maps; each is then sorted by time. */
  method BuildCandles(hist: seq<Point>, bucket: int) returns (inArr: seq<Candle>, outArr: seq<Candle>)
    requires bucket > 0
    ensures inArr == BatchChart(InSeries(hist), bucket)
    ensures outArr == BatchChart(OutSeries(hist), bucket)
  {
    hide Collect;
    var bIn: Entries<int, Candle> := [];
    var bOut: Entries<int, Candle> := [];
    var i := 0;
    while i < |hist|
      invariant 0 <= i <= |hist|
      invariant bIn == Collected(InSeries(hist[..i]), bucket)
      invariant bOut == Collected(OutSeries(hist[..i]), bucket)
    {
      assert hist[..i + 1][..i] == hist[..i];
      var p := hist[i];
      var t := BucketStart(p.at, bucket);
      CollectedStep(InSeries(hist[..i]), Reading(p.at, p.inPct), bucket);
      CollectedStep(OutSeries(hist[..i]), Reading(p.at, p.outPct), bucket);
      bIn := CollectInto(bIn, t, p.inPct);
      bOut := CollectInto(bOut, t, p.outPct);
      i := i + 1;
    }
    assert hist[..i] == hist;
    inArr := Sort(Values(bIn), (c: Candle) => c.time as real);
    outArr := Sort(Values(bOut), (c: Candle) => c.time as real);
  }

  lemma CollectedStep(samples: seq<Reading>, x: Reading, size: int)
    requires size > 0
    ensures Collected(samples + [x], size) == Collect(Collected(samples, size), BucketStart(x.at, size), x.value)
  {
    assert (samples + [x])[..|samples|] == samples;
  }

  /** Opens the bucket's candle or patches the one that is there. */
  method CollectInto(m: Entries<int, Candle>, t: int, v: real) returns (m': Entries<int, Candle>)
    ensures m' == Collect(m, t, v)
  {
    if !Has(m, t) {
      m' := Set(m, t, Candle(t, v, v, v, v));
    } else {
      var c := Get(m, t);
      if v > c.high { c := c.(high := v); }
      if v < c.low { c := c.(low := v); }
      c := c.(close := v);
      m' := Set(m, t, c);
    }
  }

  // ---------------------------------------------------------------- the live chart

  /** A candle object; the newest one is patched in place while its bucket lasts. */
  class Cell {
    const time: int
    const open: real
    var high: real
    var low: real
    var close: real

    constructor (c: Candle)
      ensures View() == c
    {
      time, open, high, low, close := c.time, c.open, c.high, c.low, c.close;
    }

    function View(): Candle
      reads this
    {
      Candle(time, open, high, low, close)
    }
  }

  ghost function ViewAll(cells: seq<Cell>): (r: seq<Candle>)
    reads cells
    ensures |r| == |cells| && forall i :: 0 <= i < |r| ==> r[i] == cells[i].View()
  {
    seq(|cells|, i requires 0 <= i < |cells| reads cells => cells[i].View())
  }

  function Recent(saved: seq<Candle>, cutoff: int): seq<Candle> {
    if saved == [] then []
    else Recent(saved[..|saved| - 1], cutoff) + if saved[|saved| - 1].time >= cutoff then [saved[|saved| - 1]] else []
  }

  lemma {:induction false} RecentIsFilter(saved: seq<Candle>, cutoff: int)
    ensures Recent(saved, cutoff) == Filter(saved, (c: Candle) => c.time >= cutoff)
  {
    if saved != [] {
      RecentIsFilter(saved[..|saved| - 1], cutoff);
    }
  }

  /** The newest candles are the end of the list: all of it, or as many as allowed. */
  lemma NewestReads(cs: seq<Candle>, limit: nat)
    ensures exists dropped :: cs == dropped + Newest(cs, limit) &&
                              |Newest(cs, limit)| <= limit && (dropped == [] || |Newest(cs, limit)| == limit)
  {
    var n := Newest(cs, limit);
    assert cs == cs[..|cs| - |n|] + n;
  }

  /** Every further sample of a run, applied to a chart that is already there. */
  function PushAll(cs: seq<Candle>, samples: seq<Reading>): seq<Candle> {
    if samples == [] then cs
    else
      var last := samples[|samples| - 1];
      Push(PushAll(cs, samples[..|samples| - 1]), BucketStart(last.at, LIVE_BUCKET), last.value)
  }

  class LiveChart {
    var candles: seq<Cell>
    var cur: Cell?

    ghost predicate Valid()
      reads this
    {
      && |candles| <= LIVE_LIMIT
      && (forall i, j :: 0 <= i < j < |candles| ==> candles[i] != candles[j])
      && cur == if candles == [] then null else candles[|candles| - 1]
    }

    ghost function View(): seq<Candle>
      reads this, candles
    {
      ViewAll(candles)
    }

    /** Starts from the saved candles that are recent enough. */
    constructor (saved: seq<Candle>, cutoff: int)
      ensures Valid() && fresh(candles)
      ensures View() == Newest(Recent(saved, cutoff), LIVE_LIMIT)
    {
      var kept := Newest(Recent(saved, cutoff), LIVE_LIMIT);
      var cells: seq<Cell> := [];
      var i := 0;
      while i < |kept|
        invariant 0 <= i == |cells| <= |kept| && fresh(cells)
        invariant forall j, k :: 0 <= j < k < |cells| ==> cells[j] != cells[k]
        invariant forall j :: 0 <= j < i ==> cells[j].View() == kept[j]
      {
        var cell := new Cell(kept[i]);
        cells := cells + [cell];
        i := i + 1;
      }
      candles := cells;
      cur := if |cells| == 0 then null else cells[|cells| - 1];
    }

    /** One more sample: patches the open candle or starts the next one and drops the oldest beyond the limit. */
    method PushSample(at: int, value: real)
      requires Valid()
      modifies this, candles
      ensures Valid()
      ensures forall i :: 0 <= i < |candles| ==> candles[i] in old(candles) || fresh(candles[i])
      ensures View() == Newest(Push(old(View()), BucketStart(at, LIVE_BUCKET), value), LIVE_LIMIT)
    {
      hide BucketStart;
      var t := BucketStart(at, LIVE_BUCKET);
      if cur == null || cur.time != t {
        StartCandle(t, value);
      } else {
        PatchCandle(value);
      }
    }

    method StartCandle(t: int, value: real)
      requires Valid() && (candles == [] || candles[|candles| - 1].time != t)
      modifies this
      ensures Valid()
      ensures forall i :: 0 <= i < |candles| ==> candles[i] in old(candles) || fresh(candles[i])
      ensures View() == Newest(old(View()) + [Fresh(t, value)], LIVE_LIMIT)
    {
      hide Fresh;
      var cell := new Cell(Fresh(t, value));
      cur := cell;
      candles := candles + [cell];
      assert ViewAll(candles) == old(View()) + [Fresh(t, value)];
      if |candles| > LIVE_LIMIT {
        candles := candles[|candles| - LIVE_LIMIT..];
      }
    }

    method PatchCandle(value: real)
      requires Valid() && candles != []
      modifies candles[|candles| - 1]
      ensures Valid() && candles == old(candles)
      ensures View() == old(View())[..|candles| - 1] + [Extended(old(View())[|candles| - 1], value)]
    {
      if value > cur.high { cur.high := value; }
      if value < cur.low { cur.low := value; }
      cur.close := value;
    }

    /** A run of samples. */
    method PushRun(samples: seq<Reading>)
      requires Valid()
      modifies this, candles
      ensures Valid() && View() == Newest(PushAll(old(View()), samples), LIVE_LIMIT)
    {
      ghost var start := View();
      var i := 0;
      while i < |samples|
        invariant 0 <= i <= |samples| && Valid()
        invariant forall j :: 0 <= j < |candles| ==> candles[j] in old(candles) || fresh(candles[j])
        invariant View() == Newest(PushAll(start, samples[..i]), LIVE_LIMIT)
      {
        assert samples[..i + 1][..i] == samples[..i];
        var bucket := BucketStart(samples[i].at, LIVE_BUCKET);
        NewestThenPush(PushAll(start, samples[..i]), bucket, samples[i].value, LIVE_LIMIT);
        PushSample(samples[i].at, samples[i].value);
        i := i + 1;
      }
      assert samples[..i] == samples;
    }
  }

  /** Dropping old candles never changes what the next sample does. */
  lemma NewestThenPush(cs: seq<Candle>, t: int, v: real, limit: nat)
    requires limit > 0
    ensures Newest(Push(Newest(cs, limit), t, v), limit) == Newest(Push(cs, t, v), limit)
  {
    hide Fresh, Extended;
    if cs == [] || cs[|cs| - 1].time != t {
      SuffixThenAppend(cs, Fresh(t, v), limit);
    } else {
      FrontOfNewest(cs, limit);
      SuffixThenAppend(cs[..|cs| - 1], Extended(cs[|cs| - 1], v), limit - 1);
    }
  }

  lemma FrontOfNewest(cs: seq<Candle>, limit: nat)
    requires limit > 0 && cs != []
    ensures Newest(cs, limit) != [] && Newest(cs, limit)[|Newest(cs, limit)| - 1] == cs[|cs| - 1]
    ensures Newest(cs, limit)[..|Newest(cs, limit)| - 1] == Newest(cs[..|cs| - 1], limit - 1)
  {
  }

  lemma SuffixThenAppend(cs: seq<Candle>, c: Candle, limit: nat)
    ensures Newest(Newest(cs, limit) + [c], limit) == Newest(cs + [c], limit)
    ensures Newest(cs, limit) + [c] == Newest(cs + [c], limit + 1)
  {
  }
}
