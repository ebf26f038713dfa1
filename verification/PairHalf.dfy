/** Exactly which row keys the half-of-optimum bound needs against choices that use no row twice. */
module PairHalf {
  import opened Options
  import opened PairKeys
  import opened PairLaws
  import opened PairMatching
  import opened RealOrder

  /** No choice of acceptable pairs that uses no row twice has more than twice as many pairs as the greedy one. */
  ghost predicate HalfBound(rule: Rule, ts: seq<Tagged>, manual: seq<ManualPair>) {
    forall m :: RowMatching(rule, ts, manual, m) ==> |m| <= 2 * |Auto(rule, ts, manual)|
  }

  /** The bound holds, at all sizes and prices and for all manual decisions, if and only if no long and short of one
      symbol share keys with three row-disjoint pairs whose turn comes no earlier. */
  lemma HalfBoundIff(rule: Rule, rows: seq<Position>)
    requires SourceRule(rule)
    ensures (forall other, manual :: SameShape(rows, other) ==> HalfBound(rule, TagAll(other), manual))
       <==> NoThreeMet(rule, TagAll(rows))
  {
    hide SameShape, NoThreeMet, RowMatching;
    if NoThreeMet(rule, TagAll(rows)) {
      forall other, manual | SameShape(rows, other)
        ensures HalfBound(rule, TagAll(other), manual)
      {
        NoThreeMetKept(rule, rows, other);
        forall m | RowMatching(rule, TagAll(other), manual, m)
          ensures |m| <= 2 * |Auto(rule, TagAll(other), manual)|
        {
          AtLeastHalfOfAnyRows(rule, TagAll(other), manual, m);
        }
      }
    } else {
      var i, j, m := ThreeMet(rule, TagAll(rows));
      var other := StarSizes(rule, rows, i, j, m);
      assert SameShape(rows, other) && !HalfBound(rule, TagAll(other), []);
    }
  }

  lemma ThreeMet(rule: Rule, ts: seq<Tagged>) returns (i: nat, j: nat, m: seq<(nat, nat)>)
    requires !NoThreeMet(rule, ts)
    ensures MeetsThree(rule, ts, i, j, m)
  {
    hide MeetsThree;
    i, j, m :| MeetsThree(rule, ts, i, j, m);
  }

  lemma MeetsThreeKept(rule: Rule, rows: seq<Position>, other: seq<Position>, i: nat, j: nat, m: seq<(nat, nat)>)
    requires SourceRule(rule) && SameShape(rows, other)
    ensures MeetsThree(rule, TagAll(other), i, j, m) <==> MeetsThree(rule, TagAll(rows), i, j, m)
  {
    var ts, us := TagAll(rows), TagAll(other);
    ShapeKept(rule, rows, other);
    SymbolsKept(ts, us);
    hide SourceRule, SameShape, Opposite, Turn, Symbols, RowsApart;
    if i < |ts| && j < |ts| {
      forall c: (nat, nat)
        ensures Met(rule, us, us[i], us[j], c) <==> Met(rule, ts, ts[i], ts[j], c)
      {
      }
    }
  }

  lemma NoThreeMetKept(rule: Rule, rows: seq<Position>, other: seq<Position>)
    requires SourceRule(rule) && SameShape(rows, other) && NoThreeMet(rule, TagAll(rows))
    ensures NoThreeMet(rule, TagAll(other))
  {
    hide SourceRule, SameShape, MeetsThree;
    forall i, j, m
      ensures !MeetsThree(rule, TagAll(other), i, j, m)
    {
      MeetsThreeKept(rule, rows, other, i, j, m);
    }
  }

  // ---------------------------------------------------------------- which notionals are acceptable

  lemma AcceptedIsClose(rule: Rule, l: Tagged, s: Tagged)
    requires SourceRule(rule) && l.p.entry == 0.0 && l.notional >= 0.0 && s.notional >= 0.0
    requires rule.deviation(l, s).Some?
    ensures l.notional > 0.0 && s.notional > 0.0
    ensures l.notional * 0.88 <= s.notional && s.notional * 0.88 <= l.notional
  {
    if l.notional == 0.0 || s.notional == 0.0 {
      NoSize(rule, l, s);
    } else {
      var m, gap := Max(l.notional, s.notional), Abs(l.notional - s.notional);
      var q := gap / m;
      assert RelativeDiff(l, s) == Some(q) && q * m == gap;
      ProductOrder(q, gap, m, 0.0);
      ProductOrder(q, gap, m, 0.12);
    }
  }

  lemma CloseIsAccepted(rule: Rule, l: Tagged, s: Tagged)
    requires SourceRule(rule) && l.p.entry == 0.0 && l.notional > 0.0 && s.notional > 0.0
    requires l.notional != s.notional && Abs(l.notional - s.notional) <= Max(l.notional, s.notional) * 0.09
    ensures rule.deviation(l, s).Some? && rule.deviation(l, s).value > 0.0
  {
    var m, gap := Max(l.notional, s.notional), Abs(l.notional - s.notional);
    var q := gap / m;
    assert RelativeDiff(l, s) == Some(q) && q * m == gap;
    ProductOrder(q, gap, m, 0.0);
    ProductOrder(q, gap, m, 0.09);
  }

  // ---------------------------------------------------------------- a long and a short that block three pairs

  /** Size one for the two rows in the middle, nearly one for their partners, and a scale of its own for every other
      pair. */
  function LongSize(i: nat, j: nat, m: seq<(nat, nat)>, n: nat): real
    requires |m| == 3
  {
    if n == i then 1.0
    else if (n, j) in m then 0.91
    else if n == m[0].0 then 100.0
    else if n == m[1].0 then 10000.0
    else 1000000.0
  }

  function ShortSize(i: nat, j: nat, m: seq<(nat, nat)>, n: nat): real
    requires |m| == 3
  {
    if n == j then 1.0
    else if (i, n) in m then 1.09
    else if n == m[0].1 then 95.0
    else if n == m[1].1 then 9500.0
    else 950000.0
  }

  predicate IsLongEnd(i: nat, m: seq<(nat, nat)>, n: nat)
    requires |m| == 3
  {
    n == i || n == m[0].0 || n == m[1].0 || n == m[2].0
  }

  predicate IsShortEnd(j: nat, m: seq<(nat, nat)>, n: nat)
    requires |m| == 3
  {
    n == j || n == m[0].1 || n == m[1].1 || n == m[2].1
  }

  function StarSize(i: nat, j: nat, m: seq<(nat, nat)>, n: nat): real
    requires |m| == 3
  {
    if IsLongEnd(i, m, n) then LongSize(i, j, m, n) else if IsShortEnd(j, m, n) then ShortSize(i, j, m, n) else 0.0
  }

  /** Only the intended rows are of like size. */
  lemma LikeSizes(i: nat, j: nat, m: seq<(nat, nat)>, u: nat, v: nat)
    requires |m| == 3 && RowsApart(m) && IsLongEnd(i, m, u) && IsShortEnd(j, m, v)
    requires var a, b := LongSize(i, j, m, u), ShortSize(i, j, m, v); a * 0.88 <= b && b * 0.88 <= a
    ensures (u, v) == (i, j) || (u, v) in m
  {
    assert m[0] in m && m[1] in m && m[2] in m;
  }

  /** The intended rows are of like size, and of equal size only in the middle. */
  lemma PairSizes(i: nat, j: nat, m: seq<(nat, nat)>, k: nat)
    requires |m| == 3 && RowsApart(m) && k < 3
    ensures var a, b := LongSize(i, j, m, m[k].0), ShortSize(i, j, m, m[k].1);
            if m[k] == (i, j) then a == b == 1.0
            else a > 0.0 && b > 0.0 && a != b && Abs(a - b) <= Max(a, b) * 0.09
  {
    assert m[k] in m;
    assert m[k].0 == i ==> (i, m[k].1) in m;
    assert m[k].1 == j ==> (m[k].0, j) in m;
    assert forall x :: x in m ==> x == m[0] || x == m[1] || x == m[2];
  }

  ghost predicate Star(us: seq<Tagged>, i: nat, j: nat, m: seq<(nat, nat)>)
    requires |m| == 3
  {
    forall n :: 0 <= n < |us| ==> us[n].p.entry == 0.0 && us[n].notional == StarSize(i, j, m, n)
  }

  lemma EndsApart(rule: Rule, us: seq<Tagged>, i: nat, j: nat, m: seq<(nat, nat)>, n: nat)
    requires SourceRule(rule) && MeetsThree(rule, us, i, j, m) && n < |us|
    ensures rule.isLong(us[n]) ==> !IsShortEnd(j, m, n)
    ensures rule.isShort(us[n]) ==> !IsLongEnd(i, m, n)
  {
    LongNotShort(rule, us[n]);
    EndSides(rule, us, i, j, m);
    hide SourceRule, MeetsThree;
  }

  lemma LongNotShort(rule: Rule, t: Tagged)
    requires SourceRule(rule)
    ensures !(rule.isLong(t) && rule.isShort(t))
  {
    SourceRulesSided();
  }

  lemma EndSides(rule: Rule, us: seq<Tagged>, i: nat, j: nat, m: seq<(nat, nat)>)
    requires MeetsThree(rule, us, i, j, m)
    ensures i < |us| && j < |us| && rule.isLong(us[i]) && rule.isShort(us[j])
    ensures forall k :: 0 <= k < 3 ==>
              m[k].0 < |us| && m[k].1 < |us| && rule.isLong(us[m[k].0]) && rule.isShort(us[m[k].1])
  {
    hide Turn, Symbols, RowsApart;
    assert forall k :: 0 <= k < 3 ==> Met(rule, us, us[i], us[j], m[k]);
  }

  lemma StarEligible(rule: Rule, us: seq<Tagged>, i: nat, j: nat, m: seq<(nat, nat)>, u: nat, v: nat)
    requires SourceRule(rule) && MeetsThree(rule, us, i, j, m) && Star(us, i, j, m)
    requires u < |us| && v < |us| && Eligible(rule, us[u], us[v])
    ensures (u, v) == (i, j) || (u, v) in m
  {
    EndsApart(rule, us, i, j, m, u);
    EndsApart(rule, us, i, j, m, v);
    AcceptedIsClose(rule, us[u], us[v]);
    LikeSizes(i, j, m, u, v);
  }

  lemma StarChosen(rule: Rule, us: seq<Tagged>, i: nat, j: nat, m: seq<(nat, nat)>, k: nat)
    requires SourceRule(rule) && MeetsThree(rule, us, i, j, m) && Star(us, i, j, m) && k < 3
    ensures Met(rule, us, us[i], us[j], m[k]) && Eligible(rule, us[m[k].0], us[m[k].1])
    ensures m[k] == (i, j) || rule.deviation(us[m[k].0], us[m[k].1]).value > 0.0
  {
    assert Met(rule, us, us[i], us[j], m[k]);
    EndsApart(rule, us, i, j, m, m[k].1);
    PairSizes(i, j, m, k);
    if m[k] == (i, j) {
      EqualSizes(rule, us[i], us[j]);
    } else {
      CloseIsAccepted(rule, us[m[k].0], us[m[k].1]);
    }
  }

  lemma StarMiddle(rule: Rule, us: seq<Tagged>, i: nat, j: nat, m: seq<(nat, nat)>)
    requires SourceRule(rule) && MeetsThree(rule, us, i, j, m) && Star(us, i, j, m)
    ensures Eligible(rule, us[i], us[j]) && rule.deviation(us[i], us[j]) == Some(0.0)
  {
    EndsApart(rule, us, i, j, m, j);
    EqualSizes(rule, us[i], us[j]);
  }

  /** The middle pair is made, and it is the only one. */
  lemma StarSizes(rule: Rule, rows: seq<Position>, i: nat, j: nat, m: seq<(nat, nat)>) returns (other: seq<Position>)
    requires SourceRule(rule) && MeetsThree(rule, TagAll(rows), i, j, m)
    ensures SameShape(rows, other) && !HalfBound(rule, TagAll(other), [])
  {
    other := Sized(rows, (n: nat) => StarSize(i, j, m, n));
    hide SourceRule, SameShape, RowsApart, Met, Opposite, StarSize;
    assert Star(TagAll(other), i, j, m) by { SizesNotNegative(i, j, m); }
    MeetsThreeKept(rule, rows, other, i, j, m);
    StarBreaksHalf(rule, TagAll(other), i, j, m);
  }

  lemma SizesNotNegative(i: nat, j: nat, m: seq<(nat, nat)>)
    requires |m| == 3
    ensures forall n: nat :: StarSize(i, j, m, n) >= 0.0
  {
  }

  lemma StarBreaksHalf(rule: Rule, us: seq<Tagged>, i: nat, j: nat, m: seq<(nat, nat)>)
    requires SourceRule(rule) && MeetsThree(rule, us, i, j, m) && Star(us, i, j, m)
    ensures !HalfBound(rule, us, [])
  {
    hide SourceRule, Star, RowMatching, RowsApart, Met, Opposite, Auto;
    StarMatching(rule, us, i, j, m);
    StarOnlyOne(rule, us, i, j, m);
  }

  lemma StarMatching(rule: Rule, us: seq<Tagged>, i: nat, j: nat, m: seq<(nat, nat)>)
    requires SourceRule(rule) && MeetsThree(rule, us, i, j, m) && Star(us, i, j, m)
    ensures RowMatching(rule, us, [], m)
  {
    hide SourceRule, Star, Eligible;
    forall k | 0 <= k < 3
      ensures Met(rule, us, us[i], us[j], m[k]) && Eligible(rule, us[m[k].0], us[m[k].1])
    {
      StarChosen(rule, us, i, j, m, k);
    }
    assert ByHand(us, []) == {};
  }

  lemma StarOnlyOne(rule: Rule, us: seq<Tagged>, i: nat, j: nat, m: seq<(nat, nat)>)
    requires SourceRule(rule) && MeetsThree(rule, us, i, j, m) && Star(us, i, j, m)
    ensures |Auto(rule, us, [])| <= 1
  {
    hide SourceRule, Star, Eligible, Turn, Symbols;
    var x, y := us[i], us[j];
    StarMiddle(rule, us, i, j, m);
    forall a, b | a in us && b in us && Eligible(rule, a, b)
      ensures Beaten(rule, us, x, y, a, b)
    {
      var u :| 0 <= u < |us| && us[u] == a;
      var v :| 0 <= v < |us| && us[v] == b;
      StarEligible(rule, us, i, j, m, u, v);
      if (u, v) in m {
        var k :| 0 <= k < 3 && m[k] == (u, v);
        StarChosen(rule, us, i, j, m, k);
      } else {
        assert x.key in {a.key, b.key} * {x.key, y.key};
      }
    }
    OneTakesAll(rule, us, x, y);
  }

  /** A pair that shares a key with a better one whose turn comes no later. */
  ghost predicate Beaten(rule: Rule, ts: seq<Tagged>, x: Tagged, y: Tagged, a: Tagged, b: Tagged) {
    && {a.key, b.key} * {x.key, y.key} != {}
    && Turn(Symbols(ts), x.p.symbol) <= Turn(Symbols(ts), a.p.symbol)
    && ((a == x && b == y) || (rule.deviation(a, b).Some? && rule.deviation(a, b).value > 0.0))
  }

  lemma OneTakesAll(rule: Rule, ts: seq<Tagged>, x: Tagged, y: Tagged)
    requires x in ts && y in ts && Eligible(rule, x, y) && rule.deviation(x, y) == Some(0.0)
    requires forall a, b :: a in ts && b in ts && Eligible(rule, a, b) ==> Beaten(rule, ts, x, y, a, b)
    ensures |Auto(rule, ts, [])| <= 1
  {
    hide Eligible, Symbols, Turn;
    var auto := Auto(rule, ts, []);
    assert ByHand(ts, []) == {};
    SymbolsDistinct(ts);
    AutoMembers(rule, ts, Symbols(ts), {});
    var d := BestIsMade(rule, ts, Symbols(ts), x, y);
    forall k | 0 <= k < |auto|
      ensures d.long.key in Legs(auto[k])
    {
      var e := auto[k];
      assert e in auto && AutoPair(rule, ts, e);
      DisjointOnce(auto, d, e);
    }
    if |auto| > 1 { SharedKeyMeets(auto, d.long.key); }
  }

  lemma {:induction false} BestIsMade(rule: Rule, ts: seq<Tagged>, syms: seq<string>, x: Tagged, y: Tagged)
    returns (d: Pair)
    requires x in ts && y in ts && Eligible(rule, x, y) && rule.deviation(x, y) == Some(0.0) && x.p.symbol in syms
    requires forall a, b :: a in ts && b in ts && Eligible(rule, a, b) ==>
               && Turn(syms, x.p.symbol) <= Turn(syms, a.p.symbol)
               && ((a == x && b == y) || (rule.deviation(a, b).Some? && rule.deviation(a, b).value > 0.0))
    ensures d in AutoPairs(rule, ts, syms, {}) && d.long == x && d.short == y
  {
    hide GroupPairs, Eligible;
    if syms[0] == x.p.symbol {
      d := GroupBlocks(rule, ts, {}, x, y);
      GroupMembers(rule, ts, syms[0], {});
    } else {
      assert syms == [syms[0]] + syms[1..];
      NoneOfSymbol(rule, ts, syms[0], {});
      assert {} + LegsOf([]) == {};
      d := BestIsMade(rule, ts, syms[1..], x, y);
    }
  }

  // ---------------------------------------------------------------- a list on which the bound fails

  /** Three longs and three shorts of one symbol, on three venues that keep both sides and name them by symbol. */
  function SixRows(): seq<Position> {
    [Position("BTCUSDT", "binance", "BTC", "buy", 1.0, 100.0, 100.0),
     Position("BTCUSDT", "binance", "BTC", "sell", 1.0, 100.0, 100.0),
     Position("BTCUSDT", "bybit", "BTC", "buy", 1.0, 100.0, 100.0),
     Position("BTCUSDT", "bybit", "BTC", "sell", 1.0, 100.0, 100.0),
     Position("BTCUSDT", "aster", "BTC", "buy", 1.0, 100.0, 100.0),
     Position("BTCUSDT", "aster", "BTC", "sell", 1.0, 100.0, 100.0)]
  }

  /** They could make three pairs that fit exactly, and one is made. */
  lemma SixRowsBreakHalf()
    ensures RowMatching(SpreadRule(), TagAll(SixRows()), [], [(0, 1), (2, 3), (4, 5)])
    ensures |Auto(SpreadRule(), TagAll(SixRows()), [])| <= 1
  {
    SourceRulesSided();
    SixRowsFit();
    hide SpreadRule, SixRows, Sided, Eligible, TagAll;
    ThreeSideBySide(SpreadRule(), TagAll(SixRows()));
    OneKeyOneAuto(SpreadRule(), TagAll(SixRows()), "BTCUSDT");
  }

  lemma ThreeSideBySide(rule: Rule, ts: seq<Tagged>)
    requires |ts| == 6 && Eligible(rule, ts[0], ts[1]) && Eligible(rule, ts[2], ts[3]) && Eligible(rule, ts[4], ts[5])
    ensures RowMatching(rule, ts, [], [(0, 1), (2, 3), (4, 5)])
  {
    hide Eligible;
    assert ByHand(ts, []) == {};
  }

  lemma OneKeyOneAuto(rule: Rule, ts: seq<Tagged>, k: string)
    requires Sided(rule) && forall t :: t in ts ==> t.key == k
    ensures |Auto(rule, ts, [])| <= 1
  {
    OneKeyOnePair(rule, ts, [], k);
    assert AllPairs(rule, ts, []) == [] + Auto(rule, ts, []);
  }

  lemma SixRowsFit()
    ensures var ts, rule := TagAll(SixRows()), SpreadRule();
            && |ts| == 6 && (forall t :: t in ts ==> t.key == "BTCUSDT")
            && Eligible(rule, ts[0], ts[1]) && Eligible(rule, ts[2], ts[3]) && Eligible(rule, ts[4], ts[5])
  {
    var rows, ts := SixRows(), TagAll(SixRows());
    forall n | 0 <= n < 6
      ensures ts[n].p == rows[n] && ts[n].key == "BTCUSDT" && ts[n].notional == 100.0
    {
    }
    SameRowsFit(ts[0], ts[1]);
    SameRowsFit(ts[2], ts[3]);
    SameRowsFit(ts[4], ts[5]);
  }

  lemma SameRowsFit(l: Tagged, s: Tagged)
    requires l.notional == s.notional == 100.0 && l.p.entry == s.p.entry == 100.0
    ensures SpreadDeviation(l, s) == Some(0.0)
  {
    assert RelativeDiff(l, s) == Some(0.0);
  }
}
