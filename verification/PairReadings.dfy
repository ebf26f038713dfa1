/** What the pairing rules mean for the positions themselves: which two fit, on their numbers and without a quotient. */
module PairReadings {
  import opened Filters
  import opened Options
  import opened PairLaws
  import opened PairMatching
  import opened RealOrder
  import opened Text

  lemma AbsReads(x: real)
    ensures Abs(x) >= 0.0 && (Abs(x) == x || Abs(x) == -x)
  {
  }

  lemma MaxReads(x: real, y: real)
    ensures Max(x, y) >= x && Max(x, y) >= y && (Max(x, y) == x || Max(x, y) == y)
  {
  }

  // ---------------------------------------------------------------- rows

  /** A row keeps its position, is worth the size of quantity times mark, and is named by the position's id or, for
      want of one, by venue, symbol and place. */
  lemma TagReads(p: Position, i: nat)
    ensures Tag(p, i).p == p && Tag(p, i).notional == Abs(p.quantity * p.mark)
    ensures p.id != "" ==> Tag(p, i).key == p.id
    ensures p.id == "" ==> Tag(p, i).key == p.exchange + ":" + p.symbol + ":" + Decimal(i)
  {
  }

  lemma LastColon(front: string, i: nat)
    ensures var key := front + ":" + Decimal(i);
            && |front| < |key| && key[|front|] == ':' && key[|front| + 1..] == Decimal(i)
            && forall k :: |front| < k < |key| ==> key[k] != ':'
  {
    assert front + ":" + Decimal(i) == front + (":" + Decimal(i));
  }

  /** Two rows without an id never share a key, whatever their venues and symbols are called. */
  lemma FallbackKeysDiffer(p: Position, i: nat, q: Position, j: nat)
    requires p.id == "" && q.id == "" && i != j
    ensures Tag(p, i).key != Tag(q, j).key
  {
    var a, b := p.exchange + ":" + p.symbol, q.exchange + ":" + q.symbol;
    LastColon(a, i);
    LastColon(b, j);
    DecimalRoundTrip(i);
    DecimalRoundTrip(j);
    assert Tag(p, i).key == a + ":" + Decimal(i) && Tag(q, j).key == b + ":" + Decimal(j);
  }

  // ---------------------------------------------------------------- the rules on two rows

  /** How far the sizes of two rows are apart, and the larger one. */
  ghost function Gap(l: Tagged, s: Tagged): real {
    Abs(l.notional - s.notional)
  }

  ghost function Larger(l: Tagged, s: Tagged): real {
    Max(l.notional, s.notional)
  }

  /** How far a gap is from what two entry prices explain, times larger size and first entry price. */
  ghost function Misfit(gap: real, e1: real, e2: real, m: real): real {
    Abs(gap * e1 - Abs(e2 - e1) * m)
  }

  ghost function Weight(m: real, e: real): real {
    m * e
  }

  ghost function Off(l: Tagged, s: Tagged): real {
    Misfit(Gap(l, s), l.p.entry, s.p.entry, Larger(l, s))
  }

  ghost function Scale(l: Tagged, s: Tagged): real {
    Weight(Larger(l, s), l.p.entry)
  }

  /** The spread rule with both entry prices: the relative difference of the sizes must be within twelve points of the
      relative difference of the entry prices. */
  lemma SpreadAccepts(l: Tagged, s: Tagged)
    requires Larger(l, s) > 0.0 && l.p.entry > 0.0 && s.p.entry > 0.0
    ensures var d := SpreadRule().deviation(l, s);
            && (d.Some? <==> 100.0 * Off(l, s) <= 12.0 * Scale(l, s))
            && (d.Some? ==> d.value * Scale(l, s) == 100.0 * Off(l, s))
  {
    hide Gap, Larger, Off, Scale, RelativeDiff, Abs, Max;
    var e := l.p.entry;
    var x, y := Gap(l, s) / Larger(l, s), Abs(s.p.entry - e) / e;
    DiffIsRatio(l, s);
    SpreadIsRatio(l, s);
    var dev := Abs(x * 100.0 - y * 100.0);
    OffTimes(l, s, x, y);
    ScalePositive(l, s);
    ProductOrder(dev, 100.0 * Off(l, s), Scale(l, s), 12.0);
    SpreadIsDeviation(l, s, x, y);
  }

  /** Without one of the entry prices the sizes must be within twelve percent of the larger. */
  lemma SpreadAcceptsSizes(l: Tagged, s: Tagged)
    requires Larger(l, s) > 0.0 && !(l.p.entry > 0.0 && s.p.entry > 0.0)
    ensures var d := SpreadRule().deviation(l, s);
            && (d.Some? <==> 100.0 * Gap(l, s) <= 12.0 * Larger(l, s))
            && (d.Some? ==> d.value * Larger(l, s) == 100.0 * Gap(l, s))
  {
    var m, gap := Larger(l, s), Gap(l, s);
    var x := gap / m;
    assert x * m == gap;
    DiffIsRatio(l, s);
    ProductOrder(x, gap, m, 0.0);
    ProductOrder(x, gap, m, 0.12);
  }

  lemma SpreadIsDeviation(l: Tagged, s: Tagged, x: real, y: real)
    requires l.p.entry > 0.0 && s.p.entry > 0.0 && RelativeDiff(l, s) == Some(x)
    requires Abs((s.p.entry - l.p.entry) / l.p.entry) == y
    ensures var dev := Abs(x * 100.0 - y * 100.0);
            SpreadDeviation(l, s) == if dev <= 12.0 then Some(dev) else None
  {
    hide RelativeDiff, Abs;
  }

  lemma ScalePositive(l: Tagged, s: Tagged)
    requires Larger(l, s) > 0.0 && l.p.entry > 0.0
    ensures Scale(l, s) > 0.0
  {
    MulStrict(0.0, Larger(l, s), l.p.entry);
  }

  lemma DiffIsRatio(l: Tagged, s: Tagged)
    requires Larger(l, s) > 0.0
    ensures RelativeDiff(l, s) == Some(Gap(l, s) / Larger(l, s))
  {
  }

  lemma SpreadIsRatio(l: Tagged, s: Tagged)
    requires l.p.entry > 0.0
    ensures Abs((s.p.entry - l.p.entry) / l.p.entry) == Abs(s.p.entry - l.p.entry) / l.p.entry
  {
    var e, diff := l.p.entry, s.p.entry - l.p.entry;
    var x, y := diff / e, Abs(diff) / e;
    assert x * e == diff && y * e == Abs(diff);
    ProductOrder(x, diff, e, 0.0);
    if diff >= 0.0 {
      SameFactor(x, y, e);
    } else {
      assert (-x) * e == -diff;
      SameFactor(-x, y, e);
    }
  }

  lemma OffTimes(l: Tagged, s: Tagged, x: real, y: real)
    requires Larger(l, s) > 0.0 && l.p.entry > 0.0
    requires x == Gap(l, s) / Larger(l, s) && y == Abs(s.p.entry - l.p.entry) / l.p.entry
    ensures Abs(x * 100.0 - y * 100.0) * Scale(l, s) == 100.0 * Off(l, s)
  {
    hide Gap, Larger;
    MisfitTimes(Larger(l, s), l.p.entry, s.p.entry, Gap(l, s), x, y);
  }

  lemma MisfitTimes(m: real, e: real, e2: real, gap: real, x: real, y: real)
    requires m > 0.0 && e > 0.0 && x == gap / m && y == Abs(e2 - e) / e
    ensures Abs(x * 100.0 - y * 100.0) * Weight(m, e) == 100.0 * Misfit(gap, e, e2, m)
  {
    var spread := Abs(e2 - e);
    assert x * m == gap && y * e == spread;
    ScaledDifference(x, y, m, e, gap, spread);
    MulStrict(0.0, m, e);
    var n := gap * e - spread * m;
    AbsTimes(x * 100.0 - y * 100.0, m * e, 100.0 * n);
    AbsTimes(n, 100.0, 100.0 * n);
    assert Misfit(gap, e, e2, m) == Abs(n);
  }

  lemma ScaledDifference(x: real, y: real, m: real, e: real, gap: real, spread: real)
    requires x * m == gap && y * e == spread
    ensures (x * 100.0 - y * 100.0) * (m * e) == 100.0 * (gap * e - spread * m)
  {
    assert x * (m * e) == gap * e;
    assert y * (m * e) == spread * m;
    assert (x * 100.0 - y * 100.0) * (m * e) == 100.0 * (x * (m * e)) - 100.0 * (y * (m * e));
  }

  lemma AbsTimes(d: real, k: real, n: real)
    requires k > 0.0 && d * k == n
    ensures Abs(d) * k == Abs(n)
  {
    ProductOrder(d, n, k, 0.0);
    assert (-d) * k == -n;
  }

  /** The notional rule: the sizes may differ by a tenth of the larger one. */
  lemma NotionalAccepts(l: Tagged, s: Tagged)
    requires Larger(l, s) > 0.0
    ensures var d := NotionalRule().deviation(l, s);
            && (d.Some? <==> 10.0 * Gap(l, s) <= Larger(l, s))
            && (d.Some? ==> d.value * Larger(l, s) == Gap(l, s))
  {
    var m, gap := Larger(l, s), Gap(l, s);
    var x := gap / m;
    assert x * m == gap;
    DiffIsRatio(l, s);
    ProductOrder(x, gap, m, 0.1);
  }

  /** Two rows without a size never fit. */
  lemma NothingAccepted(l: Tagged, s: Tagged)
    requires Larger(l, s) <= 0.0
    ensures SpreadRule().deviation(l, s) == None && NotionalRule().deviation(l, s) == None
  {
  }

  lemma QuotientsOrder(d1: real, k1: real, n1: real, d2: real, k2: real, n2: real)
    requires k1 > 0.0 && k2 > 0.0 && d1 * k1 == n1 && d2 * k2 == n2
    ensures d1 <= d2 <==> n1 * k2 <= n2 * k1
  {
    MulStrict(0.0, k1, k2);
    assert d1 * (k1 * k2) == n1 * k2;
    assert d2 * (k1 * k2) == n2 * k1;
    ProductOrder(d1, n1 * k2, k1 * k2, d2);
  }

  /** Of two candidates with entry prices the rule prefers the one nearer to what its spread explains, per size. */
  lemma SpreadPrefers(l1: Tagged, s1: Tagged, l2: Tagged, s2: Tagged)
    requires Larger(l1, s1) > 0.0 && l1.p.entry > 0.0 && s1.p.entry > 0.0
    requires Larger(l2, s2) > 0.0 && l2.p.entry > 0.0 && s2.p.entry > 0.0
    requires SpreadRule().deviation(l1, s1).Some? && SpreadRule().deviation(l2, s2).Some?
    ensures SpreadRule().deviation(l1, s1).value <= SpreadRule().deviation(l2, s2).value
       <==> (100.0 * Off(l1, s1)) * Scale(l2, s2) <= (100.0 * Off(l2, s2)) * Scale(l1, s1)
  {
    hide SpreadRule, Off, Scale, Larger;
    SpreadAccepts(l1, s1);
    SpreadAccepts(l2, s2);
    ScalePositive(l1, s1);
    ScalePositive(l2, s2);
    QuotientsOrder(SpreadRule().deviation(l1, s1).value, Scale(l1, s1), 100.0 * Off(l1, s1),
                   SpreadRule().deviation(l2, s2).value, Scale(l2, s2), 100.0 * Off(l2, s2));
  }

  // ---------------------------------------------------------------- the rules on two positions

  /** What a position is worth. */
  ghost function SizeOf(p: Position): real {
    Abs(p.quantity * p.mark)
  }

  /** The numbers of two positions fit under the spread rule. */
  ghost predicate FitsSpread(p: Position, q: Position) {
    var m, gap := Max(SizeOf(p), SizeOf(q)), Abs(SizeOf(p) - SizeOf(q));
    && m > 0.0
    && if p.entry > 0.0 && q.entry > 0.0
       then 100.0 * Misfit(gap, p.entry, q.entry, m) <= 12.0 * Weight(m, p.entry)
       else 100.0 * gap <= 12.0 * m
  }

  ghost predicate FitsNotional(p: Position, q: Position) {
    var m, gap := Max(SizeOf(p), SizeOf(q)), Abs(SizeOf(p) - SizeOf(q));
    m > 0.0 && 10.0 * gap <= m
  }

  lemma SizeRead(p: Position, i: nat)
    ensures Tag(p, i).p == p && Tag(p, i).notional == SizeOf(p)
  {
  }

  lemma SpreadFitsIff(p: Position, i: nat, q: Position, j: nat)
    ensures SpreadRule().deviation(Tag(p, i), Tag(q, j)).Some? <==> FitsSpread(p, q)
  {
    SizeRead(p, i);
    SizeRead(q, j);
    hide SpreadRule, Tag, SizeOf, Misfit, Weight;
    var l, s := Tag(p, i), Tag(q, j);
    if Larger(l, s) <= 0.0 {
      NothingAccepted(l, s);
    } else if l.p.entry > 0.0 && s.p.entry > 0.0 {
      SpreadAccepts(l, s);
    } else {
      SpreadAcceptsSizes(l, s);
    }
  }

  lemma NotionalFitsIff(p: Position, i: nat, q: Position, j: nat)
    ensures NotionalRule().deviation(Tag(p, i), Tag(q, j)).Some? <==> FitsNotional(p, q)
  {
    SizeRead(p, i);
    SizeRead(q, j);
    hide NotionalRule, Tag, SizeOf;
    var l, s := Tag(p, i), Tag(q, j);
    if Larger(l, s) <= 0.0 {
      NothingAccepted(l, s);
    } else {
      NotionalAccepts(l, s);
    }
  }

  /** Either letter of a pair, in either case. */
  ghost predicate Spells(s: string, lower: string, upper: string)
    requires |lower| == |upper|
  {
    |s| == |lower| && forall i :: 0 <= i < |s| ==> s[i] == lower[i] || s[i] == upper[i]
  }

  /** The trade page reads sides without regard to letter case, the account page as they are written. */
  lemma SidesRead(t: Tagged)
    ensures SpreadRule().isLong(t) <==> t.p.side == "buy"
    ensures SpreadRule().isShort(t) <==> t.p.side == "sell"
    ensures NotionalRule().isLong(t) <==> Spells(t.p.side, "buy", "BUY")
    ensures NotionalRule().isShort(t) <==> Spells(t.p.side, "sell", "SELL")
  {
    LowerSpells(t.p.side, "buy", "BUY");
    LowerSpells(t.p.side, "sell", "SELL");
  }

  lemma LowerSpells(s: string, lower: string, upper: string)
    requires |lower| == |upper|
    requires forall i :: 0 <= i < |lower| ==> 'a' <= lower[i] <= 'z' && 'A' <= upper[i] <= 'Z'
    requires forall i :: 0 <= i < |lower| ==> lower[i] - 'a' == upper[i] - 'A'
    ensures Lower(s) == lower <==> Spells(s, lower, upper)
  {
    var low := Lower(s);
    if |s| == |lower| {
      forall i | 0 <= i < |s|
        ensures low[i] == lower[i] <==> s[i] == lower[i] || s[i] == upper[i]
      {
        if 'A' <= s[i] <= 'Z' {
          assert low[i] == s[i] - 'A' + 'a';
        }
      }
      assert low == lower <==> forall i :: 0 <= i < |s| ==> low[i] == lower[i];
    }
  }

  /** Two open positions are candidates on the account page exactly when they are a buy and a sell of one symbol whose
      numbers fit. */
  lemma AccCandidatesIff(rows: seq<Position>, i: nat, j: nat)
    requires i < |rows| && j < |rows|
    ensures Eligible(SpreadRule(), TagAll(rows)[i], TagAll(rows)[j]) <==>
            && rows[i].symbol == rows[j].symbol && rows[i].side == "buy" && rows[j].side == "sell"
            && FitsSpread(rows[i], rows[j])
  {
    TagReads(rows[i], i);
    TagReads(rows[j], j);
    SidesRead(TagAll(rows)[i]);
    SidesRead(TagAll(rows)[j]);
    SpreadFitsIff(rows[i], i, rows[j], j);
    hide SpreadRule, FitsSpread;
  }

  lemma PtCandidatesIff(rows: seq<Position>, i: nat, j: nat)
    requires i < |rows| && j < |rows|
    ensures Eligible(NotionalRule(), TagAll(rows)[i], TagAll(rows)[j]) <==>
            && rows[i].symbol == rows[j].symbol
            && Spells(rows[i].side, "buy", "BUY") && Spells(rows[j].side, "sell", "SELL")
            && FitsNotional(rows[i], rows[j])
  {
    TagReads(rows[i], i);
    TagReads(rows[j], j);
    SidesRead(TagAll(rows)[i]);
    SidesRead(TagAll(rows)[j]);
    NotionalFitsIff(rows[i], i, rows[j], j);
    hide NotionalRule, FitsNotional, Spells;
  }

  /** What the account page shows: every automatic pair is a buy and a sell of one symbol whose numbers fit, and no two
      singles are. */
  lemma AccPairsRead(rows: seq<Position>, manual: seq<ManualPair>)
    ensures var pairs := AllPairs(SpreadRule(), TagAll(rows), manual);
            && (forall c :: c in pairs && !c.manual ==>
                  && c.long.p in rows && c.short.p in rows && c.long.p.symbol == c.short.p.symbol
                  && c.long.p.side == "buy" && c.short.p.side == "sell" && FitsSpread(c.long.p, c.short.p))
            && (forall x, y ::
                  (x in Unused(TagAll(rows), LegsOf(pairs)) && y in Unused(TagAll(rows), LegsOf(pairs))
                   && x.p.symbol == y.p.symbol && x.p.side == "buy" && y.p.side == "sell")
                  ==> !FitsSpread(x.p, y.p))
  {
    var ts, rule := TagAll(rows), SpreadRule();
    var pairs := AllPairs(rule, ts, manual);
    SourceRulesSided();
    PairsSound(rule, ts, manual);
    UnusedMembers(ts, LegsOf(pairs));
    hide SpreadRule, FitsSpread, Eligible, Sided, HandPair;
    forall c | c in pairs && !c.manual
      ensures c.long.p in rows && c.short.p in rows && c.long.p.symbol == c.short.p.symbol
      ensures c.long.p.side == "buy" && c.short.p.side == "sell" && FitsSpread(c.long.p, c.short.p)
    {
      NotByHand(ts, manual, c);
      var i :| 0 <= i < |ts| && ts[i] == c.long;
      var j :| 0 <= j < |ts| && ts[j] == c.short;
      AccCandidatesIff(rows, i, j);
      TagReads(rows[i], i);
      TagReads(rows[j], j);
    }
    forall x, y | x in Unused(ts, LegsOf(pairs)) && y in Unused(ts, LegsOf(pairs))
      && x.p.symbol == y.p.symbol && x.p.side == "buy" && y.p.side == "sell"
      ensures !FitsSpread(x.p, y.p)
    {
      var i :| 0 <= i < |ts| && ts[i] == x;
      var j :| 0 <= j < |ts| && ts[j] == y;
      TagReads(rows[i], i);
      TagReads(rows[j], j);
      AccCandidatesIff(rows, i, j);
      if Eligible(rule, x, y) { NoPairAmongSingles(rule, ts, manual, x, y); }
    }
  }

  lemma NotByHand(ts: seq<Tagged>, manual: seq<ManualPair>, c: Pair)
    requires !c.manual
    ensures !HandPair(ts, manual, c)
  {
  }

  // ---------------------------------------------------------------- order

  /** The filters of the pairing keep rows in their order. */
  lemma {:induction false} OfSymbolIsFilter(ts: seq<Tagged>, sym: string)
    ensures OfSymbol(ts, sym) == Filter(ts, (t: Tagged) => t.p.symbol == sym)
  {
    if ts != [] {
      OfSymbolIsFilter(ts[..|ts| - 1], sym);
    }
  }

  lemma {:induction false} UnusedIsFilter(ts: seq<Tagged>, used: set<string>)
    ensures Unused(ts, used) == Filter(ts, (t: Tagged) => t.key !in used)
  {
    if ts != [] {
      UnusedIsFilter(ts[..|ts| - 1], used);
    }
  }

  lemma {:induction false} SideIsFilter(rule: Rule, long: bool, group: seq<Tagged>, used: set<string>)
    ensures var keep := (t: Tagged) =>
                          (if long then rule.isLong(t) else rule.isShort(t)) && (rule.keepsUsed || t.key !in used);
            Side(rule, long, group, used) == Filter(group, keep)
  {
    if group != [] {
      SideIsFilter(rule, long, group[1..], used);
      FilterFront(group, (t: Tagged) =>
        (if long then rule.isLong(t) else rule.isShort(t)) && (rule.keepsUsed || t.key !in used));
    }
  }

  ghost predicate IsLeg(t: Tagged, exchange: string, side: string, used: set<string>) {
    t.p.exchange == exchange && t.p.side == side && t.key !in used
  }

  /** A manual decision takes the first free row on each of its venues. */
  lemma {:induction false} FindLegIsFirst(group: seq<Tagged>, exchange: string, side: string, used: set<string>)
    returns (k: nat)
    ensures k <= |group| && forall i :: 0 <= i < k ==> !IsLeg(group[i], exchange, side, used)
    ensures FindLeg(group, exchange, side, used) == if k < |group| then Some(group[k]) else None
    ensures k < |group| ==> IsLeg(group[k], exchange, side, used)
  {
    k := 0;
    if group != [] && !IsLeg(group[0], exchange, side, used) {
      var n := FindLegIsFirst(group[1..], exchange, side, used);
      k := n + 1;
      assert forall i :: 0 < i < k ==> group[i] == group[1..][i - 1];
    }
  }

  /** A row opens its symbol's group. */
  ghost predicate Opens(ts: seq<Tagged>, i: nat, sym: string) {
    i < |ts| && ts[i].p.symbol == sym && forall k :: 0 <= k < i ==> ts[k].p.symbol != sym
  }

  /** The symbols come in the order of their first rows. */
  lemma {:induction false} SymbolsByFirstRow(ts: seq<Tagged>) returns (firsts: seq<nat>)
    ensures |firsts| == |Symbols(ts)| && Rising(firsts)
    ensures forall a :: 0 <= a < |firsts| ==> Opens(ts, firsts[a], Symbols(ts)[a])
  {
    firsts := [];
    if ts != [] {
      var front, sym := ts[..|ts| - 1], ts[|ts| - 1].p.symbol;
      var fs := SymbolsByFirstRow(front);
      SymbolsDistinct(front);
      hide Opens;
      OpensKept(front, ts[|ts| - 1]);
      assert ts == front + [ts[|ts| - 1]];
      if sym in Symbols(front) {
        firsts := fs;
      } else {
        OpensNew(front, ts[|ts| - 1]);
        firsts := fs + [|front|];
      }
    }
  }

  lemma OpensKept(front: seq<Tagged>, t: Tagged)
    ensures forall i: nat, x: string :: Opens(front, i, x) ==> i < |front| && Opens(front + [t], i, x)
  {
  }

  lemma OpensNew(front: seq<Tagged>, t: Tagged)
    requires forall x :: x in front ==> x.p.symbol != t.p.symbol
    ensures Opens(front + [t], |front|, t.p.symbol)
  {
  }

  /** Candidates come long by long and, for each, short by short. */
  lemma {:induction false} AgainstConcat(rule: Rule, l: Tagged, a: seq<Tagged>, b: seq<Tagged>)
    ensures Against(rule, l, a + b) == Against(rule, l, a) + Against(rule, l, b)
  {
    if b == [] {
      assert a + b == a;
    } else {
      assert (a + b)[..|a + b| - 1] == a + b[..|b| - 1];
      AgainstConcat(rule, l, a, b[..|b| - 1]);
    }
  }

  lemma {:induction false} CandidatesConcat(rule: Rule, a: seq<Tagged>, b: seq<Tagged>, shorts: seq<Tagged>)
    ensures Candidates(rule, a + b, shorts) == Candidates(rule, a, shorts) + Candidates(rule, b, shorts)
  {
    if b == [] {
      assert a + b == a;
    } else {
      assert (a + b)[..|a + b| - 1] == a + b[..|b| - 1];
      CandidatesConcat(rule, a, b[..|b| - 1], shorts);
    }
  }

  /** The next candidate is taken exactly when none of those taken before it, and nothing used, shares a key with it;
      so of two that deviate alike and share a key the earlier one is taken. */
  lemma {:induction false} GreedyTakesIff(cands: seq<Pair>, c: Pair, used: set<string>)
    ensures Greedy(cands + [c], used) ==
            Greedy(cands, used) + if Legs(c) * (used + LegsOf(Greedy(cands, used))) == {} then [c] else []
  {
    hide Legs;
    if cands == [] {
      assert [c][1..] == [] && used + {} == used;
    } else {
      assert (cands + [c])[1..] == cands[1..] + [c] && (cands + [c])[0] == cands[0];
      if Legs(cands[0]) * used != {} {
        GreedyTakesIff(cands[1..], c, used);
      } else {
        var more := used + Legs(cands[0]);
        GreedyTakesIff(cands[1..], c, more);
        LegsConcat([cands[0]], Greedy(cands[1..], more));
        LegsOfOne(cands[0]);
        assert used + LegsOf(Greedy(cands, used)) == more + LegsOf(Greedy(cands[1..], more));
      }
    }
  }

  lemma LegsOfOne(c: Pair)
    ensures LegsOf([c]) == Legs(c)
  {
    assert [c][..0] == [];
  }
}
