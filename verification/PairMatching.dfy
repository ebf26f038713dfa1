/** Grouping of open positions into long/short pairs: the user's own pairs first, then a greedy match by how
      closely the two notionals agree with the entry spread, then leftovers. */
module PairMatching {
  import opened JsMap
  import opened JsSort
  import opened Options
  import opened Text

  datatype Position = Position(
    id: string, exchange: string, symbol: string, side: string, quantity: real, mark: real, entry: real)

  /** A position with its row key and its notional value. */
  datatype Tagged = Tagged(p: Position, key: string, notional: real)

  datatype ManualPair = ManualPair(symbol: string, longExchange: string, shortExchange: string)

  datatype Pair = Pair(long: Tagged, short: Tagged, deviation: real, manual: bool)

  /** A rule for automatic pairs: which rows are longs and shorts, how far two of them are from being the legs of one
      trade (none when too far), and whether rows already taken stay among the candidates' rows. */
  datatype Rule = Rule(
    isLong: Tagged -> bool, isShort: Tagged -> bool, deviation: (Tagged, Tagged) -> Option<real>, keepsUsed: bool)

  function Abs(x: real): real {
    if x < 0.0 then -x else x
  }

  function Max(x: real, y: real): real {
    if x < y then y else x
  }

  function Lower(s: string): string {
    seq(|s|, i requires 0 <= i < |s| => if 'A' <= s[i] <= 'Z' then s[i] - 'A' + 'a' else s[i])
  }

  function Tag(p: Position, i: nat): Tagged {
    Tagged(p,
           if p.id != "" then p.id else p.exchange + ":" + p.symbol + ":" + Decimal(i),
           Abs(p.quantity * p.mark))
  }

  function TagAll(rows: seq<Position>): (r: seq<Tagged>)
    ensures |r| == |rows| && forall i :: 0 <= i < |r| ==> r[i] == Tag(rows[i], i)
  {
    seq(|rows|, i requires 0 <= i < |rows| => Tag(rows[i], i))
  }

  ghost predicate DistinctKeys(ts: seq<Tagged>) {
    forall i, j :: 0 <= i < j < |ts| ==> ts[i].key != ts[j].key
  }

  /** Difference of two notionals relative to the larger; none when neither is positive. */
  function RelativeDiff(l: Tagged, s: Tagged): Option<real> {
    var maxN := Max(l.notional, s.notional);
    if maxN <= 0.0 then None else Some(Abs(l.notional - s.notional) / maxN)
  }

  /** How far the notionals differ from what the spread of the entry prices explains, at most 12 points. */
  function SpreadDeviation(l: Tagged, s: Tagged): Option<real> {
    match RelativeDiff(l, s)
    case None => None
    case Some(diff) =>
      var spreadPct := if l.p.entry > 0.0 && s.p.entry > 0.0
                       then Abs((s.p.entry - l.p.entry) / l.p.entry) * 100.0 else 0.0;
      var deviation := Abs(diff * 100.0 - spreadPct);
      if deviation > 12.0 then None else Some(deviation)
  }

  /** How far the notionals differ, at most 10 %. */
  function NotionalDeviation(l: Tagged, s: Tagged): Option<real> {
    match RelativeDiff(l, s)
    case None => None
    case Some(diff) => if diff > 0.10 then None else Some(diff)
  }

  /** The account page's rule; it runs after manual pairs and skips their legs. */
  function SpreadRule(): Rule {
    Rule((t: Tagged) => t.p.side == "buy", (t: Tagged) => t.p.side == "sell",
         (l: Tagged, s: Tagged) => SpreadDeviation(l, s), false)
  }

  /** The trade page's rule; sides are compared without regard to letter case. */
  function NotionalRule(): Rule {
    Rule((t: Tagged) => Lower(t.p.side) == "buy", (t: Tagged) => Lower(t.p.side) == "sell",
         (l: Tagged, s: Tagged) => NotionalDeviation(l, s), true)
  }

  /** A long and a short of one symbol, whatever their sizes and prices. */
  predicate Opposite(rule: Rule, l: Tagged, s: Tagged) {
    l.p.symbol == s.p.symbol && rule.isLong(l) && rule.isShort(s)
  }

  /** Two positions that the rule would accept as a pair. */
  predicate Eligible(rule: Rule, l: Tagged, s: Tagged) {
    Opposite(rule, l, s) && rule.deviation(l, s).Some?
  }

  // ---------------------------------------------------------------- what the code computes

  function OfSymbol(ts: seq<Tagged>, sym: string): seq<Tagged> {
    if ts == [] then []
    else OfSymbol(ts[..|ts| - 1], sym) + if ts[|ts| - 1].p.symbol == sym then [ts[|ts| - 1]] else []
  }

  /** The symbols in order of first appearance. */
  function Symbols(ts: seq<Tagged>): seq<string> {
    if ts == [] then []
    else
      var front := Symbols(ts[..|ts| - 1]);
      if ts[|ts| - 1].p.symbol in front then front else front + [ts[|ts| - 1].p.symbol]
  }

  /** One side of a group. */
  function Side(rule: Rule, long: bool, group: seq<Tagged>, used: set<string>): seq<Tagged> {
    if group == [] then []
    else
      var t := group[0];
      (if (if long then rule.isLong(t) else rule.isShort(t)) && (rule.keepsUsed || t.key !in used) then [t] else [])
      + Side(rule, long, group[1..], used)
  }

  function Against(rule: Rule, l: Tagged, shorts: seq<Tagged>): seq<Pair> {
    if shorts == [] then []
    else
      Against(rule, l, shorts[..|shorts| - 1]) +
      var s := shorts[|shorts| - 1];
      match rule.deviation(l, s)
      case Some(d) => [Pair(l, s, d, false)]
      case None => []
  }

  function Candidates(rule: Rule, longs: seq<Tagged>, shorts: seq<Tagged>): seq<Pair> {
    if longs == [] then []
    else Candidates(rule, longs[..|longs| - 1], shorts) + Against(rule, longs[|longs| - 1], shorts)
  }

  function Legs(c: Pair): set<string> {
    {c.long.key, c.short.key}
  }

  function LegsOf(cs: seq<Pair>): set<string> {
    if cs == [] then {} else LegsOf(cs[..|cs| - 1]) + Legs(cs[|cs| - 1])
  }

  /** Takes every candidate whose legs are both still free, best first. */
  function Greedy(cands: seq<Pair>, used: set<string>): seq<Pair> {
    if cands == [] then []
    else if Legs(cands[0]) * used != {} then Greedy(cands[1..], used)
    else [cands[0]] + Greedy(cands[1..], used + Legs(cands[0]))
  }

  function GroupPairs(rule: Rule, group: seq<Tagged>, used: set<string>): seq<Pair> {
    var cands := Candidates(rule, Side(rule, true, group, used), Side(rule, false, group, used));
    Greedy(Sort(cands, (c: Pair) => c.deviation), used)
  }

  function AutoPairs(rule: Rule, ts: seq<Tagged>, syms: seq<string>, used: set<string>): seq<Pair> {
    if syms == [] then []
    else
      var chosen := GroupPairs(rule, OfSymbol(ts, syms[0]), used);
      chosen + AutoPairs(rule, ts, syms[1..], used + LegsOf(chosen))
  }

  /** The first free row of a group on an exchange and a side. */
  function FindLeg(group: seq<Tagged>, exchange: string, side: string, used: set<string>): (r: Option<Tagged>)
    ensures r.Some? ==>
              r.value in group && r.value.p.exchange == exchange && r.value.p.side == side && r.value.key !in used
    ensures r.None? ==> forall t :: t in group ==> t.p.exchange != exchange || t.p.side != side || t.key in used
  {
    if group == [] then None
    else if group[0].p.exchange == exchange && group[0].p.side == side && group[0].key !in used then Some(group[0])
    else FindLeg(group[1..], exchange, side, used)
  }

  function ManualPairs(manual: seq<ManualPair>, ts: seq<Tagged>): seq<Pair> {
    if manual == [] then []
    else
      var front := ManualPairs(manual[..|manual| - 1], ts);
      front + ManualMatch(manual[|manual| - 1], ts, LegsOf(front))
  }

  /** The pair a manual decision picks out, if both of its legs are free. */
  function ManualMatch(mp: ManualPair, ts: seq<Tagged>, used: set<string>): seq<Pair> {
    var group := OfSymbol(ts, mp.symbol);
    var l := FindLeg(group, mp.longExchange, "buy", used);
    var s := FindLeg(group, mp.shortExchange, "sell", used);
    if l.Some? && s.Some? then [Pair(l.value, s.value, 0.0, true)] else []
  }

  function AllPairs(rule: Rule, ts: seq<Tagged>, manual: seq<ManualPair>): seq<Pair> {
    var byHand := ManualPairs(manual, ts);
    byHand + AutoPairs(rule, ts, Symbols(ts), LegsOf(byHand))
  }

  function Unused(ts: seq<Tagged>, used: set<string>): seq<Tagged> {
    if ts == [] then [] else Unused(ts[..|ts| - 1], used) + if ts[|ts| - 1].key in used then [] else [ts[|ts| - 1]]
  }

  // ---------------------------------------------------------------- the loops

  /** Pairing on the account page: manual pairs, then the spread rule. */
  method AccPairPositions(rows: seq<Position>, manual: seq<ManualPair>) returns (pairs: seq<Pair>, singles: seq<Tagged>)
    ensures pairs == AllPairs(SpreadRule(), TagAll(rows), manual)
    ensures singles == Unused(TagAll(rows), LegsOf(pairs))
  {
    var tagged := TagAll(rows);
    var bySym := GroupBySymbol(tagged);
    var used;
    pairs, used := PairByHand(manual, tagged, bySym);
    pairs, used := PairAutomatically(SpreadRule(), tagged, bySym, pairs, used);
    singles := CollectUnused(tagged, used);
  }

  /** Pairing on the trade page: the notional rule alone. */
  method PtPairPositions(rows: seq<Position>) returns (pairs: seq<Pair>, singles: seq<Tagged>)
    ensures pairs == AllPairs(NotionalRule(), TagAll(rows), [])
    ensures singles == Unused(TagAll(rows), LegsOf(pairs))
  {
    var tagged := TagAll(rows);
    var bySym := GroupBySymbol(tagged);
    var used;
    pairs, used := PairAutomatically(NotionalRule(), tagged, bySym, [], {});
    singles := CollectUnused(tagged, used);
  }

  ghost predicate Grouped(bySym: Entries<string, seq<Tagged>>, ts: seq<Tagged>) {
    && Keys(bySym) == Symbols(ts)
    && forall i :: 0 <= i < |bySym| ==> bySym[i].1 == OfSymbol(ts, bySym[i].0)
  }

  method GroupBySymbol(tagged: seq<Tagged>) returns (bySym: Entries<string, seq<Tagged>>)
    ensures Grouped(bySym, tagged)
  {
    assert Grouped([], []);
    hide Grouped;
    bySym := [];
    var i := 0;
    assert tagged[..0] == [];
    while i < |tagged|
      invariant 0 <= i <= |tagged|
      invariant Grouped(bySym, tagged[..i])
    {
      var t := tagged[i];
      assert tagged[..i + 1][..i] == tagged[..i];
      GroupStep(bySym, tagged[..i], t);
      assert tagged[..i + 1] == tagged[..i] + [t];
      var group := if Has(bySym, t.p.symbol) then Get(bySym, t.p.symbol) else [];
      bySym := Set(bySym, t.p.symbol, group + [t]);
      i := i + 1;
    }
    assert tagged[..i] == tagged;
  }

  lemma GroupStep(bySym: Entries<string, seq<Tagged>>, ts: seq<Tagged>, t: Tagged)
    requires Grouped(bySym, ts)
    ensures var group := if Has(bySym, t.p.symbol) then Get(bySym, t.p.symbol) else [];
            Grouped(Set(bySym, t.p.symbol, group + [t]), ts + [t])
  {
    var all, sym := ts + [t], t.p.symbol;
    assert all[..|all| - 1] == ts;
    SymbolsDistinct(ts);
    HasIffKey(bySym, sym);
    if Has(bySym, sym) {
      assert Keys(Set(bySym, sym, OfSymbol(all, sym))) == Keys(bySym);
    } else {
      SymbolsCover(ts, sym);
      assert OfSymbol(all, sym) == [] + [t];
      assert Keys(bySym + [(sym, [] + [t])]) == Keys(bySym) + [sym];
    }
  }

  lemma {:induction false} SymbolsDistinct(ts: seq<Tagged>)
    ensures forall i, j :: 0 <= i < j < |Symbols(ts)| ==> Symbols(ts)[i] != Symbols(ts)[j]
    ensures forall t :: t in ts ==> t.p.symbol in Symbols(ts)
  {
    if ts != [] {
      SymbolsDistinct(ts[..|ts| - 1]);
      assert ts == ts[..|ts| - 1] + [ts[|ts| - 1]];
    }
  }

  lemma {:induction false} SymbolsCover(ts: seq<Tagged>, sym: string)
    requires sym !in Symbols(ts)
    ensures OfSymbol(ts, sym) == []
  {
    if ts != [] {
      var front := Symbols(ts[..|ts| - 1]);
      assert ts[|ts| - 1].p.symbol in Symbols(ts);
      SymbolsCover(ts[..|ts| - 1], sym);
    }
  }

  lemma GroupLookup(bySym: Entries<string, seq<Tagged>>, ts: seq<Tagged>, sym: string)
    requires Grouped(bySym, ts)
    ensures Has(bySym, sym) ==> Get(bySym, sym) == OfSymbol(ts, sym)
    ensures !Has(bySym, sym) ==> OfSymbol(ts, sym) == []
  {
    HasIffKey(bySym, sym);
    if !Has(bySym, sym) { SymbolsCover(ts, sym); }
  }

  method PairByHand(manual: seq<ManualPair>, ghost ts: seq<Tagged>, bySym: Entries<string, seq<Tagged>>)
    returns (pairs: seq<Pair>, used: set<string>)
    requires Grouped(bySym, ts)
    ensures pairs == ManualPairs(manual, ts) && used == LegsOf(pairs)
  {
    pairs, used := [], {};
    var i := 0;
    while i < |manual|
      invariant 0 <= i <= |manual|
      invariant pairs == ManualPairs(manual[..i], ts) && used == LegsOf(pairs)
    {
      hide ManualMatch, Grouped;
      assert manual[..i + 1][..i] == manual[..i];
      var more;
      more, used := MatchByHand(manual[i], ts, bySym, used);
      LegsConcat(pairs, more);
      pairs := pairs + more;
      i := i + 1;
    }
    assert manual[..i] == manual;
  }

  /** One manual decision. */
  method MatchByHand(mp: ManualPair, ghost ts: seq<Tagged>, bySym: Entries<string, seq<Tagged>>, used0: set<string>)
    returns (more: seq<Pair>, used: set<string>)
    requires Grouped(bySym, ts)
    ensures more == ManualMatch(mp, ts, used0) && used == used0 + LegsOf(more)
  {
    GroupLookup(bySym, ts, mp.symbol);
    hide Grouped;
    more, used := [], used0;
    if Has(bySym, mp.symbol) {
      var group := Get(bySym, mp.symbol);
      var l := FindLeg(group, mp.longExchange, "buy", used);
      var s := FindLeg(group, mp.shortExchange, "sell", used);
      if l.Some? && s.Some? {
        used := used + {l.value.key} + {s.value.key};
        more := [Pair(l.value, s.value, 0.0, true)];
        assert more[..0] == [];
      }
    }
  }

  method PairAutomatically(rule: Rule, ghost ts: seq<Tagged>, bySym: Entries<string, seq<Tagged>>,
                           pairs0: seq<Pair>, used0: set<string>)
    returns (pairs: seq<Pair>, used: set<string>)
    requires Grouped(bySym, ts) && used0 == LegsOf(pairs0)
    ensures pairs == pairs0 + AutoPairs(rule, ts, Symbols(ts), used0) && used == LegsOf(pairs)
  {
    ghost var syms := Symbols(ts);
    pairs, used := pairs0, used0;
    var i := 0;
    assert syms[0..] == syms;
    while i < |bySym|
      invariant 0 <= i <= |bySym|
      invariant used == LegsOf(pairs)
      invariant pairs + AutoPairs(rule, ts, syms[i..], used) == pairs0 + AutoPairs(rule, ts, syms, used0)
    {
      hide GroupPairs;
      assert bySym[i].0 == Keys(bySym)[i];
      AutoStep(rule, ts, syms, i, pairs, used);
      var chosen;
      chosen, used := PairGroup(rule, bySym[i].1, used);
      LegsConcat(pairs, chosen);
      pairs := pairs + chosen;
      i := i + 1;
    }
    assert syms[i..] == [];
    assert pairs + [] == pairs;
  }

  method PairGroup(rule: Rule, group: seq<Tagged>, used0: set<string>) returns (chosen: seq<Pair>, used: set<string>)
    ensures chosen == GroupPairs(rule, group, used0) && used == used0 + LegsOf(chosen)
  {
    var cands := CollectCandidates(rule, group, used0);
    var sorted := Sort(cands, (c: Pair) => c.deviation);
    chosen, used := PickGreedily(sorted, used0);
  }

  lemma AutoStep(rule: Rule, ts: seq<Tagged>, syms: seq<string>, i: nat, pairs: seq<Pair>, used: set<string>)
    requires i < |syms|
    ensures var chosen := GroupPairs(rule, OfSymbol(ts, syms[i]), used);
            pairs + AutoPairs(rule, ts, syms[i..], used) ==
            (pairs + chosen) + AutoPairs(rule, ts, syms[i + 1..], used + LegsOf(chosen))
  {
    hide GroupPairs;
    assert syms[i..][1..] == syms[i + 1..];
    var chosen := GroupPairs(rule, OfSymbol(ts, syms[i]), used);
    var rest := AutoPairs(rule, ts, syms[i + 1..], used + LegsOf(chosen));
    assert pairs + (chosen + rest) == (pairs + chosen) + rest;
  }

  lemma {:induction false} LegsConcat(a: seq<Pair>, b: seq<Pair>)
    ensures LegsOf(a + b) == LegsOf(a) + LegsOf(b)
  {
    if b == [] {
      assert a + b == a;
    } else {
      LegsConcat(a, b[..|b| - 1]);
      assert (a + b)[..|a + b| - 1] == a + b[..|b| - 1];
    }
  }

  method CollectCandidates(rule: Rule, group: seq<Tagged>, used: set<string>) returns (cands: seq<Pair>)
    ensures cands == Candidates(rule, Side(rule, true, group, used), Side(rule, false, group, used))
  {
    hide Side, Against;
    var longs, shorts := Side(rule, true, group, used), Side(rule, false, group, used);
    cands := [];
    var i := 0;
    while i < |longs|
      invariant 0 <= i <= |longs|
      invariant cands == Candidates(rule, longs[..i], shorts)
    {
      assert longs[..i + 1][..i] == longs[..i];
      var more := CollectAgainst(rule, longs[i], shorts);
      cands := cands + more;
      i := i + 1;
    }
    assert longs[..i] == longs;
  }

  method CollectAgainst(rule: Rule, l: Tagged, shorts: seq<Tagged>) returns (cands: seq<Pair>)
    ensures cands == Against(rule, l, shorts)
  {
    cands := [];
    var j := 0;
    while j < |shorts|
      invariant 0 <= j <= |shorts|
      invariant cands == Against(rule, l, shorts[..j])
    {
      assert shorts[..j + 1][..j] == shorts[..j];
      match rule.deviation(l, shorts[j]) {
        case Some(d) => cands := cands + [Pair(l, shorts[j], d, false)];
        case None => assert cands + [] == cands;
      }
      j := j + 1;
    }
    assert shorts[..j] == shorts;
  }

  method PickGreedily(cands: seq<Pair>, used0: set<string>) returns (chosen: seq<Pair>, used: set<string>)
    ensures chosen == Greedy(cands, used0) && used == used0 + LegsOf(chosen)
  {
    chosen, used := [], used0;
    var i := 0;
    assert cands[0..] == cands;
    while i < |cands|
      invariant 0 <= i <= |cands|
      invariant used == used0 + LegsOf(chosen)
      invariant chosen + Greedy(cands[i..], used) == Greedy(cands, used0)
    {
      var c := cands[i];
      assert cands[i..][1..] == cands[i + 1..];
      if c.long.key !in used && c.short.key !in used {
        ghost var rest := Greedy(cands[i + 1..], used + Legs(c));
        assert chosen + ([c] + rest) == (chosen + [c]) + rest;
        used := used + Legs(c);
        assert (chosen + [c])[..|chosen|] == chosen;
        chosen := chosen + [c];
      } else {
        assert (if c.long.key in used then c.long.key else c.short.key) in Legs(c) * used;
      }
      i := i + 1;
    }
    assert cands[i..] == [];
    assert chosen + [] == chosen;
  }

  method CollectUnused(tagged: seq<Tagged>, used: set<string>) returns (singles: seq<Tagged>)
    ensures singles == Unused(tagged, used)
  {
    singles := [];
    var i := 0;
    while i < |tagged|
      invariant 0 <= i <= |tagged|
      invariant singles == Unused(tagged[..i], used)
    {
      assert tagged[..i + 1][..i] == tagged[..i];
      if tagged[i].key !in used { singles := singles + [tagged[i]]; }
      i := i + 1;
    }
    assert tagged[..i] == tagged;
  }
}
