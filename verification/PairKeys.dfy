/** Exactly which row keys the pairing needs, whatever the sizes, prices and manual decisions. */
module PairKeys {
  import opened Options
  import opened PairConservation
  import opened PairLaws
  import opened PairMatching
  import opened RealOrder

  /** The two rules of the source. */
  ghost predicate SourceRule(rule: Rule) {
    rule == SpreadRule() || rule == NotionalRule()
  }

  /** The same positions at other sizes and prices. */
  ghost predicate SameShape(rows: seq<Position>, other: seq<Position>) {
    && |rows| == |other|
    && forall i :: 0 <= i < |rows| ==> Resized(rows[i], other[i])
  }

  ghost predicate Resized(p: Position, q: Position) {
    p.id == q.id && p.exchange == q.exchange && p.symbol == q.symbol && p.side == q.side
  }

  /** Keys, symbols and sides do not depend on sizes and prices. */
  lemma ShapeKept(rule: Rule, rows: seq<Position>, other: seq<Position>)
    requires SourceRule(rule) && SameShape(rows, other)
    ensures var ts, us := TagAll(rows), TagAll(other);
            && |ts| == |us|
            && (forall i :: 0 <= i < |ts| ==> us[i].key == ts[i].key && us[i].p.symbol == ts[i].p.symbol)
            && (forall i, j :: 0 <= i < |ts| && 0 <= j < |ts| ==>
                  (Opposite(rule, us[i], us[j]) <==> Opposite(rule, ts[i], ts[j])))
  {
    assert forall i :: 0 <= i < |rows| ==> Resized(rows[i], other[i]);
  }

  /** The positions at a unit mark price with no entry price, of chosen notionals. */
  function Sized(rows: seq<Position>, size: nat -> real): (r: seq<Position>)
    ensures SameShape(rows, r)
    ensures forall i :: 0 <= i < |r| && size(i) >= 0.0 ==> TagAll(r)[i].notional == size(i) && r[i].entry == 0.0
  {
    seq(|rows|, i requires 0 <= i < |rows| => rows[i].(quantity := size(i), mark := 1.0, entry := 0.0))
  }

  // ---------------------------------------------------------------- what the rules say of chosen notionals

  lemma EqualSizes(rule: Rule, l: Tagged, s: Tagged)
    requires SourceRule(rule) && l.p.entry == 0.0 && l.notional == s.notional > 0.0
    ensures rule.deviation(l, s) == Some(0.0)
  {
    assert 0.0 / l.notional == 0.0;
    assert RelativeDiff(l, s) == Some(0.0);
  }

  lemma WholeRatio(m: real)
    requires m > 0.0
    ensures m / m == 1.0
  {
    var q := m / m;
    assert q * m == m;
    SameFactor(q, 1.0, m);
  }

  lemma NoSize(rule: Rule, l: Tagged, s: Tagged)
    requires SourceRule(rule) && l.p.entry == 0.0 && l.notional >= 0.0 && s.notional >= 0.0
    requires l.notional == 0.0 || s.notional == 0.0
    ensures rule.deviation(l, s) == None
  {
    var m := Max(l.notional, s.notional);
    if m > 0.0 {
      WholeRatio(m);
      assert RelativeDiff(l, s) == Some(m / m);
    }
  }

  /** Sizes 100 and 95 are close enough, but not equal. */
  lemma NearSizes(rule: Rule, l: Tagged, s: Tagged)
    requires SourceRule(rule) && l.p.entry == 0.0 && l.notional == 100.0 && s.notional == 95.0
    ensures rule.deviation(l, s).Some? && rule.deviation(l, s).value > 0.0
  {
    assert RelativeDiff(l, s) == Some(0.05);
  }

  // ---------------------------------------------------------------- conservation

  /** Pairing keeps every row, at all sizes and prices and for all manual decisions, if and only if no third row
      has the key of a long or a short of one symbol. */
  lemma ConservesIff(rule: Rule, rows: seq<Position>)
    requires SourceRule(rule)
    ensures (forall other, manual :: SameShape(rows, other) ==> Conserves(rule, TagAll(other), manual))
       <==> NoThirdRow(rule, TagAll(rows))
  {
    hide Conserves, NoThirdRow, SameShape;
    SourceRulesSided();
    if NoThirdRow(rule, TagAll(rows)) {
      forall other, manual | SameShape(rows, other)
        ensures Conserves(rule, TagAll(other), manual)
      {
        NoThirdRowKept(rule, rows, other);
        EveryRowOnce(rule, TagAll(other), manual);
      }
    } else {
      var i, j, k := ThirdRow(rule, TagAll(rows));
      var other := LosingSizes(rule, rows, i, j, k);
      assert SameShape(rows, other) && !Conserves(rule, TagAll(other), []);
    }
  }

  lemma NoThirdRowKept(rule: Rule, rows: seq<Position>, other: seq<Position>)
    requires SourceRule(rule) && SameShape(rows, other) && NoThirdRow(rule, TagAll(rows))
    ensures NoThirdRow(rule, TagAll(other))
  {
    hide SourceRule, SameShape, Opposite;
    ShapeKept(rule, rows, other);
  }

  lemma ThirdRow(rule: Rule, ts: seq<Tagged>) returns (i: nat, j: nat, k: nat)
    requires !NoThirdRow(rule, ts)
    ensures i < |ts| && j < |ts| && k < |ts| && k != i && k != j
    ensures Opposite(rule, ts[i], ts[j]) && (ts[k].key == ts[i].key || ts[k].key == ts[j].key)
  {
    hide Opposite;
    i, j, k :| 0 <= i < |ts| && 0 <= j < |ts| && 0 <= k < |ts| && k != i && k != j && Opposite(rule, ts[i], ts[j])
      && (ts[k].key == ts[i].key || ts[k].key == ts[j].key);
  }

  /** Give the long and the short the same size and every other row none. */
  lemma LosingSizes(rule: Rule, rows: seq<Position>, i: nat, j: nat, k: nat) returns (other: seq<Position>)
    requires SourceRule(rule) && i < |rows| && j < |rows| && k < |rows| && k != i && k != j
    requires var ts := TagAll(rows);
             Opposite(rule, ts[i], ts[j]) && (ts[k].key == ts[i].key || ts[k].key == ts[j].key)
    ensures SameShape(rows, other) && !Conserves(rule, TagAll(other), [])
  {
    other := Sized(rows, n => if n == i || n == j then 1.0 else 0.0);
    var us := TagAll(other);
    ShapeKept(rule, rows, other);
    EqualSizes(rule, us[i], us[j]);
    forall l, s | l in us && s in us && Eligible(rule, l, s)
      ensures l == us[i] && s == us[j]
    {
      SizedPair(rule, us, i, j, l, s);
    }
    assert us[i] in us && us[j] in us && us[k] in us;
    ThirdRowLost(rule, us, us[i], us[j], us[k]);
  }

  lemma SizedPair(rule: Rule, us: seq<Tagged>, i: nat, j: nat, l: Tagged, s: Tagged)
    requires SourceRule(rule) && i < |us| && j < |us| && l in us && s in us && Eligible(rule, l, s)
    requires Opposite(rule, us[i], us[j])
    requires forall n :: 0 <= n < |us| ==>
               us[n].p.entry == 0.0 && us[n].notional == if n == i || n == j then 1.0 else 0.0
    ensures l == us[i] && s == us[j]
  {
    SourceRulesSided();
    if l.notional == 0.0 || s.notional == 0.0 { NoSize(rule, l, s); }
  }

  // ---------------------------------------------------------------- blocking pairs

  /** No pair blocks, at all sizes and prices and for all manual decisions, if and only if longs and shorts of
      different symbols share no key. */
  lemma NoBlockingIff(rule: Rule, rows: seq<Position>)
    requires SourceRule(rule)
    ensures (forall other, manual :: SameShape(rows, other) ==> NoBlocking(rule, TagAll(other), manual))
       <==> SymbolsApart(rule, TagAll(rows))
  {
    hide NoBlocking, SymbolsApart, SameShape;
    if SymbolsApart(rule, TagAll(rows)) {
      forall other, manual | SameShape(rows, other)
        ensures NoBlocking(rule, TagAll(other), manual)
      {
        SymbolsApartKept(rule, rows, other);
        NoBlockingPair(rule, TagAll(other), manual);
      }
    } else {
      var i, j, m, n := SharedKey(rule, TagAll(rows));
      var other := BlockingSizes(rule, rows, i, j, m, n);
      assert SameShape(rows, other) && !NoBlocking(rule, TagAll(other), []);
    }
  }

  lemma SymbolsApartKept(rule: Rule, rows: seq<Position>, other: seq<Position>)
    requires SourceRule(rule) && SameShape(rows, other) && SymbolsApart(rule, TagAll(rows))
    ensures SymbolsApart(rule, TagAll(other))
  {
    hide SourceRule, SameShape, SymbolsApart, Opposite;
    ShapeKept(rule, rows, other);
    if !SymbolsApart(rule, TagAll(other)) {
      var i, j, m, n := SharedKey(rule, TagAll(other));
      ApartAt(rule, TagAll(rows), i, j, m, n);
    }
  }

  lemma ApartAt(rule: Rule, ts: seq<Tagged>, i: nat, j: nat, m: nat, n: nat)
    requires SymbolsApart(rule, ts) && i < |ts| && j < |ts| && m < |ts| && n < |ts|
    ensures Apart(rule, ts[i], ts[j], ts[m], ts[n])
  {
  }

  lemma SharedKey(rule: Rule, ts: seq<Tagged>) returns (i: nat, j: nat, m: nat, n: nat)
    requires !SymbolsApart(rule, ts)
    ensures i < |ts| && j < |ts| && m < |ts| && n < |ts|
    ensures Opposite(rule, ts[i], ts[j]) && Opposite(rule, ts[m], ts[n]) && ts[i].p.symbol != ts[m].p.symbol
    ensures !({ts[i].key, ts[j].key} !! {ts[m].key, ts[n].key})
  {
    hide Opposite;
    var x, y, l, s :| x in ts && y in ts && l in ts && s in ts && !Apart(rule, x, y, l, s);
    i :| 0 <= i < |ts| && ts[i] == x;
    j :| 0 <= j < |ts| && ts[j] == y;
    m :| 0 <= m < |ts| && ts[m] == l;
    n :| 0 <= n < |ts| && ts[n] == s;
  }

  /** Give the pair of the symbol that comes first slightly different sizes, the other pair equal ones. */
  lemma BlockingSizes(rule: Rule, rows: seq<Position>, i: nat, j: nat, m: nat, n: nat) returns (other: seq<Position>)
    requires SourceRule(rule) && i < |rows| && j < |rows| && m < |rows| && n < |rows|
    requires var ts := TagAll(rows);
             && Opposite(rule, ts[i], ts[j]) && Opposite(rule, ts[m], ts[n]) && ts[i].p.symbol != ts[m].p.symbol
             && !({ts[i].key, ts[j].key} !! {ts[m].key, ts[n].key})
    ensures SameShape(rows, other) && !NoBlocking(rule, TagAll(other), [])
  {
    hide Opposite, SourceRule, NoBlocking;
    var ts := TagAll(rows);
    var syms := Symbols(ts);
    SymbolsDistinct(ts);
    assert ts[i] in ts && ts[m] in ts;
    var p :| 0 <= p < |syms| && syms[p] == ts[i].p.symbol;
    var q :| 0 <= q < |syms| && syms[q] == ts[m].p.symbol;
    if p < q {
      other := UnevenFirst(rule, rows, i, j, m, n, p);
    } else {
      other := UnevenFirst(rule, rows, m, n, i, j, q);
    }
  }

  lemma UnevenFirst(rule: Rule, rows: seq<Position>, i: nat, j: nat, m: nat, n: nat, p: nat)
    returns (other: seq<Position>)
    requires SourceRule(rule) && i < |rows| && j < |rows| && m < |rows| && n < |rows|
    requires var ts := TagAll(rows);
             && Opposite(rule, ts[i], ts[j]) && Opposite(rule, ts[m], ts[n])
             && !({ts[i].key, ts[j].key} !! {ts[m].key, ts[n].key}) && Comes(ts, p, ts[i], ts[m])
    ensures SameShape(rows, other) && !NoBlocking(rule, TagAll(other), [])
  {
    other := Sized(rows, k => if k == j then 95.0 else if k == i || k == m || k == n then 100.0 else 0.0);
    hide SourceRule, SameShape, Opposite, NoBlocking, Comes;
    var us := TagAll(other);
    ShapeKept(rule, rows, other);
    ComesKept(rule, rows, other, p, i, m);
    SizedSides(rule, us, i, j, m, n);
    UnevenSizes(rule, us, i, j, m, n, p);
  }

  lemma ComesKept(rule: Rule, rows: seq<Position>, other: seq<Position>, p: nat, i: nat, m: nat)
    requires SourceRule(rule) && SameShape(rows, other) && i < |rows| && m < |rows|
    ensures Comes(TagAll(rows), p, TagAll(rows)[i], TagAll(rows)[m]) ==>
              Comes(TagAll(other), p, TagAll(other)[i], TagAll(other)[m])
  {
    ShapeKept(rule, rows, other);
    SymbolsKept(TagAll(rows), TagAll(other));
  }

  /** Sizes 100 and 95 for one pair, 100 twice for the other, none elsewhere. */
  ghost predicate Uneven(us: seq<Tagged>, i: nat, j: nat, m: nat, n: nat) {
    forall k :: 0 <= k < |us| ==>
      && us[k].p.entry == 0.0
      && us[k].notional == if k == j then 95.0 else if k == i || k == m || k == n then 100.0 else 0.0
  }

  lemma UnevenSizes(rule: Rule, us: seq<Tagged>, i: nat, j: nat, m: nat, n: nat, p: nat)
    requires SourceRule(rule) && i < |us| && j < |us| && m < |us| && n < |us| && Uneven(us, i, j, m, n)
    requires i != j && i != m && i != n && m != j && m != n && n != j
    requires Opposite(rule, us[i], us[j]) && Opposite(rule, us[m], us[n]) && us[i].p.symbol != us[m].p.symbol
    requires !({us[i].key, us[j].key} !! {us[m].key, us[n].key}) && Comes(us, p, us[i], us[m])
    ensures !NoBlocking(rule, us, [])
  {
    hide SourceRule, Opposite, NoBlocking, Comes;
    NearSizes(rule, us[i], us[j]);
    EqualSizes(rule, us[m], us[n]);
    forall a, b | a in us && b in us && Eligible(rule, a, b)
      ensures (a == us[i] && b == us[j]) || (a == us[m] && b == us[n])
    {
      UnevenPairs(rule, us, i, j, m, n, a, b);
    }
    assert us[i] in us && us[j] in us && us[m] in us && us[n] in us;
    FirstTakesAll(rule, us, us[i], us[j], us[m], us[n], p);
  }

  /** The symbol of one row is the p-th and comes before that of another. */
  ghost predicate Comes(ts: seq<Tagged>, p: nat, x: Tagged, l: Tagged) {
    && p < |Symbols(ts)| && Symbols(ts)[p] == x.p.symbol && l.p.symbol != x.p.symbol
    && forall k :: 0 <= k < p ==> Symbols(ts)[k] != x.p.symbol && Symbols(ts)[k] != l.p.symbol
  }

  lemma {:induction false} SymbolsKept(ts: seq<Tagged>, us: seq<Tagged>)
    requires |ts| == |us| && forall i :: 0 <= i < |ts| ==> ts[i].p.symbol == us[i].p.symbol
    ensures Symbols(ts) == Symbols(us)
  {
    if ts != [] {
      SymbolsKept(ts[..|ts| - 1], us[..|us| - 1]);
    }
  }

  /** A long is not a short. */
  lemma SizedSides(rule: Rule, us: seq<Tagged>, i: nat, j: nat, m: nat, n: nat)
    requires SourceRule(rule) && i < |us| && j < |us| && m < |us| && n < |us|
    requires Opposite(rule, us[i], us[j]) && Opposite(rule, us[m], us[n]) && us[i].p.symbol != us[m].p.symbol
    ensures i != j && i != m && i != n && m != j && m != n && n != j
  {
    SourceRulesSided();
  }

  lemma UnevenPairs(rule: Rule, us: seq<Tagged>, i: nat, j: nat, m: nat, n: nat, a: Tagged, b: Tagged)
    requires SourceRule(rule) && i < |us| && j < |us| && m < |us| && n < |us|
    requires Opposite(rule, us[i], us[j]) && Opposite(rule, us[m], us[n]) && us[i].p.symbol != us[m].p.symbol
    requires Uneven(us, i, j, m, n)
    requires a in us && b in us && Eligible(rule, a, b)
    ensures (a == us[i] && b == us[j]) || (a == us[m] && b == us[n])
  {
    SourceRulesSided();
    if a.notional == 0.0 || b.notional == 0.0 { NoSize(rule, a, b); }
    var c :| 0 <= c < |us| && us[c] == a;
    var d :| 0 <= d < |us| && us[d] == b;
    assert c == i || c == j || c == m || c == n;
    assert d == i || d == j || d == m || d == n;
  }

  /** Of two acceptable pairs that share a key, the one whose symbol comes first is made, whatever the deviations. */
  lemma FirstTakesAll(rule: Rule, ts: seq<Tagged>, x: Tagged, y: Tagged, l: Tagged, s: Tagged, p: nat)
    requires x in ts && y in ts && l in ts && s in ts && Eligible(rule, x, y) && Eligible(rule, l, s)
    requires forall a, b :: a in ts && b in ts && Eligible(rule, a, b) ==> (a == x && b == y) || (a == l && b == s)
    requires !({x.key, y.key} !! {l.key, s.key}) && Comes(ts, p, x, l)
    requires rule.deviation(l, s).value < rule.deviation(x, y).value
    ensures !NoBlocking(rule, ts, [])
  {
    hide Eligible;
    var auto := Auto(rule, ts, []);
    assert ByHand(ts, []) == {};
    AutoMembers(rule, ts, Symbols(ts), {});
    var c := FirstSymbolWins(rule, ts, Symbols(ts), {}, p, x, y, l, s);
    forall d | d in auto
      ensures !Blocks(rule, d, l, s)
    {
      assert AutoPair(rule, ts, d) && AutoPair(rule, ts, c);
      if d.long == l && d.short == s { DisjointOnce(auto, c, d); }
    }
  }

  lemma {:induction false} FirstSymbolWins(rule: Rule, ts: seq<Tagged>, syms: seq<string>, used: set<string>, p: nat,
                                           x: Tagged, y: Tagged, l: Tagged, s: Tagged) returns (c: Pair)
    requires p < |syms| && syms[p] == x.p.symbol && l.p.symbol != x.p.symbol
    requires forall k :: 0 <= k < p ==> syms[k] != x.p.symbol && syms[k] != l.p.symbol
    requires x in ts && y in ts && Eligible(rule, x, y) && {x.key, y.key} !! used
    requires forall a, b :: a in ts && b in ts && Eligible(rule, a, b) ==> (a == x && b == y) || (a == l && b == s)
    ensures c in AutoPairs(rule, ts, syms, used) && c.long == x && c.short == y
  {
    hide GroupPairs, Eligible;
    if p == 0 {
      c := GroupBlocks(rule, ts, used, x, y);
      GroupMembers(rule, ts, syms[0], used);
    } else {
      NoneOfSymbol(rule, ts, syms[0], used);
      assert used + LegsOf([]) == used;
      c := FirstSymbolWins(rule, ts, syms[1..], used, p - 1, x, y, l, s);
    }
  }

  lemma NoneOfSymbol(rule: Rule, ts: seq<Tagged>, sym: string, used: set<string>)
    requires forall a, b :: a in ts && b in ts && Eligible(rule, a, b) ==> a.p.symbol != sym
    ensures GroupPairs(rule, OfSymbol(ts, sym), used) == []
  {
    hide GroupPairs, Eligible;
    var chosen := GroupPairs(rule, OfSymbol(ts, sym), used);
    if chosen != [] {
      assert chosen[0] in chosen;
      GroupMembers(rule, ts, sym, used);
    }
  }

  /** Positions of two symbols that share an id, as on venues that number them. */
  function SharedIdRows(): seq<Position> {
    [Position("1", "a", "BTC", "buy", 1.0, 100.0, 100.0), Position("2", "b", "BTC", "sell", 0.95, 100.0, 100.0),
     Position("1", "c", "ETH", "buy", 1.0, 100.0, 100.0), Position("3", "d", "ETH", "sell", 1.0, 100.0, 100.0)]
  }

  /** The pair of the first symbol takes the key, and the second symbol's pair, which fits exactly, is broken by one
      that deviates by five points. */
  lemma SharedIdBlocks()
    ensures !NoBlocking(SpreadRule(), TagAll(SharedIdRows()), [])
  {
    var ts, rule := TagAll(SharedIdRows()), SpreadRule();
    var x, y, l, s := ts[0], ts[1], ts[2], ts[3];
    hide NoBlocking, Eligible, TagAll, SharedIdRows, SpreadRule;
    SharedIdPairs(x, y, l, s);
    assert ts == [x, y, l, s];
    assert x in ts && y in ts && l in ts && s in ts;
    FirstSymbol(ts);
    FirstTakesAll(rule, ts, x, y, l, s, 0);
  }

  lemma SharedIdPairs(x: Tagged, y: Tagged, l: Tagged, s: Tagged)
    requires TagAll(SharedIdRows()) == [x, y, l, s]
    ensures var rule := SpreadRule();
            && Eligible(rule, x, y) && Eligible(rule, l, s)
            && rule.deviation(l, s).value < rule.deviation(x, y).value
            && (forall a, b :: a in {x, y, l, s} && b in {x, y, l, s} && Eligible(rule, a, b) ==>
                  (a == x && b == y) || (a == l && b == s))
    ensures x.key == l.key && x.p.symbol != l.p.symbol
  {
    var rows, ts := SharedIdRows(), TagAll(SharedIdRows());
    assert ts[0] == x && ts[1] == y && ts[2] == l && ts[3] == s;
    assert x.p == rows[0] && y.p == rows[1] && l.p == rows[2] && s.p == rows[3];
    hide SpreadDeviation;
    assert "BTC"[0] != "ETH"[0];
    SharedIdDeviations(x, y, l, s);
  }

  lemma SharedIdDeviations(x: Tagged, y: Tagged, l: Tagged, s: Tagged)
    requires TagAll(SharedIdRows()) == [x, y, l, s]
    ensures SpreadDeviation(x, y) == Some(5.0) && SpreadDeviation(l, s) == Some(0.0)
  {
    var rows := SharedIdRows();
    assert x == Tag(rows[0], 0) && y == Tag(rows[1], 1) && l == Tag(rows[2], 2) && s == Tag(rows[3], 3);
    assert x.notional == l.notional == s.notional == 100.0 && y.notional == 95.0;
    assert RelativeDiff(x, y) == Some(0.05) && RelativeDiff(l, s) == Some(0.0);
  }

  lemma {:induction false} FirstSymbol(ts: seq<Tagged>)
    requires ts != []
    ensures Symbols(ts) != [] && Symbols(ts)[0] == ts[0].p.symbol
  {
    if |ts| > 1 {
      FirstSymbol(ts[..|ts| - 1]);
    } else {
      assert Symbols(ts[..0]) == [];
    }
  }
}
