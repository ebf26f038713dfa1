/** Which rows the pairing of `PairMatching` shows, and exactly when it loses none. */
module PairConservation {
  import opened Options
  import opened PairLaws
  import opened PairMatching

  ghost function LongsOf(cs: seq<Pair>): seq<Tagged> {
    if cs == [] then [] else LongsOf(cs[..|cs| - 1]) + [cs[|cs| - 1].long]
  }

  ghost function ShortsOf(cs: seq<Pair>): seq<Tagged> {
    if cs == [] then [] else ShortsOf(cs[..|cs| - 1]) + [cs[|cs| - 1].short]
  }

  ghost function Total(w: Tagged -> real, ts: seq<Tagged>): real {
    if ts == [] then 0.0 else Total(w, ts[..|ts| - 1]) + w(ts[|ts| - 1])
  }

  /** Every row is shown exactly once: as a long leg, as a short leg, or as a single. */
  ghost predicate Conserves(rule: Rule, ts: seq<Tagged>, manual: seq<ManualPair>) {
    var pairs := AllPairs(rule, ts, manual);
    multiset(ts) == multiset(LongsOf(pairs)) + multiset(ShortsOf(pairs)) + multiset(Unused(ts, LegsOf(pairs)))
  }

  // ---------------------------------------------------------------- rows that share no key with a third

  lemma EveryRowOnce(rule: Rule, ts: seq<Tagged>, manual: seq<ManualPair>)
    requires Sided(rule) && NoThirdRow(rule, ts)
    ensures Conserves(rule, ts, manual)
  {
    PairsSound(rule, ts, manual);
    TakingOut(rule, ts, AllPairs(rule, ts, manual));
  }

  /** The rows whose keys are in a set. */
  ghost function Within(ts: seq<Tagged>, ks: set<string>): seq<Tagged> {
    if ts == [] then [] else Within(ts[..|ts| - 1], ks) + if ts[|ts| - 1].key in ks then [ts[|ts| - 1]] else []
  }

  /** Taking one more pair out of the singles moves exactly its two rows. */
  lemma {:induction false} TakingOut(rule: Rule, ts: seq<Tagged>, cs: seq<Pair>)
    requires NoThirdRow(rule, ts) && Disjoint(cs)
    requires forall c :: c in cs ==>
               c.long in ts && c.short in ts && Opposite(rule, c.long, c.short) && c.long.p.side != c.short.p.side
    ensures multiset(ts) == multiset(LongsOf(cs)) + multiset(ShortsOf(cs)) + multiset(Unused(ts, LegsOf(cs)))
  {
    if cs == [] {
      NothingUsed(ts);
    } else {
      hide Legs, NoThirdRow, Opposite, Disjoint;
      var front, c := cs[..|cs| - 1], cs[|cs| - 1];
      assert c in cs;
      assert forall x :: x in front ==> x in cs;
      LastApart(cs);
      TakingOut(rule, ts, front);
      SplitUnused(ts, LegsOf(front), Legs(c));
      WithinLegs(rule, ts, c);
      MoveTwo(multiset(ts), multiset(LongsOf(front)), multiset(ShortsOf(front)),
              multiset(Unused(ts, LegsOf(front))), multiset(Unused(ts, LegsOf(cs))), c.long, c.short);
    }
  }

  lemma LastApart(cs: seq<Pair>)
    requires Disjoint(cs) && cs != []
    ensures Disjoint(cs[..|cs| - 1]) && Legs(cs[|cs| - 1]) !! LegsOf(cs[..|cs| - 1])
  {
    LegsOfMembers(cs[..|cs| - 1]);
  }

  lemma MoveTwo(all: multiset<Tagged>, longs: multiset<Tagged>, shorts: multiset<Tagged>,
                free: multiset<Tagged>, left: multiset<Tagged>, l: Tagged, s: Tagged)
    requires all == longs + shorts + free && free == left + multiset{l, s}
    ensures all == (longs + multiset{l}) + (shorts + multiset{s}) + left
  {
  }

  lemma {:induction false} NothingUsed(ts: seq<Tagged>)
    ensures Unused(ts, {}) == ts
  {
    if ts != [] {
      NothingUsed(ts[..|ts| - 1]);
    }
  }

  lemma {:induction false} SplitUnused(ts: seq<Tagged>, used: set<string>, ks: set<string>)
    requires ks !! used
    ensures multiset(Unused(ts, used)) == multiset(Unused(ts, used + ks)) + multiset(Within(ts, ks))
  {
    if ts != [] {
      SplitUnused(ts[..|ts| - 1], used, ks);
    }
  }

  lemma WithinLegs(rule: Rule, ts: seq<Tagged>, c: Pair)
    requires NoThirdRow(rule, ts) && c.long in ts && c.short in ts
    requires Opposite(rule, c.long, c.short) && c.long != c.short
    ensures multiset(Within(ts, Legs(c))) == multiset{c.long, c.short}
  {
    var i :| 0 <= i < |ts| && ts[i] == c.long;
    var j :| 0 <= j < |ts| && ts[j] == c.short;
    assert Opposite(rule, ts[i], ts[j]);
    if i < j { WithinTwo(ts, Legs(c), i, j); } else { WithinTwo(ts, Legs(c), j, i); }
  }

  lemma {:induction false} WithinTwo(ts: seq<Tagged>, ks: set<string>, i: nat, j: nat)
    requires i < j < |ts| && forall k :: 0 <= k < |ts| ==> (ts[k].key in ks <==> k == i || k == j)
    ensures Within(ts, ks) == [ts[i], ts[j]]
  {
    var front := ts[..|ts| - 1];
    if j == |ts| - 1 {
      WithinOne(front, ks, i);
    } else {
      WithinTwo(front, ks, i, j);
    }
  }

  lemma {:induction false} WithinOne(ts: seq<Tagged>, ks: set<string>, i: nat)
    requires i < |ts| && forall k :: 0 <= k < |ts| ==> (ts[k].key in ks <==> k == i)
    ensures Within(ts, ks) == [ts[i]]
  {
    var front := ts[..|ts| - 1];
    if i == |ts| - 1 {
      WithinNone(front, ks);
    } else {
      WithinOne(front, ks, i);
    }
  }

  lemma {:induction false} WithinNone(ts: seq<Tagged>, ks: set<string>)
    requires forall k :: 0 <= k < |ts| ==> ts[k].key !in ks
    ensures Within(ts, ks) == []
  {
    if ts != [] {
      WithinNone(ts[..|ts| - 1], ks);
    }
  }

  // ---------------------------------------------------------------- totals

  /** Conserved rows conserve any per-row total, such as unrealised profit or funding. */
  lemma TotalsPreserved(rule: Rule, ts: seq<Tagged>, manual: seq<ManualPair>, w: Tagged -> real)
    requires Sided(rule) && NoThirdRow(rule, ts)
    ensures var pairs := AllPairs(rule, ts, manual);
            Total(w, ts) == Total(w, LongsOf(pairs)) + Total(w, ShortsOf(pairs)) + Total(w, Unused(ts, LegsOf(pairs)))
  {
    var pairs := AllPairs(rule, ts, manual);
    var a, b, c := LongsOf(pairs), ShortsOf(pairs), Unused(ts, LegsOf(pairs));
    EveryRowOnce(rule, ts, manual);
    TotalConcat(w, a, b);
    TotalConcat(w, a + b, c);
    TotalOfSameRows(w, ts, a + b + c);
  }

  lemma {:induction false} TotalConcat(w: Tagged -> real, a: seq<Tagged>, b: seq<Tagged>)
    ensures Total(w, a + b) == Total(w, a) + Total(w, b)
  {
    if b == [] {
      assert a + b == a;
    } else {
      assert (a + b)[..|a + b| - 1] == a + b[..|b| - 1];
      TotalConcat(w, a, b[..|b| - 1]);
    }
  }

  lemma {:induction false} TotalOfSameRows(w: Tagged -> real, a: seq<Tagged>, b: seq<Tagged>)
    requires multiset(a) == multiset(b)
    ensures Total(w, a) == Total(w, b)
    decreases |a|
  {
    if a == [] {
      assert |multiset(b)| == 0;
    } else {
      var last := a[|a| - 1];
      assert a == a[..|a| - 1] + [last];
      assert last in multiset(b);
      var i :| 0 <= i < |b| && b[i] == last;
      var rest := b[..i] + b[i + 1..];
      assert b == b[..i] + [last] + b[i + 1..];
      assert multiset(b) == multiset(rest) + multiset{last};
      assert multiset(a) == multiset(a[..|a| - 1]) + multiset{last};
      assert multiset(a[..|a| - 1]) == multiset(a) - multiset{last};
      TotalOfSameRows(w, a[..|a| - 1], rest);
      TotalConcat(w, b[..i], b[i + 1..]);
      TotalConcat(w, b[..i] + [last], b[i + 1..]);
      assert (b[..i] + [last])[..i] == b[..i];
    }
  }

  // ---------------------------------------------------------------- one acceptable pair and a third row

  /** When only one pair is acceptable, that is what the automatic phase makes. */
  lemma OnlyPair(rule: Rule, ts: seq<Tagged>, x: Tagged, y: Tagged)
    requires x in ts && y in ts && Eligible(rule, x, y)
    requires forall l, s :: l in ts && s in ts && Eligible(rule, l, s) ==> l == x && s == y
    ensures forall c :: c in AllPairs(rule, ts, []) ==> c.long == x && c.short == y
    ensures {x.key, y.key} <= LegsOf(AllPairs(rule, ts, []))
  {
    hide Eligible;
    var all := AllPairs(rule, ts, []);
    SymbolsDistinct(ts);
    AutoMembers(rule, ts, Symbols(ts), {});
    var d := AutoHits(rule, ts, Symbols(ts), {}, x, y);
    MeetsLegs(AutoPairs(rule, ts, Symbols(ts), {}), d, {x.key, y.key});
    assert all == AutoPairs(rule, ts, Symbols(ts), {});
    forall c | c in all
      ensures c.long == x && c.short == y
    {
      assert AutoPair(rule, ts, c);
    }
    LegsOfMembers(all);
    var k :| k in {x.key, y.key} * LegsOf(all);
    var i :| 0 <= i < |all| && k in Legs(all[i]);
    assert all[i] in all;
    assert Legs(all[i]) == {x.key, y.key};
  }

  /** ... and a third row with the key of one of its legs is shown nowhere. */
  lemma ThirdRowLost(rule: Rule, ts: seq<Tagged>, x: Tagged, y: Tagged, z: Tagged)
    requires x in ts && y in ts && Eligible(rule, x, y)
    requires forall l, s :: l in ts && s in ts && Eligible(rule, l, s) ==> l == x && s == y
    requires z in ts && z != x && z != y && z.key in {x.key, y.key}
    ensures !Conserves(rule, ts, [])
  {
    hide Eligible, AllPairs, LegsOf, Unused, LongsOf, ShortsOf;
    var pairs := AllPairs(rule, ts, []);
    OnlyPair(rule, ts, x, y);
    LegMembers(pairs, x, y);
    UnusedMembers(ts, LegsOf(pairs));
    MissingRow(ts, LongsOf(pairs), ShortsOf(pairs), Unused(ts, LegsOf(pairs)), z);
  }

  lemma MissingRow(ts: seq<Tagged>, a: seq<Tagged>, b: seq<Tagged>, c: seq<Tagged>, z: Tagged)
    requires z in ts && z !in a && z !in b && z !in c
    ensures multiset(ts) != multiset(a) + multiset(b) + multiset(c)
  {
    assert z in multiset(ts);
    assert z !in multiset(a) && z !in multiset(b) && z !in multiset(c);
  }

  lemma {:induction false} LegMembers(cs: seq<Pair>, x: Tagged, y: Tagged)
    requires forall c :: c in cs ==> c.long == x && c.short == y
    ensures forall t :: t in LongsOf(cs) ==> t == x
    ensures forall t :: t in ShortsOf(cs) ==> t == y
  {
    if cs != [] {
      assert cs[|cs| - 1] in cs;
      LegMembers(cs[..|cs| - 1], x, y);
    }
  }

  /** Three venues that name a position by its symbol: a long and a short make a pair, and the second long, five
      times as large, is neither a leg nor a single. */
  lemma ThreeVenuesLoseRow() returns (rows: seq<Position>)
    ensures rows == [Position("BTCUSDT", "binance", "BTC", "buy", 1.0, 100.0, 100.0),
                     Position("BTCUSDT", "bybit", "BTC", "sell", 1.0, 100.0, 100.0),
                     Position("BTCUSDT", "aster", "BTC", "buy", 5.0, 100.0, 100.0)]
    ensures !Conserves(SpreadRule(), TagAll(rows), [])
  {
    rows := [Position("BTCUSDT", "binance", "BTC", "buy", 1.0, 100.0, 100.0),
             Position("BTCUSDT", "bybit", "BTC", "sell", 1.0, 100.0, 100.0),
             Position("BTCUSDT", "aster", "BTC", "buy", 5.0, 100.0, 100.0)];
    var ts, rule := TagAll(rows), SpreadRule();
    assert forall t :: t in ts ==> t == ts[0] || t == ts[1] || t == ts[2];
    assert ts[0] in ts && ts[1] in ts && ts[2] in ts;
    assert SpreadDeviation(ts[0], ts[1]) == Some(0.0);
    assert SpreadDeviation(ts[2], ts[1]) == None;
    ThirdRowLost(rule, ts, ts[0], ts[1], ts[2]);
  }
}
