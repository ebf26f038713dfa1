/** What the pairing of `PairMatching` guarantees. */
module PairLaws {
  import opened JsSort
  import opened Options
  import opened PairMatching

  ghost predicate Disjoint(cs: seq<Pair>) {
    forall i, j :: 0 <= i < j < |cs| ==> Legs(cs[i]) !! Legs(cs[j])
  }

  // ---------------------------------------------------------------- membership

  lemma {:induction false} OfSymbolMembers(ts: seq<Tagged>, sym: string)
    ensures forall t :: t in OfSymbol(ts, sym) <==> t in ts && t.p.symbol == sym
  {
    if ts != [] {
      OfSymbolMembers(ts[..|ts| - 1], sym);
      assert ts == ts[..|ts| - 1] + [ts[|ts| - 1]];
    }
  }

  lemma {:induction false} SideMembers(rule: Rule, long: bool, group: seq<Tagged>, used: set<string>)
    ensures forall t :: t in Side(rule, long, group, used) <==>
              t in group && (if long then rule.isLong(t) else rule.isShort(t)) && (rule.keepsUsed || t.key !in used)
  {
    if group != [] {
      SideMembers(rule, long, group[1..], used);
      assert group == [group[0]] + group[1..];
    }
  }

  lemma {:induction false} AgainstMembers(rule: Rule, l: Tagged, shorts: seq<Tagged>)
    ensures forall c :: c in Against(rule, l, shorts) <==>
              c.long == l && c.short in shorts && rule.deviation(l, c.short) == Some(c.deviation) && !c.manual
  {
    if shorts != [] {
      AgainstMembers(rule, l, shorts[..|shorts| - 1]);
      assert shorts == shorts[..|shorts| - 1] + [shorts[|shorts| - 1]];
    }
  }

  lemma {:induction false} CandidatesMembers(rule: Rule, longs: seq<Tagged>, shorts: seq<Tagged>)
    ensures forall c :: c in Candidates(rule, longs, shorts) <==>
              c.long in longs && c.short in shorts && rule.deviation(c.long, c.short) == Some(c.deviation) && !c.manual
  {
    if longs != [] {
      CandidatesMembers(rule, longs[..|longs| - 1], shorts);
      AgainstMembers(rule, longs[|longs| - 1], shorts);
      assert longs == longs[..|longs| - 1] + [longs[|longs| - 1]];
    }
  }

  lemma {:induction false} LegsOfMembers(cs: seq<Pair>)
    ensures forall k :: k in LegsOf(cs) <==> exists i :: 0 <= i < |cs| && k in Legs(cs[i])
  {
    if cs != [] {
      LegsOfMembers(cs[..|cs| - 1]);
    }
  }

  // ---------------------------------------------------------------- the greedy core

  lemma NothingShared(a: set<string>, b: set<string>)
    requires a * b == {}
    ensures a !! b
  {
    assert forall k :: k in a ==> k !in a * b;
  }

  lemma {:induction false} GreedyMembers(cands: seq<Pair>, used: set<string>)
    ensures forall c :: c in Greedy(cands, used) ==> c in cands && Legs(c) !! used
    ensures Disjoint(Greedy(cands, used))
  {
    hide Legs;
    if cands != [] {
      var c := cands[0];
      if Legs(c) * used != {} {
        GreedyMembers(cands[1..], used);
      } else {
        GreedyMembers(cands[1..], used + Legs(c));
        var rest := Greedy(cands[1..], used + Legs(c));
        assert forall j :: 0 <= j < |rest| ==> rest[j] in rest;
        assert cands == [c] + cands[1..];
        NothingShared(Legs(c), used);
        assert forall x :: x in rest ==> Legs(x) !! used;
      }
    }
  }

  lemma TailSorted(cands: seq<Pair>, rank: Pair -> real)
    requires cands != [] && SortedBy(cands, rank)
    ensures SortedBy(cands[1..], rank)
    ensures forall k :: 0 <= k < |cands| ==> rank(cands[0]) <= rank(cands[k])
  {
  }

  /** A free candidate is passed over only for one that is at least as good and shares a leg with it. */
  lemma {:induction false} GreedyBlocks(cands: seq<Pair>, used: set<string>, c: Pair) returns (d: Pair)
    requires SortedBy(cands, (x: Pair) => x.deviation)
    requires c in cands && Legs(c) !! used
    ensures d in Greedy(cands, used) && Legs(d) * Legs(c) != {} && d.deviation <= c.deviation
  {
    var head := cands[0];
    var k :| 0 <= k < |cands| && cands[k] == c;
    hide SortedBy;
    TailSorted(cands, (x: Pair) => x.deviation);
    if Legs(head) * used != {} {
      assert c in cands[1..] by { assert cands == [head] + cands[1..]; }
      d := GreedyBlocks(cands[1..], used, c);
    } else if Legs(head) * Legs(c) != {} {
      d := head;
    } else {
      assert c.long.key in Legs(c);
      assert c.long.key !in Legs(head) * Legs(c);
      assert c != head;
      assert c in cands[1..] by { assert cands == [head] + cands[1..]; }
      NothingShared(Legs(head), Legs(c));
      d := GreedyBlocks(cands[1..], used + Legs(head), c);
    }
  }

  // ---------------------------------------------------------------- one group, all groups

  lemma GroupMembers(rule: Rule, ts: seq<Tagged>, sym: string, used: set<string>)
    ensures var chosen := GroupPairs(rule, OfSymbol(ts, sym), used);
            && Disjoint(chosen)
            && (forall c :: c in chosen ==> AutoPair(rule, ts, c) && c.long.p.symbol == sym && Legs(c) !! used)
  {
    hide Legs;
    var group := OfSymbol(ts, sym);
    var longs, shorts := Side(rule, true, group, used), Side(rule, false, group, used);
    var cands := Candidates(rule, longs, shorts);
    OfSymbolMembers(ts, sym);
    SideMembers(rule, true, group, used);
    SideMembers(rule, false, group, used);
    CandidatesMembers(rule, longs, shorts);
    SortMembers(cands, (x: Pair) => x.deviation);
    GreedyMembers(Sort(cands, (x: Pair) => x.deviation), used);
  }

  /** A pair that the rule produced: two rows, one symbol, opposite sides, within tolerance. */
  ghost predicate AutoPair(rule: Rule, ts: seq<Tagged>, c: Pair) {
    && !c.manual && c.long in ts && c.short in ts && Eligible(rule, c.long, c.short)
    && rule.deviation(c.long, c.short) == Some(c.deviation)
  }

  lemma DisjointOnce(cs: seq<Pair>, c: Pair, d: Pair)
    requires Disjoint(cs) && c in cs && d in cs && Legs(c) * Legs(d) != {}
    ensures c == d
  {
    hide Legs;
    var i :| 0 <= i < |cs| && cs[i] == c;
    var j :| 0 <= j < |cs| && cs[j] == d;
  }

  lemma {:induction false} AutoMembers(rule: Rule, ts: seq<Tagged>, syms: seq<string>, used: set<string>)
    ensures var auto := AutoPairs(rule, ts, syms, used);
            && Disjoint(auto) && (forall c :: c in auto ==> AutoPair(rule, ts, c) && Legs(c) !! used)
  {
    hide GroupPairs, AutoPair, Legs;
    if syms != [] {
      var chosen := GroupPairs(rule, OfSymbol(ts, syms[0]), used);
      GroupMembers(rule, ts, syms[0], used);
      AutoMembers(rule, ts, syms[1..], used + LegsOf(chosen));
      var rest := AutoPairs(rule, ts, syms[1..], used + LegsOf(chosen));
      LegsOfMembers(chosen);
      DisjointConcat(chosen, rest);
    }
  }

  lemma DisjointConcat(a: seq<Pair>, b: seq<Pair>)
    requires Disjoint(a) && Disjoint(b) && forall c :: c in b ==> Legs(c) !! LegsOf(a)
    ensures Disjoint(a + b)
  {
    hide Legs;
    LegsOfMembers(a);
    forall i, j | 0 <= i < j < |a + b|
      ensures Legs((a + b)[i]) !! Legs((a + b)[j])
    {
      if i < |a| <= j {
        assert b[j - |a|] in b;
        assert Legs(a[i]) <= LegsOf(a);
      }
    }
  }

  /** When the turn of a symbol comes. */
  ghost function Turn(syms: seq<string>, sym: string): nat {
    if syms == [] || syms[0] == sym then 0 else 1 + Turn(syms[1..], sym)
  }

  /** A free acceptable pair always meets a chosen one whose turn came no later, whatever keys the rows share. */
  lemma {:induction false} AutoHits(
    rule: Rule, ts: seq<Tagged>, syms: seq<string>, used: set<string>, l: Tagged, s: Tagged)
    returns (d: Pair)
    requires l in ts && s in ts && Eligible(rule, l, s) && {l.key, s.key} !! used
    requires l.p.symbol in syms
    ensures d in AutoPairs(rule, ts, syms, used) && Legs(d) * {l.key, s.key} != {}
    ensures Turn(syms, d.long.p.symbol) <= Turn(syms, l.p.symbol)
  {
    hide GroupPairs, Eligible;
    var chosen := GroupPairs(rule, OfSymbol(ts, syms[0]), used);
    GroupMembers(rule, ts, syms[0], used);
    if syms[0] == l.p.symbol {
      d := GroupBlocks(rule, ts, used, l, s);
    } else if {l.key, s.key} * LegsOf(chosen) == {} {
      NothingShared({l.key, s.key}, LegsOf(chosen));
      assert syms == [syms[0]] + syms[1..];
      d := AutoHits(rule, ts, syms[1..], used + LegsOf(chosen), l, s);
    } else {
      d := PairOfLeg(chosen, {l.key, s.key});
    }
  }

  lemma PairOfLeg(cs: seq<Pair>, keys: set<string>) returns (d: Pair)
    requires keys * LegsOf(cs) != {}
    ensures d in cs && Legs(d) * keys != {}
  {
    LegsOfMembers(cs);
    var k :| k in keys * LegsOf(cs);
    var i :| 0 <= i < |cs| && k in Legs(cs[i]);
    d := cs[i];
    assert k in Legs(d) * keys;
  }

  lemma MeetsLegs(cs: seq<Pair>, d: Pair, keys: set<string>)
    requires d in cs && Legs(d) * keys != {}
    ensures keys * LegsOf(cs) != {}
  {
    LegsOfMembers(cs);
    var i :| 0 <= i < |cs| && cs[i] == d;
    var k :| k in Legs(d) * keys;
    assert k in keys * LegsOf(cs);
  }

  /** A long and a short of one symbol share no key with those of another. */
  ghost predicate Apart(rule: Rule, x: Tagged, y: Tagged, l: Tagged, s: Tagged) {
    Opposite(rule, x, y) && Opposite(rule, l, s) && x.p.symbol != l.p.symbol ==> {x.key, y.key} !! {l.key, s.key}
  }

  ghost predicate SymbolsApart(rule: Rule, ts: seq<Tagged>) {
    forall x, y, l, s :: x in ts && y in ts && l in ts && s in ts ==> Apart(rule, x, y, l, s)
  }

  lemma {:induction false} AutoBlocks(
    rule: Rule, ts: seq<Tagged>, syms: seq<string>, used: set<string>, l: Tagged, s: Tagged)
    returns (d: Pair)
    requires SymbolsApart(rule, ts) && l in ts && s in ts && Eligible(rule, l, s) && {l.key, s.key} !! used
    requires l.p.symbol in syms
    ensures d in AutoPairs(rule, ts, syms, used) && Blocks(rule, d, l, s)
  {
    hide GroupPairs, SymbolsApart, AutoPair;
    var chosen := GroupPairs(rule, OfSymbol(ts, syms[0]), used);
    if syms[0] == l.p.symbol {
      d := GroupBlocks(rule, ts, used, l, s);
    } else {
      GroupMembers(rule, ts, syms[0], used);
      OtherSymbolsKeys(rule, ts, syms[0], chosen, l, s);
      assert syms == [syms[0]] + syms[1..];
      d := AutoBlocks(rule, ts, syms[1..], used + LegsOf(chosen), l, s);
    }
  }

  /** A chosen pair that shares a leg with two rows and deviates no more than they do. */
  ghost predicate Blocks(rule: Rule, d: Pair, l: Tagged, s: Tagged) {
    && Legs(d) * {l.key, s.key} != {}
    && rule.deviation(l, s).Some? && d.deviation <= rule.deviation(l, s).value
  }

  lemma GroupBlocks(rule: Rule, ts: seq<Tagged>, used: set<string>, l: Tagged, s: Tagged) returns (d: Pair)
    requires l in ts && s in ts && Eligible(rule, l, s) && {l.key, s.key} !! used
    ensures d in GroupPairs(rule, OfSymbol(ts, l.p.symbol), used) && Blocks(rule, d, l, s)
  {
    var group := OfSymbol(ts, l.p.symbol);
    var longs, shorts := Side(rule, true, group, used), Side(rule, false, group, used);
    var cands := Candidates(rule, longs, shorts);
    OfSymbolMembers(ts, l.p.symbol);
    SideMembers(rule, true, group, used);
    SideMembers(rule, false, group, used);
    CandidatesMembers(rule, longs, shorts);
    var c := Pair(l, s, rule.deviation(l, s).value, false);
    assert c in cands;
    SortMembers(cands, (x: Pair) => x.deviation);
    SortSorted(cands, (x: Pair) => x.deviation);
    d := GreedyBlocks(Sort(cands, (x: Pair) => x.deviation), used, c);
  }

  /** Pairs of another symbol use none of the keys of two acceptable rows. */
  lemma OtherSymbolsKeys(rule: Rule, ts: seq<Tagged>, sym: string, chosen: seq<Pair>, l: Tagged, s: Tagged)
    requires SymbolsApart(rule, ts) && l in ts && s in ts && Eligible(rule, l, s) && l.p.symbol != sym
    requires forall c :: c in chosen ==> AutoPair(rule, ts, c) && c.long.p.symbol == sym
    ensures {l.key, s.key} !! LegsOf(chosen)
  {
    hide Opposite;
    LegsOfMembers(chosen);
    forall i | 0 <= i < |chosen|
      ensures {l.key, s.key} !! Legs(chosen[i])
    {
      assert chosen[i] in chosen;
      assert Apart(rule, chosen[i].long, chosen[i].short, l, s);
    }
  }

  // ---------------------------------------------------------------- main results

  /** The free rows after the manual phase. */
  ghost function ByHand(ts: seq<Tagged>, manual: seq<ManualPair>): set<string> {
    LegsOf(ManualPairs(manual, ts))
  }

  ghost function Auto(rule: Rule, ts: seq<Tagged>, manual: seq<ManualPair>): seq<Pair> {
    AutoPairs(rule, ts, Symbols(ts), ByHand(ts, manual))
  }

  /** No blocking pair: two rows that would make a pair under the rule and are not taken by hand always meet a
      chosen automatic pair that shares a leg with them and deviates no more than they do. */
  ghost predicate NoBlocking(rule: Rule, ts: seq<Tagged>, manual: seq<ManualPair>) {
    forall l, s :: l in ts && s in ts && Eligible(rule, l, s) && {l.key, s.key} !! ByHand(ts, manual) ==>
      exists d :: d in Auto(rule, ts, manual) && Blocks(rule, d, l, s)
  }

  lemma NoBlockingPair(rule: Rule, ts: seq<Tagged>, manual: seq<ManualPair>)
    requires SymbolsApart(rule, ts)
    ensures NoBlocking(rule, ts, manual)
  {
    hide SymbolsApart, Eligible, Blocks;
    SymbolsDistinct(ts);
    forall l, s | l in ts && s in ts && Eligible(rule, l, s) && {l.key, s.key} !! ByHand(ts, manual)
      ensures exists d :: d in Auto(rule, ts, manual) && Blocks(rule, d, l, s)
    {
      var d := AutoBlocks(rule, ts, Symbols(ts), ByHand(ts, manual), l, s);
    }
  }

  lemma AutoMeets(rule: Rule, ts: seq<Tagged>, manual: seq<ManualPair>, l: Tagged, s: Tagged)
    requires l in ts && s in ts && Eligible(rule, l, s) && {l.key, s.key} !! ByHand(ts, manual)
    ensures {l.key, s.key} * LegsOf(Auto(rule, ts, manual)) != {}
  {
    SymbolsDistinct(ts);
    var d := AutoHits(rule, ts, Symbols(ts), ByHand(ts, manual), l, s);
    MeetsLegs(Auto(rule, ts, manual), d, {l.key, s.key});
  }

  /** Whatever keys the rows share, no pair under the rule is ever left with both of its legs among the singles. */
  lemma NoPairAmongSingles(rule: Rule, ts: seq<Tagged>, manual: seq<ManualPair>, l: Tagged, s: Tagged)
    requires Eligible(rule, l, s)
    ensures var singles := Unused(ts, LegsOf(AllPairs(rule, ts, manual)));
            !(l in singles && s in singles)
  {
    hide Eligible, AutoPairs, ManualPairs, LegsOf, Unused;
    UnusedMembers(ts, LegsOf(AllPairs(rule, ts, manual)));
    LegsConcat(ManualPairs(manual, ts), Auto(rule, ts, manual));
    if l in ts && s in ts && l.key !in ByHand(ts, manual) && s.key !in ByHand(ts, manual) {
      AutoMeets(rule, ts, manual, l, s);
      var k :| k in {l.key, s.key} * LegsOf(Auto(rule, ts, manual));
      assert k in LegsOf(AllPairs(rule, ts, manual));
    }
  }

  lemma {:induction false} UnusedMembers(ts: seq<Tagged>, used: set<string>)
    ensures forall t :: t in Unused(ts, used) <==> t in ts && t.key !in used
  {
    if ts != [] {
      UnusedMembers(ts[..|ts| - 1], used);
      assert ts == ts[..|ts| - 1] + [ts[|ts| - 1]];
    }
  }

  /** Any choice of pairs that the rule would accept, from rows not taken by hand, with no key used twice. */
  ghost predicate Matching(rule: Rule, ts: seq<Tagged>, manual: seq<ManualPair>, m: seq<Pair>) {
    && Disjoint(m)
    && forall c :: c in m ==>
         c.long in ts && c.short in ts && Eligible(rule, c.long, c.short) && Legs(c) !! ByHand(ts, manual)
  }

  /** The greedy choice makes at least half as many pairs as any other choice could. */
  lemma AtLeastHalfOfAnyMatching(rule: Rule, ts: seq<Tagged>, manual: seq<ManualPair>, m: seq<Pair>)
    requires Matching(rule, ts, manual, m)
    ensures |m| <= 2 * |Auto(rule, ts, manual)|
  {
    hide Eligible;
    var auto := Auto(rule, ts, manual);
    forall c | c in m
      ensures Legs(c) * LegsOf(auto) != {}
    {
      AutoMeets(rule, ts, manual, c.long, c.short);
    }
    DisjointHits(m, LegsOf(auto));
    LegsCount(auto);
  }

  /** No row other than a long and a short of one symbol has the key of either. */
  ghost predicate NoThirdRow(rule: Rule, ts: seq<Tagged>) {
    forall i, j, k ::
      (0 <= i < |ts| && 0 <= j < |ts| && 0 <= k < |ts| && k != i && k != j && Opposite(rule, ts[i], ts[j]))
      ==> ts[k].key != ts[i].key && ts[k].key != ts[j].key
  }

  /** Distinct row keys are enough for both conditions. */
  lemma DistinctKeysSuffice(rule: Rule, ts: seq<Tagged>)
    requires DistinctKeys(ts)
    ensures NoThirdRow(rule, ts) && SymbolsApart(rule, ts)
  {
    forall x, y, l, s | x in ts && y in ts && l in ts && s in ts
      ensures Apart(rule, x, y, l, s)
    {
      hide DistinctKeys;
      if Opposite(rule, x, y) && Opposite(rule, l, s) && x.p.symbol != l.p.symbol {
        OtherRowOtherKey(ts, x, l);
        OtherRowOtherKey(ts, x, s);
        OtherRowOtherKey(ts, y, l);
        OtherRowOtherKey(ts, y, s);
      }
    }
  }

  lemma OtherRowOtherKey(ts: seq<Tagged>, x: Tagged, y: Tagged)
    requires DistinctKeys(ts) && x in ts && y in ts && x != y
    ensures x.key != y.key
  {
    var i :| 0 <= i < |ts| && ts[i] == x;
    var j :| 0 <= j < |ts| && ts[j] == y;
  }

  /** Choices of two rows each, none of which is in two of them. */
  ghost predicate RowsApart(m: seq<(nat, nat)>) {
    forall a, b :: 0 <= a < b < |m| ==> {m[a].0, m[a].1} !! {m[b].0, m[b].1}
  }

  /** The same choice by places of the list: no row used twice, whatever its key. */
  ghost predicate RowMatching(rule: Rule, ts: seq<Tagged>, manual: seq<ManualPair>, m: seq<(nat, nat)>) {
    && RowsApart(m)
    && forall a :: 0 <= a < |m| ==>
         && m[a].0 < |ts| && m[a].1 < |ts| && Eligible(rule, ts[m[a].0], ts[m[a].1])
         && {ts[m[a].0].key, ts[m[a].1].key} !! ByHand(ts, manual)
  }

  /** A long and a short of one symbol that share a key with two given rows and whose turn comes no earlier. */
  ghost predicate Met(rule: Rule, ts: seq<Tagged>, x: Tagged, y: Tagged, c: (nat, nat)) {
    && c.0 < |ts| && c.1 < |ts| && Opposite(rule, ts[c.0], ts[c.1])
    && {ts[c.0].key, ts[c.1].key} * {x.key, y.key} != {}
    && Turn(Symbols(ts), x.p.symbol) <= Turn(Symbols(ts), ts[c.0].p.symbol)
  }

  ghost predicate MeetsThree(rule: Rule, ts: seq<Tagged>, i: nat, j: nat, m: seq<(nat, nat)>) {
    && i < |ts| && j < |ts| && Opposite(rule, ts[i], ts[j])
    && |m| == 3 && RowsApart(m) && forall a :: 0 <= a < 3 ==> Met(rule, ts, ts[i], ts[j], m[a])
  }

  /** No long and short of one symbol share keys with three pairs of other rows, or of their own, that could all be
      chosen side by side. */
  ghost predicate NoThreeMet(rule: Rule, ts: seq<Tagged>) {
    forall i, j, m :: !MeetsThree(rule, ts, i, j, m)
  }

  /** Where that is so, the bound holds against row-disjoint choices as well. */
  lemma AtLeastHalfOfAnyRows(rule: Rule, ts: seq<Tagged>, manual: seq<ManualPair>, m: seq<(nat, nat)>)
    requires NoThreeMet(rule, ts) && RowMatching(rule, ts, manual, m)
    ensures |m| <= 2 * |Auto(rule, ts, manual)|
  {
    hide NoThreeMet, Met, Auto, RowMatching, HitBelow, NoThreeHit, ByHand;
    var auto := Auto(rule, ts, manual);
    MatchingApart(rule, ts, manual, m);
    var hits := (a: nat, k: nat) => a < |m| && k < |auto| && Met(rule, ts, auto[k].long, auto[k].short, m[a]);
    forall a: nat | a in Below(|m|)
      ensures HitBelow(a, |auto|, hits)
    {
      ChoiceHits(rule, ts, manual, m, a, hits);
    }
    forall k: nat | k < |auto|
      ensures NoThreeHit(Below(|m|), k, hits)
    {
      PairHitsTwo(rule, ts, manual, m, k, hits);
    }
    AtMostTwoEach(Below(|m|), |auto|, hits);
  }

  lemma MatchingApart(rule: Rule, ts: seq<Tagged>, manual: seq<ManualPair>, m: seq<(nat, nat)>)
    requires RowMatching(rule, ts, manual, m)
    ensures RowsApart(m)
  {
  }

  lemma ChoiceHits(rule: Rule, ts: seq<Tagged>, manual: seq<ManualPair>, m: seq<(nat, nat)>, a: nat,
                   hits: (nat, nat) -> bool)
    requires RowMatching(rule, ts, manual, m) && a < |m|
    requires forall k: nat :: k < |Auto(rule, ts, manual)| ==>
               (hits(a, k) <==>
                Met(rule, ts, Auto(rule, ts, manual)[k].long, Auto(rule, ts, manual)[k].short, m[a]))
    ensures HitBelow(a, |Auto(rule, ts, manual)|, hits)
  {
    hide Met, AutoPairs, Eligible;
    var k := ChoiceMet(rule, ts, manual, m[a]);
    assert hits(a, k);
  }

  lemma PairHitsTwo(rule: Rule, ts: seq<Tagged>, manual: seq<ManualPair>, m: seq<(nat, nat)>, k: nat,
                    hits: (nat, nat) -> bool)
    requires NoThreeMet(rule, ts) && RowsApart(m) && k < |Auto(rule, ts, manual)|
    requires forall a: nat :: hits(a, k) ==>
               && a < |m|
               && Met(rule, ts, Auto(rule, ts, manual)[k].long, Auto(rule, ts, manual)[k].short, m[a])
    ensures NoThreeHit(Below(|m|), k, hits)
  {
    hide NoThreeMet, Met, Auto, AutoPair, RowsApart;
    var d := Auto(rule, ts, manual)[k];
    AutoIsAuto(rule, ts, manual, d);
    forall a, b, c | a in Below(|m|) && b in Below(|m|) && c in Below(|m|) && a < b < c
      ensures !(hits(a, k) && hits(b, k) && hits(c, k))
    {
      TwoMet(rule, ts, d, m, a, b, c);
    }
  }

  lemma AutoIsAuto(rule: Rule, ts: seq<Tagged>, manual: seq<ManualPair>, d: Pair)
    requires d in Auto(rule, ts, manual)
    ensures AutoPair(rule, ts, d)
  {
    hide AutoPair;
    AutoMembers(rule, ts, Symbols(ts), ByHand(ts, manual));
  }

  lemma ChoiceMet(rule: Rule, ts: seq<Tagged>, manual: seq<ManualPair>, c: (nat, nat)) returns (k: nat)
    requires c.0 < |ts| && c.1 < |ts| && Eligible(rule, ts[c.0], ts[c.1])
    requires {ts[c.0].key, ts[c.1].key} !! ByHand(ts, manual)
    ensures var auto := Auto(rule, ts, manual);
            k < |auto| && Met(rule, ts, auto[k].long, auto[k].short, c)
  {
    SymbolsDistinct(ts);
    var d := AutoHits(rule, ts, Symbols(ts), ByHand(ts, manual), ts[c.0], ts[c.1]);
    k :| 0 <= k < |Auto(rule, ts, manual)| && Auto(rule, ts, manual)[k] == d;
  }

  lemma TwoMet(rule: Rule, ts: seq<Tagged>, d: Pair, m: seq<(nat, nat)>, a: nat, b: nat, c: nat)
    requires NoThreeMet(rule, ts) && AutoPair(rule, ts, d) && RowsApart(m) && a < b < c < |m|
    ensures !(Met(rule, ts, d.long, d.short, m[a]) && Met(rule, ts, d.long, d.short, m[b])
              && Met(rule, ts, d.long, d.short, m[c]))
  {
    hide Met, Opposite;
    var i :| 0 <= i < |ts| && ts[i] == d.long;
    var j :| 0 <= j < |ts| && ts[j] == d.short;
    assert !MeetsThree(rule, ts, i, j, [m[a], m[b], m[c]]);
  }

  ghost predicate HitBelow(a: nat, n: nat, hits: (nat, nat) -> bool) {
    exists k: nat :: k < n && hits(a, k)
  }

  ghost predicate NoThreeHit(things: set<nat>, k: nat, hits: (nat, nat) -> bool) {
    forall a, b, c :: a in things && b in things && c in things && a < b < c ==>
                        !(hits(a, k) && hits(b, k) && hits(c, k))
  }

  /** When each of some things has a hit among `n` and none of those hits three of them, they are at most 2n. */
  lemma {:induction false} AtMostTwoEach(things: set<nat>, n: nat, hits: (nat, nat) -> bool)
    requires forall a :: a in things ==> HitBelow(a, n, hits)
    requires forall k: nat :: k < n ==> NoThreeHit(things, k, hits)
    ensures |things| <= 2 * n
  {
    if n == 0 {
      assert things == {};
    } else {
      hide HitBelow, NoThreeHit;
      var last := set a | a in things && hits(a, n - 1);
      LastHits(things, last, n, hits);
      AtMostTwoEach(things - last, n - 1, hits);
      assert things == (things - last) + last;
    }
  }

  lemma LastHits(things: set<nat>, last: set<nat>, n: nat, hits: (nat, nat) -> bool)
    requires n > 0 && last <= things && forall a :: a in things ==> (a in last <==> hits(a, n - 1))
    requires forall a :: a in things ==> HitBelow(a, n, hits)
    requires forall k: nat :: k < n ==> NoThreeHit(things, k, hits)
    ensures |last| <= 2
    ensures forall a :: a in things - last ==> HitBelow(a, n - 1, hits)
    ensures forall k: nat :: k < n - 1 ==> NoThreeHit(things - last, k, hits)
  {
    assert NoThreeHit(things, n - 1, hits);
    AtMostTwo(last);
    forall a | a in things - last
      ensures HitBelow(a, n - 1, hits)
    {
      var k: nat :| k < n && hits(a, k);
    }
    forall k: nat | k < n - 1
      ensures NoThreeHit(things - last, k, hits)
    {
      assert NoThreeHit(things, k, hits);
    }
  }

  lemma AtMostTwo(s: set<nat>)
    requires forall a, b, c :: a in s && b in s && c in s ==> !(a < b < c)
    ensures |s| <= 2
  {
    if |s| > 2 { var a, b, c := ThreeOf(s); }
  }

  lemma ThreeOf(s: set<nat>) returns (a: nat, b: nat, c: nat)
    requires |s| > 2
    ensures a in s && b in s && c in s && a < b < c
  {
    var x :| x in s;
    assert |s - {x}| == |s| - 1;
    var y :| y in s - {x};
    assert |s - {x} - {y}| == |s| - 2;
    var z :| z in s - {x} - {y};
    a := if x < y && x < z then x else if y < z then y else z;
    c := if x > y && x > z then x else if y > z then y else z;
    b := x + y + z - a - c;
  }

  /** The first natural numbers. */
  ghost function Below(n: nat): (r: set<nat>)
    ensures |r| == n && forall a: nat :: a in r <==> a < n
  {
    if n == 0 then {} else Below(n - 1) + {n - 1}
  }

  /** Where no third row has the key of a long or short of one symbol, no three pairs do. */
  lemma NoThirdRowSuffices(rule: Rule, ts: seq<Tagged>)
    requires NoThirdRow(rule, ts)
    ensures NoThreeMet(rule, ts)
  {
    forall i, j, m
      ensures !MeetsThree(rule, ts, i, j, m)
    {
      if MeetsThree(rule, ts, i, j, m) {
        hide Opposite, Turn, Symbols;
        MetByRow(rule, ts, i, j, m[0]);
        MetByRow(rule, ts, i, j, m[1]);
        MetByRow(rule, ts, i, j, m[2]);
      }
    }
  }

  /** Fewer than six rows have no three pairs side by side. */
  lemma FewRowsSuffice(rule: Rule, ts: seq<Tagged>)
    requires Sided(rule) && |ts| < 6
    ensures NoThreeMet(rule, ts)
  {
    forall i: nat, j: nat, m: seq<(nat, nat)>
      ensures !MeetsThree(rule, ts, i, j, m)
    {
      if MeetsThree(rule, ts, i, j, m) {
        MetPlaces(rule, ts, i, j, m);
        hide MeetsThree, Sided;
        SixPlaces({m[0].0, m[0].1}, {m[1].0, m[1].1}, {m[2].0, m[2].1}, |ts|);
      }
    }
  }

  lemma MetPlaces(rule: Rule, ts: seq<Tagged>, i: nat, j: nat, m: seq<(nat, nat)>)
    requires Sided(rule) && MeetsThree(rule, ts, i, j, m)
    ensures forall a :: 0 <= a < 3 ==> {m[a].0, m[a].1} <= Below(|ts|) && |{m[a].0, m[a].1}| == 2
    ensures {m[0].0, m[0].1} !! {m[1].0, m[1].1} && {m[0].0, m[0].1} !! {m[2].0, m[2].1}
    ensures {m[1].0, m[1].1} !! {m[2].0, m[2].1}
  {
    hide Turn, Symbols;
    forall a | 0 <= a < 3
      ensures {m[a].0, m[a].1} <= Below(|ts|) && |{m[a].0, m[a].1}| == 2
    {
      assert Met(rule, ts, ts[i], ts[j], m[a]);
      assert m[a].0 != m[a].1;
    }
  }

  lemma SixPlaces(a: set<nat>, b: set<nat>, c: set<nat>, n: nat)
    requires |a| == 2 && |b| == 2 && |c| == 2 && a !! b && a !! c && b !! c && a + b + c <= Below(n)
    ensures n >= 6
  {
    var all := a + b + c;
    assert |all| == 6;
    assert Below(n) == all + (Below(n) - all);
  }

  lemma MetByRow(rule: Rule, ts: seq<Tagged>, i: nat, j: nat, c: (nat, nat))
    requires NoThirdRow(rule, ts) && i < |ts| && j < |ts| && Opposite(rule, ts[i], ts[j])
    requires Met(rule, ts, ts[i], ts[j], c)
    ensures i in {c.0, c.1} || j in {c.0, c.1}
  {
    hide Opposite, Turn, Symbols;
    var k :| k in {ts[c.0].key, ts[c.1].key} * {ts[i].key, ts[j].key};
    assert k == ts[c.0].key || k == ts[c.1].key;
  }

  /** All rows of one key together make at most one pair. */
  lemma OneKeyOnePair(rule: Rule, ts: seq<Tagged>, manual: seq<ManualPair>, k: string)
    requires Sided(rule) && forall t :: t in ts ==> t.key == k
    ensures |AllPairs(rule, ts, manual)| <= 1
  {
    var all := AllPairs(rule, ts, manual);
    PairsSound(rule, ts, manual);
    forall i | 0 <= i < |all|
      ensures Legs(all[i]) == {k}
    {
      assert all[i] in all;
    }
    if |all| > 1 { SharedKeyMeets(all, k); }
  }

  lemma SharedKeyMeets(cs: seq<Pair>, k: string)
    requires |cs| > 1 && forall i :: 0 <= i < |cs| ==> k in Legs(cs[i])
    ensures !Disjoint(cs)
  {
    assert k in Legs(cs[0]) && k in Legs(cs[1]);
  }

  /** Disjoint pairs that all meet a set of keys are no more than the keys. */
  lemma {:induction false} DisjointHits(m: seq<Pair>, keys: set<string>)
    requires Disjoint(m) && forall c :: c in m ==> Legs(c) * keys != {}
    ensures |m| <= |keys|
  {
    if m != [] {
      var front, last := m[..|m| - 1], m[|m| - 1];
      assert last in m;
      var k :| k in Legs(last) * keys;
      forall c | c in front
        ensures Legs(c) * (keys - {k}) != {}
      {
        assert c in m;
        var i :| 0 <= i < |front| && front[i] == c;
        var x :| x in Legs(c) * keys;
        assert Legs(m[i]) !! Legs(m[|m| - 1]);
        assert x in Legs(c) * (keys - {k});
      }
      DisjointHits(front, keys - {k});
    }
  }

  lemma {:induction false} LegsCount(cs: seq<Pair>)
    ensures |LegsOf(cs)| <= 2 * |cs|
  {
    if cs != [] {
      LegsCount(cs[..|cs| - 1]);
      var c := cs[|cs| - 1];
      var before := LegsOf(cs[..|cs| - 1]);
      assert LegsOf(cs) == before + {c.long.key} + {c.short.key};
    }
  }

  // ---------------------------------------------------------------- manual pairs, all pairs

  /** A manual pair is what the user asked for, whatever the sizes. */
  ghost predicate HandPair(ts: seq<Tagged>, manual: seq<ManualPair>, c: Pair) {
    && c.manual && c.long in ts && c.short in ts
    && c.long.p.side == "buy" && c.short.p.side == "sell"
    && ManualPair(c.long.p.symbol, c.long.p.exchange, c.short.p.exchange) in manual
    && c.short.p.symbol == c.long.p.symbol
  }

  lemma {:induction false} ManualMembers(manual: seq<ManualPair>, ts: seq<Tagged>)
    ensures Disjoint(ManualPairs(manual, ts))
    ensures forall c :: c in ManualPairs(manual, ts) ==> HandPair(ts, manual, c)
  {
    if manual != [] {
      var front, mp := manual[..|manual| - 1], manual[|manual| - 1];
      ManualMembers(front, ts);
      assert manual == front + [mp];
      ManualUnfold(front, mp, ts);
      ManualStep(front, mp, ts, ManualPairs(front, ts));
    }
  }

  lemma ManualStep(front: seq<ManualPair>, mp: ManualPair, ts: seq<Tagged>, pairs: seq<Pair>)
    requires Disjoint(pairs) && forall c :: c in pairs ==> HandPair(ts, front, c)
    ensures var all := pairs + ManualMatch(mp, ts, LegsOf(pairs));
            Disjoint(all) && forall c :: c in all ==> HandPair(ts, front + [mp], c)
  {
    hide ManualMatch, HandPair, Legs, Disjoint;
    MatchMembers(mp, ts, LegsOf(pairs), front + [mp]);
    MoreManual(front, mp, ts, pairs);
    DisjointConcat(pairs, ManualMatch(mp, ts, LegsOf(pairs)));
  }

  lemma ManualUnfold(front: seq<ManualPair>, mp: ManualPair, ts: seq<Tagged>)
    ensures ManualPairs(front + [mp], ts) ==
            ManualPairs(front, ts) + ManualMatch(mp, ts, LegsOf(ManualPairs(front, ts)))
  {
    assert (front + [mp])[..|front|] == front;
  }

  lemma MatchMembers(mp: ManualPair, ts: seq<Tagged>, used: set<string>, manual: seq<ManualPair>)
    requires mp in manual
    ensures Disjoint(ManualMatch(mp, ts, used))
    ensures forall c :: c in ManualMatch(mp, ts, used) ==> HandPair(ts, manual, c) && Legs(c) !! used
  {
    OfSymbolMembers(ts, mp.symbol);
  }

  lemma MoreManual(front: seq<ManualPair>, mp: ManualPair, ts: seq<Tagged>, pairs: seq<Pair>)
    requires forall c :: c in pairs ==> HandPair(ts, front, c)
    ensures forall c :: c in pairs ==> HandPair(ts, front + [mp], c)
  {
  }

  /** The newest manual decision is honoured exactly when both of its legs are open and free at its turn. */
  lemma ManualHonouredIff(manual: seq<ManualPair>, mp: ManualPair, ts: seq<Tagged>)
    ensures var taken := LegsOf(ManualPairs(manual, ts));
            |ManualPairs(manual + [mp], ts)| == |ManualPairs(manual, ts)| + 1
            <==>
            (exists l, s :: l in ts && s in ts && Asked(mp, l, s) && l.key !in taken && s.key !in taken)
  {
    var all, taken, group := manual + [mp], LegsOf(ManualPairs(manual, ts)), OfSymbol(ts, mp.symbol);
    assert all[..|all| - 1] == manual;
    OfSymbolMembers(ts, mp.symbol);
    var l, s := FindLeg(group, mp.longExchange, "buy", taken), FindLeg(group, mp.shortExchange, "sell", taken);
    if l.Some? && s.Some? {
      assert Asked(mp, l.value, s.value);
    }
  }

  ghost predicate Asked(mp: ManualPair, l: Tagged, s: Tagged) {
    && l.p.symbol == mp.symbol == s.p.symbol
    && l.p.exchange == mp.longExchange && l.p.side == "buy"
    && s.p.exchange == mp.shortExchange && s.p.side == "sell"
  }

  /** A rule that takes every buy for a long and every sell for a short, and whose longs and shorts are on
      different sides. */
  ghost predicate Sided(rule: Rule) {
    && (forall t: Tagged :: t.p.side == "buy" ==> rule.isLong(t))
    && (forall t: Tagged :: t.p.side == "sell" ==> rule.isShort(t))
    && (forall l, s :: rule.isLong(l) && rule.isShort(s) ==> l.p.side != s.p.side)
  }

  /** Both rules of the source are of that kind. */
  lemma SourceRulesSided()
    ensures Sided(SpreadRule()) && Sided(NotionalRule())
  {
    assert Lower("buy") != Lower("sell");
  }

  /** All pairs together: manual ones first and untouched by the automatic phase, no row in two pairs. */
  lemma PairsSound(rule: Rule, ts: seq<Tagged>, manual: seq<ManualPair>)
    requires Sided(rule)
    ensures Disjoint(AllPairs(rule, ts, manual))
    ensures forall c :: c in AllPairs(rule, ts, manual) ==>
              c.long in ts && c.short in ts && Opposite(rule, c.long, c.short) && c.long.p.side != c.short.p.side
    ensures forall c :: c in AllPairs(rule, ts, manual) ==> HandPair(ts, manual, c) || AutoPair(rule, ts, c)
    ensures forall c :: c in AllPairs(rule, ts, manual) && !c.manual ==> Legs(c) !! ByHand(ts, manual)
  {
    ManualMembers(manual, ts);
    AutoMembers(rule, ts, Symbols(ts), ByHand(ts, manual));
    DisjointConcat(ManualPairs(manual, ts), Auto(rule, ts, manual));
    forall c | c in AllPairs(rule, ts, manual)
      ensures HandPair(ts, manual, c) || (AutoPair(rule, ts, c) && Legs(c) !! ByHand(ts, manual))
      ensures Opposite(rule, c.long, c.short) && c.long.p.side != c.short.p.side
    {
      assert c in Auto(rule, ts, manual) || c in ManualPairs(manual, ts);
    }
  }
}
