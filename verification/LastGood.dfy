/** The last-known-good merge of polled positions: a wallet missing from a response keeps its last rows on screen
    for a short while. */
module LastGood {
  import opened JsMap
  import opened Options
  import opened Text

  datatype Row = Row(wallet: nat, data: int)
  datatype Held = Held(ts: int, rows: seq<Row>)

  type Cache = Entries<string, Held>

  const TTL_MS := 30000

  function CacheKey(scope: string, wallet: nat): string {
    scope + "|" + Decimal(wallet)
  }

  function StartsWith(s: string, prefix: string): bool {
    |prefix| <= |s| && s[..|prefix|] == prefix
  }

  /** Reading a cache key's tail as a number; a tail that holds a bar is not one. */
  function ParseNumber(s: string): Option<nat> {
    if s != [] && forall i :: 0 <= i < |s| ==> '0' <= s[i] <= '9' then Some(Value(s)) else None
  }

  // ---------------------------------------------------------------- what the code computes

  /** The rows of one wallet. */
  function OfWallet(rows: seq<Row>, w: nat): seq<Row> {
    if rows == [] then []
    else OfWallet(rows[..|rows| - 1], w) + if rows[|rows| - 1].wallet == w then [rows[|rows| - 1]] else []
  }

  /** The wallets of a response in order of first appearance. */
  function Wallets(rows: seq<Row>): seq<nat> {
    if rows == [] then []
    else
      var front := Wallets(rows[..|rows| - 1]);
      if rows[|rows| - 1].wallet in front then front else front + [rows[|rows| - 1].wallet]
  }

  function Remembered(m: Cache, scope: string, rows: seq<Row>, ws: seq<nat>, now: int): Cache {
    if ws == [] then m
    else
      var w := ws[|ws| - 1];
      Set(Remembered(m, scope, rows, ws[..|ws| - 1], now), CacheKey(scope, w), Held(now, OfWallet(rows, w)))
  }

  datatype Fate = Skip | Expire | Show

  /** What one poll does with one cached entry. */
  function FateOf(e: (string, Held), scope: string, present: seq<nat>, now: int): Fate {
    if !StartsWith(e.0, scope + "|") then Skip
    else
      match ParseNumber(e.0[|scope| + 1..])
      case Some(w) => if w in present then Skip else if now - e.1.ts > TTL_MS then Expire else Show
      case None => if now - e.1.ts > TTL_MS then Expire else Show
  }

  function Kept(m: Cache, scope: string, present: seq<nat>, now: int): Cache {
    if m == [] then []
    else
      var last := m[|m| - 1];
      Kept(m[..|m| - 1], scope, present, now) + if FateOf(last, scope, present, now) == Expire then [] else [last]
  }

  function Revived(m: Cache, scope: string, present: seq<nat>, now: int): seq<Row> {
    if m == [] then []
    else
      var last := m[|m| - 1];
      Revived(m[..|m| - 1], scope, present, now) + if FateOf(last, scope, present, now) == Show then last.1.rows else []
  }

  function Merge(m: Cache, scope: string, rows: seq<Row>, now: int): (Cache, seq<Row>) {
    var ws := Wallets(rows);
    var m1 := Remembered(m, scope, rows, ws, now);
    (Kept(m1, scope, ws, now), rows + Revived(m1, scope, ws, now))
  }

  /** What happens to the cache: a poll comes in, or the user closes positions. */
  datatype Event = Poll(scope: string, rows: seq<Row>, now: int) | UserClose

  function CacheAfter(run: seq<Event>): Cache {
    if run == [] then []
    else
      match run[|run| - 1]
      case UserClose => []
      case Poll(scope, rows, now) => Merge(CacheAfter(run[..|run| - 1]), scope, rows, now).0
  }

  /** What each poll of a run shows. */
  function ShownBy(run: seq<Event>): seq<seq<Row>> {
    if run == [] then []
    else
      match run[|run| - 1]
      case UserClose => ShownBy(run[..|run| - 1])
      case Poll(scope, rows, now) =>
        ShownBy(run[..|run| - 1]) + [Merge(CacheAfter(run[..|run| - 1]), scope, rows, now).1]
  }

  class PositionMemory {
    var lgPosMap: Cache

    constructor ()
      ensures lgPosMap == []
    {
      lgPosMap := [];
    }

    method MergeRows(scope: string, rows: seq<Row>, now: int) returns (out: seq<Row>)
      requires Distinct(lgPosMap)
      modifies this
      ensures Distinct(lgPosMap)
      ensures (lgPosMap, out) == Merge(old(lgPosMap), scope, rows, now)
    {
      var byWallet := GroupByWallet(rows);
      Remember(scope, rows, byWallet, now);
      var revived := Sweep(scope, Keys(byWallet), now);
      out := rows + revived;
    }

    /** Walks the cached entries: drops the expired ones of this scope, returns the rows of the others that are
        missing. */
    method Sweep(scope: string, present: seq<nat>, now: int) returns (revived: seq<Row>)
      requires Distinct(lgPosMap)
      modifies this
      ensures Distinct(lgPosMap)
      ensures lgPosMap == Kept(old(lgPosMap), scope, present, now)
      ensures revived == Revived(old(lgPosMap), scope, present, now)
    {
      hide FateOf, Distinct;
      var entries := lgPosMap;
      revived := [];
      var i := 0;
      assert [] + entries[0..] == entries;
      while i < |entries|
        invariant 0 <= i <= |entries|
        invariant lgPosMap == Kept(entries[..i], scope, present, now) + entries[i..] && Distinct(lgPosMap)
        invariant revived == Revived(entries[..i], scope, present, now)
      {
        var e := entries[i];
        SweepStep(entries, i, Kept(entries[..i], scope, present, now), scope, present, now);
        match FateOf(e, scope, present, now) {
          case Skip =>
          case Expire => lgPosMap := Delete(lgPosMap, e.0);
          case Show => revived := revived + e.1.rows;
        }
        i := i + 1;
      }
      assert entries[..i] == entries && entries[i..] == [];
    }

    method GroupByWallet(rows: seq<Row>) returns (byWallet: Entries<nat, seq<Row>>)
      ensures Keys(byWallet) == Wallets(rows)
      ensures forall i :: 0 <= i < |byWallet| ==> byWallet[i].1 == OfWallet(rows, byWallet[i].0)
    {
      byWallet := [];
      var i := 0;
      while i < |rows|
        invariant 0 <= i <= |rows|
        invariant Keys(byWallet) == Wallets(rows[..i])
        invariant forall j :: 0 <= j < |byWallet| ==> byWallet[j].1 == OfWallet(rows[..i], byWallet[j].0)
      {
        assert rows[..i + 1] == rows[..i] + [rows[i]];
        WalletStep(byWallet, rows[..i], rows[i]);
        var w := rows[i].wallet;
        byWallet := Set(byWallet, w, (if Has(byWallet, w) then Get(byWallet, w) else []) + [rows[i]]);
        i := i + 1;
      }
      assert rows[..i] == rows;
    }

    method Remember(scope: string, rows: seq<Row>, byWallet: Entries<nat, seq<Row>>, now: int)
      requires Distinct(lgPosMap)
      requires forall i :: 0 <= i < |byWallet| ==> byWallet[i].1 == OfWallet(rows, byWallet[i].0)
      modifies this
      ensures Distinct(lgPosMap)
      ensures lgPosMap == Remembered(old(lgPosMap), scope, rows, Keys(byWallet), now)
    {
      var i := 0;
      ghost var ws := Keys(byWallet);
      while i < |byWallet|
        invariant 0 <= i <= |byWallet| && Distinct(lgPosMap)
        invariant lgPosMap == Remembered(old(lgPosMap), scope, rows, ws[..i], now)
      {
        assert ws[..i + 1][..i] == ws[..i];
        SetContent(lgPosMap, CacheKey(scope, byWallet[i].0), Held(now, byWallet[i].1));
        lgPosMap := Set(lgPosMap, CacheKey(scope, byWallet[i].0), Held(now, byWallet[i].1));
        i := i + 1;
      }
      assert ws[..i] == ws;
    }

    /** After a close the user asked for, nothing may come back. */
    method Clear()
      modifies this
      ensures lgPosMap == []
    {
      lgPosMap := [];
    }

    /** A page's life: polls and closes in any order. */
    method Play(run: seq<Event>) returns (shown: seq<seq<Row>>)
      requires lgPosMap == []
      modifies this
      ensures lgPosMap == CacheAfter(run) && shown == ShownBy(run)
    {
      hide Merge;
      shown := [];
      var i := 0;
      while i < |run|
        invariant 0 <= i <= |run|
        invariant Distinct(lgPosMap)
        invariant lgPosMap == CacheAfter(run[..i]) && shown == ShownBy(run[..i])
      {
        assert run[..i + 1][..i] == run[..i];
        match run[i] {
          case Poll(scope, rows, now) =>
            var out := MergeRows(scope, rows, now);
            shown := shown + [out];
          case UserClose =>
            Clear();
        }
        i := i + 1;
      }
      assert run[..i] == run;
    }
  }

  lemma SweepStep(entries: Cache, i: nat, kept: Cache, scope: string, present: seq<nat>, now: int)
    requires i < |entries| && Distinct(kept + entries[i..]) && kept == Kept(entries[..i], scope, present, now)
    ensures var e, fate := entries[i], FateOf(entries[i], scope, present, now);
            && Kept(entries[..i + 1], scope, present, now) == (if fate == Expire then kept else kept + [e])
            && Revived(entries[..i + 1], scope, present, now) ==
               Revived(entries[..i], scope, present, now) + (if fate == Show then e.1.rows else [])
            && kept + entries[i..] == (kept + [e]) + entries[i + 1..]
            && Delete(kept + entries[i..], e.0) == kept + entries[i + 1..]
            && Distinct(kept + entries[i + 1..])
  {
    hide FateOf;
    assert entries[..i + 1][..i] == entries[..i];
    assert kept + entries[i..] == kept + [entries[i]] + entries[i + 1..];
    DeleteMiddle(kept, entries[i], entries[i + 1..]);
  }

  lemma WalletStep(byWallet: Entries<nat, seq<Row>>, rows: seq<Row>, r: Row)
    requires Keys(byWallet) == Wallets(rows)
    requires forall i :: 0 <= i < |byWallet| ==> byWallet[i].1 == OfWallet(rows, byWallet[i].0)
    ensures var m := Set(byWallet, r.wallet, (if Has(byWallet, r.wallet) then Get(byWallet, r.wallet) else []) + [r]);
            && Keys(m) == Wallets(rows + [r])
            && forall i :: 0 <= i < |m| ==> m[i].1 == OfWallet(rows + [r], m[i].0)
  {
    var w := r.wallet;
    OneMoreRow(rows, r);
    WalletsDistinct(rows);
    HasIffKey(byWallet, w);
    hide OfWallet, Wallets;
    if Has(byWallet, w) {
      assert Keys(Set(byWallet, w, OfWallet(rows + [r], w))) == Keys(byWallet);
    } else {
      assert Keys(byWallet + [(w, [] + [r])]) == Keys(byWallet) + [w];
    }
  }

  lemma OneMoreRow(rows: seq<Row>, r: Row)
    ensures Wallets(rows + [r]) == if r.wallet in Wallets(rows) then Wallets(rows) else Wallets(rows) + [r.wallet]
    ensures forall w :: OfWallet(rows + [r], w) == OfWallet(rows, w) + if w == r.wallet then [r] else []
  {
    assert (rows + [r])[..|rows|] == rows;
  }

  lemma {:induction false} WalletsDistinct(rows: seq<Row>)
    ensures forall i, j :: 0 <= i < j < |Wallets(rows)| ==> Wallets(rows)[i] != Wallets(rows)[j]
    ensures forall w :: w in Wallets(rows) <==> OfWallet(rows, w) != []
  {
    if rows != [] {
      WalletsDistinct(rows[..|rows| - 1]);
    }
  }

  lemma DeleteMiddle(a: Cache, e: (string, Held), b: Cache)
    requires Distinct(a + [e] + b)
    ensures Delete(a + [e] + b, e.0) == a + b && Distinct(a + b)
  {
    var m := a + [e] + b;
    assert m[|a|] == e;
    GetAt(m, |a|);
    assert m[..|a|] == a && m[|a| + 1..] == b;
    DeleteDistinct(m, e.0);
  }
}
