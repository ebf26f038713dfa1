/** What the position merge shows over whole runs of polls. */
module LastGoodLaws {
  import opened Filters
  import opened JsMap
  import opened Options
  import opened Text
  import opened LastGood

  /** The newest non-empty rows of a wallet under a scope since the last clear. */
  ghost function LastSeen(run: seq<Event>, scope: string, w: nat): Option<Held> {
    if run == [] then None
    else
      match run[|run| - 1]
      case UserClose => None
      case Poll(s, rows, now) =>
        if s == scope && OfWallet(rows, w) != [] then Some(Held(now, OfWallet(rows, w)))
        else LastSeen(run[..|run| - 1], scope, w)
  }

  /** A clock that never goes back. */
  ghost predicate Ordered(run: seq<Event>) {
    forall i, j :: 0 <= i < j < |run| && run[i].Poll? && run[j].Poll? ==> run[i].now <= run[j].now
  }

  /** Every poll of a run is of one of these scopes. */
  ghost predicate PollsOf(run: seq<Event>, scopes: set<string>) {
    forall i :: 0 <= i < |run| && run[i].Poll? ==> run[i].scope in scopes
  }

  /** One scope name continues another after a bar, so that its cache keys look like the other's. */
  predicate Continues(other: string, scope: string) {
    StartsWith(other, scope + "|")
  }

  // ---------------------------------------------------------------- keys

  /** A poll of one scope looks at an entry of another exactly when the other name continues its own. */
  lemma KeyStartsIff(scope: string, other: string, w: nat)
    ensures StartsWith(CacheKey(other, w), scope + "|") <==> other == scope || Continues(other, scope)
  {
    var key, prefix := CacheKey(other, w), scope + "|";
    assert key == other + ("|" + Decimal(w));
    if |prefix| <= |other| {
      assert key[..|prefix|] == other[..|prefix|];
    } else if |scope| == |other| {
      assert key[..|prefix|] == other + "|";
      assert prefix[..|scope|] == scope && (other + "|")[..|other|] == other;
    } else if |prefix| <= |key| {
      assert key[|scope|] == Decimal(w)[|scope| - |other| - 1];
      assert prefix[|scope|] == '|' && key[..|prefix|][|scope|] == key[|scope|];
    }
  }

  lemma KeyTail(scope: string, w: nat)
    ensures ParseNumber(CacheKey(scope, w)[|scope| + 1..]) == Some(w)
  {
    assert CacheKey(scope, w)[|scope| + 1..] == Decimal(w);
    DecimalRoundTrip(w);
  }

  /** The tail of a continuing scope's key holds a bar and is no number. */
  lemma ContinuedTail(scope: string, other: string, w: nat)
    requires Continues(other, scope)
    ensures |scope| + 1 <= |CacheKey(other, w)| && ParseNumber(CacheKey(other, w)[|scope| + 1..]) == None
  {
    var tail := CacheKey(other, w)[|scope| + 1..];
    assert tail[|other| - |scope| - 1] == '|';
  }

  lemma LastBar(scope: string, w: nat)
    ensures var key := CacheKey(scope, w);
            && |scope| < |key| && key[..|scope|] == scope && key[|scope|] == '|'
            && forall i :: |scope| < i < |key| ==> key[i] != '|'
  {
    assert CacheKey(scope, w) == scope + ("|" + Decimal(w));
  }

  /** Scope and wallet can be read off a key: the wallet is what follows the last bar. */
  lemma KeysInjective(s1: string, w1: nat, s2: string, w2: nat)
    requires CacheKey(s1, w1) == CacheKey(s2, w2)
    ensures s1 == s2 && w1 == w2
  {
    hide CacheKey;
    LastBar(s1, w1);
    LastBar(s2, w2);
    KeyTail(s1, w1);
    KeyTail(s2, w2);
  }

  // ---------------------------------------------------------------- rows of a wallet

  lemma {:induction false} OfWalletConcat(a: seq<Row>, b: seq<Row>, w: nat)
    ensures OfWallet(a + b, w) == OfWallet(a, w) + OfWallet(b, w)
  {
    if b == [] {
      assert a + b == a;
    } else {
      assert (a + b)[..|a + b| - 1] == a + b[..|b| - 1];
      OfWalletConcat(a, b[..|b| - 1], w);
    }
  }

  lemma {:induction false} OfWalletTwice(rows: seq<Row>, w: nat, x: nat)
    ensures OfWallet(OfWallet(rows, w), x) == if x == w then OfWallet(rows, w) else []
  {
    if rows != [] {
      var front, last := rows[..|rows| - 1], rows[|rows| - 1];
      OfWalletTwice(front, w, x);
      OfWalletConcat(OfWallet(front, w), if last.wallet == w then [last] else [], x);
      assert [last][..0] == [];
    }
  }

  /** A wallet's rows are its rows of the response, in their order. */
  lemma {:induction false} OfWalletIsFilter(rows: seq<Row>, w: nat)
    ensures OfWallet(rows, w) == Filter(rows, (r: Row) => r.wallet == w)
  {
    if rows != [] {
      OfWalletIsFilter(rows[..|rows| - 1], w);
    }
  }

  /** A wallet takes its place in the response with its first row. */
  lemma WalletPlaces(rows: seq<Row>, r: Row)
    ensures Wallets(rows + [r]) ==
            if exists x :: x in rows && x.wallet == r.wallet then Wallets(rows) else Wallets(rows) + [r.wallet]
  {
    OneMoreRow(rows, r);
    WalletsDistinct(rows);
    OfWalletIsFilter(rows, r.wallet);
    var keep := (x: Row) => x.wallet == r.wallet;
    FilterPlaces(rows, keep);
    if x :| x in rows && x.wallet == r.wallet {
      var i :| 0 <= i < |rows| && rows[i] == x;
      PlacesAll(rows, keep, i);
    }
    if OfWallet(rows, r.wallet) != [] {
      var i := Places(rows, keep)[0];
      PlacesAll(rows, keep, i);
      assert i in Places(rows, keep) && rows[i] in rows;
    }
  }

  /** A poll shows the current rows first, as they came. */
  lemma CurrentRowsFirst(m: Cache, scope: string, rows: seq<Row>, now: int)
    ensures |rows| <= |Merge(m, scope, rows, now).1| && Merge(m, scope, rows, now).1[..|rows|] == rows
  {
  }

  /** What a run shows at each of its polls is what that poll shows of the cache before it. */
  ghost function Polls(run: seq<Event>): nat {
    if run == [] then 0 else Polls(run[..|run| - 1]) + if run[|run| - 1].Poll? then 1 else 0
  }

  lemma {:induction false} ShownAt(before: seq<Event>, scope: string, rows: seq<Row>, now: int, after: seq<Event>)
    ensures var run := before + [Poll(scope, rows, now)] + after;
            && |ShownBy(run)| == Polls(run) && Polls(before) < Polls(run)
            && ShownBy(run)[Polls(before)] == Merge(CacheAfter(before), scope, rows, now).1
    decreases |after|
  {
    hide Merge;
    var run := before + [Poll(scope, rows, now)] + after;
    if after == [] {
      assert run[..|run| - 1] == before;
      ShownCount(before);
    } else {
      assert run[..|run| - 1] == before + [Poll(scope, rows, now)] + after[..|after| - 1];
      ShownAt(before, scope, rows, now, after[..|after| - 1]);
    }
  }

  lemma {:induction false} ShownCount(run: seq<Event>)
    ensures |ShownBy(run)| == Polls(run)
  {
    hide Merge;
    if run != [] {
      ShownCount(run[..|run| - 1]);
    }
  }

  // ---------------------------------------------------------------- one entry

  /** The entry of a scope's wallet, holding only rows of that wallet. */
  ghost predicate EntryOf(e: (string, Held), scope: string, w: nat) {
    e.0 == CacheKey(scope, w) && forall x :: OfWallet(e.1.rows, x) == if x == w then e.1.rows else []
  }

  /** A cache of entries of these scopes. */
  ghost predicate Shaped(m: Cache, scopes: set<string>) {
    Distinct(m) && forall i :: 0 <= i < |m| ==> SomeEntry(m[i], scopes)
  }

  ghost predicate SomeEntry(e: (string, Held), scopes: set<string>) {
    exists scope, w :: scope in scopes && EntryOf(e, scope, w)
  }

  ghost predicate TooOld(h: Held, now: int) {
    now - h.ts > TTL_MS
  }

  lemma FateOfEntry(e: (string, Held), s: string, w: nat, scope: string, present: seq<nat>, now: int)
    requires EntryOf(e, s, w)
    ensures FateOf(e, scope, present, now) ==
            if (s != scope && !Continues(s, scope)) || (s == scope && w in present) then Skip
            else if TooOld(e.1, now) then Expire else Show
  {
    KeyStartsIff(scope, s, w);
    KeyTail(s, w);
    if Continues(s, scope) { ContinuedTail(scope, s, w); }
  }

  lemma ExpiredIsTooOld(e: (string, Held), scope: string, present: seq<nat>, now: int)
    ensures FateOf(e, scope, present, now) == Expire ==> TooOld(e.1, now)
  {
  }

  // ---------------------------------------------------------------- remembering a response

  lemma {:induction false} RememberedLookup(
    m: Cache, scopes: set<string>, scope: string, rows: seq<Row>, ws: seq<nat>, now: int, s: string, w: nat)
    requires Shaped(m, scopes) && scope in scopes
    ensures var m1, k := Remembered(m, scope, rows, ws, now), CacheKey(s, w);
            && Shaped(m1, scopes)
            && (Has(m1, k) <==> Has(m, k) || (s == scope && w in ws))
            && (Has(m1, k) ==> Get(m1, k) == if s == scope && w in ws then Held(now, OfWallet(rows, w)) else Get(m, k))
  {
    hide CacheKey, OfWallet, EntryOf, Continues;
    if ws != [] {
      var front, x := ws[..|ws| - 1], ws[|ws| - 1];
      var m0 := Remembered(m, scope, rows, front, now);
      RememberedLookup(m, scopes, scope, rows, front, now, s, w);
      SetEntry(m0, scopes, scope, x, now, rows, s, w);
      assert ws == front + [x];
    }
  }

  lemma SetEntry(m: Cache, scopes: set<string>, scope: string, x: nat, now: int, rows: seq<Row>, s: string, w: nat)
    requires Shaped(m, scopes) && scope in scopes
    ensures var k0, h, k := CacheKey(scope, x), Held(now, OfWallet(rows, x)), CacheKey(s, w);
            && Shaped(Set(m, k0, h), scopes)
            && (Has(Set(m, k0, h), k) <==> Has(m, k) || (s == scope && w == x))
            && (Has(Set(m, k0, h), k) ==> Get(Set(m, k0, h), k) == if s == scope && w == x then h else Get(m, k))
  {
    var k0, h, k := CacheKey(scope, x), Held(now, OfWallet(rows, x)), CacheKey(s, w);
    SetLookup(m, k0, h, k);
    if k0 == k { KeysInjective(scope, x, s, w); }
    forall y
      ensures OfWallet(h.rows, y) == if y == x then h.rows else []
    {
      OfWalletTwice(rows, x, y);
    }
    assert EntryOf((k0, h), scope, x) && SomeEntry((k0, h), scopes);
    SetShaped(m, scopes, k0, h);
  }

  lemma SetShaped(m: Cache, scopes: set<string>, k: string, h: Held)
    requires Shaped(m, scopes) && SomeEntry((k, h), scopes)
    ensures Shaped(Set(m, k, h), scopes)
  {
    hide SomeEntry;
    SetDistinct(m, k, h);
  }

  // ---------------------------------------------------------------- sweeping

  lemma {:induction false} KeptMembers(m: Cache, scope: string, present: seq<nat>, now: int)
    requires Distinct(m)
    ensures Distinct(Kept(m, scope, present, now))
    ensures forall e :: e in Kept(m, scope, present, now) <==> e in m && FateOf(e, scope, present, now) != Expire
  {
    hide FateOf;
    if m != [] {
      var front, last := m[..|m| - 1], m[|m| - 1];
      KeptMembers(front, scope, present, now);
      assert m == front + [last];
      var kept := Kept(front, scope, present, now);
      forall i | 0 <= i < |kept|
        ensures kept[i].0 != last.0
      {
        assert kept[i] in front;
      }
    }
  }

  lemma MemberLookup(m: Cache, e: (string, Held))
    requires Distinct(m)
    ensures e in m <==> Has(m, e.0) && Get(m, e.0) == e.1
  {
    if e in m {
      var i :| 0 <= i < |m| && m[i] == e;
      GetAt(m, i);
    }
    if Has(m, e.0) && Get(m, e.0) == e.1 {
      assert m[IndexOf(m, e.0)] == e;
    }
  }

  lemma KeptShaped(m: Cache, scopes: set<string>, scope: string, present: seq<nat>, now: int)
    requires Shaped(m, scopes)
    ensures Shaped(Kept(m, scope, present, now), scopes)
  {
    var kept := Kept(m, scope, present, now);
    KeptMembers(m, scope, present, now);
    forall i | 0 <= i < |kept|
      ensures SomeEntry(kept[i], scopes)
    {
      assert kept[i] in kept;
      var j :| 0 <= j < |m| && m[j] == kept[i];
    }
  }

  lemma KeptLookup(m: Cache, scope: string, present: seq<nat>, now: int, k: string)
    requires Distinct(m)
    ensures var kept := Kept(m, scope, present, now);
            && (Has(kept, k) <==> Has(m, k) && FateOf((k, Get(m, k)), scope, present, now) != Expire)
            && (Has(kept, k) ==> Get(kept, k) == Get(m, k))
  {
    hide FateOf;
    var kept := Kept(m, scope, present, now);
    KeptMembers(m, scope, present, now);
    if Has(kept, k) {
      MemberLookup(kept, (k, Get(kept, k)));
      MemberLookup(m, (k, Get(kept, k)));
    }
    if Has(m, k) {
      MemberLookup(m, (k, Get(m, k)));
      MemberLookup(kept, (k, Get(m, k)));
    }
  }

  /** A wallet's share of the revived rows is its own held rows, if they are shown at all. */
  lemma {:induction false} RevivedOfWallet(
    m: Cache, scopes: set<string>, scope: string, present: seq<nat>, now: int, w: nat)
    requires Shaped(m, scopes) && forall s :: s in scopes ==> !Continues(s, scope)
    ensures var k := CacheKey(scope, w);
            OfWallet(Revived(m, scope, present, now), w) ==
            if Has(m, k) && FateOf((k, Get(m, k)), scope, present, now) == Show then Get(m, k).rows else []
  {
    hide FateOf, CacheKey, EntryOf, Continues;
    if m != [] {
      var k, front, last := CacheKey(scope, w), m[..|m| - 1], m[|m| - 1];
      assert forall i :: 0 <= i < |front| ==> front[i] == m[i];
      assert SomeEntry(last, scopes);
      RevivedOfWallet(front, scopes, scope, present, now, w);
      var more := if FateOf(last, scope, present, now) == Show then last.1.rows else [];
      OfWalletConcat(Revived(front, scope, present, now), more, w);
      var s, x :| s in scopes && EntryOf(last, s, x);
      ShownRows(last, s, x, scope, present, now, w);
      LookupInFront(m, k);
    }
  }

  lemma LookupInFront(m: Cache, k: string)
    requires Distinct(m) && m != []
    ensures var front, last := m[..|m| - 1], m[|m| - 1];
            && (Has(m, k) <==> Has(front, k) || last.0 == k)
            && (Has(front, k) ==> last.0 != k && Get(m, k) == Get(front, k))
            && (last.0 == k ==> Get(m, k) == last.1)
  {
    var front, last := m[..|m| - 1], m[|m| - 1];
    if Has(front, k) {
      assert m[IndexOf(front, k)] == front[IndexOf(front, k)];
      GetAt(m, IndexOf(front, k));
    }
    GetAt(m, |m| - 1);
    if Has(m, k) && last.0 != k {
      assert front[IndexOf(m, k)] == m[IndexOf(m, k)];
    }
  }

  lemma ShownRows(e: (string, Held), s: string, x: nat, scope: string, present: seq<nat>, now: int, w: nat)
    requires EntryOf(e, s, x) && !Continues(s, scope)
    ensures FateOf(e, scope, present, now) == Show ==>
              OfWallet(e.1.rows, w) == if e.0 == CacheKey(scope, w) then e.1.rows else []
  {
    FateOfEntry(e, s, x, scope, present, now);
    if e.0 == CacheKey(scope, w) { KeysInjective(scope, w, s, x); }
  }

  // ---------------------------------------------------------------- whole runs

  /** The cache knows exactly what was last seen, except what had already expired by some earlier poll. */
  ghost predicate Remembers(run: seq<Event>, scope: string, w: nat) {
    var m, k := CacheAfter(run), CacheKey(scope, w);
    && (Has(m, k) ==> LastSeen(run, scope, w) == Some(Get(m, k)))
    && (!Has(m, k) && LastSeen(run, scope, w).Some? ==>
          exists i :: 0 <= i < |run| && run[i].Poll? && TooOld(LastSeen(run, scope, w).value, run[i].now))
  }

  lemma {:induction false} RunShaped(run: seq<Event>, scopes: set<string>)
    requires PollsOf(run, scopes)
    ensures Shaped(CacheAfter(run), scopes)
  {
    hide FateOf, CacheKey, OfWallet, EntryOf, SomeEntry;
    if run != [] && run[|run| - 1].Poll? {
      var front, e := run[..|run| - 1], run[|run| - 1];
      RunShaped(front, scopes);
      var m, ws := CacheAfter(front), Wallets(e.rows);
      RememberedLookup(m, scopes, e.scope, e.rows, ws, e.now, e.scope, 0);
      KeptShaped(Remembered(m, e.scope, e.rows, ws, e.now), scopes, e.scope, ws, e.now);
    }
  }

  function ScopesOf(run: seq<Event>): set<string> {
    set i | 0 <= i < |run| && run[i].Poll? :: run[i].scope
  }

  /** Whatever the scopes are called, the cache holds for each of them and each wallet exactly what was last seen
      since the last clear, unless it was too old at some poll. */
  lemma {:induction false} RunRemembers(run: seq<Event>, scope: string, w: nat)
    ensures Remembers(run, scope, w)
  {
    hide FateOf, CacheKey, OfWallet, EntryOf, SomeEntry, Kept, Remembered;
    if run != [] && run[|run| - 1].Poll? {
      var front, e, k := run[..|run| - 1], run[|run| - 1], CacheKey(scope, w);
      var scopes := ScopesOf(run);
      assert forall i :: 0 <= i < |front| ==> front[i] == run[i];
      RunShaped(front, scopes);
      RunRemembers(front, scope, w);
      var m, ws := CacheAfter(front), Wallets(e.rows);
      var m1 := Remembered(m, e.scope, e.rows, ws, e.now);
      RememberedLookup(m, scopes, e.scope, e.rows, ws, e.now, scope, w);
      WalletsDistinct(e.rows);
      KeptLookup(m1, e.scope, ws, e.now, k);
      if !Has(CacheAfter(run), k) && LastSeen(run, scope, w).Some? {
        if Has(m1, k) {
          ExpiredIsTooOld((k, Get(m1, k)), e.scope, ws, e.now);
          assert TooOld(LastSeen(run, scope, w).value, run[|run| - 1].now);
        } else {
          var i :| 0 <= i < |front| && front[i].Poll? && TooOld(LastSeen(front, scope, w).value, front[i].now);
          assert run[i] == front[i];
        }
      }
    }
  }

  /** A present key of the cache is the entry of its scope and wallet. */
  lemma EntryAt(m: Cache, scopes: set<string>, scope: string, w: nat)
    requires Shaped(m, scopes) && Has(m, CacheKey(scope, w))
    ensures EntryOf((CacheKey(scope, w), Get(m, CacheKey(scope, w))), scope, w)
  {
    var i := IndexOf(m, CacheKey(scope, w));
    assert SomeEntry(m[i], scopes);
    var s, x :| s in scopes && EntryOf(m[i], s, x);
    KeysInjective(scope, w, s, x);
    assert m[i] == (CacheKey(scope, w), Get(m, CacheKey(scope, w)));
  }

  /** What a poll should show of a wallet: its current rows if it has any, else the rows last seen under the same
      scope since the last clear if they are at most 30 s old, else nothing. */
  ghost predicate ShowsRight(run: seq<Event>, scope: string, rows: seq<Row>, now: int, w: nat) {
    var shown := Merge(CacheAfter(run), scope, rows, now).1;
    OfWallet(shown, w) ==
    if OfWallet(rows, w) != [] then OfWallet(rows, w)
    else
      match LastSeen(run, scope, w)
      case None => []
      case Some(h) => if TooOld(h, now) then [] else h.rows
  }

  /** Over any run in which no polled scope continues this one, a poll shows of every wallet what it should. */
  lemma PollShows(run: seq<Event>, scope: string, rows: seq<Row>, now: int, w: nat)
    requires Ordered(run + [Poll(scope, rows, now)])
    requires forall s :: s in ScopesOf(run) ==> !Continues(s, scope)
    ensures ShowsRight(run, scope, rows, now, w)
  {
    hide FateOf, CacheKey, OfWallet, EntryOf, SomeEntry, Kept, Remembered;
    var all, scopes := run + [Poll(scope, rows, now)], ScopesOf(run) + {scope};
    assert all[|run|] == Poll(scope, rows, now) && forall i :: 0 <= i < |run| ==> all[i] == run[i];
    NotContinued(scope);
    RunShaped(run, scopes);
    RunRemembers(run, scope, w);
    var m, ws, k := CacheAfter(run), Wallets(rows), CacheKey(scope, w);
    var m1 := Remembered(m, scope, rows, ws, now);
    RememberedLookup(m, scopes, scope, rows, ws, now, scope, w);
    WalletsDistinct(rows);
    RevivedOfWallet(m1, scopes, scope, ws, now, w);
    OfWalletConcat(rows, Revived(m1, scope, ws, now), w);
    if Has(m1, k) {
      EntryAt(m1, scopes, scope, w);
      FateOfEntry((k, Get(m1, k)), scope, w, scope, ws, now);
    } else if LastSeen(run, scope, w).Some? {
      var i :| 0 <= i < |run| && run[i].Poll? && TooOld(LastSeen(run, scope, w).value, run[i].now);
      assert all[i].now <= all[|run|].now;
    }
  }

  lemma NotContinued(scope: string)
    ensures !Continues(scope, scope)
  {
  }

  /** A scope that continues the polled one leaks: its rows are shown although the polled scope never had any. */
  lemma ContinuedScopeLeaks(scope: string, other: string, r: Row, now: int)
    requires Continues(other, scope)
    ensures !ShowsRight([Poll(other, [r], now)], scope, [], now, r.wallet)
  {
    hide FateOf, CacheKey, StartsWith, Continues, EntryOf, LastSeen;
    var run, w := [Poll(other, [r], now)], r.wallet;
    var e := (CacheKey(other, w), Held(now, [r]));
    OneRow(r);
    CacheOfOne(other, r, now);
    FreshEntry(other, r, now);
    FateOfEntry(e, other, w, scope, [], now);
    OneEntry(e, scope, [], now);
    NotSeen(scope, other, r, now);
    assert Remembered([e], scope, [], [], now) == [e];
    assert [] + [r] == [r];
  }

  lemma FreshEntry(scope: string, r: Row, now: int)
    ensures EntryOf((CacheKey(scope, r.wallet), Held(now, [r])), scope, r.wallet)
  {
    OneRow(r);
  }

  lemma CacheOfOne(scope: string, r: Row, now: int)
    ensures CacheAfter([Poll(scope, [r], now)]) == [(CacheKey(scope, r.wallet), Held(now, [r]))]
  {
    hide FateOf, CacheKey, StartsWith, EntryOf;
    var e, ws := (CacheKey(scope, r.wallet), Held(now, [r])), [r.wallet];
    OneRow(r);
    FreshEntry(scope, r, now);
    FateOfEntry(e, scope, r.wallet, scope, ws, now);
    OneEntry(e, scope, ws, now);
    assert [Poll(scope, [r], now)][..0] == [];
    assert ws[..0] == [];
    assert Remembered([], scope, [r], [], now) == [];
    assert Remembered([], scope, [r], ws, now) == [e];
  }

  lemma NotSeen(scope: string, other: string, r: Row, now: int)
    requires Continues(other, scope)
    ensures LastSeen([Poll(other, [r], now)], scope, r.wallet) == None
  {
    assert [Poll(other, [r], now)][..0] == [];
  }

  lemma OneRow(r: Row)
    ensures Wallets([r]) == [r.wallet]
    ensures forall w :: OfWallet([r], w) == if w == r.wallet then [r] else []
  {
    assert [r][..0] == [];
  }

  lemma OneEntry(e: (string, Held), scope: string, present: seq<nat>, now: int)
    ensures FateOf(e, scope, present, now) != Expire ==> Kept([e], scope, present, now) == [e]
    ensures FateOf(e, scope, present, now) == Show ==> Revived([e], scope, present, now) == e.1.rows
  {
    hide FateOf;
    assert [e][..0] == [];
  }

  /** Scopes never mix, over all runs of polls of them, if and only if none of their names continues another. */
  lemma ScopesApartIff(scopes: set<string>)
    ensures (forall run, scope, rows, now, w ::
               scope in scopes && PollsOf(run, scopes) && Ordered(run + [Poll(scope, rows, now)])
               ==> ShowsRight(run, scope, rows, now, w))
       <==> (forall s, t :: s in scopes && t in scopes ==> !Continues(t, s))
  {
    hide ShowsRight, Continues;
    if forall s, t :: s in scopes && t in scopes ==> !Continues(t, s) {
      forall run, scope, rows, now, w |
        scope in scopes && PollsOf(run, scopes) && Ordered(run + [Poll(scope, rows, now)])
        ensures ShowsRight(run, scope, rows, now, w)
      {
        PollShows(run, scope, rows, now, w);
      }
    } else {
      var s, t :| s in scopes && t in scopes && Continues(t, s);
      var r := Row(0, 0);
      var run := [Poll(t, [r], 0)];
      ContinuedScopeLeaks(s, t, r, 0);
      assert PollsOf(run, scopes) && Ordered(run + [Poll(s, [], 0)]) && !ShowsRight(run, s, [], 0, 0);
    }
  }

  /** The two scopes of a page, the account's and its symbol's, never mix, whatever the symbol. */
  lemma PageScopesApart(sym: string, run: seq<Event>, scope: string, rows: seq<Row>, now: int, w: nat)
    requires PollsOf(run, {"acc", "sym:" + sym}) && scope in {"acc", "sym:" + sym}
    requires Ordered(run + [Poll(scope, rows, now)])
    ensures ShowsRight(run, scope, rows, now, w)
  {
    hide ShowsRight, Ordered;
    NotContinued("acc");
    NotContinued("sym:" + sym);
    assert ("sym:" + sym)[0] == 's' && ("acc" + "|")[0] == 'a' && ("sym:" + sym + "|")[0] == 's' && "acc"[0] == 'a';
    assert !Continues("sym:" + sym, "acc") && !Continues("acc", "sym:" + sym);
    PollShows(run, scope, rows, now, w);
  }

  /** A poll clears away what is too old in its scope: whatever is left there is of a wallet in the response, or
      fresh. */
  lemma PollSweeps(m: Cache, scopes: set<string>, scope: string, rows: seq<Row>, now: int, w: nat)
    requires Shaped(m, scopes) && scope in scopes
    ensures var m', k := Merge(m, scope, rows, now).0, CacheKey(scope, w);
            && (Has(m', k) ==> !TooOld(Get(m', k), now))
            && (OfWallet(rows, w) != [] ==> Has(m', k) && Get(m', k) == Held(now, OfWallet(rows, w)))
  {
    hide FateOf, CacheKey, OfWallet, EntryOf, SomeEntry, Kept, Remembered;
    var ws, k := Wallets(rows), CacheKey(scope, w);
    var m1 := Remembered(m, scope, rows, ws, now);
    RememberedLookup(m, scopes, scope, rows, ws, now, scope, w);
    WalletsDistinct(rows);
    KeptLookup(m1, scope, ws, now, k);
    if Has(m1, k) {
      EntryAt(m1, scopes, scope, w);
      FateOfEntry((k, Get(m1, k)), scope, w, scope, ws, now);
    }
  }

  /** After a clear nothing older comes back: what a poll shows depends only on what came after it. */
  lemma {:induction false} ClearForgets(before: seq<Event>, after: seq<Event>)
    ensures CacheAfter(before + [UserClose] + after) == CacheAfter(after)
    decreases |after|
  {
    hide Merge;
    var run := before + [UserClose] + after;
    if after == [] {
      assert run[|run| - 1] == UserClose;
    } else {
      assert run[..|run| - 1] == before + [UserClose] + after[..|after| - 1];
      ClearForgets(before, after[..|after| - 1]);
    }
  }
}
