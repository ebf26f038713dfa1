/** The names under which rows are kept and removed, and what a payload does to the row of a name. */
module ArbNames {
  import opened JsMap
  import opened Options
  import opened ArbFeed
  import opened ArbFeedRuns

  // ---------------------------------------------------------------- names

  /** The server names a dropped row by its symbol and its two venues; that is the name it was stored under. */
  lemma RemovedByName(o: Opp)
    ensures Parts([o.symbol, o.longExchange, o.shortExchange]).Joined() == KeyOf(o)
    ensures Text(o.symbol + "|" + o.longExchange + "|" + o.shortExchange).Joined() == KeyOf(o)
  {
    JoinTwo(o.longExchange, o.shortExchange);
    assert [o.symbol, o.longExchange, o.shortExchange][1..] == [o.longExchange, o.shortExchange];
    assert o.symbol + "|" + o.longExchange + "|" + o.shortExchange
        == o.symbol + "|" + (o.longExchange + "|" + o.shortExchange);
  }

  lemma JoinTwo(a: string, b: string)
    ensures Join([a, b]) == a + "|" + b
  {
    assert [a, b][1..] == [b];
  }

  predicate NoBar(s: string) {
    '|' !in s
  }

  /** Texts up to their first bar are equal when the whole texts are. */
  lemma FirstBar(a: string, x: string, b: string, y: string)
    requires NoBar(a) && NoBar(b) && a + "|" + x == b + "|" + y
    ensures a == b && x == y
  {
    var s := a + "|" + x;
    assert s[|a|] == '|' && s[|b|] == '|';
    assert forall i :: 0 <= i < |a| ==> s[i] == a[i];
    assert forall i :: 0 <= i < |b| ==> s[i] == b[i];
    assert |a| == |b|;
    assert a == s[..|a|] && b == s[..|b|];
    assert x == s[|a| + 1..] && y == s[|b| + 1..];
  }

  /** Two opportunities share a row exactly when symbol, long venue and short venue agree; a bar may only be in the last
      of the three. */
  lemma SameRowIff(o: Opp, p: Opp)
    requires NoBar(o.symbol) && NoBar(o.longExchange) && NoBar(p.symbol) && NoBar(p.longExchange)
    ensures KeyOf(o) == KeyOf(p) <==>
            o.symbol == p.symbol && o.longExchange == p.longExchange && o.shortExchange == p.shortExchange
  {
    if KeyOf(o) == KeyOf(p) {
      assert KeyOf(o) == o.symbol + "|" + (o.longExchange + "|" + o.shortExchange);
      assert KeyOf(p) == p.symbol + "|" + (p.longExchange + "|" + p.shortExchange);
      FirstBar(o.symbol, o.longExchange + "|" + o.shortExchange, p.symbol, p.longExchange + "|" + p.shortExchange);
      FirstBar(o.longExchange, o.shortExchange, p.longExchange, p.shortExchange);
    }
  }

  // ---------------------------------------------------------------- one payload, one row

  /** The newest of some rows under a key. */
  ghost function LastOf(os: seq<Opp>, k: Key): Option<Opp> {
    if os == [] then None
    else if KeyOf(os[|os| - 1]) == k then Some(os[|os| - 1])
    else LastOf(os[..|os| - 1], k)
  }

  lemma {:induction false} MergedIsLast(m: map<Key, Opp>, os: seq<Opp>, k: Key)
    ensures Lookup(Merged(m, os), k) == if LastOf(os, k).Some? then LastOf(os, k) else Lookup(m, k)
  {
    if os != [] {
      MergedIsLast(m, os[..|os| - 1], k);
    }
  }

  /** After a diff a removed name is not live, whatever else the diff says of it; any other shows the newest of its
      updates, else the newest of its additions, else what it showed before. */
  lemma DiffShows(s: State, added: seq<Opp>, updated: seq<Opp>, removed: seq<RemovedKey>, now: int, k: Key)
    requires Distinct(s.rows)
    ensures Lookup(Live(Apply(s, Diff(added, updated, removed), now)), k) ==
            if exists r :: r in removed && r.Joined() == k then None
            else if LastOf(updated, k).Some? then LastOf(updated, k)
            else if LastOf(added, k).Some? then LastOf(added, k)
            else Lookup(Live(s), k)
  {
    hide Live, Apply, KeyOf;
    SoftMeaning(s, Diff(added, updated, removed), now);
    MergedIsLast(Live(s), added, k);
    MergedIsLast(Merged(Live(s), added), updated, k);
    RemovedNames(removed, k);
  }

  lemma RemovedNames(removed: seq<RemovedKey>, k: Key)
    ensures k in KeySet(RemovedKeys(removed)) <==> exists r :: r in removed && r.Joined() == k
  {
    var ks := RemovedKeys(removed);
    if k in ks {
      var i :| 0 <= i < |ks| && ks[i] == k;
      assert removed[i] in removed && removed[i].Joined() == k;
    }
    if r :| r in removed && r.Joined() == k {
      var i :| 0 <= i < |removed| && removed[i] == r;
      assert ks[i] == k;
    }
  }

  /** After a snapshot a name shows the snapshot's newest row of it, if any. */
  lemma SnapshotShows(s: State, opps: seq<Opp>, now: int, k: Key)
    requires Distinct(s.rows)
    ensures Lookup(Live(Apply(s, Snapshot(opps), now)), k) == LastOf(opps, k)
  {
    hide Apply, KeyOf;
    SnapshotMeaning(s, opps, now);
    MergedIsLast(map[], opps, k);
  }

  /** A diff that names an opportunity as removed takes exactly that one out of the live rows, and when its grace period
      ends without a mention, off the screen. */
  lemma RemovalTakesOut(s: State, o: Opp, byParts: bool, now: int)
    requires Distinct(s.rows)
    ensures var r := if byParts then Parts([o.symbol, o.longExchange, o.shortExchange]) else Text(KeyOf(o));
            var s' := Apply(s, Diff([], [], [r]), now);
            && Live(s') == Live(s) - {KeyOf(o)}
            && KeyOf(o) in s'.timers && !Has(Expire(s', KeyOf(o)).rows, KeyOf(o))
  {
    var r := if byParts then Parts([o.symbol, o.longExchange, o.shortExchange]) else Text(KeyOf(o));
    RemovedByName(o);
    var k := KeyOf(o);
    hide KeyOf, Content, Delete;
    assert r.Joined() == k;
    SoftMeaning(s, Diff([], [], [r]), now);
    assert RemovedKeys([r]) == [k];
    assert KeySet([k]) == {k};
    ScheduleAllTimers(s, [k], now);
    DeleteLookup(s.rows, k, k);
  }

  // ---------------------------------------------------------------- the page's timers

  /** A set timer that goes off takes exactly its row off the screen, in place, and is not set any more. */
  lemma FireTakesOff(g: Page, k: Key)
    requires Distinct(g.state.rows)
    ensures var g' := PageStep(g, Fire(k));
            && g'.slot == g.slot
            && (k !in g.state.timers ==> g' == g)
            && (k in g.state.timers ==>
                  && g'.state.timers == g.state.timers - {k}
                  && Content(g'.state.rows) == Content(g.state.rows) - {k})
  {
    hide Content;
    DeleteContent(g.state.rows, k);
  }
}
