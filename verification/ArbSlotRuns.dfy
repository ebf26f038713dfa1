/** Whole runs of a page whose socket keeps only the newest message between two flushes: when it shows what the
    server has sent. */
module ArbSlotRuns {
  import JsMap
  import opened Options
  import opened ArbFeed
  import opened ArbFeedRuns

  /** What the server sent. */
  ghost function Received(run: seq<PageEvent>): seq<Payload> {
    if run == [] then []
    else
      match run[|run| - 1]
      case Receive(p) => Received(run[..|run| - 1]) + [p]
      case _ => Received(run[..|run| - 1])
  }

  /** The message that waits: the newest received one, unless a flush has come since. */
  ghost function Pending(run: seq<PageEvent>): Payload {
    if run == [] then Nothing
    else
      match run[|run| - 1]
      case Receive(p) => p
      case Flush(_) => Nothing
      case Fire(_) => Pending(run[..|run| - 1])
  }

  /** The slot holds that message. */
  lemma {:induction false} SlotIsPending(run: seq<PageEvent>)
    ensures PageAfter(run).slot == Pending(run)
  {
    if run != [] {
      SlotIsPending(run[..|run| - 1]);
    }
  }

  /** What the page should have applied: at each flush the message that waits. */
  ghost function Applied(run: seq<PageEvent>): seq<Payload> {
    if run == [] then []
    else
      match run[|run| - 1]
      case Flush(_) => Applied(run[..|run| - 1]) + [Pending(run[..|run| - 1])]
      case _ => Applied(run[..|run| - 1])
  }

  /** The rows on screen without a pending deletion. */
  ghost function LiveAfter(run: seq<PageEvent>): map<Key, Opp> {
    Live(PageAfter(run).state)
  }

  /** The server's rows after everything it sent. */
  ghost function ServerAfter(run: seq<PageEvent>): map<Key, Opp> {
    MeaningAll(map[], Received(run))
  }

  /** Flushes, timers and overwriting in any interleaving leave the meaning of what was applied. */
  lemma {:induction false} PageMeaning(run: seq<PageEvent>)
    ensures JsMap.Distinct(PageAfter(run).state.rows)
    ensures LiveAfter(run) == MeaningAll(map[], Applied(run))
  {
    hide Apply, Expire, Live, Meaning;
    if run == [] {
      NothingLive();
    } else {
      var front, s := run[..|run| - 1], PageAfter(run[..|run| - 1]).state;
      PageMeaning(front);
      SlotIsPending(front);
      match run[|run| - 1]
      case Receive(_) =>
      case Flush(now) =>
        SoftMeaning(s, PageAfter(front).slot, now);
        OneMore(map[], Applied(front), PageAfter(front).slot);
      case Fire(k) =>
        if k in s.timers { ExpireLive(s, k); }
    }
  }

  lemma NothingLive()
    ensures Live(EMPTY) == map[]
  {
    EmptyContent();
  }

  lemma OneMore(m: map<Key, Opp>, ps: seq<Payload>, p: Payload)
    ensures MeaningAll(m, ps + [p]) == Meaning(MeaningAll(m, ps), p)
  {
    assert (ps + [p])[..|ps|] == ps;
  }

  // ---------------------------------------------------------------- exactly when the page is right

  /** What the newest payload that decides a key makes of it. */
  ghost function LastWord(ps: seq<Payload>, k: Key): Option<Opp> {
    if ps == [] then None
    else if Decides(ps[|ps| - 1], k) then Lookup(Meaning(map[], ps[|ps| - 1]), k)
    else LastWord(ps[..|ps| - 1], k)
  }

  lemma {:induction false} LastWordIsMeaning(ps: seq<Payload>, k: Key)
    ensures Lookup(MeaningAll(map[], ps), k) == LastWord(ps, k)
  {
    hide Meaning, Decides;
    if ps != [] {
      LastWordIsMeaning(ps[..|ps| - 1], k);
      MeaningAt(MeaningAll(map[], ps[..|ps| - 1]), ps[|ps| - 1], k);
    }
  }

  /** The newest applied message that decides a key says the same of it as the newest received one. */
  ghost predicate Heard(run: seq<PageEvent>, k: Key) {
    LastWord(Applied(run), k) == LastWord(Received(run), k)
  }

  /** After any run the live rows are the server's if and only if the page heard the last word on every key. */
  lemma PageExactIff(run: seq<PageEvent>)
    ensures LiveAfter(run) == ServerAfter(run) <==> forall k :: Heard(run, k)
  {
    hide MeaningAll, LiveAfter, ServerAfter, Lookup;
    forall k
      ensures Heard(run, k) <==> Lookup(LiveAfter(run), k) == Lookup(ServerAfter(run), k)
    {
      Words(run, k);
    }
    if forall k :: Heard(run, k) {
      forall k
        ensures Lookup(LiveAfter(run), k) == Lookup(ServerAfter(run), k)
      {
        assert Heard(run, k);
      }
      SameLookups(LiveAfter(run), ServerAfter(run));
    }
  }

  lemma Words(run: seq<PageEvent>, k: Key)
    ensures Lookup(LiveAfter(run), k) == LastWord(Applied(run), k)
    ensures Lookup(ServerAfter(run), k) == LastWord(Received(run), k)
  {
    hide MeaningAll, LiveAfter, Lookup;
    PageMeaning(run);
    LastWordIsMeaning(Applied(run), k);
    LastWordIsMeaning(Received(run), k);
  }

  /** A snapshot that is applied heals every earlier loss, provided nothing after it is overwritten. */
  lemma SnapshotHeals(run: seq<PageEvent>, lost: seq<Payload>, seen: seq<Payload>, opps: seq<Opp>, later: seq<Payload>)
    requires Received(run) == lost + ([Snapshot(opps)] + later)
    requires Applied(run) == seen + ([Snapshot(opps)] + later)
    ensures LiveAfter(run) == ServerAfter(run)
  {
    PageMeaning(run);
    SnapshotForgets(MeaningAll(map[], lost), opps, later);
    SnapshotForgets(MeaningAll(map[], seen), opps, later);
    MeaningAllConcat(map[], lost, [Snapshot(opps)] + later);
    MeaningAllConcat(map[], seen, [Snapshot(opps)] + later);
  }

  lemma SnapshotForgets(m: map<Key, Opp>, opps: seq<Opp>, later: seq<Payload>)
    ensures MeaningAll(m, [Snapshot(opps)] + later) == MeaningAll(Merged(map[], opps), later)
  {
    MeaningAllConcat(m, [Snapshot(opps)], later);
    assert [Snapshot(opps)][..0] == [];
    assert MeaningAll(m, [Snapshot(opps)]) == Meaning(m, Snapshot(opps));
  }

  lemma {:induction false} MeaningAllConcat(m: map<Key, Opp>, ps: seq<Payload>, qs: seq<Payload>)
    ensures MeaningAll(m, ps + qs) == MeaningAll(MeaningAll(m, ps), qs)
  {
    hide Meaning;
    if qs == [] {
      assert ps + qs == ps;
    } else {
      assert (ps + qs)[..|ps + qs| - 1] == ps + qs[..|qs| - 1];
      MeaningAllConcat(m, ps, qs[..|qs| - 1]);
    }
  }

  /** Every message finds the slot empty. */
  ghost predicate FlushedInTime(run: seq<PageEvent>) {
    run != [] ==>
      && FlushedInTime(run[..|run| - 1])
      && (run[|run| - 1].Receive? ==> Pending(run[..|run| - 1]) == Nothing)
  }

  /** A page that flushes between any two messages lags behind the server by the waiting message and no more. */
  lemma {:induction false} InTimeIsExact(run: seq<PageEvent>)
    requires FlushedInTime(run)
    ensures Meaning(LiveAfter(run), Pending(run)) == ServerAfter(run)
  {
    hide Meaning, Apply, Expire, LiveAfter, MeaningAll;
    PageMeaning(run);
    if run == [] {
      EmptyRun();
    } else {
      var front, g := run[..|run| - 1], PageAfter(run[..|run| - 1]);
      InTimeIsExact(front);
      PageMeaning(front);
      SlotIsPending(front);
      match run[|run| - 1]
      case Receive(p) =>
        NothingMeans(LiveAfter(front));
        OneMore(map[], Received(front), p);
      case Flush(now) =>
        OneMore(map[], Applied(front), g.slot);
        NothingMeans(LiveAfter(run));
      case Fire(_) =>
    }
  }

  lemma EmptyRun()
    ensures Meaning(LiveAfter([]), Pending([])) == ServerAfter([])
  {
    NothingLive();
  }

  lemma NothingMeans(m: map<Key, Opp>)
    ensures Meaning(m, Nothing) == m
  {
  }
}
