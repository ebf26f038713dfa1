/** Whole runs of the soft-removal feed: payloads and deletion timers in any interleaving. */
module ArbFeedRuns {
  import opened JsMap
  import opened Options
  import opened ArbFeed

  datatype Event = Message(payload: Payload, at: int) | Timer(key: Key, at: int)

  ghost function Step(s: State, e: Event): State {
    match e
    case Message(p, at) => Apply(s, p, at)
    case Timer(k, _) => Expire(s, k)
  }

  /** The screen after a run, starting from an empty page. */
  ghost function SoftAfter(run: seq<Event>): State {
    if run == [] then EMPTY else Step(SoftAfter(run[..|run| - 1]), run[|run| - 1])
  }

  /** A feed with immediate deletion over the messages of the same run. */
  ghost function HardAfter(run: seq<Event>): Entries<Key, Opp> {
    if run == [] then []
    else
      match run[|run| - 1]
      case Message(p, _) => HardApply(HardAfter(run[..|run| - 1]), p)
      case Timer(_, _) => HardAfter(run[..|run| - 1])
  }

  /** Only a timer that is still set fires, and never before its deadline. */
  ghost predicate Feasible(run: seq<Event>) {
    run != [] ==>
      && Feasible(run[..|run| - 1])
      && var before, e := SoftAfter(run[..|run| - 1]), run[|run| - 1];
         e.Timer? ==> e.key in before.timers && before.timers[e.key] <= e.at
  }

  // ---------------------------------------------------------------- refinement

  /** Whatever the interleaving, the live rows of the soft feed are the rows of the immediate feed. */
  lemma {:induction false} SoftRefinesHard(run: seq<Event>)
    requires Feasible(run)
    ensures Distinct(SoftAfter(run).rows) && Distinct(HardAfter(run))
    ensures Live(SoftAfter(run)) == Content(HardAfter(run))
  {
    hide Apply, HardApply, Content;
    if run == [] {
      assert Content<Key, Opp>([]) == map[] by { EmptyContent(); }
    } else {
      var s, h := SoftAfter(run[..|run| - 1]), HardAfter(run[..|run| - 1]);
      SoftRefinesHard(run[..|run| - 1]);
      match run[|run| - 1]
      case Message(p, at) =>
        SoftMeaning(s, p, at);
        HardMeaning(h, p);
        HardDistinct(h, p);
      case Timer(k, _) =>
        ExpireLive(s, k);
    }
  }

  lemma EmptyContent()
    ensures Content<Key, Opp>([]) == map[]
  {
  }

  /** A deletion that was pending removes nothing that is live. */
  lemma ExpireLive(s: State, k: Key)
    requires Distinct(s.rows) && k in s.timers
    ensures Distinct(Expire(s, k).rows)
    ensures Live(Expire(s, k)) == Live(s)
  {
    hide Content, Delete;
    DeleteContent(s.rows, k);
    var s' := Expire(s, k);
    assert Live(s') == (Content(s.rows) - {k}) - (s.timers.Keys - {k});
  }

  /** The screen shows exactly the server's rows if and only if no row on it is waiting to be deleted. */
  lemma ScreenIsExactIff(run: seq<Event>)
    requires Feasible(run)
    ensures Content(SoftAfter(run).rows) == Content(HardAfter(run))
       <==> forall k :: k in SoftAfter(run).timers ==> !Has(SoftAfter(run).rows, k)
  {
    hide Content;
    SoftRefinesHard(run);
    var s := SoftAfter(run);
    forall k
      ensures Has(s.rows, k) <==> k in Content(s.rows)
    {
      HasIffKey(s.rows, k);
    }
    if forall k :: k in s.timers ==> !Has(s.rows, k) {
      assert Content(s.rows) - s.timers.Keys == Content(s.rows);
    } else {
      var k :| k in s.timers && Has(s.rows, k);
      assert k !in Content(s.rows) - s.timers.Keys;
    }
  }

  // ---------------------------------------------------------------- how long a dropped row stays

  /** Whether a payload carries a row under this key. */
  ghost predicate Mentions(p: Payload, k: Key) {
    match p
    case Nothing => false
    case Diff(added, updated, _) => k in KeysOf(added) || k in KeysOf(updated)
    case Snapshot(opps) => k in KeysOf(opps)
  }

  /** When the row last disappeared from the server's table; none while it is there or has never been. */
  ghost function DroppedAt(run: seq<Event>, k: Key): Option<int> {
    if run == [] then None
    else
      var front, e := run[..|run| - 1], run[|run| - 1];
      match e
      case Timer(_, _) => DroppedAt(front, k)
      case Message(p, at) =>
        if Has(HardAfter(run), k) then None
        else if Has(HardAfter(front), k) || Mentions(p, k) then Some(at)
        else DroppedAt(front, k)
  }

  /** What one message does to one key. */
  lemma TimerOf(s: State, p: Payload, now: int, k: Key)
    requires Distinct(s.rows) && p != Nothing
    ensures var s' := Apply(s, p, now);
            && (Has(s'.rows, k) <==> Has(s.rows, k) || Mentions(p, k))
            && (k in s'.timers && !Mentions(p, k) && k in s.timers ==> s'.timers[k] == s.timers[k])
            && (k in s'.timers && (Mentions(p, k) || k !in s.timers) ==> s'.timers[k] == now + GRACE_MS)
            && (k in s.timers && !Mentions(p, k) ==> k in s'.timers)
  {
    hide Content, Merged, Set;
    match p
    case Diff(added, updated, removed) =>
      var s1 := UpsertAll(s, added);
      var s2 := UpsertAll(s1, updated);
      UpsertAllOf(s, added, k);
      UpsertAllOf(s1, updated, k);
      ScheduleAllTimers(s2, RemovedKeys(removed), now);
    case Snapshot(opps) =>
      var s1 := UpsertAll(s, opps);
      UpsertAllOf(s, opps, k);
      ScheduleAllTimers(s1, Missing(Keys(s1.rows), KeysOf(opps)), now);
  }

  lemma UpsertAllOf(s: State, os: seq<Opp>, k: Key)
    requires Distinct(s.rows)
    ensures Distinct(UpsertAll(s, os).rows)
    ensures Has(UpsertAll(s, os).rows, k) <==> Has(s.rows, k) || k in KeysOf(os)
    ensures k in UpsertAll(s, os).timers <==> k in s.timers && k !in KeysOf(os)
    ensures k in UpsertAll(s, os).timers ==> UpsertAll(s, os).timers[k] == s.timers[k]
  {
    UpsertAllLive(s, os);
    UpsertAllTimers(s, os);
    MergedKeys(Content(s.rows), os);
    HasIffKey(s.rows, k);
    HasIffKey(UpsertAll(s, os).rows, k);
  }

  /** A row on screen has a pending deletion exactly when the server dropped it, and the deadline is the grace
      period after the drop: repeated removals do not move it, and any mention of the row clears it. */
  lemma {:induction false} DeadlineFromDrop(run: seq<Event>, k: Key)
    requires Feasible(run) && Has(SoftAfter(run).rows, k)
    ensures k in SoftAfter(run).timers <==> !Has(HardAfter(run), k)
    ensures k in SoftAfter(run).timers ==> DroppedAt(run, k) == Some(SoftAfter(run).timers[k] - GRACE_MS)
  {
    hide Content, Apply, HardApply, Delete, Set;
    LiveLookup(run, k);
    if run != [] {
      var front := run[..|run| - 1];
      var s := SoftAfter(front);
      SoftRefinesHard(front);
      LiveLookup(front, k);
      match run[|run| - 1]
      case Message(p, at) =>
        if p == Nothing {
          NothingChanges(s, HardAfter(front), at);
          DeadlineFromDrop(front, k);
        } else {
          TimerOf(s, p, at, k);
          if Has(s.rows, k) { DeadlineFromDrop(front, k); }
        }
      case Timer(x, _) =>
        DeleteLookup(s.rows, x, k);
        DeadlineFromDrop(front, k);
    }
  }

  lemma NothingChanges(s: State, h: Entries<Key, Opp>, at: int)
    ensures Apply(s, Nothing, at) == s && HardApply(h, Nothing) == h
  {
  }

  lemma LiveLookup(run: seq<Event>, k: Key)
    requires Feasible(run)
    ensures Has(HardAfter(run), k) <==> Has(SoftAfter(run).rows, k) && k !in SoftAfter(run).timers
    ensures Has(HardAfter(run), k) ==> Get(HardAfter(run), k) == Get(SoftAfter(run).rows, k)
  {
    SoftRefinesHard(run);
    HasIffKey(SoftAfter(run).rows, k);
    HasIffKey(HardAfter(run), k);
    if Has(HardAfter(run), k) {
      assert Content(HardAfter(run))[k] == Live(SoftAfter(run))[k];
    }
  }

  /** Timers are at most `late` milliseconds late: by then the deletion has been carried out. */
  ghost predicate OnTime(run: seq<Event>, now: int, late: nat) {
    && (forall k :: k in SoftAfter(run).timers ==> now <= SoftAfter(run).timers[k] + late)
    && (run != [] ==> run[|run| - 1].at <= now && OnTime(run[..|run| - 1], run[|run| - 1].at, late))
  }

  /** A dropped row is on screen at `now` only within the grace period of its drop and the lateness of timers. */
  lemma DroppedRowsLeaveInTime(run: seq<Event>, now: int, late: nat, k: Key)
    requires Feasible(run) && OnTime(run, now, late)
    requires Has(SoftAfter(run).rows, k) && !Has(HardAfter(run), k)
    ensures DroppedAt(run, k).Some? && now <= DroppedAt(run, k).value + GRACE_MS + late
  {
    DeadlineFromDrop(run, k);
  }

  /** ... and it does not leave earlier: a timer that takes a row off screen fires a full grace period
      after the drop, and only for a row the server no longer has. */
  lemma RowsLeaveOnlyAfterGrace(run: seq<Event>, k: Key, at: int)
    requires Feasible(run + [Timer(k, at)]) && Has(SoftAfter(run).rows, k)
    ensures !Has(HardAfter(run), k)
    ensures DroppedAt(run, k).Some? && at >= DroppedAt(run, k).value + GRACE_MS
    ensures !Has(SoftAfter(run + [Timer(k, at)]).rows, k) && k !in SoftAfter(run + [Timer(k, at)]).timers
  {
    var longer := run + [Timer(k, at)];
    assert longer[..|longer| - 1] == run;
    DeadlineFromDrop(run, k);
    SoftRefinesHard(run);
    DeleteLookup(SoftAfter(run).rows, k, k);
  }

  // ---------------------------------------------------------------- the single pending slot

  ghost function ApplyAll(s: State, ps: seq<Payload>, now: int): State {
    if ps == [] then s else Apply(ApplyAll(s, ps[..|ps| - 1], now), ps[|ps| - 1], now)
  }

  ghost function MeaningAll(m: map<Key, Opp>, ps: seq<Payload>): map<Key, Opp> {
    if ps == [] then m else Meaning(MeaningAll(m, ps[..|ps| - 1]), ps[|ps| - 1])
  }

  lemma {:induction false} ApplyAllMeaning(s: State, ps: seq<Payload>, now: int)
    requires Distinct(s.rows)
    ensures Distinct(ApplyAll(s, ps, now).rows)
    ensures Live(ApplyAll(s, ps, now)) == MeaningAll(Live(s), ps)
  {
    hide Apply, Meaning, Live;
    if ps != [] {
      ApplyAllMeaning(s, ps[..|ps| - 1], now);
      SoftMeaning(ApplyAll(s, ps[..|ps| - 1], now), ps[|ps| - 1], now);
    }
  }

  /** Keys whose fate a payload decides by itself. */
  ghost predicate Decides(p: Payload, k: Key) {
    match p
    case Nothing => false
    case Diff(_, _, removed) => Mentions(p, k) || k in RemovedKeys(removed)
    case Snapshot(_) => true
  }

  ghost function Lookup(m: map<Key, Opp>, k: Key): Option<Opp> {
    if k in m then Some(m[k]) else None
  }

  /** Flushing only the newest payload of the slot loses nothing if and only if the overwritten payloads
      changed nothing outside what the newest one decides. */
  lemma SlotExactIff(s: State, overwritten: seq<Payload>, newest: Payload, now: int)
    requires Distinct(s.rows)
    ensures Live(Apply(s, newest, now)) == Live(ApplyAll(s, overwritten + [newest], now))
       <==> forall k :: !Decides(newest, k) ==> Lookup(Live(s), k) == Lookup(MeaningAll(Live(s), overwritten), k)
  {
    hide Apply, Live, Meaning;
    var all := overwritten + [newest];
    assert all[..|all| - 1] == overwritten;
    SoftMeaning(s, newest, now);
    ApplyAllMeaning(s, all, now);
    MeaningAgreesIff(Live(s), MeaningAll(Live(s), overwritten), newest);
  }

  lemma MeaningAgreesIff(m1: map<Key, Opp>, m2: map<Key, Opp>, p: Payload)
    ensures Meaning(m1, p) == Meaning(m2, p) <==> forall k :: !Decides(p, k) ==> Lookup(m1, k) == Lookup(m2, k)
  {
    forall k
      ensures Decides(p, k) ==> Lookup(Meaning(m1, p), k) == Lookup(Meaning(m2, p), k)
      ensures !Decides(p, k) ==>
                Lookup(Meaning(m1, p), k) == Lookup(m1, k) && Lookup(Meaning(m2, p), k) == Lookup(m2, k)
    {
      MeaningAt(m1, p, k);
      MeaningAt(m2, p, k);
    }
    if forall k :: !Decides(p, k) ==> Lookup(m1, k) == Lookup(m2, k) {
      SameLookups(Meaning(m1, p), Meaning(m2, p));
    }
  }

  lemma SameLookups(m1: map<Key, Opp>, m2: map<Key, Opp>)
    requires forall k :: Lookup(m1, k) == Lookup(m2, k)
    ensures m1 == m2
  {
    forall k
      ensures k in m1 <==> k in m2
      ensures k in m1 ==> m1[k] == m2[k]
    {
      assert Lookup(m1, k) == Lookup(m2, k);
    }
  }

  lemma MeaningAt(m: map<Key, Opp>, p: Payload, k: Key)
    ensures Lookup(Meaning(m, p), k) == if Decides(p, k) then Lookup(Meaning(map[], p), k) else Lookup(m, k)
  {
    match p
    case Nothing =>
    case Snapshot(_) =>
    case Diff(added, updated, removed) =>
      MergedAt(m, added, k);
      MergedAt(map[], added, k);
      MergedAt(Merged(m, added), updated, k);
      MergedAt(Merged(map[], added), updated, k);
  }

  lemma MergedAt(m: map<Key, Opp>, os: seq<Opp>, k: Key)
    ensures Lookup(Merged(m, os), k) == if k in KeysOf(os) then Lookup(Merged(map[], os), k) else Lookup(m, k)
  {
    MergedKeys(m, os);
    if k in KeysOf(os) { MergedForgets(m, os, k); }
  }

  /** A snapshot in the slot makes up for everything it overwrote. */
  lemma SlotExactForSnapshots(s: State, overwritten: seq<Payload>, opps: seq<Opp>, now: int)
    requires Distinct(s.rows)
    ensures Live(Apply(s, Snapshot(opps), now)) == Live(ApplyAll(s, overwritten + [Snapshot(opps)], now))
  {
    SlotExactIff(s, overwritten, Snapshot(opps), now);
  }

  /** A diff does not: here the overwritten diff's row never reaches the screen. */
  lemma SlotLosesDiffs() returns (overwritten: Payload, newest: Payload)
    ensures overwritten.Diff? && newest.Diff?
    ensures Live(Apply(EMPTY, newest, 0)) != Live(ApplyAll(EMPTY, [overwritten, newest], 0))
  {
    var a, b := Opp("BTC", "binance", "okx", 1), Opp("ETH", "binance", "okx", 2);
    overwritten, newest := Diff([a], [], []), Diff([b], [], []);
    var m: map<Key, Opp> := map[];
    assert [overwritten] + [newest] == [overwritten, newest];
    EmptyContent();
    assert Live(EMPTY) == m;
    SlotExactIff(EMPTY, [overwritten], newest, 0);
    assert [overwritten][..0] == [];
    assert MeaningAll(m, [overwritten]) == Meaning(m, overwritten);
    assert KeysOf([a])[0] == KeyOf(a) && KeysOf([b])[0] == KeyOf(b);
    MergedKeys(m, [a]);
    assert KeyOf(a)[0] == 'B' && KeyOf(b)[0] == 'E';
    assert !Decides(newest, KeyOf(a));
    MergedKeys(Merged(m, [a]), []);
    assert KeyOf(a) in Meaning(m, overwritten);
  }
}
