/** The client's live copy of the long/short table, fed by snapshots and diffs.
    Rows the server drops stay on screen for a grace period before they are deleted. */
module ArbFeed {
  import opened JsMap

  type Key = string

  datatype Opp = Opp(symbol: string, longExchange: string, shortExchange: string, quote: int)

  function KeyOf(o: Opp): Key {
    o.symbol + "|" + o.longExchange + "|" + o.shortExchange
  }

  /** A dropped row is named either by its parts or by the joined text. */
  datatype RemovedKey = Parts(parts: seq<string>) | Text(text: Key) {
    function Joined(): Key {
      match this
      case Parts(parts) => Join(parts)
      case Text(text) => text
    }
  }

  function Join(parts: seq<string>): string {
    if parts == [] then ""
    else if |parts| == 1 then parts[0]
    else parts[0] + "|" + Join(parts[1..])
  }

  datatype Payload =
    | Nothing
    | Diff(added: seq<Opp>, updated: seq<Opp>, removed: seq<RemovedKey>)
    | Snapshot(opportunities: seq<Opp>)

  const GRACE_MS := 12000

  // ---------------------------------------------------------------- soft removal

  /** The rows on screen and the deadline of each pending deletion. */
  datatype State = State(rows: Entries<Key, Opp>, timers: map<Key, int>)

  const EMPTY := State([], map[])

  function Upsert(s: State, o: Opp): State {
    State(Set(s.rows, KeyOf(o), o), s.timers - {KeyOf(o)})
  }

  function UpsertAll(s: State, os: seq<Opp>): State {
    if os == [] then s else Upsert(UpsertAll(s, os[..|os| - 1]), os[|os| - 1])
  }

  function Schedule(s: State, k: Key, now: int): State {
    if k in s.timers then s else s.(timers := s.timers[k := now + GRACE_MS])
  }

  function ScheduleAll(s: State, ks: seq<Key>, now: int): State {
    if ks == [] then s else Schedule(ScheduleAll(s, ks[..|ks| - 1], now), ks[|ks| - 1], now)
  }

  function RemovedKeys(removed: seq<RemovedKey>): (r: seq<Key>)
    ensures |r| == |removed| && forall i :: 0 <= i < |r| ==> r[i] == removed[i].Joined()
  {
    seq(|removed|, i requires 0 <= i < |removed| => removed[i].Joined())
  }

  function KeysOf(os: seq<Opp>): (r: seq<Key>)
    ensures |r| == |os| && forall i :: 0 <= i < |r| ==> r[i] == KeyOf(os[i])
  {
    seq(|os|, i requires 0 <= i < |os| => KeyOf(os[i]))
  }

  /** The keys on screen that a snapshot no longer lists, in screen order. */
  function Missing(ks: seq<Key>, incoming: seq<Key>): seq<Key> {
    if ks == [] then []
    else Missing(ks[..|ks| - 1], incoming) + if ks[|ks| - 1] in incoming then [] else [ks[|ks| - 1]]
  }

  function Apply(s: State, p: Payload, now: int): State {
    match p
    case Nothing => s
    case Diff(added, updated, removed) =>
      ScheduleAll(UpsertAll(UpsertAll(s, added), updated), RemovedKeys(removed), now)
    case Snapshot(opps) =>
      var s1 := UpsertAll(s, opps);
      ScheduleAll(s1, Missing(Keys(s1.rows), KeysOf(opps)), now)
  }

  function Expire(s: State, k: Key): State {
    State(Delete(s.rows, k), s.timers - {k})
  }

  /** What happens to a page: a message from the socket, a flush of the waiting one, a deletion timer that goes off. */
  datatype PageEvent = Receive(payload: Payload) | Flush(now: int) | Fire(key: Key)

  /** The rows of a page and the one message that waits to be applied to them. */
  datatype Page = Page(state: State, slot: Payload)

  function PageStep(g: Page, e: PageEvent): Page {
    match e
    case Receive(p) => g.(slot := p)
    case Flush(now) => Page(Apply(g.state, g.slot, now), Nothing)
    case Fire(k) => if k in g.state.timers then g.(state := Expire(g.state, k)) else g
  }

  function PageAfter(run: seq<PageEvent>): Page {
    if run == [] then Page(EMPTY, Nothing) else PageStep(PageAfter(run[..|run| - 1]), run[|run| - 1])
  }

  ghost predicate WellKeyed(rows: Entries<Key, Opp>) {
    Distinct(rows) && forall i :: 0 <= i < |rows| ==> rows[i].0 == KeyOf(rows[i].1)
  }

  class SoftFeed {
    var rowsByKey: Entries<Key, Opp>
    var removalTimers: map<Key, int>
    var rows: seq<Opp>
    var pending: Payload

    function Model(): State
      reads this
    {
      State(rowsByKey, removalTimers)
    }

    ghost predicate Valid()
      reads this
    {
      WellKeyed(rowsByKey) && rows == Values(rowsByKey)
    }

    constructor ()
      ensures Valid() && Model() == EMPTY && pending == Nothing
    {
      rowsByKey, removalTimers, rows, pending := [], map[], [], Nothing;
    }

    method ApplyPayload(data: Payload, now: int)
      requires Valid()
      modifies this
      ensures Valid()
      ensures Model() == Apply(old(Model()), data, now)
      ensures pending == old(pending)
    {
      match data {
        case Nothing =>
          return;
        case Diff(added, updated, removed) =>
          SetRows(added);
          SetRows(updated);
          PostponeRemoved(removed, now);
        case Snapshot(opps) =>
          SetRows(opps);
          PostponeMissing(KeysOf(opps), now);
      }
      rows := Values(rowsByKey);
    }

    /** Puts rows into the map one by one, cancelling any pending deletion of theirs. */
    method SetRows(os: seq<Opp>)
      requires WellKeyed(rowsByKey)
      modifies this`rowsByKey, this`removalTimers
      ensures WellKeyed(rowsByKey)
      ensures Model() == UpsertAll(old(Model()), os)
    {
      var i := 0;
      while i < |os|
        invariant 0 <= i <= |os|
        invariant WellKeyed(rowsByKey)
        invariant Model() == UpsertAll(old(Model()), os[..i])
      {
        assert os[..i + 1][..i] == os[..i];
        var key := KeyOf(os[i]);
        removalTimers := removalTimers - {key};
        SetWellKeyed(rowsByKey, os[i]);
        rowsByKey := Set(rowsByKey, key, os[i]);
        i := i + 1;
      }
      assert os[..i] == os;
    }

    method PostponeRemoved(removed: seq<RemovedKey>, now: int)
      modifies this`removalTimers
      ensures Model() == ScheduleAll(old(Model()), RemovedKeys(removed), now)
    {
      ghost var ks := RemovedKeys(removed);
      var i := 0;
      while i < |removed|
        invariant 0 <= i <= |removed|
        invariant Model() == ScheduleAll(old(Model()), ks[..i], now)
      {
        assert ks[..i + 1][..i] == ks[..i];
        Postpone(removed[i].Joined(), now);
        i := i + 1;
      }
      assert ks[..i] == ks;
    }

    method PostponeMissing(incoming: seq<Key>, now: int)
      modifies this`removalTimers
      ensures Model() == ScheduleAll(old(Model()), Missing(Keys(rowsByKey), incoming), now)
    {
      var keys := Keys(rowsByKey);
      var i := 0;
      while i < |keys|
        invariant 0 <= i <= |keys|
        invariant Model() == ScheduleAll(old(Model()), Missing(keys[..i], incoming), now)
      {
        assert keys[..i + 1][..i] == keys[..i];
        ghost var before, after := Missing(keys[..i], incoming), Missing(keys[..i + 1], incoming);
        if keys[i] !in incoming {
          assert after == before + [keys[i]] && after[..|after| - 1] == before;
          Postpone(keys[i], now);
        } else {
          assert after == before;
        }
        i := i + 1;
      }
      assert keys[..i] == keys;
    }

    /** Starts the grace period of a row unless it is already running. */
    method Postpone(key: Key, now: int)
      modifies this`removalTimers
      ensures Model() == Schedule(old(Model()), key, now)
    {
      if key in removalTimers { return; }
      removalTimers := removalTimers[key := now + GRACE_MS];
    }

    /** The grace period of a row ends. */
    method Fire(key: Key)
      requires Valid() && key in removalTimers
      modifies this
      ensures Valid()
      ensures Model() == Expire(old(Model()), key)
      ensures pending == old(pending)
    {
      removalTimers := removalTimers - {key};
      DeleteDistinct(rowsByKey, key);
      rowsByKey := Delete(rowsByKey, key);
      rows := Values(rowsByKey);
    }

    /** A message from the socket only fills the single slot, over whatever was waiting there. */
    method OnMessage(data: Payload)
      modifies this`pending
      ensures Page(Model(), pending) == PageStep(old(Page(Model(), pending)), Receive(data))
    {
      pending := data;
    }

    method FlushPending(now: int)
      requires Valid()
      modifies this
      ensures Valid() && Page(Model(), pending) == PageStep(old(Page(Model(), pending)), Flush(now))
    {
      if pending != Nothing {
        var d := pending;
        pending := Nothing;
        ApplyPayload(d, now);
      }
    }

    /** A page's life from its load on. A cleared timer does not go off. */
    method Play(run: seq<PageEvent>)
      requires Valid() && Model() == EMPTY && pending == Nothing
      modifies this
      ensures Valid() && Page(Model(), pending) == PageAfter(run)
    {
      hide Apply, Expire;
      var i := 0;
      while i < |run|
        invariant 0 <= i <= |run|
        invariant Valid() && Page(Model(), pending) == PageAfter(run[..i])
      {
        assert run[..i + 1][..i] == run[..i];
        match run[i] {
          case Receive(p) => OnMessage(p);
          case Flush(now) => FlushPending(now);
          case Fire(key) => if key in removalTimers { Fire(key); }
        }
        i := i + 1;
      }
      assert run[..i] == run;
    }
  }

  lemma SetWellKeyed(rows: Entries<Key, Opp>, o: Opp)
    requires WellKeyed(rows)
    ensures WellKeyed(Set(rows, KeyOf(o), o))
  {
    SetContent(rows, KeyOf(o), o);
  }

  lemma {:induction false} ScheduleKeepsRows(s: State, ks: seq<Key>, now: int)
    ensures ScheduleAll(s, ks, now).rows == s.rows
  {
    if ks != [] {
      ScheduleKeepsRows(s, ks[..|ks| - 1], now);
    }
  }

  /** No two rows on screen share a key, so neither do any two rows of a page cut from them. */
  lemma ScreenKeysDistinct(rows: Entries<Key, Opp>)
    requires WellKeyed(rows)
    ensures forall i, j :: 0 <= i < j < |rows| ==> KeyOf(Values(rows)[i]) != KeyOf(Values(rows)[j])
  {
  }

  // ---------------------------------------------------------------- immediate removal

  /** The same feed without the grace period: the sibling tables clear on a snapshot and delete at once. */
  function SetAll(m: Entries<Key, Opp>, os: seq<Opp>): Entries<Key, Opp> {
    if os == [] then m
    else Set(SetAll(m, os[..|os| - 1]), KeyOf(os[|os| - 1]), os[|os| - 1])
  }

  function DeleteAll(m: Entries<Key, Opp>, ks: seq<Key>): Entries<Key, Opp> {
    if ks == [] then m else Delete(DeleteAll(m, ks[..|ks| - 1]), ks[|ks| - 1])
  }

  function HardApply(m: Entries<Key, Opp>, p: Payload): Entries<Key, Opp> {
    match p
    case Nothing => m
    case Diff(added, updated, removed) => DeleteAll(SetAll(SetAll(m, added), updated), RemovedKeys(removed))
    case Snapshot(opps) => SetAll([], opps)
  }

  class HardFeed {
    var rowsByKey: Entries<Key, Opp>
    var rows: seq<Opp>

    ghost predicate Valid()
      reads this
    {
      Distinct(rowsByKey) && rows == Values(rowsByKey)
    }

    constructor ()
      ensures Valid() && rowsByKey == []
    {
      rowsByKey, rows := [], [];
    }

    method ApplyPayload(data: Payload)
      requires Valid()
      modifies this
      ensures Valid()
      ensures rowsByKey == HardApply(old(rowsByKey), data)
    {
      HardDistinct(rowsByKey, data);
      match data {
        case Nothing =>
          return;
        case Diff(added, updated, removed) =>
          SetRows(added);
          SetRows(updated);
          ghost var ks, m1 := RemovedKeys(removed), rowsByKey;
          var i := 0;
          while i < |removed|
            invariant 0 <= i <= |removed|
            invariant rowsByKey == DeleteAll(m1, ks[..i])
          {
            assert ks[..i + 1][..i] == ks[..i];
            rowsByKey := Delete(rowsByKey, removed[i].Joined());
            i := i + 1;
          }
          assert ks[..i] == ks;
        case Snapshot(opps) =>
          rowsByKey := [];
          SetRows(opps);
      }
      rows := Values(rowsByKey);
    }

    method SetRows(os: seq<Opp>)
      modifies this`rowsByKey
      ensures rowsByKey == SetAll(old(rowsByKey), os)
    {
      var i := 0;
      while i < |os|
        invariant 0 <= i <= |os|
        invariant rowsByKey == SetAll(old(rowsByKey), os[..i])
      {
        assert os[..i + 1][..i] == os[..i];
        rowsByKey := Set(rowsByKey, KeyOf(os[i]), os[i]);
        i := i + 1;
      }
      assert os[..i] == os;
    }
  }

  lemma HardDistinct(m: Entries<Key, Opp>, p: Payload)
    requires Distinct(m)
    ensures Distinct(HardApply(m, p))
  {
    match p
    case Nothing =>
    case Diff(added, updated, removed) =>
      SetAllContent(m, added);
      SetAllContent(SetAll(m, added), updated);
      DeleteAllContent(SetAll(SetAll(m, added), updated), RemovedKeys(removed));
    case Snapshot(opps) =>
      SetAllContent([], opps);
  }

  // ---------------------------------------------------------------- order-free meaning

  /** What the rows of a payload do to a plain map. */
  ghost function Merged(m: map<Key, Opp>, os: seq<Opp>): map<Key, Opp> {
    if os == [] then m
    else Merged(m, os[..|os| - 1])[KeyOf(os[|os| - 1]) := os[|os| - 1]]
  }

  ghost function KeySet(ks: seq<Key>): set<Key> {
    set k | k in ks
  }

  /** The intended effect of a payload on the set of live rows. */
  ghost function Meaning(m: map<Key, Opp>, p: Payload): map<Key, Opp> {
    match p
    case Nothing => m
    case Diff(added, updated, removed) => Merged(Merged(m, added), updated) - KeySet(RemovedKeys(removed))
    case Snapshot(opps) => Merged(map[], opps)
  }

  /** The live rows of the soft feed: those on screen without a pending deletion. */
  ghost function Live(s: State): map<Key, Opp> {
    Content(s.rows) - s.timers.Keys
  }

  lemma {:induction false} SetAllContent(m: Entries<Key, Opp>, os: seq<Opp>)
    requires Distinct(m)
    ensures Distinct(SetAll(m, os))
    ensures Content(SetAll(m, os)) == Merged(Content(m), os)
  {
    if os != [] {
      SetAllContent(m, os[..|os| - 1]);
      SetContent(SetAll(m, os[..|os| - 1]), KeyOf(os[|os| - 1]), os[|os| - 1]);
    }
  }

  lemma {:induction false} DeleteAllContent(m: Entries<Key, Opp>, ks: seq<Key>)
    requires Distinct(m)
    ensures Distinct(DeleteAll(m, ks))
    ensures Content(DeleteAll(m, ks)) == Content(m) - KeySet(ks)
  {
    if ks != [] {
      var front, last := ks[..|ks| - 1], ks[|ks| - 1];
      DeleteAllContent(m, front);
      hide Content, Delete, Distinct, KeySet;
      DeleteContent(DeleteAll(m, front), last);
      assert ks == front + [last];
      WithoutBoth(Content(m), front, last);
    }
  }

  lemma WithoutBoth(m: map<Key, Opp>, ks: seq<Key>, k: Key)
    ensures m - KeySet(ks + [k]) == m - KeySet(ks) - {k}
  {
    assert KeySet(ks + [k]) == KeySet(ks) + {k};
  }

  /** The immediate feed computes the intended effect. */
  lemma HardMeaning(m: Entries<Key, Opp>, p: Payload)
    requires Distinct(m)
    ensures Content(HardApply(m, p)) == Meaning(Content(m), p)
  {
    match p
    case Nothing =>
    case Diff(added, updated, removed) =>
      SetAllContent(m, added);
      SetAllContent(SetAll(m, added), updated);
      DeleteAllContent(SetAll(SetAll(m, added), updated), RemovedKeys(removed));
    case Snapshot(opps) =>
      SetAllContent([], opps);
      assert Content<Key, Opp>([]) == map[];
  }

  lemma UpsertLive(s: State, o: Opp)
    requires Distinct(s.rows)
    ensures Distinct(Upsert(s, o).rows)
    ensures Content(Upsert(s, o).rows) == Content(s.rows)[KeyOf(o) := o]
    ensures Live(Upsert(s, o)) == Live(s)[KeyOf(o) := o]
  {
    hide Content, Set;
    SetContent(s.rows, KeyOf(o), o);
  }

  lemma {:induction false} UpsertAllLive(s: State, os: seq<Opp>)
    requires Distinct(s.rows)
    ensures Distinct(UpsertAll(s, os).rows)
    ensures Content(UpsertAll(s, os).rows) == Merged(Content(s.rows), os)
    ensures Live(UpsertAll(s, os)) == Merged(Live(s), os)
  {
    hide Content, Upsert, Live;
    if os != [] {
      UpsertAllLive(s, os[..|os| - 1]);
      UpsertLive(UpsertAll(s, os[..|os| - 1]), os[|os| - 1]);
    }
  }

  lemma {:induction false} UpsertAllTimers(s: State, os: seq<Opp>)
    ensures UpsertAll(s, os).timers == s.timers - KeySet(KeysOf(os))
  {
    if os == [] {
      assert s.timers - KeySet(KeysOf(os)) == s.timers;
    } else {
      var front, last := os[..|os| - 1], KeyOf(os[|os| - 1]);
      UpsertAllTimers(s, front);
      assert KeysOf(os) == KeysOf(front) + [last];
      assert s.timers - KeySet(KeysOf(os)) == s.timers - KeySet(KeysOf(front)) - {last};
    }
  }

  lemma {:induction false} ScheduleAllTimers(s: State, ks: seq<Key>, now: int)
    ensures ScheduleAll(s, ks, now).rows == s.rows
    ensures ScheduleAll(s, ks, now).timers.Keys == s.timers.Keys + KeySet(ks)
    ensures forall k :: k in s.timers ==> ScheduleAll(s, ks, now).timers[k] == s.timers[k]
    ensures forall k :: k in ks && k !in s.timers ==> ScheduleAll(s, ks, now).timers[k] == now + GRACE_MS
  {
    if ks != [] {
      ScheduleAllTimers(s, ks[..|ks| - 1], now);
      assert ks == ks[..|ks| - 1] + [ks[|ks| - 1]];
    }
  }

  lemma {:induction false} MissingMembers(ks: seq<Key>, incoming: seq<Key>)
    ensures forall k :: k in Missing(ks, incoming) <==> k in ks && k !in incoming
  {
    if ks != [] {
      MissingMembers(ks[..|ks| - 1], incoming);
      assert ks == ks[..|ks| - 1] + [ks[|ks| - 1]];
    }
  }

  lemma {:induction false} MergedKeys(m: map<Key, Opp>, os: seq<Opp>)
    ensures Merged(m, os).Keys == m.Keys + KeySet(KeysOf(os))
    ensures forall k :: k in m && k !in KeysOf(os) ==> Merged(m, os)[k] == m[k]
  {
    if os != [] {
      var front, last := os[..|os| - 1], os[|os| - 1];
      MergedKeys(m, front);
      assert KeysOf(os) == KeysOf(front) + [KeyOf(last)];
    }
  }

  /** A key that the rows mention ends up with what they say, whatever was there. */
  lemma {:induction false} MergedForgets(m: map<Key, Opp>, os: seq<Opp>, k: Key)
    requires k in KeysOf(os)
    ensures k in Merged(m, os) && k in Merged(map[], os) && Merged(m, os)[k] == Merged(map[], os)[k]
  {
    var front, last := os[..|os| - 1], KeyOf(os[|os| - 1]);
    assert KeysOf(os) == KeysOf(front) + [last];
    if k != last {
      MergedForgets(m, front, k);
    }
  }

  /** One payload has the intended effect on the live rows of the soft feed. */
  lemma SoftMeaning(s: State, p: Payload, now: int)
    requires Distinct(s.rows)
    ensures Distinct(Apply(s, p, now).rows)
    ensures Live(Apply(s, p, now)) == Meaning(Live(s), p)
  {
    match p
    case Nothing =>
    case Diff(added, updated, removed) =>
      DiffMeaning(s, added, updated, removed, now);
    case Snapshot(opps) =>
      SnapshotMeaning(s, opps, now);
  }

  lemma DiffMeaning(s: State, added: seq<Opp>, updated: seq<Opp>, removed: seq<RemovedKey>, now: int)
    requires Distinct(s.rows)
    ensures var p := Diff(added, updated, removed);
            Distinct(Apply(s, p, now).rows) && Live(Apply(s, p, now)) == Meaning(Live(s), p)
  {
    hide Content;
    var s1 := UpsertAll(s, added);
    var s2 := UpsertAll(s1, updated);
    UpsertAllLive(s, added);
    UpsertAllLive(s1, updated);
    ScheduleLive(s2, RemovedKeys(removed), now);
  }

  lemma ScheduleLive(s: State, ks: seq<Key>, now: int)
    ensures ScheduleAll(s, ks, now).rows == s.rows
    ensures Live(ScheduleAll(s, ks, now)) == Live(s) - KeySet(ks)
  {
    hide Content;
    ScheduleAllTimers(s, ks, now);
    var s' := ScheduleAll(s, ks, now);
    assert Live(s') == Content(s.rows) - (s.timers.Keys + KeySet(ks));
    assert Live(s) - KeySet(ks) == Content(s.rows) - (s.timers.Keys + KeySet(ks));
  }

  lemma SnapshotMeaning(s: State, opps: seq<Opp>, now: int)
    requires Distinct(s.rows)
    ensures Distinct(Apply(s, Snapshot(opps), now).rows)
    ensures Live(Apply(s, Snapshot(opps), now)) == Merged(map[], opps)
  {
    hide Content, Merged;
    var s1, incoming := UpsertAll(s, opps), KeysOf(opps);
    var gone := Missing(Keys(s1.rows), incoming);
    UpsertAllLive(s, opps);
    ScheduleLive(s1, gone, now);
    MissingMembers(Keys(s1.rows), incoming);
    MergedKeys(Live(s), opps);
    MergedKeys(map[], opps);
    forall k
      ensures k in Live(s1) - KeySet(gone) <==> k in Merged(map[], opps)
      ensures k in Live(s1) - KeySet(gone) ==> (Live(s1) - KeySet(gone))[k] == Merged(map[], opps)[k]
    {
      HasIffKey(s1.rows, k);
      if k in incoming { MergedForgets(Live(s), opps, k); }
    }
    assert Live(s1) - KeySet(gone) == Merged(map[], opps);
  }
}
