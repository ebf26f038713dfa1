/** Runs of any number of processes that poll one lock: who may lead, and for how long nobody does. */
module LeaderElection {
  import opened LeaderLock

  /** All processes at one instant. `wake` is when a process's sleep ends; `claim` remembers the expiry that its
      last successful write gave the lock (the instant itself for a process that leads without ever writing). */
  datatype World = World(
    now: int, lock: Lock, alive: set<Proc>, leaders: set<Proc>, wake: map<Proc, int>, claim: map<Proc, int>)

  datatype Step =
    | Advance(seconds: nat)
    | Poll(p: Proc, env: Env)
    | Crash(p: Proc)
    | Stop(p: Proc, call: StopCall)
    | Start(p: Proc)

  ghost predicate WellFormed(w: World) {
    w.leaders <= w.alive && w.alive <= w.wake.Keys && w.leaders <= w.claim.Keys
  }

  /** A process polls only once its sleep is over; a new process has an identity not in use. */
  ghost predicate Enabled(w: World, s: Step) {
    match s
    case Advance(_) => true
    case Poll(p, _) => p in w.alive && p in w.wake && w.wake[p] <= w.now
    case Crash(p) => p in w.alive
    case Stop(p, _) => p in w.alive
    case Start(p) => p !in w.alive
  }

  ghost function Next(w: World, s: Step): World {
    match s
    case Advance(d) => w.(now := w.now + d)
    case Crash(p) => w.(alive := w.alive - {p}, leaders := w.leaders - {p})
    case Stop(p, call) =>
      w.(alive := w.alive - {p}, leaders := w.leaders - {p}, lock := Stopped(p in w.leaders, w.lock, call))
    case Start(p) => w.(alive := w.alive + {p}, leaders := w.leaders - {p}, wake := w.wake[p := w.now])
    case Poll(p, env) =>
      var (leads, lock) := Round(p in w.leaders, w.lock, p, w.now, env);
      w.(lock := lock,
         leaders := if leads then w.leaders + {p} else w.leaders - {p},
         wake := w.wake[p := w.now + SLEEP_S],
         claim := if Writes(w, p, env) then w.claim[p := w.now + TTL_S]
                  else if p in w.claim then w.claim else w.claim[p := w.now])
  }

  /** Whether this poll's SET succeeds. */
  ghost predicate Writes(w: World, p: Proc, env: Env) {
    env.Reachable? && (p in w.leaders <==> Live(w.lock, w.now))
  }

  ghost function After(w: World, run: seq<Step>): World
    decreases |run|
  {
    if run == [] then w else After(Next(w, run[0]), run[1..])
  }

  /** A process goes away. */
  ghost predicate Ends(s: Step) {
    s.Crash? || s.Stop?
  }

  /** Every process that polls reaches the store. */
  ghost predicate Answered(s: Step) {
    s.Poll? ==> s.env.Reachable?
  }

  // ---------------------------------------------------------------- mutual exclusion

  /** Every leader's last successful write is still in force. */
  ghost predicate Renewed(w: World) {
    forall p :: p in w.leaders ==> p in w.claim && w.now < w.claim[p]
  }

  /** A run in which the store always answers and no leader ever lets its write expire. */
  ghost predicate PromptRun(w: World, run: seq<Step>)
    decreases |run|
  {
    && Renewed(w)
    && (run != [] ==> Enabled(w, run[0]) && Answered(run[0]) && PromptRun(Next(w, run[0]), run[1..]))
  }

  /** The lock carries the name and the expiry of whoever leads. */
  ghost predicate LockNamesLeaders(w: World) {
    forall p :: p in w.leaders ==> p in w.claim && w.lock == Held(p, w.claim[p])
  }

  ghost predicate AtMostOneLeader(w: World) {
    forall p, q :: p in w.leaders && q in w.leaders ==> p == q
  }

  lemma StepKeepsExclusion(w: World, s: Step)
    requires WellFormed(w) && LockNamesLeaders(w) && Renewed(w) && Enabled(w, s) && Answered(s)
    ensures WellFormed(Next(w, s)) && LockNamesLeaders(Next(w, s))
  {
    if q :| q in w.leaders {
      assert w.lock == Held(q, w.claim[q]) && Live(w.lock, w.now);
    }
  }

  /** Prompt renewal gives mutual exclusion: at every instant at most one process leads,
      the lock is live, and it names that process. */
  lemma {:induction false} MutualExclusion(w: World, run: seq<Step>)
    requires WellFormed(w) && LockNamesLeaders(w) && PromptRun(w, run)
    ensures var w' := After(w, run);
            && WellFormed(w') && LockNamesLeaders(w') && Renewed(w') && AtMostOneLeader(w')
            && forall p :: p in w'.leaders ==> Live(w'.lock, w'.now) && w'.lock.owner == p
    decreases |run|
  {
    if run != [] {
      StepKeepsExclusion(w, run[0]);
      MutualExclusion(Next(w, run[0]), run[1..]);
    }
  }

  // ---------------------------------------------------------------- polling on time is enough

  /** No living process oversleeps by more than `slack` seconds. */
  ghost predicate Punctual(w: World, slack: nat) {
    forall p :: p in w.alive ==> p in w.wake && w.now <= w.wake[p] + slack
  }

  ghost predicate PunctualRun(w: World, run: seq<Step>, slack: nat)
    decreases |run|
  {
    && Punctual(w, slack)
    && (run != [] ==> Enabled(w, run[0]) && Answered(run[0]) && PunctualRun(Next(w, run[0]), run[1..], slack))
  }

  /** A leader's write was made by its last poll. */
  ghost predicate ClaimsFromLastPoll(w: World) {
    forall p :: p in w.leaders ==> p in w.wake && p in w.claim && w.claim[p] == w.wake[p] + (TTL_S - SLEEP_S)
  }

  /** Oversleeping by less than the 20 s that a write outlives a sleep keeps every renewal prompt. */
  lemma {:induction false} PunctualIsPrompt(w: World, run: seq<Step>, slack: nat)
    requires WellFormed(w) && ClaimsFromLastPoll(w) && LockNamesLeaders(w)
    requires PunctualRun(w, run, slack) && slack < TTL_S - SLEEP_S
    ensures PromptRun(w, run)
    decreases |run|
  {
    assert Renewed(w);
    if run != [] {
      StepKeepsExclusion(w, run[0]);
      PunctualIsPrompt(Next(w, run[0]), run[1..], slack);
    }
  }

  lemma PunctualExclusion(w: World, run: seq<Step>, slack: nat)
    requires WellFormed(w) && w.leaders == {} && PunctualRun(w, run, slack) && slack < TTL_S - SLEEP_S
    ensures AtMostOneLeader(After(w, run))
  {
    PunctualIsPrompt(w, run, slack);
    MutualExclusion(w, run);
  }

  // ---------------------------------------------------------------- why the timing is needed

  /** While one process leads, a poll by another makes a second leader exactly when the leader's write has expired. */
  lemma SecondLeaderIff(w: World, leader: Proc, p: Proc)
    requires WellFormed(w) && w.leaders == {leader} && LockNamesLeaders(w)
    requires p != leader && Enabled(w, Poll(p, Reachable(true)))
    ensures Next(w, Poll(p, Reachable(true))).leaders == {leader, p} <==> w.claim[leader] <= w.now
    ensures w.now < w.claim[leader] ==> Next(w, Poll(p, Reachable(true))).leaders == {leader}
  {
    assert leader in w.leaders;
  }

  /** Renewal does not look at the owner: as long as the lock is live whenever a leader polls, no leader ever
      steps down, however many there are and whoever the lock names. */
  ghost predicate LiveAtPolls(w: World, run: seq<Step>)
    decreases |run|
  {
    run != [] ==>
      && (run[0].Poll? && run[0].p in w.leaders ==> Live(w.lock, w.now))
      && !Ends(run[0]) && Enabled(w, run[0])
      && LiveAtPolls(Next(w, run[0]), run[1..])
  }

  lemma {:induction false} LeadersNeverStepDown(w: World, run: seq<Step>)
    requires WellFormed(w) && LiveAtPolls(w, run)
    ensures w.leaders <= After(w, run).leaders
    decreases |run|
  {
    if run != [] {
      LeadersNeverStepDown(Next(w, run[0]), run[1..]);
    }
  }

  /** Two processes that both lead poll every ten seconds. */
  ghost function BothRenew(p: Proc, q: Proc, rounds: nat): seq<Step> {
    if rounds == 0 then []
    else [Advance(SLEEP_S), Poll(p, Reachable(true)), Poll(q, Reachable(true))] + BothRenew(p, q, rounds - 1)
  }

  ghost predicate SplitBrain(w: World, p: Proc, q: Proc) {
    && p != q && {p, q} <= w.leaders && WellFormed(w)
    && w.lock.Held? && w.lock.until > w.now + SLEEP_S
    && w.wake[p] <= w.now + SLEEP_S && w.wake[q] <= w.now + SLEEP_S
  }

  lemma {:induction false} SplitBrainLasts(w: World, p: Proc, q: Proc, rounds: nat)
    requires SplitBrain(w, p, q)
    ensures SplitBrain(After(w, BothRenew(p, q, rounds)), p, q)
    decreases rounds
  {
    if rounds > 0 {
      var yes, rest := Reachable(true), BothRenew(p, q, rounds - 1);
      var w1 := Next(w, Advance(SLEEP_S));
      var w2 := Next(w1, Poll(p, yes));
      var w3 := Next(w2, Poll(q, yes));
      assert SplitBrain(w3, p, q);
      SplitBrainLasts(w3, p, q, rounds - 1);
      AfterStep(w2, Poll(q, yes), rest);
      AfterStep(w1, Poll(p, yes), [Poll(q, yes)] + rest);
      AfterStep(w, Advance(SLEEP_S), [Poll(p, yes)] + ([Poll(q, yes)] + rest));
      assert BothRenew(p, q, rounds) == [Advance(SLEEP_S)] + ([Poll(p, yes)] + ([Poll(q, yes)] + rest));
    }
  }

  lemma AfterStep(w: World, s: Step, run: seq<Step>)
    ensures After(w, [s] + run) == After(Next(w, s), run)
    ensures forall slack :: PunctualRun(w, [s] + run, slack) <==>
              Punctual(w, slack) && Enabled(w, s) && Answered(s) && PunctualRun(Next(w, s), run, slack)
  {
    assert ([s] + run)[1..] == run;
  }

  /** The bound on oversleeping is sharp: with exactly 20 s of slack there is a run in which two processes lead,
      and both keep their lead through any number of further renewals. */
  lemma TwoLeadersWithoutTheBound(rounds: nat) returns (w: World, run: seq<Step>)
    ensures WellFormed(w) && w.leaders == {} && w.lock == Free
    ensures PunctualRun(w, run, TTL_S - SLEEP_S)
    ensures SplitBrain(After(w, run), 0, 1)
    ensures SplitBrain(After(After(w, run), BothRenew(0, 1, rounds)), 0, 1)
  {
    var yes := Reachable(true);
    var w3 := World(30, Held(0, 30), {0, 1}, {0}, map[0 := 10, 1 := 30], map[0 := 30]);
    var w5 := World(30, Held(0, 60), {0, 1}, {0, 1}, map[0 := 40, 1 := 40], map[0 := 60, 1 := 60]);
    w := World(0, Free, {0}, {}, map[0 := 0], map[]);
    var r3 := [Poll(1, yes), Poll(0, yes)];
    LateRenewal(w3, w5);
    Stall(w, w3, r3);
    run := [Poll(0, yes)] + ([Advance(30)] + ([Start(1)] + r3));
    SplitBrainLasts(w5, 0, 1, rounds);
  }

  /** Process 0 takes the lock and sleeps for thirty seconds while process 1 comes up. */
  lemma Stall(w: World, w3: World, rest: seq<Step>)
    requires w == World(0, Free, {0}, {}, map[0 := 0], map[])
    requires w3 == World(30, Held(0, 30), {0, 1}, {0}, map[0 := 10, 1 := 30], map[0 := 30])
    requires PunctualRun(w3, rest, TTL_S - SLEEP_S)
    ensures var run := [Poll(0, Reachable(true))] + ([Advance(30)] + ([Start(1)] + rest));
            PunctualRun(w, run, TTL_S - SLEEP_S) && After(w, run) == After(w3, rest)
  {
    hide After, PunctualRun;
    var yes := Reachable(true);
    var w1 := World(0, Held(0, 30), {0}, {0}, map[0 := 10], map[0 := 30]);
    var w2 := w1.(now := 30);
    assert Next(w, Poll(0, yes)) == w1;
    assert Next(w1, Advance(30)) == w2;
    assert Next(w2, Start(1)) == w3;
    AfterStep(w2, Start(1), rest);
    AfterStep(w1, Advance(30), [Start(1)] + rest);
    AfterStep(w, Poll(0, yes), [Advance(30)] + ([Start(1)] + rest));
  }

  /** Process 1 takes the expired lock, and process 0 renews it all the same. */
  lemma LateRenewal(w3: World, w5: World)
    requires w3 == World(30, Held(0, 30), {0, 1}, {0}, map[0 := 10, 1 := 30], map[0 := 30])
    requires w5 == World(30, Held(0, 60), {0, 1}, {0, 1}, map[0 := 40, 1 := 40], map[0 := 60, 1 := 60])
    ensures var run := [Poll(1, Reachable(true)), Poll(0, Reachable(true))];
            PunctualRun(w3, run, TTL_S - SLEEP_S) && After(w3, run) == w5
  {
    var yes := Reachable(true);
    var w4 := World(30, Held(1, 60), {0, 1}, {0, 1}, map[0 := 10, 1 := 40], map[0 := 30, 1 := 60]);
    assert Next(w3, Poll(1, yes)) == w4;
    assert Next(w4, Poll(0, yes)) == w5;
    assert [Poll(1, yes)] + ([Poll(0, yes)] + []) == [Poll(1, yes), Poll(0, yes)];
    assert PunctualRun(w5, [], TTL_S - SLEEP_S) && After(w5, []) == w5;
    hide After, PunctualRun;
    AfterStep(w4, Poll(0, yes), []);
    AfterStep(w3, Poll(1, yes), [Poll(0, yes)] + []);
  }

  // ---------------------------------------------------------------- shutdown

  /** A shutdown whose stop function is not awaited, or cannot reach the store, is a crash. */
  lemma DroppedStopIsCrash(w: World, p: Proc, call: StopCall)
    ensures Next(w, Stop(p, call)) == Next(w, Crash(p))
       <==> p in w.leaders && call == Awaited(true) ==> w.lock == Free
  {
    var w1, w2 := Next(w, Stop(p, call)), Next(w, Crash(p));
    assert w1 == w2 <==> w1.lock == w2.lock;
  }

  /** A run of possible steps in which every process that polls has a store client. */
  ghost predicate PossibleRun(w: World, run: seq<Step>)
    decreases |run|
  {
    run != [] ==>
      && Enabled(w, run[0]) && (run[0].Poll? ==> !run[0].env.NoClient?)
      && PossibleRun(Next(w, run[0]), run[1..])
  }

  /** Nobody polls and nobody goes away. */
  ghost predicate Quiet(run: seq<Step>) {
    forall i :: 0 <= i < |run| ==> !run[i].Poll? && !Ends(run[i])
  }

  lemma {:induction false} QuietKeeps(w: World, run: seq<Step>)
    requires WellFormed(w) && PossibleRun(w, run) && Quiet(run)
    ensures var w' := After(w, run);
            WellFormed(w') && w'.lock == w.lock && w'.leaders == w.leaders && w.alive <= w'.alive
    decreases |run|
  {
    if run != [] {
      assert Quiet(run[1..]);
      assert WellFormed(Next(w, run[0])) && Next(w, run[0]).leaders == w.leaders;
      QuietKeeps(Next(w, run[0]), run[1..]);
    }
  }

  /** Awaiting it is safe only where one process leads: in a split brain the release deletes the other leader's lock.
      Whoever polls next, whenever that is, then ends in trouble: the other leader loses its lead, and any other process
      becomes a leader beside it. */
  lemma StopInSplitBrain(w: World, p: Proc, q: Proc, run: seq<Step>)
    requires SplitBrain(w, p, q)
    requires PossibleRun(Next(w, Stop(p, Awaited(true))), run) && Quiet(run)
    ensures var w' := After(Next(w, Stop(p, Awaited(true))), run);
            && q in w'.leaders && w'.lock == Free
            && (Enabled(w', Poll(q, Reachable(true))) ==> q !in Next(w', Poll(q, Reachable(true))).leaders)
            && (forall r :: Enabled(w', Poll(r, Reachable(true))) && r !in w'.leaders ==>
                  {q, r} <= Next(w', Poll(r, Reachable(true))).leaders)
  {
    assert q in w.leaders;
    QuietKeeps(Next(w, Stop(p, Awaited(true))), run);
  }

  /** Dropped, the lock stays, and the other leader keeps its lead if it polls before the lock expires. */
  lemma DroppedStopInSplitBrain(w: World, p: Proc, q: Proc, run: seq<Step>)
    requires SplitBrain(w, p, q)
    requires PossibleRun(Next(w, Stop(p, Dropped)), run) && Quiet(run)
    ensures var w' := After(Next(w, Stop(p, Dropped)), run);
            && q in w'.leaders && w'.lock == w.lock
            && (Enabled(w', Poll(q, Reachable(true))) ==>
                  (q in Next(w', Poll(q, Reachable(true))).leaders <==> w'.now < w.lock.until))
  {
    assert q in w.leaders;
    QuietKeeps(Next(w, Stop(p, Dropped)), run);
  }

  // ---------------------------------------------------------------- rounds that take or lose nothing

  /** Without a store client every process whose supervisor starts becomes a leader, one beside the other, and the
      lock is left alone. */
  ghost function LonePolls(ps: seq<Proc>): seq<Step> {
    if ps == [] then [] else [Poll(ps[0], NoClient(true))] + LonePolls(ps[1..])
  }

  lemma {:induction false} EveryoneLeadsWithoutStore(w: World, ps: seq<Proc>)
    requires WellFormed(w) && forall p :: p in ps ==> p in w.alive
    ensures var w' := After(w, LonePolls(ps));
            && w'.lock == w.lock && w.leaders <= w'.leaders && w'.leaders <= w.leaders + (set p | p in ps)
            && forall p :: p in ps ==> p in w'.leaders
    decreases |ps|
  {
    if ps != [] {
      var w1 := Next(w, Poll(ps[0], NoClient(true)));
      EveryoneLeadsWithoutStore(w1, ps[1..]);
      assert LonePolls(ps)[1..] == LonePolls(ps[1..]);
      assert ps == [ps[0]] + ps[1..];
    }
  }

  /** A process without a store client whose supervisor fails to start, or whose call fails, stays what it is. */
  lemma NothingChangesOnFailure(w: World, p: Proc)
    requires p in w.alive
    ensures var w1, w2 := Next(w, Poll(p, NoClient(false))), Next(w, Poll(p, SetRaises));
            w1.leaders == w.leaders == w2.leaders && w1.lock == w.lock == w2.lock
  {
  }

  /** A process that takes the lock and then fails to start does not lead, and keeps everyone else from leading until
      its entry expires. */
  lemma FailedStartBlocks(w: World, p: Proc, run: seq<Step>)
    requires WellFormed(w) && w.leaders == {} && !Live(w.lock, w.now) && Enabled(w, Poll(p, Reachable(false)))
    requires PossibleRun(Next(w, Poll(p, Reachable(false))), run)
    ensures var w' := After(Next(w, Poll(p, Reachable(false))), run);
            w'.now < w.now + 30 ==> w'.leaders == {} && w'.lock == Held(p, w.now + 30)
  {
    LockStands(Next(w, Poll(p, Reachable(false))), p, w.now + 30, run);
  }

  // ---------------------------------------------------------------- failover

  /** A run in which no process goes away and every start of the supervisor succeeds. */
  ghost predicate Smooth(run: seq<Step>) {
    forall i :: 0 <= i < |run| ==> !Ends(run[i]) && (run[i].Poll? ==> run[i].env == Reachable(true))
  }

  /** Nobody leads and the lock is as a former leader left it; the survivor `p` polls again by `due`, and so it does
      if it last polled while that lock was live. */
  ghost predicate Waiting(w: World, p: Proc, left: Lock, due: int) {
    && WellFormed(w) && w.leaders == {} && w.lock == left
    && p in w.alive && w.wake[p] <= due && (left.Held? ==> left.until + SLEEP_S <= due + 1)
  }

  /** Somebody has taken over and holds the live lock. */
  ghost predicate TakenOver(w: World) {
    && WellFormed(w) && LockNamesLeaders(w) && ClaimsFromLastPoll(w)
    && w.leaders != {}
  }

  lemma WaitingStep(w: World, s: Step, p: Proc, left: Lock, due: int)
    requires Waiting(w, p, left, due) && Enabled(w, s)
    requires !Ends(s) && (s.Poll? ==> s.env == Reachable(true))
    ensures if s.Poll? && !Live(left, w.now) then TakenOver(Next(w, s)) else Waiting(Next(w, s), p, left, due)
  {
    if s.Poll? && !Live(w.lock, w.now) {
      assert s.p in Next(w, s).leaders;
    }
  }

  lemma TakenOverStep(w: World, s: Step, slack: nat)
    requires TakenOver(w) && Enabled(w, s) && Punctual(w, slack) && slack < TTL_S - SLEEP_S
    requires !Ends(s) && (s.Poll? ==> s.env == Reachable(true))
    ensures TakenOver(Next(w, s))
  {
    assert Renewed(w);
    StepKeepsExclusion(w, s);
    var q :| q in w.leaders;
    assert w.lock == Held(q, w.claim[q]);
    assert q in Next(w, s).leaders;
  }

  lemma {:induction false} TakenOverLasts(w: World, run: seq<Step>, slack: nat)
    requires TakenOver(w) && PunctualRun(w, run, slack) && Smooth(run) && slack < TTL_S - SLEEP_S
    ensures TakenOver(After(w, run))
    decreases |run|
  {
    if run != [] {
      assert Smooth(run[1..]);
      TakenOverStep(w, run[0], slack);
      TakenOverLasts(Next(w, run[0]), run[1..], slack);
    }
  }

  lemma {:induction false} WaitOrTakeOver(w: World, run: seq<Step>, p: Proc, left: Lock, due: int, slack: nat)
    requires Waiting(w, p, left, due) && PunctualRun(w, run, slack) && Smooth(run) && slack < TTL_S - SLEEP_S
    ensures Waiting(After(w, run), p, left, due) || TakenOver(After(w, run))
    ensures Live(left, After(w, run).now) ==> Waiting(After(w, run), p, left, due)
    decreases |run|
  {
    if run != [] {
      var w1 := Next(w, run[0]);
      assert Smooth(run[1..]);
      WaitingStep(w, run[0], p, left, due);
      if Waiting(w1, p, left, due) {
        WaitOrTakeOver(w1, run[1..], p, left, due, slack);
      } else {
        TakenOverLasts(w1, run[1..], slack);
        TimeNeverGoesBack(w1, run[1..]);
      }
    }
  }

  lemma {:induction false} TimeNeverGoesBack(w: World, run: seq<Step>)
    ensures w.now <= After(w, run).now
    decreases |run|
  {
    if run != [] {
      TimeNeverGoesBack(Next(w, run[0]), run[1..]);
    }
  }

  lemma {:induction false} PunctualAtEnd(w: World, run: seq<Step>, slack: nat)
    requires PunctualRun(w, run, slack)
    ensures Punctual(After(w, run), slack)
    decreases |run|
  {
    if run != [] {
      PunctualAtEnd(Next(w, run[0]), run[1..], slack);
    }
  }

  /** One process leads and the live lock names it. */
  ghost predicate OneLeader(w: World) {
    exists q :: w.leaders == {q} && Live(w.lock, w.now) && w.lock.owner == q
  }

  /** Past `due` the wait is over. */
  lemma Succession(w: World, run: seq<Step>, p: Proc, left: Lock, due: int, slack: nat)
    requires Waiting(w, p, left, due) && PunctualRun(w, run, slack) && Smooth(run) && slack < TTL_S - SLEEP_S
    ensures var w' := After(w, run);
            && (Live(left, w'.now) ==> w'.leaders == {} && w'.lock == left)
            && (w'.now > due + slack ==> OneLeader(w'))
  {
    WaitOrTakeOver(w, run, p, left, due, slack);
    PunctualAtEnd(w, run, slack);
    var w' := After(w, run);
    if w'.now > due + slack {
      assert TakenOver(w');
      var q :| q in w'.leaders;
      assert w'.lock == Held(q, w'.claim[q]);
      assert w'.leaders == {q};
    }
  }

  /** A leader goes away among processes that poll on time; `p` survives it. */
  ghost predicate Succeeds(w: World, dead: Proc, p: Proc) {
    && WellFormed(w) && LockNamesLeaders(w) && Renewed(w) && ClaimsFromLastPoll(w)
    && dead in w.leaders && w.wake[dead] <= w.now + SLEEP_S
    && p in w.alive && p != dead && w.wake[p] <= w.now + SLEEP_S
  }

  /** A leader that dies, or shuts down as the source has it, leaves the lock to expire: whatever else happens, nobody
      leads and the lock stays as it was until the old lock's expiry. */
  lemma NobodyLeadsBeforeExpiry(w: World, end: Step, dead: Proc, run: seq<Step>)
    requires WellFormed(w) && LockNamesLeaders(w) && dead in w.leaders
    requires end == Crash(dead) || end == Stop(dead, Dropped) || end == Stop(dead, Awaited(false))
    requires PossibleRun(Next(w, end), run)
    ensures var w' := After(Next(w, end), run);
            w'.now < w.claim[dead] ==> w'.leaders == {} && w'.lock == Held(dead, w.claim[dead])
  {
    OnlyLeader(w, dead);
    LockStands(Next(w, end), dead, w.claim[dead], run);
  }

  lemma {:induction false} LockStands(w: World, dead: Proc, expiry: int, run: seq<Step>)
    requires WellFormed(w) && w.leaders == {} && w.lock == Held(dead, expiry) && PossibleRun(w, run)
    ensures After(w, run).now < expiry ==> After(w, run).leaders == {} && After(w, run).lock == Held(dead, expiry)
    decreases |run|
  {
    if run != [] {
      TimeNeverGoesBack(w, run);
      if w.now < expiry {
        LockStands(Next(w, run[0]), dead, expiry, run[1..]);
      }
    }
  }

  /** By the old lock's expiry, which is at most the TTL away, plus one poll period one survivor leads and holds the
      live lock. */
  lemma Failover(w: World, end: Step, dead: Proc, p: Proc, run: seq<Step>, slack: nat)
    requires Succeeds(w, dead, p)
    requires end == Crash(dead) || end == Stop(dead, Dropped) || end == Stop(dead, Awaited(false))
    requires PunctualRun(Next(w, end), run, slack) && Smooth(run) && slack < TTL_S - SLEEP_S
    ensures w.now < w.claim[dead] <= w.now + TTL_S
    ensures var w' := After(Next(w, end), run);
            w'.now >= w.claim[dead] + SLEEP_S + slack ==> OneLeader(w')
  {
    var expiry, w1 := w.claim[dead], Next(w, end);
    OnlyLeader(w, dead);
    assert Waiting(w1, p, Held(dead, expiry), expiry + SLEEP_S - 1);
    Succession(w1, run, p, Held(dead, expiry), expiry + SLEEP_S - 1, slack);
  }

  /** Had the release been awaited, one survivor would lead within one poll period of the shutdown. */
  lemma AwaitedHandOver(w: World, dead: Proc, p: Proc, run: seq<Step>, slack: nat)
    requires Succeeds(w, dead, p)
    requires PunctualRun(Next(w, Stop(dead, Awaited(true))), run, slack) && Smooth(run) && slack < TTL_S - SLEEP_S
    ensures var w' := After(Next(w, Stop(dead, Awaited(true))), run);
            w'.now > w.now + SLEEP_S + slack ==> OneLeader(w')
  {
    var w1 := Next(w, Stop(dead, Awaited(true)));
    OnlyLeader(w, dead);
    assert Waiting(w1, p, Free, w.now + SLEEP_S);
    Succession(w1, run, p, Free, w.now + SLEEP_S, slack);
  }

  lemma OnlyLeader(w: World, p: Proc)
    requires LockNamesLeaders(w) && p in w.leaders
    ensures w.leaders == {p} && w.lock == Held(p, w.claim[p])
  {
    assert w.lock == Held(p, w.claim[p]);
    forall q | q in w.leaders
      ensures q == p
    {
      assert w.lock == Held(q, w.claim[q]);
    }
  }
}
