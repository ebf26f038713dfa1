/** One round of the leader loop of the user-stream supervisor, and the shared expiring lock it polls. */
module LeaderLock {

  type Proc = nat

  const TTL_S := 30
  const SLEEP_S := 10

  /** The lock as the store keeps it; an entry past its expiry is as good as absent. */
  datatype Lock = Free | Held(owner: Proc, until: int)

  predicate Live(lock: Lock, now: int) {
    lock.Held? && now < lock.until
  }

  /** What one round of the loop meets: no store client at all, a failing call, or an answer. `starts` tells
      whether starting the supervisor succeeds should this round get that far. */
  datatype Env = NoClient(starts: bool) | SetRaises | Reachable(starts: bool)

  /** Leadership and lock after one round of process `me`. */
  function Round(isLeader: bool, lock: Lock, me: Proc, now: int, env: Env): (bool, Lock) {
    match env
    case NoClient(starts) => (isLeader || starts, lock)
    case SetRaises => (isLeader, lock)
    case Reachable(starts) =>
      if isLeader then
        if Live(lock, now) then (true, Held(me, now + TTL_S)) else (false, lock)
      else
        if Live(lock, now) then (false, lock) else (starts, Held(me, now + TTL_S))
  }

  /** How the body of a worker's stop function gets to run: not at all when the coroutine is dropped, else with the
      store answering or not. */
  datatype StopCall = Dropped | Awaited(answers: bool)

  /** The lock after a worker's shutdown: a leader's release deletes it, whoever it names. */
  function Stopped(isLeader: bool, lock: Lock, call: StopCall): Lock {
    if isLeader && call.Awaited? && call.answers then Free else lock
  }

  class Store {
    var lock: Lock

    /** SET with NX: only when no live entry exists. */
    method SetIfAbsent(owner: Proc, now: int) returns (ok: bool)
      modifies this
      ensures ok == !Live(old(lock), now)
      ensures lock == if ok then Held(owner, now + TTL_S) else old(lock)
    {
      ok := !Live(lock, now);
      if ok { lock := Held(owner, now + TTL_S); }
    }

    /** SET with XX: only when a live entry exists, whoever owns it. */
    method SetIfPresent(owner: Proc, now: int) returns (ok: bool)
      modifies this
      ensures ok == Live(old(lock), now)
      ensures lock == if ok then Held(owner, now + TTL_S) else old(lock)
    {
      ok := Live(lock, now);
      if ok { lock := Held(owner, now + TTL_S); }
    }

    /** DEL, whoever owns the entry. */
    method Delete()
      modifies this
      ensures lock == Free
    {
      lock := Free;
    }
  }

  /** A registered stop function: a plain one of another service, or this worker's, which is a coroutine function. */
  datatype StopFn = Plain | UsStop

  /** Calling a plain function runs it; calling a coroutine function only leaves a coroutine to be awaited. */
  predicate LeavesCoroutine(fn: StopFn) {
    fn.UsStop?
  }

  class Worker {
    const me: Proc
    var isLeader: bool
    var looping: bool

    /** The body of the endless loop, up to its sleep. */
    method LoopBody(store: Store, env: Env, now: int)
      modifies this, store
      ensures (isLeader, store.lock) == Round(old(isLeader), old(store.lock), me, now, env)
      ensures looping == old(looping)
    {
      match env {
        case NoClient(starts) =>
          if !isLeader && starts { isLeader := true; }
        case SetRaises =>
          return;
        case Reachable(starts) =>
          if isLeader {
            var ok := store.SetIfPresent(me, now);
            if !ok { isLeader := false; }
          } else {
            var ok := store.SetIfAbsent(me, now);
            if ok && starts { isLeader := true; }
          }
      }
    }

    /** The body of the worker's stop function: ends the loop and, for a leader, deletes the lock. */
    method Release(store: Store, answers: bool)
      modifies this`looping, store
      ensures !looping
      ensures store.lock == Stopped(isLeader, old(store.lock), Awaited(answers))
    {
      looping := false;
      if isLeader && answers { store.Delete(); }
    }

    /** The shutdown loop. The source calls every stop function and awaits none, so `awaits` is false there. */
    method Shutdown(stopFns: seq<StopFn>, awaits: bool, store: Store, answers: bool)
      modifies this`looping, store
      ensures var call := if awaits && UsStop in stopFns then Awaited(answers) else Dropped;
              && store.lock == Stopped(isLeader, old(store.lock), call)
              && looping == (old(looping) && call == Dropped)
    {
      var i := 0;
      while i < |stopFns|
        invariant 0 <= i <= |stopFns|
        invariant var call := if awaits && UsStop in stopFns[..i] then Awaited(answers) else Dropped;
                  && store.lock == Stopped(isLeader, old(store.lock), call)
                  && looping == (old(looping) && call == Dropped)
      {
        assert stopFns[..i + 1] == stopFns[..i] + [stopFns[i]];
        if LeavesCoroutine(stopFns[i]) && awaits { Release(store, answers); }
        i := i + 1;
      }
      assert stopFns[..i] == stopFns;
    }
  }
}
