/** The expiring leader lock around scheduled jobs (app/core/distributed_lock.py) and
    the lifetime the scheduler gives it (app/core/scheduler.py). */
module LeaderLock {
  import opened Money

  /** `_lock_ttl`: nine tenths of the interval; below it whenever a whole second is. */
  function LockTtl(interval: int): (ttl: int)
    ensures ttl >= 1
    ensures ttl <= interval - 1 <==> interval >= 2
    ensures interval >= 2 ==> 10 * ttl <= 9 * interval < 10 * ttl + 10
    ensures interval < 2 ==> ttl == 1
  {
    var capped := if interval - 1 <= interval * 9 / 10 then interval - 1 else interval * 9 / 10;
    if capped >= 1 then capped else 1
  }

  /** The key in Redis: who set it, when, and when it expires. */
  datatype Holder = Holder(token: nat, since: int, expiry: int)

  predicate Free(lock: Option<Holder>, now: int) {
    lock.None? || lock.value.expiry <= now
  }

  /** The shared key: SET NX with a timeout, and an owner-checked delete. */
  class RedisLock {
    var holder: Option<Holder>

    constructor ()
      ensures holder == None
    {
      holder := None;
    }

    method Acquire(token: nat, now: int, ttl: int) returns (ok: bool)
      modifies this
      ensures ok <==> old(holder) == None || old(holder).value.expiry <= now
      ensures holder == if ok then Some(Holder(token, now, now + ttl)) else old(holder)
    {
      ok := Free(holder, now);
      if ok {
        holder := Some(Holder(token, now, now + ttl));
      }
    }

    method Release(token: nat, now: int)
      modifies this
      ensures holder == Released(old(holder), token, now)
      ensures old(holder).Some? && old(holder).value.token == token && now < old(holder).value.expiry ==> holder == None
      ensures old(holder).Some? && old(holder).value.token != token ==> holder == old(holder)
    {
      if !Free(holder, now) && holder.value.token == token {
        holder := None;
      }
    }
  }

  function Released(lock: Option<Holder>, token: nat, now: int): Option<Holder> {
    if !Free(lock, now) && lock.value.token == token then None else lock
  }

  /** A worker outside the job, inside it under the lock, or inside it unguarded. */
  datatype Worker = Outside | Inside(token: nat, since: int) | Unguarded

  datatype State = State(now: int, lock: Option<Holder>, workers: map<nat, Worker>, tokens: nat)

  datatype Step =
    | Attempt(worker: nat)
    | AttemptWithoutRedis(worker: nat, took: bool)  // acquiring raised; the key may still have been set
    | Finish(worker: nat)
    | Crash(worker: nat)
    | Pass(seconds: nat)

  function WorkerAt(s: State, w: nat): Worker {
    if w in s.workers then s.workers[w] else Outside
  }

  /** The wrapper's steps; a crash leaves the key behind, tokens are never reused. */
  function Next(s: State, step: Step, ttl: int): State {
    match step
    case Attempt(w) =>
      if WorkerAt(s, w) == Outside && Free(s.lock, s.now)
      then s.(lock := Some(Holder(s.tokens, s.now, s.now + ttl)),
              workers := s.workers[w := Inside(s.tokens, s.now)], tokens := s.tokens + 1)
      else s
    case AttemptWithoutRedis(w, took) =>
      if WorkerAt(s, w) != Outside then s
      else if took && Free(s.lock, s.now)
      then s.(lock := Some(Holder(s.tokens, s.now, s.now + ttl)),
              workers := s.workers[w := Unguarded], tokens := s.tokens + 1)
      else s.(workers := s.workers[w := Unguarded])
    case Finish(w) =>
      (match WorkerAt(s, w)
       case Inside(token, _) => s.(lock := Released(s.lock, token, s.now), workers := s.workers[w := Outside])
       case Unguarded => s.(workers := s.workers[w := Outside])
       case Outside => s)
    case Crash(w) => s.(workers := s.workers[w := Outside])
    case Pass(seconds) => s.(now := s.now + seconds)
  }

  function Run(s: State, steps: seq<Step>, ttl: int): State {
    if steps == [] then s else Next(Run(s, steps[..|steps| - 1], ttl), steps[|steps| - 1], ttl)
  }

  const INITIAL := State(0, None, map[], 0)

  ghost predicate RedisAnswers(steps: seq<Step>) {
    forall i :: 0 <= i < |steps| ==> !steps[i].AttemptWithoutRedis?
  }

  ghost predicate Exclusive(s: State) {
    forall v, w :: WorkerAt(s, v) != Outside && WorkerAt(s, w) != Outside ==> v == w
  }

  /** Inside, and past the lifetime of the key it entered with. */
  ghost predicate Overrun(s: State, w: nat, ttl: int) {
    WorkerAt(s, w).Inside? && s.now >= WorkerAt(s, w).since + ttl
  }

  /** Whoever is inside within its lifetime owns the key; tokens tell workers apart. */
  ghost predicate Owned(s: State, ttl: int) {
    && (forall w :: WorkerAt(s, w).Inside? ==>
          var me := WorkerAt(s, w);
          me.token < s.tokens && (!Overrun(s, w, ttl) ==> s.lock == Some(Holder(me.token, me.since, me.since + ttl))))
    && (forall v, w ::
          WorkerAt(s, v).Inside? && WorkerAt(s, w).Inside? && WorkerAt(s, v).token == WorkerAt(s, w).token ==> v == w)
    && (s.lock.Some? ==> s.lock.value.token < s.tokens)
  }

  /** Every step keeps it, late jobs, crashes and unreachable servers included. */
  lemma StepKeepsOwner(s: State, step: Step, ttl: int)
    requires Owned(s, ttl)
    ensures Owned(Next(s, step, ttl), ttl)
  {
    var t := Next(s, step, ttl);
    forall w ensures WorkerAt(t, w) == WorkerAt(s, w) || (!step.Pass? && w == step.worker) {
    }
  }

  lemma {:induction false} RunKeepsOwner(steps: seq<Step>, ttl: int)
    ensures Owned(Run(INITIAL, steps, ttl), ttl)
  {
    hide Owned, Next;
    if steps == [] {
      NobodyOwns(ttl);
    } else {
      RunKeepsOwner(steps[..|steps| - 1], ttl);
      StepKeepsOwner(Run(INITIAL, steps[..|steps| - 1], ttl), steps[|steps| - 1], ttl);
    }
  }

  lemma NobodyOwns(ttl: int)
    ensures Owned(INITIAL, ttl)
  {
  }

  /** Inside with the key, or inside because Redis could not be asked. */
  predicate Enters(s: State, step: Step) {
    step.Attempt? && WorkerAt(s, step.worker) == Outside && Free(s.lock, s.now)
  }

  predicate EntersUnguarded(s: State, step: Step) {
    step.AttemptWithoutRedis? && WorkerAt(s, step.worker) == Outside
  }

  /** A worker gets the key beside one that has outlived its own or never had one, or goes in unguarded
      beside anyone at all. */
  ghost predicate AdmittedBeside(s: State, step: Step, ttl: int) {
    || (Enters(s, step) && exists v :: Overrun(s, v, ttl) || WorkerAt(s, v) == Unguarded)
    || (EntersUnguarded(s, step) && exists v :: WorkerAt(s, v) != Outside)
  }

  ghost predicate AdmissionAt(steps: seq<Step>, i: nat, ttl: int)
    requires i < |steps|
  {
    AdmittedBeside(Run(INITIAL, steps[..i], ttl), steps[i], ttl)
  }

  ghost predicate AdmitsBeside(steps: seq<Step>, ttl: int) {
    exists i: nat :: i < |steps| && AdmissionAt(steps, i, ttl)
  }

  ghost predicate AlwaysExclusive(steps: seq<Step>, ttl: int) {
    forall i :: 0 <= i <= |steps| ==> Exclusive(Run(INITIAL, steps[..i], ttl))
  }

  /** Only such an admission can break exclusion, and it always does. */
  lemma StepBreaksExclusionExactlyWhen(s: State, step: Step, ttl: int)
    requires Owned(s, ttl) && Exclusive(s)
    ensures !Exclusive(Next(s, step, ttl)) <==> AdmittedBeside(s, step, ttl)
  {
    var t := Next(s, step, ttl);
    forall w ensures WorkerAt(t, w) == WorkerAt(s, w) || (!step.Pass? && w == step.worker) {
    }
    if Enters(s, step) {
      forall v | WorkerAt(s, v) != Outside ensures Overrun(s, v, ttl) || WorkerAt(s, v) == Unguarded {
      }
      if v :| Overrun(s, v, ttl) || WorkerAt(s, v) == Unguarded {
        assert WorkerAt(t, v) != Outside && WorkerAt(t, step.worker) != Outside && v != step.worker;
      }
    } else if EntersUnguarded(s, step) {
      if v :| WorkerAt(s, v) != Outside {
        assert WorkerAt(t, v) != Outside && WorkerAt(t, step.worker) != Outside && v != step.worker;
      }
    }
  }

  /** Over every run, with Redis or without, no two workers are ever inside the job exactly when nobody
      gets the key beside a worker that outlived its own or never had one, and nobody goes in unguarded
      beside another. */
  lemma {:induction false} ExclusiveExactlyWhen(steps: seq<Step>, ttl: int)
    ensures AlwaysExclusive(steps, ttl) <==> !AdmitsBeside(steps, ttl)
  {
    if steps == [] {
      assert Exclusive(INITIAL);
    } else {
      var n := |steps| - 1;
      var before := steps[..n];
      ExclusiveExactlyWhen(before, ttl);
      RunKeepsOwner(before, ttl);
      hide Next, Owned, AdmittedBeside, Exclusive, AlwaysExclusive, AdmitsBeside;
      LastStateDecides(steps, ttl);
      LastAdmissionDecides(steps, ttl);
      if Exclusive(Run(INITIAL, before, ttl)) {
        StepBreaksExclusionExactlyWhen(Run(INITIAL, before, ttl), steps[n], ttl);
      }
    }
  }

  /** Both sides of the equivalence, split at the last step. */
  lemma LastStateDecides(steps: seq<Step>, ttl: int)
    requires steps != []
    ensures var n := |steps| - 1;
      var s := Run(INITIAL, steps[..n], ttl);
      && (AlwaysExclusive(steps, ttl) <==> AlwaysExclusive(steps[..n], ttl) && Exclusive(Next(s, steps[n], ttl)))
      && (AlwaysExclusive(steps[..n], ttl) ==> Exclusive(s))
  {
    var n := |steps| - 1;
    hide Next, Exclusive;
    assert forall i :: 0 <= i <= n ==> steps[..n][..i] == steps[..i];
    assert steps[..|steps|] == steps && steps[..n][..n] == steps[..n];
    assert Run(INITIAL, steps, ttl) == Next(Run(INITIAL, steps[..n], ttl), steps[n], ttl);
    hide Run;
  }

  lemma LastAdmissionDecides(steps: seq<Step>, ttl: int)
    requires steps != []
    ensures var n := |steps| - 1;
      AdmitsBeside(steps, ttl) <==>
        AdmitsBeside(steps[..n], ttl) || AdmittedBeside(Run(INITIAL, steps[..n], ttl), steps[n], ttl)
  {
    var n := |steps| - 1;
    var before := steps[..n];
    hide Run, AdmittedBeside;
    forall i: nat | i < n ensures AdmissionAt(before, i, ttl) == AdmissionAt(steps, i, ttl) {
      assert before[..i] == steps[..i] && before[i] == steps[i];
    }
    assert AdmissionAt(steps, n, ttl) == AdmittedBeside(Run(INITIAL, before, ttl), steps[n], ttl);
    hide AdmissionAt;
  }

  // ---- With Redis reachable ----------------------------------------------------------------

  lemma StepStaysGuarded(s: State, step: Step, ttl: int)
    requires !step.AttemptWithoutRedis? && forall w :: WorkerAt(s, w) != Unguarded
    ensures forall w :: WorkerAt(Next(s, step, ttl), w) != Unguarded
  {
    var t := Next(s, step, ttl);
    forall w ensures WorkerAt(t, w) == WorkerAt(s, w) || (!step.Pass? && w == step.worker) {
    }
  }

  lemma {:induction false} NobodyIsUnguarded(steps: seq<Step>, n: nat, ttl: int)
    requires RedisAnswers(steps) && n <= |steps|
    ensures forall w :: WorkerAt(Run(INITIAL, steps[..n], ttl), w) != Unguarded
  {
    if n == 0 {
    } else {
      NobodyIsUnguarded(steps, n - 1, ttl);
      assert steps[..n][..n - 1] == steps[..n - 1];
      StepStaysGuarded(Run(INITIAL, steps[..n - 1], ttl), steps[n - 1], ttl);
    }
  }

  /** A worker gets the key while another, whose key has expired, is still inside. */
  ghost predicate BesideOverrun(steps: seq<Step>, i: nat, ttl: int)
    requires i < |steps|
  {
    var s := Run(INITIAL, steps[..i], ttl);
    Enters(s, steps[i]) && exists v :: Overrun(s, v, ttl)
  }

  /** Then only a job that has outlived its key can be in the way. */
  lemma ReachableExclusiveExactlyWhen(steps: seq<Step>, ttl: int)
    requires RedisAnswers(steps)
    ensures AlwaysExclusive(steps, ttl) <==> !exists i: nat :: i < |steps| && BesideOverrun(steps, i, ttl)
  {
    ExclusiveExactlyWhen(steps, ttl);
    hide AlwaysExclusive;
    forall i: nat | i < |steps| ensures AdmissionAt(steps, i, ttl) == BesideOverrun(steps, i, ttl) {
      NobodyIsUnguarded(steps, i, ttl);
      hide Run;
    }
    hide AdmissionAt, BesideOverrun;
  }

  /** No job outruns the lock's lifetime. */
  ghost predicate Punctual(steps: seq<Step>, ttl: int) {
    forall i, w :: 0 <= i <= |steps| ==> !Overrun(Run(INITIAL, steps[..i], ttl), w, ttl)
  }

  /** So with Redis reachable and jobs shorter than the lifetime no two workers are ever inside. */
  lemma MutualExclusion(steps: seq<Step>, ttl: int)
    requires RedisAnswers(steps) && Punctual(steps, ttl)
    ensures AlwaysExclusive(steps, ttl)
  {
    ReachableExclusiveExactlyWhen(steps, ttl);
  }

  /** Over every run: when a worker that has lost its key finishes at last, the one now inside within its
      lifetime keeps its key, and nobody else gets in because of it. */
  lemma LateFinishSparesTheSuccessor(steps: seq<Step>, ttl: int, late: nat, successor: nat, other: nat)
    requires var s := Run(INITIAL, steps, ttl);
      && late != successor && WorkerAt(s, late).Inside?
      && WorkerAt(s, successor).Inside? && !Overrun(s, successor, ttl)
    ensures var s := Run(INITIAL, steps, ttl);
      var t := Next(s, Finish(late), ttl);
      var me := WorkerAt(s, successor);
      && WorkerAt(t, late) == Outside && WorkerAt(t, successor) == me
      && t.lock == Some(Holder(me.token, me.since, me.since + ttl))
      && (other != successor && other != late ==>
            WorkerAt(Next(t, Attempt(other), ttl), other) == WorkerAt(s, other))
      && WorkerAt(Next(t, Attempt(late), ttl), late) == Outside
  {
    RunKeepsOwner(steps, ttl);
    hide Run;
  }

  /** Over every run: a worker that finishes within its lifetime frees the key for the next attempt. */
  lemma FinishFreesTheKey(steps: seq<Step>, ttl: int, w: nat, next: nat)
    requires var s := Run(INITIAL, steps, ttl);
      && w != next && WorkerAt(s, w).Inside? && !Overrun(s, w, ttl) && WorkerAt(s, next) == Outside
    ensures var s := Run(INITIAL, steps, ttl);
      && WorkerAt(Next(s, Attempt(next), ttl), next) == Outside
      && WorkerAt(Next(Next(s, Finish(w), ttl), Attempt(next), ttl), next).Inside?
  {
    RunKeepsOwner(steps, ttl);
    hide Run;
  }

  /** Over every run: a worker that crashes within its lifetime leaves its key behind, and nobody gets in
      until it expires; then the next attempt does. */
  lemma CrashKeepsTheKey(steps: seq<Step>, ttl: int, w: nat, next: nat, seconds: nat)
    requires var s := Run(INITIAL, steps, ttl);
      && w != next && WorkerAt(s, w).Inside? && !Overrun(s, w, ttl) && WorkerAt(s, next) == Outside
    ensures var s := Run(INITIAL, steps, ttl);
      var t := Next(Next(Next(s, Crash(w), ttl), Pass(seconds), ttl), Attempt(next), ttl);
      WorkerAt(t, next).Inside? <==> s.now + seconds >= WorkerAt(s, w).since + ttl
  {
    RunKeepsOwner(steps, ttl);
    hide Run;
  }

  /** A job that outruns its lock lets a second worker in. */
  lemma OverrunAdmitsASecondWorker(ttl: nat)
    requires ttl > 0
    ensures !Exclusive(Run(INITIAL, [Attempt(1), Pass(ttl), Attempt(2)], ttl))
  {
    var one: seq<Step> := [Attempt(1)];
    var two: seq<Step> := [Attempt(1), Pass(ttl)];
    var steps: seq<Step> := [Attempt(1), Pass(ttl), Attempt(2)];
    assert steps[..2] == two && two[..1] == one && one[..0] == [];
    assert Run(INITIAL, one, ttl) == Next(INITIAL, Attempt(1), ttl);
    assert Run(INITIAL, two, ttl) == Next(Run(INITIAL, one, ttl), Pass(ttl), ttl);
    var t := Run(INITIAL, steps, ttl);
    assert t == Next(Run(INITIAL, two, ttl), Attempt(2), ttl);
    assert WorkerAt(t, 1) != Outside && WorkerAt(t, 2) != Outside;
  }

  /** Failing open trades exclusion for availability: without Redis two workers can run at once, though
      one alone does no harm. */
  lemma FailingOpenAdmitsASecondWorker(ttl: int, took: bool)
    requires ttl > 0
    ensures !Exclusive(Run(INITIAL, [Attempt(1), AttemptWithoutRedis(2, took)], ttl))
    ensures Exclusive(Run(INITIAL, [AttemptWithoutRedis(2, took)], ttl))
  {
    var steps := [Attempt(1), AttemptWithoutRedis(2, took)];
    assert steps[..1] == [Attempt(1)] && [Attempt(1)][..0] == [];
    assert Run(INITIAL, [Attempt(1)], ttl) == Next(INITIAL, Attempt(1), ttl);
    var t := Run(INITIAL, steps, ttl);
    assert WorkerAt(t, 1) != Outside && WorkerAt(t, 2) != Outside;
    assert [AttemptWithoutRedis(2, took)][..0] == [];
  }

  // ---- The lifetime --------------------------------------------------------------------

  lemma {:induction false} LockRemembersItsExpiry(steps: seq<Step>, ttl: int)
    ensures var s := Run(INITIAL, steps, ttl);
            s.lock.Some? ==> s.lock.value.expiry == s.lock.value.since + ttl
  {
    if steps == [] {
    } else {
      LockRemembersItsExpiry(steps[..|steps| - 1], ttl);
    }
  }

  /** Whatever happened before, overruns and crashes included, a key taken one interval ago never
      blocks an attempt made now. */
  lemma CrashedHolderNeverBlocksTheNextRun(steps: seq<Step>, interval: int, w: nat)
    requires interval >= 2
    requires var s := Run(INITIAL, steps, LockTtl(interval));
             WorkerAt(s, w) == Outside && (s.lock.Some? ==> s.now >= s.lock.value.since + interval)
    ensures var s := Run(INITIAL, steps, LockTtl(interval));
            WorkerAt(Next(s, Attempt(w), LockTtl(interval)), w).Inside?
  {
    LockRemembersItsExpiry(steps, LockTtl(interval));
  }
}
