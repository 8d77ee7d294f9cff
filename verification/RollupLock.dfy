/** The rollup's advisory lock: a lease in Redis, released by compare-and-delete. Runs read a
    row and write it back in two steps, which only the lock keeps apart. */
module RollupLock {
  import opened Arith
  import opened Rollup

  const LOCK_TIMEOUT_MS := 120_000

  datatype Lease = Lease(token: string, until: int)

  /** The lock key at a time: Redis drops a key once its deadline is past, not at it. */
  function Held(lock: Option<Lease>, now: int): Option<Lease> {
    if lock.Some? && now <= lock.value.until then lock else None
  }

  function Acquired(lock: Option<Lease>, token: string, now: int): Option<Lease> {
    if Held(lock, now).None? then Some(Lease(token, now + LOCK_TIMEOUT_MS)) else lock
  }

  function Released(lock: Option<Lease>, token: string, now: int): Option<Lease> {
    if Held(lock, now).Some? && lock.value.token == token then None else lock
  }

  class LockKey {
    var lock: Option<Lease>

    constructor ()
      ensures lock == None
    {
      lock := None;
    }

    /** SET key token NX PX timeout. */
    method Acquire(token: string, now: int) returns (ok: bool)
      modifies this
      ensures ok == Held(old(lock), now).None? && lock == Acquired(old(lock), token, now)
    {
      ok := lock.None? || lock.value.until < now;
      if ok {
        lock := Some(Lease(token, now + LOCK_TIMEOUT_MS));
      }
    }

    /** unlock.lua */
    method Unlock(token: string, now: int) returns (deleted: bool)
      modifies this
      ensures lock == Released(old(lock), token, now)
      ensures deleted <==> Held(old(lock), now).Some? && old(lock).value.token == token
    {
      deleted := lock.Some? && now <= lock.value.until && lock.value.token == token;
      if deleted {
        lock := None;
      }
    }
  }

  // ----- runs of the job

  /** A row that was selected and is about to be written. */
  datatype Pending = Pending(account: Account, value: int, seen: Option<int>)
  datatype Run = Run(at: int, pending: Option<Pending>)

  /** `tokens` are all tokens ever drawn; `runs` the runs that hold, or think they hold, the lock. */
  datatype System = System(lock: Option<Lease>, runs: map<string, Run>, used: map<Account, int>, tokens: set<string>, now: int)

  datatype Step =
    | Acquire(token: string, now: int)
    | Select(token: string, account: Account, value: int, now: int)
    | Commit(token: string, now: int)
    | Release(token: string, now: int)
    | Crash(token: string, now: int)

  predicate Enabled(sys: System, step: Step) {
    && sys.now <= step.now
    && match step
       case Acquire(token, _) => token !in sys.tokens
       case Select(token, _, _, _) => token in sys.runs && sys.runs[token].pending.None?
       case Commit(token, _) => token in sys.runs && sys.runs[token].pending.Some?
       case Release(token, _) => token in sys.runs
       case Crash(token, _) => token in sys.runs
  }

  function UsedOf(used: map<Account, int>, a: Account): Option<int> {
    if a in used then Some(used[a]) else None
  }

  /** What the write does: an insert fails if the row has appeared, an update overwrites. */
  function Written(used: map<Account, int>, p: Pending): map<Account, int> {
    if p.seen.None? then (if p.account in used then used else used[p.account := p.value])
    else if p.value > p.seen.value then used[p.account := p.value]
    else used
  }

  function Next(sys: System, step: Step): System
    requires Enabled(sys, step)
  {
    var sys := sys.(now := step.now);
    match step
    case Acquire(token, now) =>
      var sys := sys.(tokens := sys.tokens + {token}, lock := Acquired(sys.lock, token, now));
      if sys.lock == Some(Lease(token, now + LOCK_TIMEOUT_MS)) then sys.(runs := sys.runs[token := Run(now, None)]) else sys
    case Select(token, a, v, _) =>
      sys.(runs := sys.runs[token := sys.runs[token].(pending := Some(Pending(a, v, UsedOf(sys.used, a))))])
    case Commit(token, _) =>
      sys.(used := Written(sys.used, sys.runs[token].pending.value), runs := sys.runs[token := sys.runs[token].(pending := None)])
    case Release(token, now) => sys.(lock := Released(sys.lock, token, now), runs := sys.runs - {token})
    case Crash(token, _) => sys.(runs := sys.runs - {token})
  }

  const START := System(None, map[], map[], {}, 0)

  ghost predicate IsRun(states: seq<System>, steps: seq<Step>) {
    && |states| == |steps| + 1 && states[0] == START
    && forall k :: 0 <= k < |steps| ==> Enabled(states[k], steps[k]) && states[k + 1] == Next(states[k], steps[k])
  }

  predicate InLease(sys: System, token: string)
    requires token in sys.runs
  {
    sys.now <= sys.runs[token].at + LOCK_TIMEOUT_MS
  }

  /** A run inside its lease owns the lock. */
  predicate OwnersHold(sys: System) {
    && (forall t :: t in sys.runs ==> t in sys.tokens)
    && (sys.lock.Some? ==> sys.lock.value.token in sys.tokens)
    && (forall t :: t in sys.runs && InLease(sys, t) ==> sys.lock == Some(Lease(t, sys.runs[t].at + LOCK_TIMEOUT_MS)))
  }

  lemma StepKeepsOwners(sys: System, step: Step)
    requires OwnersHold(sys) && Enabled(sys, step)
    ensures OwnersHold(Next(sys, step))
  {
    var sys' := Next(sys, step);
    forall t | t in sys'.runs && InLease(sys', t)
      ensures sys'.lock == Some(Lease(t, sys'.runs[t].at + LOCK_TIMEOUT_MS))
    {
      if t in sys.runs {
        assert InLease(sys, t);
      }
    }
  }

  lemma {:induction false} LeasesAreOwned(states: seq<System>, steps: seq<Step>, k: nat)
    requires IsRun(states, steps) && k < |states|
    ensures OwnersHold(states[k])
  {
    if k > 0 {
      LeasesAreOwned(states, steps, k - 1);
      StepKeepsOwners(states[k - 1], steps[k - 1]);
    }
  }

  /** Two runs are never at work together unless one of them has outlived its lease. */
  lemma OverlapNeedsOverrun(states: seq<System>, steps: seq<Step>, k: nat, t: string, u: string)
    requires IsRun(states, steps) && k < |states| && t in states[k].runs && u in states[k].runs && t != u
    ensures !InLease(states[k], t) || !InLease(states[k], u)
  {
    LeasesAreOwned(states, steps, k);
  }

  /** No release deletes another run's lock, however late it comes. */
  lemma ReleaseSparesOthers(states: seq<System>, steps: seq<Step>, k: nat, t: string)
    requires IsRun(states, steps) && k < |steps| && steps[k].Release? && steps[k].token != t
    requires t in states[k].runs && steps[k].now <= states[k].runs[t].at + LOCK_TIMEOUT_MS
    ensures states[k + 1].lock == Some(Lease(t, states[k].runs[t].at + LOCK_TIMEOUT_MS))
    ensures t in states[k + 1].runs && InLease(states[k + 1], t)
  {
    LeasesAreOwned(states, steps, k);
    assert InLease(states[k], t);
  }

  /** An acquire succeeds exactly when no lease runs: there is none, or its 120 seconds are over.
      It then has the lock for 120 seconds, and otherwise changes nothing but the clock. */
  lemma AcquireTakesAFreeLock(states: seq<System>, steps: seq<Step>, k: nat)
    requires IsRun(states, steps) && k < |steps| && steps[k].Acquire?
    ensures var sys, sys', t, now := states[k], states[k + 1], steps[k].token, steps[k].now;
            && (t in sys'.runs <==> sys.lock.None? || now > sys.lock.value.until)
            && (t in sys'.runs ==> sys'.runs[t].at == now && sys'.lock == Some(Lease(t, now + 120_000)))
            && (t !in sys'.runs ==> sys'.lock == sys.lock && sys'.runs == sys.runs)
            && sys'.used == sys.used
  {
    LeasesAreOwned(states, steps, k);
  }

  /** A run that releases inside its lease frees the lock. */
  lemma ReleaseFreesTheLock(states: seq<System>, steps: seq<Step>, k: nat)
    requires IsRun(states, steps) && k < |steps| && steps[k].Release? && steps[k].token in states[k].runs
    requires steps[k].now <= states[k].runs[steps[k].token].at + 120_000
    ensures states[k + 1].lock == None && steps[k].token !in states[k + 1].runs
  {
    LeasesAreOwned(states, steps, k);
    assert InLease(states[k], steps[k].token);
  }

  /** Every row is written at most `limit` milliseconds after its run acquired the lock. */
  ghost predicate WritesWithin(states: seq<System>, steps: seq<Step>, limit: int)
    requires IsRun(states, steps)
  {
    forall k :: 0 <= k < |steps| && steps[k].Commit? ==> WritesBy(states[k], steps[k], limit)
  }

  predicate WritesBy(sys: System, step: Step, limit: int)
    requires Enabled(sys, step) && step.Commit?
  {
    step.now <= sys.runs[step.token].at + limit
  }

  /** What a run inside its lease selected is still what the table holds. */
  predicate SeesTheTable(sys: System) {
    forall t :: t in sys.runs && InLease(sys, t) && sys.runs[t].pending.Some? ==>
      sys.runs[t].pending.value.seen == UsedOf(sys.used, sys.runs[t].pending.value.account)
  }

  lemma StepKeepsSight(sys: System, step: Step, limit: int)
    requires Enabled(sys, step) && OwnersHold(sys) && SeesTheTable(sys) && limit <= LOCK_TIMEOUT_MS
    requires step.Commit? ==> WritesBy(sys, step, limit)
    ensures SeesTheTable(Next(sys, step))
  {
    var sys' := Next(sys, step);
    forall t | t in sys'.runs && InLease(sys', t) && sys'.runs[t].pending.Some?
      ensures sys'.runs[t].pending.value.seen == UsedOf(sys'.used, sys'.runs[t].pending.value.account)
    {
      assert InLease(sys, t);
      if step.Commit? {
        OneInLease(sys, t, step.token);
      }
    }
  }

  lemma OneInLease(sys: System, t: string, u: string)
    requires OwnersHold(sys) && t in sys.runs && u in sys.runs
    ensures InLease(sys, t) && InLease(sys, u) ==> t == u
  {
  }

  lemma {:induction false} TimelyRunsSeeTheTable(states: seq<System>, steps: seq<Step>, limit: int, k: nat)
    requires IsRun(states, steps) && k < |states| && WritesWithin(states, steps, limit) && limit <= LOCK_TIMEOUT_MS
    ensures SeesTheTable(states[k])
  {
    if k > 0 {
      TimelyRunsSeeTheTable(states, steps, limit, k - 1);
      LeasesAreOwned(states, steps, k - 1);
      StepKeepsSight(states[k - 1], steps[k - 1], limit);
    }
  }

  function Larger(old_: Option<int>, value: int): Option<int> {
    Some(if old_.Some? then Max(old_.value, value) else value)
  }

  /** The largest value that runs have written for an account in the first k steps. */
  ghost function Best(states: seq<System>, steps: seq<Step>, a: Account, k: nat): Option<int>
    requires IsRun(states, steps) && k < |states|
  {
    if k == 0 then None
    else
      var sys, step, earlier := states[k - 1], steps[k - 1], Best(states, steps, a, k - 1);
      if step.Commit? && sys.runs[step.token].pending.value.account == a
      then Larger(earlier, sys.runs[step.token].pending.value.value)
      else earlier
  }

  lemma CommitRaises(sys: System, step: Step, limit: int, a: Account)
    requires Enabled(sys, step) && SeesTheTable(sys) && limit <= LOCK_TIMEOUT_MS
    requires step.Commit? ==> WritesBy(sys, step, limit)
    ensures UsedOf(Next(sys, step).used, a)
         == if step.Commit? && sys.runs[step.token].pending.value.account == a
            then Larger(UsedOf(sys.used, a), sys.runs[step.token].pending.value.value)
            else UsedOf(sys.used, a)
  {
    if step.Commit? {
      assert InLease(sys, step.token);
    }
  }

  /** If every write comes inside its run's lease, each row always holds the largest value
      written for it: the order and number of runs do not matter. */
  lemma {:induction false} PersistedIsMaximum(states: seq<System>, steps: seq<Step>, limit: int, a: Account, k: nat)
    requires IsRun(states, steps) && k < |states| && WritesWithin(states, steps, limit) && limit <= LOCK_TIMEOUT_MS
    ensures UsedOf(states[k].used, a) == Best(states, steps, a, k)
    ensures k > 0 ==> !FallsTo(states[k - 1], states[k], a)
    ensures k > 0 && a in states[k - 1].used ==> a in states[k].used
  {
    if k > 0 {
      PersistedIsMaximum(states, steps, limit, a, k - 1);
      TimelyRunsSeeTheTable(states, steps, limit, k - 1);
      CommitRaises(states[k - 1], steps[k - 1], limit, a);
    }
  }

  predicate FallsTo(sys: System, sys': System, a: Account) {
    a in sys.used && a in sys'.used && sys'.used[a] < sys.used[a]
  }

  predicate FallsAt(states: seq<System>, k: int, a: Account) {
    0 <= k < |states| - 1 && FallsTo(states[k], states[k + 1], a)
  }

  /** The design's promise for a given bound on how long after the acquire a run may write. */
  ghost predicate NeverFalls(limit: int) {
    forall states: seq<System>, steps: seq<Step>, a: Account, k: int ::
      IsRun(states, steps) && WritesWithin(states, steps, limit) ==> !FallsAt(states, k, a)
  }

  const OVERRUN_MS := LOCK_TIMEOUT_MS + 1

  /** Two runs that overlap because the first outlives its lease. */
  function Overrun(a: Account): seq<Step> {
    [Acquire("first", 0), Select("first", a, 1, 0), Commit("first", 0), Select("first", a, 7, 0),
     Acquire("second", OVERRUN_MS), Select("second", a, 10, OVERRUN_MS),
     Commit("second", OVERRUN_MS), Commit("first", OVERRUN_MS)]
  }

  /** The first four of those steps: one row at 1, and a 7 about to be written. */
  lemma OverrunBegins(a: Account) returns (s1: System, s2: System, s3: System, s4: System)
    ensures Enabled(START, Overrun(a)[0]) && s1 == Next(START, Overrun(a)[0])
    ensures Enabled(s1, Overrun(a)[1]) && s2 == Next(s1, Overrun(a)[1])
    ensures Enabled(s2, Overrun(a)[2]) && s3 == Next(s2, Overrun(a)[2]) && WritesBy(s2, Overrun(a)[2], OVERRUN_MS)
    ensures Enabled(s3, Overrun(a)[3]) && s4 == Next(s3, Overrun(a)[3])
    ensures s4 == System(Some(Lease("first", LOCK_TIMEOUT_MS)), map["first" := Run(0, Some(Pending(a, 7, Some(1))))],
                         map[a := 1], {"first"}, 0)
  {
    s1 := Next(START, Overrun(a)[0]);
    s2 := Next(s1, Overrun(a)[1]);
    s3 := Next(s2, Overrun(a)[2]);
    s4 := Next(s3, Overrun(a)[3]);
  }

  /** The other four: a second run writes 10, and the first then writes its 7 over it. */
  lemma OverrunEnds(a: Account, s4: System) returns (s5: System, s6: System, s7: System, s8: System)
    requires s4 == System(Some(Lease("first", LOCK_TIMEOUT_MS)), map["first" := Run(0, Some(Pending(a, 7, Some(1))))],
                          map[a := 1], {"first"}, 0)
    ensures Enabled(s4, Overrun(a)[4]) && s5 == Next(s4, Overrun(a)[4])
    ensures Enabled(s5, Overrun(a)[5]) && s6 == Next(s5, Overrun(a)[5])
    ensures Enabled(s6, Overrun(a)[6]) && s7 == Next(s6, Overrun(a)[6]) && WritesBy(s6, Overrun(a)[6], OVERRUN_MS)
    ensures Enabled(s7, Overrun(a)[7]) && s8 == Next(s7, Overrun(a)[7]) && WritesBy(s7, Overrun(a)[7], OVERRUN_MS)
    ensures FallsTo(s7, s8, a)
  {
    s5 := Next(s4, Overrun(a)[4]);
    s6 := Next(s5, Overrun(a)[5]);
    s7 := Next(s6, Overrun(a)[6]);
    s8 := Next(s7, Overrun(a)[7]);
  }

  /** The lease matters: a run that outlives it by one millisecond can already write back over a
      newer, larger value. */
  lemma OverrunCanLowerARow(a: Account) returns (states: seq<System>)
    ensures IsRun(states, Overrun(a)) && WritesWithin(states, Overrun(a), OVERRUN_MS)
    ensures FallsTo(states[7], states[8], a)
  {
    var s1, s2, s3, s4 := OverrunBegins(a);
    var s5, s6, s7, s8 := OverrunEnds(a, s4);
    states := [START, s1, s2, s3, s4, s5, s6, s7, s8];
  }

  /** No persisted value ever falls, whatever overlaps, exactly when every write comes at most a
      lease after its run's acquire. */
  lemma NeverFallsExactlyInsideTheLease(limit: int)
    ensures NeverFalls(limit) <==> limit <= 120_000
  {
    if limit <= LOCK_TIMEOUT_MS {
      forall states: seq<System>, steps: seq<Step>, a: Account, k: int
        | IsRun(states, steps) && WritesWithin(states, steps, limit)
        ensures !FallsAt(states, k, a)
      {
        if 0 <= k < |steps| {
          PersistedIsMaximum(states, steps, limit, a, k + 1);
        }
      }
    } else {
      var a := Account("", "");
      var states := OverrunCanLowerARow(a);
      MoreTimeIsAllowed(states, Overrun(a), OVERRUN_MS, limit);
      assert FallsAt(states, 7, a);
    }
  }

  lemma MoreTimeIsAllowed(states: seq<System>, steps: seq<Step>, limit: int, longer: int)
    requires IsRun(states, steps) && WritesWithin(states, steps, limit) && limit <= longer
    ensures WritesWithin(states, steps, longer)
  {
    forall k | 0 <= k < |steps| && steps[k].Commit?
      ensures WritesBy(states[k], steps[k], longer)
    {
      assert WritesBy(states[k], steps[k], limit);
    }
  }
}
