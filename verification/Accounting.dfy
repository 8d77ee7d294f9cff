/** The life of a month counter under checks, scans, upserts, restores and data loss, in any
    order: a conservation law between admitted cost, the Redis counter and the rollup row. */
module Accounting {
  import opened Arith
  import opened Calendar
  import opened Limits
  import opened Redis
  import opened CheckScript

  /** A counter value that was read for a key and month, at some time. */
  datatype Tally = Tally(km: KeyMonth, value: int)

  /** Redis, the rollup table, and what rollup runs hold in memory: values read from Redis and
      values read from the table. A value read once may be written late, often, or never. */
  datatype System = System(store: Store, rollups: map<KeyMonth, int>, scanned: set<Tally>, queried: set<Tally>)

  const START := System(Empty, map[], {}, {})

  /** Every step is atomic; limits may differ from check to check. */
  datatype Step =
    | Check(argv: Argv, slot: Slot, cost: int, id: string, clock: Clock)
    | Scan(km: KeyMonth)
    | Upsert(tally: Tally)
    | Query(km: KeyMonth)
    | Restore(tally: Tally)
    | Loss(gone: set<RedisKey>)

  predicate Enabled(sys: System, step: Step) {
    match step
    case Check(argv, _, cost, _, c) => argv.rate > 0 && cost >= 1 && ValidMonth(c.month) && c.monthEndS == MonthEndS(c.month)
    case Scan(km) => km in sys.store.counters
    case Upsert(tally) => tally in sys.scanned
    case Query(km) => km in sys.rollups
    case Restore(tally) => tally in sys.queried
    case Loss(_) => true
  }

  /** upsert_rollup: insert, or raise; never lower. */
  function Upserted(rollups: map<KeyMonth, int>, tally: Tally): map<KeyMonth, int> {
    if tally.km in rollups && tally.value <= rollups[tally.km] then rollups
    else rollups[tally.km := tally.value]
  }

  function RestoreEnd(km: KeyMonth): int {
    if ValidMonth(km.month) then MonthEndSeconds(km.month.year, km.month.month) else 0
  }

  function Next(sys: System, step: Step): System
    requires Enabled(sys, step)
  {
    match step
    case Check(argv, slot, cost, id, c) => sys.(store := CheckStore(sys.store, argv, slot, cost, id, c))
    case Scan(km) => sys.(scanned := sys.scanned + {Tally(km, sys.store.counters[km].value)})
    case Upsert(tally) => sys.(rollups := Upserted(sys.rollups, tally))
    case Query(km) => sys.(queried := sys.queried + {Tally(km, sys.rollups[km])})
    case Restore(tally) => sys.(store := RestoreStore(sys.store, tally.km, tally.value, RestoreEnd(tally.km)))
    case Loss(gone) => sys.(store := Lose(sys.store, gone))
  }

  /** The states of a run, one more than its steps. */
  ghost predicate IsRun(states: seq<System>, steps: seq<Step>) {
    && |states| == |steps| + 1 && states[0] == START
    && forall k :: 0 <= k < |steps| ==> Enabled(states[k], steps[k]) && states[k + 1] == Next(states[k], steps[k])
  }

  /** What one step admits, loses and raises for a key and month. */
  datatype Books = Books(admitted: int, lost: int, raised: int)

  function Entered(sys: System, step: Step, km: KeyMonth): Books
    requires Enabled(sys, step)
  {
    match step
    case Check(argv, slot, cost, id, c) =>
      var checked := KeyMonth(slot.key, c.month);
      Books(if checked == km && Read(sys.store, argv, slot, checked, cost, c.us).Allowed() then cost else 0, 0, 0)
    case Restore(tally) =>
      Books(0, 0, if tally.km == km then Max(0, tally.value - Value(sys.store, km)) else 0)
    case Loss(gone) =>
      Books(0, if CounterKey(km) in gone then Value(sys.store, km) else 0, 0)
    case _ => Books(0, 0, 0)
  }

  function Plus(a: Books, b: Books): Books {
    Books(a.admitted + b.admitted, a.lost + b.lost, a.raised + b.raised)
  }

  /** Totals over the first k steps of a run. */
  ghost function Totals(states: seq<System>, steps: seq<Step>, km: KeyMonth, k: int): Books
    requires IsRun(states, steps) && 0 <= k <= |steps|
  {
    if k == 0 then Books(0, 0, 0)
    else Plus(Totals(states, steps, km, k - 1), Entered(states[k - 1], steps[k - 1], km))
  }

  /** No value anywhere claims more than was admitted. */
  ghost predicate NothingInvented(sys: System, km: KeyMonth, admitted: int) {
    && 0 <= Value(sys.store, km) <= admitted
    && (km in sys.rollups ==> sys.rollups[km] <= admitted)
    && (forall t :: t in sys.scanned && t.km == km ==> t.value <= admitted)
    && (forall t :: t in sys.queried && t.km == km ==> t.value <= admitted)
  }

  ghost predicate Conserved(sys: System, km: KeyMonth, b: Books) {
    && b.admitted == Value(sys.store, km) + b.lost - b.raised
    && NothingInvented(sys, km, b.admitted)
    && 0 <= b.raised <= b.lost
  }

  lemma CheckedValue(s: Store, argv: Argv, slot: Slot, cost: int, id: string, c: Clock, km: KeyMonth)
    requires argv.rate > 0
    ensures var checked := KeyMonth(slot.key, c.month);
            Value(CheckStore(s, argv, slot, cost, id, c), km)
            == Value(s, km) + (if checked == km && Read(s, argv, slot, checked, cost, c.us).Allowed() then cost else 0)
  {
  }

  lemma StepConserves(sys: System, step: Step, km: KeyMonth, b: Books)
    requires Enabled(sys, step) && Conserved(sys, km, b)
    ensures Conserved(Next(sys, step), km, Plus(b, Entered(sys, step, km)))
  {
    match step
    case Check(argv, slot, cost, id, c) => CheckedValue(sys.store, argv, slot, cost, id, c, km);
    case _ =>
  }

  /** The conservation law: in every interleaving, what was admitted is what the counter shows,
      plus what was lost, minus what restores put back; and no counter, rollup row or value in
      flight ever exceeds it. */
  lemma {:induction false} AdmittedIsConserved(states: seq<System>, steps: seq<Step>, km: KeyMonth, k: int)
    requires IsRun(states, steps) && 0 <= k <= |steps|
    ensures Conserved(states[k], km, Totals(states, steps, km, k))
  {
    if k > 0 {
      AdmittedIsConserved(states, steps, km, k - 1);
      StepConserves(states[k - 1], steps[k - 1], km, Totals(states, steps, km, k - 1));
    }
  }

  ghost predicate QuotaAtMost(steps: seq<Step>, km: KeyMonth, hard: int) {
    forall step :: step in steps ==> QuotaOf(step, km, hard)
  }

  /** Redis, the table and every value in flight stay within the quota. */
  ghost predicate WithinQuota(sys: System, km: KeyMonth, hard: int) {
    && Value(sys.store, km) <= hard
    && (km in sys.rollups ==> sys.rollups[km] <= hard)
    && (forall t :: t in sys.scanned && t.km == km ==> t.value <= hard)
    && (forall t :: t in sys.queried && t.km == km ==> t.value <= hard)
  }

  predicate QuotaOf(step: Step, km: KeyMonth, hard: int) {
    step.Check? && KeyMonth(step.slot.key, step.clock.month) == km ==> step.argv.hard <= hard
  }

  lemma StepStaysWithinQuota(sys: System, step: Step, km: KeyMonth, hard: int)
    requires Enabled(sys, step) && hard >= 0 && QuotaOf(step, km, hard) && WithinQuota(sys, km, hard)
    ensures WithinQuota(Next(sys, step), km, hard)
  {
    match step
    case Check(argv, slot, cost, id, c) => CheckedValue(sys.store, argv, slot, cost, id, c, km);
    case _ =>
  }

  lemma {:induction false} RunStaysWithinQuota(states: seq<System>, steps: seq<Step>, km: KeyMonth, hard: int, k: int)
    requires IsRun(states, steps) && 0 <= k <= |steps| && hard >= 0 && QuotaAtMost(steps, km, hard)
    ensures WithinQuota(states[k], km, hard)
  {
    if k > 0 {
      RunStaysWithinQuota(states, steps, km, hard, k - 1);
      assert steps[k - 1] in steps;
      StepStaysWithinQuota(states[k - 1], steps[k - 1], km, hard);
    }
  }

  /** Over-admission against the quota is never more than what is still lost: what restores put
      back is paid back. */
  lemma OverAdmissionIsAtMostLoss(states: seq<System>, steps: seq<Step>, km: KeyMonth, hard: int, k: int)
    requires IsRun(states, steps) && 0 <= k <= |steps| && hard >= 0 && QuotaAtMost(steps, km, hard)
    ensures var b := Totals(states, steps, km, k); b.admitted <= hard + b.lost - b.raised && 0 <= b.raised <= b.lost
  {
    RunStaysWithinQuota(states, steps, km, hard, k);
    AdmittedIsConserved(states, steps, km, k);
  }

  lemma BooksOnlyGrow(b: Books, sys: System, step: Step, km: KeyMonth)
    requires Enabled(sys, step) && Conserved(sys, km, b)
    ensures var b' := Plus(b, Entered(sys, step, km));
            b.admitted <= b'.admitted && b.lost <= b'.lost && b.raised <= b'.raised
  {
  }

  lemma {:induction false} LossIsForever(states: seq<System>, steps: seq<Step>, km: KeyMonth, j: int, k: int)
    requires IsRun(states, steps) && 0 <= j <= k <= |steps|
    ensures Totals(states, steps, km, j).lost <= Totals(states, steps, km, k).lost
    decreases k
  {
    if j < k {
      LossIsForever(states, steps, km, j, k - 1);
      AdmittedIsConserved(states, steps, km, k - 1);
      BooksOnlyGrow(Totals(states, steps, km, k - 1), states[k - 1], steps[k - 1], km);
    }
  }

  /** A restore of the key and month that changed Redis. */
  predicate Changes(sys: System, step: Step, km: KeyMonth)
    requires Enabled(sys, step)
  {
    step.Restore? && step.tally.km == km && Next(sys, step) != sys
  }

  lemma NothingToRestore(sys: System, step: Step, km: KeyMonth, b: Books)
    requires Enabled(sys, step) && Conserved(sys, km, b) && b.lost == 0
    ensures !Changes(sys, step, km)
  {
  }

  lemma NoLossNoRestore(states: seq<System>, steps: seq<Step>, km: KeyMonth, j: int, k: int)
    requires IsRun(states, steps) && 0 <= j < k <= |steps| && Totals(states, steps, km, k).lost == 0
    ensures !Changes(states[j], steps[j], km)
  {
    LossIsForever(states, steps, km, j, k);
    AdmittedIsConserved(states, steps, km, j);
    NothingToRestore(states[j], steps[j], km, Totals(states, steps, km, j));
  }

  /** As long as nothing of the key and month was lost the counter is exact, nothing is raised,
      and every restore is a no-op. */
  lemma NoLossIsExact(states: seq<System>, steps: seq<Step>, km: KeyMonth, k: int)
    requires IsRun(states, steps) && 0 <= k <= |steps| && Totals(states, steps, km, k).lost == 0
    ensures Value(states[k].store, km) == Totals(states, steps, km, k).admitted
    ensures Totals(states, steps, km, k).raised == 0
    ensures forall j :: 0 <= j < k ==> !Changes(states[j], steps[j], km)
  {
    AdmittedIsConserved(states, steps, km, k);
    forall j | 0 <= j < k
      ensures !Changes(states[j], steps[j], km)
    {
      NoLossNoRestore(states, steps, km, j, k);
    }
  }

  /** What was scanned and persisted before a loss is put back by a restore after it: these five
      steps can always be taken, and then the counter is at least what it was. */
  lemma LossIsMadeGood(sys: System, km: KeyMonth, gone: set<RedisKey>)
    requires km in sys.store.counters
    ensures Enabled(sys, Scan(km))
    ensures var value, scanned := Value(sys.store, km), Next(sys, Scan(km));
            && Enabled(scanned, Upsert(Tally(km, value)))
            && var lost := Next(Next(scanned, Upsert(Tally(km, value))), Loss(gone));
               && Enabled(lost, Query(km))
               && var queried, row := Next(lost, Query(km)), lost.rollups[km];
                  && Enabled(queried, Restore(Tally(km, row)))
                  && Value(Next(queried, Restore(Tally(km, row))).store, km) >= value
                  && (CounterKey(km) in gone ==> Value(lost.store, km) == 0)
  {
  }

  // ----- deadlines

  ghost predicate MonthDeadline(deadline: Option<int>, km: KeyMonth) {
    ValidMonth(km.month) && deadline == Some(Grace(MonthEndS(km.month)))
  }

  /** Every key of the limiter will go away; month keys 45 days after their month's end. */
  ghost predicate AllExpire(s: Store) {
    SlotsExpire(s) && CountersExpire(s) && FlagsExpire(s)
  }

  ghost predicate SlotsExpire(s: Store) {
    && (forall slot :: slot in s.buckets ==> s.buckets[slot].deadline.Some?)
    && (forall slot :: slot in s.windows ==> s.windows[slot].deadline.Some?)
  }

  ghost predicate CountersExpire(s: Store) {
    forall km :: km in s.counters ==> MonthDeadline(s.counters[km].deadline, km)
  }

  ghost predicate FlagsExpire(s: Store) {
    forall km :: km in s.flags ==> MonthDeadline(s.flags[km].deadline, km)
  }

  ghost predicate RealMonths(sys: System) {
    && (forall km :: km in sys.store.counters ==> ValidMonth(km.month))
    && (forall km :: km in sys.rollups ==> ValidMonth(km.month))
    && (forall t :: t in sys.scanned ==> ValidMonth(t.km.month))
    && (forall t :: t in sys.queried ==> ValidMonth(t.km.month))
  }

  lemma CheckSetsDeadlines(s: Store, argv: Argv, slot: Slot, cost: int, id: string, c: Clock)
    requires argv.rate > 0 && AllExpire(s) && ValidMonth(c.month) && c.monthEndS == MonthEndS(c.month)
    ensures AllExpire(CheckStore(s, argv, slot, cost, id, c))
  {
    CheckDatesSlots(s, argv, slot, cost, id, c);
    CheckDatesMonths(s, argv, slot, cost, id, c);
  }

  lemma CheckDatesSlots(s: Store, argv: Argv, slot: Slot, cost: int, id: string, c: Clock)
    requires argv.rate > 0 && SlotsExpire(s)
    ensures SlotsExpire(CheckStore(s, argv, slot, cost, id, c))
  {
  }

  lemma CheckDatesMonths(s: Store, argv: Argv, slot: Slot, cost: int, id: string, c: Clock)
    requires argv.rate > 0 && CountersExpire(s) && FlagsExpire(s) && ValidMonth(c.month) && c.monthEndS == MonthEndS(c.month)
    ensures CountersExpire(CheckStore(s, argv, slot, cost, id, c)) && FlagsExpire(CheckStore(s, argv, slot, cost, id, c))
  {
  }

  lemma RestoreDates(s: Store, km: KeyMonth, value: int, end: int)
    requires AllExpire(s) && MonthDeadline(Some(Grace(end)), km)
    ensures AllExpire(RestoreStore(s, km, value, end))
  {
  }

  lemma RestoreSetsDeadlines(s: Store, tally: Tally)
    requires AllExpire(s) && ValidMonth(tally.km.month)
    ensures AllExpire(RestoreStore(s, tally.km, tally.value, RestoreEnd(tally.km)))
  {
    MonthEndsAgree(tally.km.month);
    RestoreDates(s, tally.km, tally.value, RestoreEnd(tally.km));
  }

  /** In every reachable state no key lives forever, and the two writers of a month key, the
      admission script and the restore, give it the same deadline. */
  lemma {:induction false} EveryKeyExpires(states: seq<System>, steps: seq<Step>, k: int)
    requires IsRun(states, steps) && 0 <= k <= |steps|
    ensures AllExpire(states[k].store) && RealMonths(states[k])
  {
    if k > 0 {
      EveryKeyExpires(states, steps, k - 1);
      var sys, step := states[k - 1], steps[k - 1];
      match step
      case Check(argv, slot, cost, id, c) => CheckSetsDeadlines(sys.store, argv, slot, cost, id, c);
      case Restore(tally) => RestoreSetsDeadlines(sys.store, tally);
      case _ =>
    }
  }
}
