/** Whole runs of the script in doubles, over all keys and resources and with expiry. What the
    window and the month decide and report is the specification's, exactly; the bucket is as
    close to it as rounding lets it be; and Retry-After is honest. */
module RoundedScript {
  import opened Arith
  import opened Limits
  import opened Redis
  import opened CheckScript
  import opened History
  import opened Refinement
  import opened RoundedRefill
  import opened RoundedRun
  import OverAdmission
  import RetryAfter

  type Plans = map<string, Plan>

  /** A check, with what its double operations came out as, or an expiry of overdue keys. */
  datatype Step =
    | Checks(slot: Slot, cost: int, id: string, clock: Clock, rounding: Rounding)
    | Expires(gone: set<RedisKey>, clock: Clock)

  /** The keyspace; all admissions so far; and for each slot how many have come since one that
      found its bucket absent or full. */
  datatype State = State(store: Store, admitted: seq<Admission>, since: map<Slot, nat>)

  const START := State(Empty, [], map[])

  function BucketOf(s: Store, slot: Slot): Option<Bucket> {
    if slot in s.buckets then Some(s.buckets[slot]) else None
  }

  function SinceOf(st: State, slot: Slot): nat {
    if slot in st.since then st.since[slot] else 0
  }

  ghost predicate ValidPlans(plans: Plans) {
    forall k :: k in plans ==> ValidPlan(plans[k])
  }

  /** What a check reads: everything as in exact arithmetic, but for the refilled level. */
  function Reads(st: State, p: Plan, e: Step): Reading
    requires e.Checks?
  {
    ReadWith(Refilled(e.rounding, p, BucketOf(st.store, e.slot), e.clock.us), st.store, ScriptArgv(p), e.slot,
             KeyMonth(e.slot.key, e.clock.month), e.cost, e.clock.us)
  }

  function Checked(st: State, p: Plan, e: Step): State
    requires ValidPlan(p) && e.Checks?
  {
    var r := Reads(st, p, e);
    State(Written(st.store, ScriptArgv(p), e.slot, r, e.cost, e.id, e.clock.us, e.clock.monthEndS),
          AdmittedBy(r, st.admitted, e.slot, e.cost, e.id, e.clock),
          if r.Allowed() then st.since[e.slot := RoundedRun.Since(p, r.level, e.clock.us, SinceOf(st, e.slot))] else st.since)
  }

  ghost function ReplyTo(st: State, p: Plan, e: Step): Decision
    requires ValidPlan(p) && e.Checks?
  {
    var r := Reads(st, p, e);
    Reply(ScriptArgv(p), r, e.cost, e.id, e.clock, Crosses(st.store, ScriptArgv(p), r, e.cost))
  }

  /** A check of an unknown key never reaches the script. */
  ghost function Next(plans: Plans, st: State, e: Step): State
    requires ValidPlans(plans)
  {
    match e
    case Expires(gone, c) => st.(store := Expire(st.store, gone, NowMs(c.us)))
    case Checks(slot, _, _, _, _) => if slot.key in plans then Checked(st, plans[slot.key], e) else st
  }

  ghost function Run(plans: Plans, es: seq<Step>): State
    requires ValidPlans(plans)
  {
    if es == [] then START else Next(plans, Run(plans, es[..|es| - 1]), es[|es| - 1])
  }

  /** A check of a known key at a true clock, under an id that no admission has, and rounded as
      doubles allow. */
  ghost predicate CanFollow(plans: Plans, st: State, e: Step)
    requires ValidPlans(plans)
  {
    && TrueClock(e.clock)
    && (e.Checks? ==>
          && e.slot.key in plans && e.cost >= 1 && Fresh(st.admitted, e.id)
          && CanRound(e.rounding, plans[e.slot.key], BucketOf(st.store, e.slot), e.clock.us))
  }

  ghost predicate Allowable(plans: Plans, es: seq<Step>)
    requires ValidPlans(plans)
  {
    es == []
    || (var n := |es| - 1;
        && Allowable(plans, es[..n]) && CanFollow(plans, Run(plans, es[..n]), es[n])
        && (n > 0 ==> es[n - 1].clock.us <= es[n].clock.us))
  }

  // ----- the invariant

  ghost predicate Dated(h: seq<Admission>, t: int) {
    forall i :: 0 <= i < |h| ==> TrueClock(h[i].clock) && h[i].clock.us <= t && h[i].cost >= 1
  }

  ghost predicate SlotFollows(p: Plan, st: State, slot: Slot, t: int)
    requires ValidPlan(p)
  {
    && Follows(p, BucketOf(st.store, slot), st.admitted, SinceOf(st, slot), slot, t)
    && WindowAgrees(st.store, st.admitted, ScriptArgv(p), slot, t)
  }

  /** The keyspace holds what the future needs of the admissions, the buckets as nearly as
      rounding allows. */
  ghost predicate Agreed(plans: Plans, st: State, t: int)
    requires ValidPlans(plans)
  {
    && Dated(st.admitted, t)
    && DistinctIds(st.admitted)
    && (forall slot: Slot :: slot.key in plans ==> SlotFollows(plans[slot.key], st, slot, t))
    && (forall km: KeyMonth :: km.key in plans ==> MonthAgrees(st.store, st.admitted, ScriptArgv(plans[km.key]), km, t))
  }

  lemma ClockHasSeen(h: seq<Admission>, c: Clock)
    requires Dated(h, c.us) && TrueClock(c)
    ensures AllBefore(h, c) && Sane(c) && NotAfter(h, c.us)
  {
    TrueClocksAreOrdered(c, c);
    forall i | 0 <= i < |h|
      ensures Before(h[i].clock, c)
    {
      TrueClocksAreOrdered(h[i].clock, c);
    }
  }

  lemma AgreedLater(plans: Plans, st: State, t: int, now: int)
    requires ValidPlans(plans) && Agreed(plans, st, t) && t <= now
    ensures Agreed(plans, st, now)
  {
    forall slot: Slot | slot.key in plans
      ensures SlotFollows(plans[slot.key], st, slot, now)
    {
      FollowsLater(plans[slot.key], BucketOf(st.store, slot), st.admitted, SinceOf(st, slot), slot, t, now);
      WindowLater(st.store, st.admitted, ScriptArgv(plans[slot.key]), slot, t, now);
    }
    forall km: KeyMonth | km.key in plans
      ensures MonthAgrees(st.store, st.admitted, ScriptArgv(plans[km.key]), km, now)
    {
      MonthLater(st.store, st.admitted, ScriptArgv(plans[km.key]), km, t, now);
    }
  }

  // ----- one check

  /** What a check finds: its window and month exactly, its bucket nearly. */
  ghost predicate Finds(p: Plan, st: State, e: Step)
    requires ValidPlan(p) && e.Checks?
  {
    && AllBefore(st.admitted, e.clock) && Sane(e.clock) && NotAfter(st.admitted, e.clock.us)
    && ReadsLog(Reads(st, p, e), st.admitted, ScriptArgv(p), e.slot, e.cost, e.clock)
    && LevelIsNear(p, Reads(st, p, e).level, LevelAt(st.admitted, e.slot, Cap(p), p.burstRefillPerSec, e.clock.us),
                   SinceOf(st, e.slot), e.clock.us)
  }

  lemma CheckFinds(plans: Plans, st: State, e: Step)
    requires ValidPlans(plans) && e.Checks? && CanFollow(plans, st, e) && Agreed(plans, st, e.clock.us)
    ensures Finds(plans[e.slot.key], st, e)
  {
    var p := plans[e.slot.key];
    assert SlotFollows(p, st, e.slot, e.clock.us);
    ClockHasSeen(st.admitted, e.clock);
    VisitReadsNear(e.rounding, p, BucketOf(st.store, e.slot), st.admitted, SinceOf(st, e.slot), e.slot, e.clock.us);
    LogReads(Refilled(e.rounding, p, BucketOf(st.store, e.slot), e.clock.us), st.store, st.admitted, ScriptArgv(p), e.slot, e.cost,
             e.clock.us, e.clock);
  }

  lemma OwnSlotFollows(p: Plan, st: State, e: Step)
    requires ValidPlan(p) && e.Checks? && e.cost >= 1 && Finds(p, st, e) && SlotFollows(p, st, e.slot, e.clock.us)
    ensures SlotFollows(p, Checked(st, p, e), e.slot, e.clock.us)
  {
    var r := Reads(st, p, e);
    PlansAreProper(p);
    CheckedWindow(st.store, st.admitted, ScriptArgv(p), r, e.slot, e.cost, e.id, e.clock.us, e.clock);
    if r.Allowed() {
      ChargedFollows(p, st.admitted, SinceOf(st, e.slot), e.slot, e.cost, e.id, e.clock, r.level);
    }
  }

  lemma OtherSlotFollows(p: Plan, st: State, e: Step, other: Plan, slot: Slot)
    requires ValidPlan(p) && ValidPlan(other) && e.Checks? && slot != e.slot && SlotFollows(other, st, slot, e.clock.us)
    ensures SlotFollows(other, Checked(st, p, e), slot, e.clock.us)
  {
    var a := Admission(e.slot, e.cost, e.id, e.clock);
    OtherWindow(st.store, Checked(st, p, e).store, st.admitted, a, ScriptArgv(other), slot, e.clock.us, e.clock.us);
    Appended(st.admitted, a);
  }

  lemma CheckedMonthAgrees(p: Plan, st: State, e: Step, other: Plan, km: KeyMonth)
    requires ValidPlan(p) && e.Checks? && e.cost >= 1 && Finds(p, st, e)
    requires MonthAgrees(st.store, st.admitted, ScriptArgv(other), km, e.clock.us)
    requires km == KeyMonth(e.slot.key, e.clock.month) ==> other == p
    ensures MonthAgrees(Checked(st, p, e).store, Checked(st, p, e).admitted, ScriptArgv(other), km, e.clock.us)
  {
    var r := Reads(st, p, e);
    if km == r.km {
      CheckedMonth(st.store, st.admitted, ScriptArgv(p), r, e.slot, e.cost, e.id, e.clock.us, e.clock);
    } else {
      OtherMonth(st.store, Checked(st, p, e).store, st.admitted, Admission(e.slot, e.cost, e.id, e.clock), ScriptArgv(other), km,
                 e.clock.us, e.clock.us);
    }
  }

  lemma AppendKeepsDates(h: seq<Admission>, a: Admission, t: int)
    requires Dated(h, t) && DistinctIds(h) && Fresh(h, a.id) && TrueClock(a.clock) && a.clock.us <= t && a.cost >= 1
    ensures Dated(h + [a], t) && DistinctIds(h + [a])
  {
  }

  lemma CheckedSlotFollows(p: Plan, st: State, e: Step, other: Plan, slot: Slot)
    requires ValidPlan(p) && ValidPlan(other) && e.Checks? && e.cost >= 1 && Finds(p, st, e)
    requires SlotFollows(other, st, slot, e.clock.us) && (slot == e.slot ==> other == p)
    ensures SlotFollows(other, Checked(st, p, e), slot, e.clock.us)
  {
    if slot == e.slot {
      OwnSlotFollows(p, st, e);
    } else {
      OtherSlotFollows(p, st, e, other, slot);
    }
  }

  lemma CheckKeepsAgreed(plans: Plans, st: State, e: Step)
    requires ValidPlans(plans) && e.Checks? && CanFollow(plans, st, e) && Agreed(plans, st, e.clock.us)
    ensures Agreed(plans, Checked(st, plans[e.slot.key], e), e.clock.us)
  {
    var p := plans[e.slot.key];
    CheckFinds(plans, st, e);
    AppendKeepsDates(st.admitted, Admission(e.slot, e.cost, e.id, e.clock), e.clock.us);
    forall slot: Slot | slot.key in plans
      ensures SlotFollows(plans[slot.key], Checked(st, p, e), slot, e.clock.us)
    {
      CheckedSlotFollows(p, st, e, plans[slot.key], slot);
    }
    forall km: KeyMonth | km.key in plans
      ensures MonthAgrees(Checked(st, p, e).store, Checked(st, p, e).admitted, ScriptArgv(plans[km.key]), km, e.clock.us)
    {
      CheckedMonthAgrees(p, st, e, plans[km.key], km);
    }
  }

  // ----- expiry

  lemma SlotExpires(p: Plan, st: State, slot: Slot, gone: set<RedisKey>, now: int)
    requires ValidPlan(p) && SlotFollows(p, st, slot, now)
    ensures SlotFollows(p, st.(store := Expire(st.store, gone, NowMs(now))), slot, now)
  {
    WindowExpires(st.store, st.admitted, ScriptArgv(p), slot, now, gone, now);
    var b := BucketOf(st.store, slot);
    if b.Some? && slot !in Expire(st.store, gone, NowMs(now)).buckets {
      VanishedFollows(p, b, st.admitted, SinceOf(st, slot), slot, now);
    }
  }

  lemma ExpiryKeepsAgreed(plans: Plans, st: State, gone: set<RedisKey>, now: int)
    requires ValidPlans(plans) && Agreed(plans, st, now)
    ensures Agreed(plans, st.(store := Expire(st.store, gone, NowMs(now))), now)
  {
    forall slot: Slot | slot.key in plans
      ensures SlotFollows(plans[slot.key], st.(store := Expire(st.store, gone, NowMs(now))), slot, now)
    {
      SlotExpires(plans[slot.key], st, slot, gone, now);
    }
    forall km: KeyMonth | km.key in plans
      ensures MonthAgrees(Expire(st.store, gone, NowMs(now)), st.admitted, ScriptArgv(plans[km.key]), km, now)
    {
      MonthExpires(st.store, st.admitted, ScriptArgv(plans[km.key]), km, now, gone, now);
    }
  }

  // ----- runs

  lemma StartIsAgreed(plans: Plans, t: int)
    requires ValidPlans(plans)
    ensures Agreed(plans, START, t)
  {
  }

  lemma {:induction false} RunsAgree(plans: Plans, es: seq<Step>, now: int)
    requires ValidPlans(plans) && Allowable(plans, es) && (es != [] ==> es[|es| - 1].clock.us <= now)
    ensures Agreed(plans, Run(plans, es), now)
  {
    if es == [] {
      StartIsAgreed(plans, now);
    } else {
      var n := |es| - 1;
      var st, e := Run(plans, es[..n]), es[n];
      RunsAgree(plans, es[..n], e.clock.us);
      if e.Checks? {
        CheckKeepsAgreed(plans, st, e);
      } else {
        ExpiryKeepsAgreed(plans, st, e.gone, e.clock.us);
      }
      AgreedLater(plans, Run(plans, es), e.clock.us, now);
    }
  }

  /** A step that continues a run. */
  ghost predicate Continues(plans: Plans, es: seq<Step>, e: Step)
    requires ValidPlans(plans)
  {
    && Allowable(plans, es) && CanFollow(plans, Run(plans, es), e)
    && (es != [] ==> es[|es| - 1].clock.us <= e.clock.us)
  }

  lemma RunFinds(plans: Plans, es: seq<Step>, e: Step)
    requires ValidPlans(plans) && e.Checks? && Continues(plans, es, e)
    ensures Finds(plans[e.slot.key], Run(plans, es), e)
    ensures MonthAgrees(Run(plans, es).store, Run(plans, es).admitted, ScriptArgv(plans[e.slot.key]),
                        KeyMonth(e.slot.key, e.clock.month), e.clock.us)
  {
    RunsAgree(plans, es, e.clock.us);
    CheckFinds(plans, Run(plans, es), e);
  }

  /** What the specification says on what was admitted so far, with these verdicts and this level. */
  ghost function SpecWith(st: State, p: Plan, e: Step, r: Reading): Decision
    requires ValidPlan(p) && e.Checks?
  {
    PlansAreProper(p);
    SpecDecision(ScriptArgv(p), e.cost, e.clock, r.burstOk, r.sustainedOk, r.quotaOk,
                 UsageWith(TokensLeft(r, e.cost), st.admitted, Checked(st, p, e).admitted, ScriptArgv(p), e.slot, e.clock))
  }

  lemma FoundReply(st: State, p: Plan, e: Step)
    requires ValidPlan(p) && e.Checks? && Finds(p, st, e)
    requires MonthAgrees(st.store, st.admitted, ScriptArgv(p), KeyMonth(e.slot.key, e.clock.month), e.clock.us)
    ensures ReplyTo(st, p, e) == SpecWith(st, p, e, Reads(st, p, e))
  {
    var r := Reads(st, p, e);
    PlansAreProper(p);
    NoFlagBeforeSoft(st.store, st.admitted, ScriptArgv(p), r, e.cost, e.clock.us);
    ReplyOfLog(st.admitted, ScriptArgv(p), r, e.slot, e.cost, e.id, e.clock, Crosses(st.store, ScriptArgv(p), r, e.cost));
  }

  /** How the refilled level and the burst verdict compare with the history's. */
  ghost predicate BurstIsClose(p: Plan, h: seq<Admission>, since: nat, slot: Slot, cost: int, now: int, r: Reading) {
    var level, rate := LevelAt(h, slot, Cap(p), p.burstRefillPerSec, now), p.burstRefillPerSec;
    && level - since * Lossy(p) - 1 <= r.level.tokens <= level + Ahead(p) * rate
    && (r.burstOk ==> BurstRoom(h, slot, Cap(p), rate, now, cost * UTOK - Ahead(p) * rate))
    && (BurstRoom(h, slot, Cap(p), rate, now, cost * UTOK + since * Lossy(p) + 1) ==> r.burstOk)
  }

  lemma FoundVerdicts(st: State, p: Plan, e: Step)
    requires ValidPlan(p) && e.Checks? && Finds(p, st, e)
    ensures var r := Reads(st, p, e);
            && r.sustainedOk == SustainedAllows(st.admitted, ScriptArgv(p), e.slot, e.clock)
            && r.quotaOk == QuotaAllows(st.admitted, ScriptArgv(p), e.slot, e.cost, e.clock)
            && BurstIsClose(p, st.admitted, SinceOf(st, e.slot), e.slot, e.cost, e.clock.us, r)
  {
    var h, since, rate := st.admitted, SinceOf(st, e.slot), p.burstRefillPerSec;
    LevelIsRoom(h, e.slot, Cap(p), rate, e.clock.us, e.cost * UTOK - Ahead(p) * rate);
    LevelIsRoom(h, e.slot, Cap(p), rate, e.clock.us, e.cost * UTOK + since * Lossy(p) + 1);
  }

  /** The refinement that doubles leave, for every check of every run. Let h be what the run has
      admitted. The window and the month decide as the specification does on h, and the bucket as
      it would with at most one microtoken (or microsecond's refill) less per admission of the
      slot since one that found its bucket absent or full, and one less. Every value of the reply
      is the specification's for those verdicts, with that level in place of the exact one. */
  lemma DoublesRefineClosely(plans: Plans, es: seq<Step>, e: Step)
    requires ValidPlans(plans) && e.Checks? && Continues(plans, es, e)
    ensures var st, p := Run(plans, es), plans[e.slot.key]; var r := Reads(st, p, e);
            && r.sustainedOk == SustainedAllows(st.admitted, ScriptArgv(p), e.slot, e.clock)
            && r.quotaOk == QuotaAllows(st.admitted, ScriptArgv(p), e.slot, e.cost, e.clock)
            && BurstIsClose(p, st.admitted, SinceOf(st, e.slot), e.slot, e.cost, e.clock.us, r)
            && ReplyTo(st, p, e) == SpecWith(st, p, e, r)
  {
    RunFinds(plans, es, e);
    FoundVerdicts(Run(plans, es), plans[e.slot.key], e);
    FoundReply(Run(plans, es), plans[e.slot.key], e);
  }

  // ----- nothing is over-admitted

  /** A plan's arguments, with a microsecond's refill more capacity if it is above 576460. */
  function Slackened(p: Plan): Argv {
    ScriptArgv(p).(cap := Cap(p) + Ahead(p) * p.burstRefillPerSec)
  }

  function SlackBook(plans: Plans): Book {
    map k | k in plans :: Slackened(plans[k])
  }

  lemma SlackBookIsProper(plans: Plans)
    requires ValidPlans(plans)
    ensures ProperBook(SlackBook(plans))
  {
    forall k | k in plans
      ensures ProperArgv(Slackened(plans[k]))
    {
      PlansAreProper(plans[k]);
      MulMonotone(plans[k].burstRefillPerSec, 0, Ahead(plans[k]));
    }
  }

  /** Room for less is room for all of it in a larger bucket. */
  lemma RoomInLarger(h: seq<Admission>, slot: Slot, cap: int, r: int, now: int, x: int, extra: int)
    requires BurstRoom(h, slot, cap, r, now, x - extra)
    ensures BurstRoom(h, slot, cap + extra, r, now, x)
  {
    forall i | 0 <= i < |h| && h[i].slot == slot
      ensures Covered(h, slot, i, cap + extra, r, now, x)
    {
      assert Covered(h, slot, i, cap, r, now, x - extra);
    }
  }

  lemma AllowedHasRoom(p: Plan, st: State, e: Step)
    requires ValidPlan(p) && e.Checks? && Finds(p, st, e) && Reads(st, p, e).Allowed()
    ensures Allows(st.admitted, Slackened(p), e.slot, e.cost, e.clock)
  {
    FoundVerdicts(st, p, e);
    PlansAreProper(p);
    RoomInLarger(st.admitted, e.slot, Cap(p), p.burstRefillPerSec, e.clock.us, e.cost * UTOK, Ahead(p) * p.burstRefillPerSec);
  }

  lemma {:induction false} RunsAreLawful(plans: Plans, es: seq<Step>)
    requires ValidPlans(plans) && Allowable(plans, es)
    ensures OverAdmission.Lawful(Run(plans, es).admitted, SlackBook(plans))
  {
    SlackBookIsProper(plans);
    if es != [] {
      var n := |es| - 1;
      var st, e := Run(plans, es[..n]), es[n];
      RunsAreLawful(plans, es[..n]);
      if e.Checks? && Reads(st, plans[e.slot.key], e).Allowed() {
        RunFinds(plans, es[..n], e);
        AllowedHasRoom(plans[e.slot.key], st, e);
        OverAdmission.AdmitIsLawful(st.admitted, SlackBook(plans), Admission(e.slot, e.cost, e.id, e.clock));
      }
    }
  }

  /** In doubles, over whole runs of any keys with expiry: between any two admissions of a slot
      the cost is at most one full bucket plus the refill between them (plus one microsecond's
      refill if the capacity is above 576460), more admissions than the sustained limit span more
      than one window, and no month's total passes the quota. */
  lemma NoOverAdmissionInDoubles(plans: Plans, es: seq<Step>, i: int, j: int)
    requires ValidPlans(plans) && Allowable(plans, es) && 0 <= i <= j < |Run(plans, es).admitted|
    requires Run(plans, es).admitted[i].slot == Run(plans, es).admitted[j].slot
    ensures var h := Run(plans, es).admitted;
            h[j].slot.key in plans && OverAdmission.WithinBounds(h, Slackened(plans[h[j].slot.key]), i, j)
  {
    RunsAreLawful(plans, es);
    OverAdmission.LawfulIsWithinBounds(Run(plans, es).admitted, SlackBook(plans), i, j);
  }

  // ----- the retry time

  ghost function StateAt(plans: Plans, es: seq<Step>, k: int): State
    requires ValidPlans(plans) && 0 <= k <= |es|
  {
    Run(plans, es[..k])
  }

  ghost predicate ContinuesAt(plans: Plans, es: seq<Step>, k: int)
    requires ValidPlans(plans) && 0 <= k < |es|
  {
    && Allowable(plans, es[..k]) && CanFollow(plans, StateAt(plans, es, k), es[k])
    && (k > 0 ==> es[k - 1].clock.us <= es[k].clock.us)
  }

  lemma LastContinues(plans: Plans, es: seq<Step>)
    requires ValidPlans(plans) && Allowable(plans, es) && es != []
    ensures ContinuesAt(plans, es, |es| - 1)
  {
  }

  lemma PrefixContinuesAlike(plans: Plans, es: seq<Step>, k: int)
    requires ValidPlans(plans) && 0 <= k < |es| - 1 && ContinuesAt(plans, es[..|es| - 1], k)
    ensures ContinuesAt(plans, es, k)
  {
    assert es[..|es| - 1][..k] == es[..k];
  }

  /** Each step of a run continues the steps before it. */
  lemma {:induction false} StepsContinue(plans: Plans, es: seq<Step>, k: int)
    requires ValidPlans(plans) && Allowable(plans, es) && 0 <= k < |es|
    ensures ContinuesAt(plans, es, k)
  {
    LastContinues(plans, es);
    if k < |es| - 1 {
      StepsContinue(plans, es[..|es| - 1], k);
      PrefixContinuesAlike(plans, es, k);
    }
  }

  lemma StepContinues(plans: Plans, es: seq<Step>, k: int)
    requires ValidPlans(plans) && Allowable(plans, es) && 0 <= k < |es|
    ensures Continues(plans, es[..k], es[k])
  {
    StepsContinue(plans, es, k);
    if k > 0 {
      assert es[..k][k - 1] == es[k - 1];
    }
  }

  lemma {:induction false} ClocksAscend(plans: Plans, es: seq<Step>, i: int, j: int)
    requires ValidPlans(plans) && Allowable(plans, es) && 0 <= i <= j < |es|
    ensures es[i].clock.us <= es[j].clock.us
    decreases j
  {
    if i < j {
      StepsContinue(plans, es, j);
      ClocksAscend(plans, es, i, j - 1);
    }
  }

  lemma ClockIsTrue(plans: Plans, es: seq<Step>, k: int)
    requires ValidPlans(plans) && Allowable(plans, es) && 0 <= k < |es|
    ensures TrueClock(es[k].clock)
  {
    StepsContinue(plans, es, k);
  }

  lemma StateAfter(plans: Plans, es: seq<Step>, k: int)
    requires ValidPlans(plans) && 0 <= k < |es|
    ensures StateAt(plans, es, k + 1) == Next(plans, StateAt(plans, es, k), es[k])
  {
    assert es[..k + 1][..k] == es[..k];
  }

  /** The key's admissions are as they were, and the slot's bucket is too, or it is gone. */
  ghost predicate Quiet(st: State, st': State, slot: Slot) {
    && RetryAfter.SameForSlot(st.admitted, st'.admitted, slot)
    && (BucketOf(st'.store, slot).None? || BucketOf(st'.store, slot) == BucketOf(st.store, slot))
  }

  /** The script allows no check of the key from step i up to step j. */
  ghost predicate NoneAllowed(plans: Plans, es: seq<Step>, key: string, i: int, j: int)
    requires ValidPlans(plans) && 0 <= i <= j <= |es|
  {
    forall k :: i <= k < j && es[k].Checks? && es[k].slot.key == key && key in plans
      ==> !ReplyTo(StateAt(plans, es, k), plans[key], es[k]).allowed
  }

  lemma StepIsQuiet(plans: Plans, st: State, e: Step, slot: Slot)
    requires ValidPlans(plans)
    requires e.Checks? && e.slot.key == slot.key && slot.key in plans ==> !ReplyTo(st, plans[slot.key], e).allowed
    ensures Quiet(st, Next(plans, st, e), slot)
  {
    if e.Checks? && e.slot.key in plans && e.slot.key != slot.key {
      RetryAfter.OtherKeyChangesNothing(st.admitted, Admission(e.slot, e.cost, e.id, e.clock), slot);
    }
  }

  lemma {:induction false} StaysQuiet(plans: Plans, es: seq<Step>, slot: Slot, i: int, j: int)
    requires ValidPlans(plans) && 0 <= i <= j <= |es| && NoneAllowed(plans, es, slot.key, i, j)
    ensures Quiet(StateAt(plans, es, i), StateAt(plans, es, j), slot)
    decreases j
  {
    if i < j {
      StaysQuiet(plans, es, slot, i, j - 1);
      StepIsQuiet(plans, StateAt(plans, es, j - 1), es[j - 1], slot);
      StateAfter(plans, es, j - 1);
    }
  }

  /** A denied reply's time covers every layer that refused, by what each has read. */
  ghost predicate Covers(p: Plan, st: State, e: Step, retry: int)
    requires ValidPlan(p) && e.Checks?
  {
    var r := Reads(st, p, e);
    && retry >= 0
    && (!r.burstOk ==> e.cost * UTOK <= r.level.tokens + retry * (p.burstRefillPerSec * UTOK))
    && RetryAfter.SustainedWait(st.admitted, ScriptArgv(p), e.slot, e.clock, retry)
    && RetryAfter.QuotaWait(st.admitted, ScriptArgv(p), e.slot, e.cost, e.clock, retry)
  }

  lemma DeniedCovers(p: Plan, st: State, e: Step)
    requires ValidPlan(p) && e.Checks? && Finds(p, st, e) && ReplyTo(st, p, e) == SpecWith(st, p, e, Reads(st, p, e))
    requires !ReplyTo(st, p, e).allowed
    ensures Covers(p, st, e, ReplyTo(st, p, e).retryAfter)
  {
    var r := Reads(st, p, e);
    PlansAreProper(p);
    FoundVerdicts(st, p, e);
    RetryAfter.DecisionCovers(ScriptArgv(p), e.cost, e.clock, r.burstOk, r.sustainedOk, r.quotaOk,
                              UsageWith(r.level.tokens, st.admitted, st.admitted, ScriptArgv(p), e.slot, e.clock));
  }

  /** The bucket's part: it is as it was, or gone and so full. */
  lemma BucketPasses(p: Plan, st: State, st': State, e: Step, e': Step, retry: int)
    requires ValidPlan(p) && e.Checks? && e'.Checks? && e.slot == e'.slot && e.cost == e'.cost && e.cost * UTOK <= Cap(p)
    requires BucketInOrder(p, BucketOf(st.store, e.slot), e.clock.us) && Quiet(st, st', e.slot)
    requires CanRound(e.rounding, p, BucketOf(st.store, e.slot), e.clock.us)
    requires CanRound(e'.rounding, p, BucketOf(st'.store, e.slot), e'.clock.us)
    requires Covers(p, st, e, retry) && e.clock.us + Ahead(p) + retry * UTOK < e'.clock.us
    ensures Reads(st', p, e').burstOk
  {
    var b := BucketOf(st'.store, e.slot);
    if b.Some? {
      MulMonotone(p.burstRefillPerSec * UTOK, 0, retry);
      WaitingSufficesInDoubles(e.rounding, e'.rounding, p, b.value.tokens, b.value.ts, e.cost, e.clock.us, e'.clock.us, retry);
    }
  }

  lemma AllPass(p: Plan, st: State, st': State, e: Step, e': Step, retry: int)
    requires ValidPlan(p) && e.Checks? && e'.Checks? && e.slot == e'.slot && e.cost == e'.cost
    requires e.cost * UTOK <= Cap(p) && e.cost <= p.monthlyQuota
    requires Finds(p, st, e) && Finds(p, st', e') && Quiet(st, st', e.slot) && RetryAfter.InOrder(st.admitted, e.clock, e'.clock)
    requires BucketInOrder(p, BucketOf(st.store, e.slot), e.clock.us)
    requires CanRound(e.rounding, p, BucketOf(st.store, e.slot), e.clock.us)
    requires CanRound(e'.rounding, p, BucketOf(st'.store, e.slot), e'.clock.us)
    requires Covers(p, st, e, retry) && e.clock.us + Ahead(p) + retry * UTOK < e'.clock.us
    ensures Reads(st', p, e').Allowed()
  {
    PlansAreProper(p);
    BucketPasses(p, st, st', e, e', retry);
    RetryAfter.SustainedPasses(st.admitted, st'.admitted, ScriptArgv(p), e.slot, e.clock, e'.clock, retry);
    RetryAfter.QuotaPasses(st.admitted, st'.admitted, ScriptArgv(p), e.slot, e.cost, e.clock, e'.clock, retry);
    FoundVerdicts(st', p, e');
  }

  /** A cost above the capacity or the quota is refused whatever is rounded. */
  lemma TooMuchNeverFits(p: Plan, st: State, e: Step)
    requires ValidPlan(p) && e.Checks? && Finds(p, st, e) && Dated(st.admitted, e.clock.us)
    requires e.cost * UTOK > Cap(p) || e.cost > p.monthlyQuota
    ensures !Reads(st, p, e).Allowed()
  {
    RetryAfter.MonthSumNotNegative(st.admitted, KeyMonth(e.slot.key, e.clock.month));
  }

  /** Everything a step of a run knows of the state it meets. */
  lemma MeetsRun(plans: Plans, es: seq<Step>, k: int) returns (st: State, p: Plan)
    requires ValidPlans(plans) && Allowable(plans, es) && 0 <= k < |es| && es[k].Checks?
    ensures es[k].slot.key in plans && p == plans[es[k].slot.key] && ValidPlan(p) && st == StateAt(plans, es, k)
    ensures Finds(p, st, es[k]) && Dated(st.admitted, es[k].clock.us)
    ensures BucketInOrder(p, BucketOf(st.store, es[k].slot), es[k].clock.us)
    ensures CanRound(es[k].rounding, p, BucketOf(st.store, es[k].slot), es[k].clock.us)
    ensures ReplyTo(st, p, es[k]) == SpecWith(st, p, es[k], Reads(st, p, es[k]))
  {
    StepContinues(plans, es, k);
    st, p := StateAt(plans, es, k), plans[es[k].slot.key];
    RunsAgree(plans, es[..k], es[k].clock.us);
    assert SlotFollows(p, st, es[k].slot, es[k].clock.us);
    RunFinds(plans, es[..k], es[k]);
    FoundReply(st, p, es[k]);
  }

  lemma LaterHasSeen(plans: Plans, es: seq<Step>, i: int, j: int, h: seq<Admission>)
    requires ValidPlans(plans) && Allowable(plans, es) && 0 <= i <= j < |es| && Dated(h, es[i].clock.us)
    ensures RetryAfter.InOrder(h, es[i].clock, es[j].clock)
  {
    ClocksAscend(plans, es, i, j);
    ClockIsTrue(plans, es, i);
    ClockIsTrue(plans, es, j);
    TrueClocksAreOrdered(es[i].clock, es[j].clock);
    ClockHasSeen(h, es[i].clock);
    ClockHasSeen(h, es[j].clock);
  }

  /** Retry-After in doubles, over whole runs of any keys with expiry: after a deny, with no check
      of the key allowed in between, the same check strictly later than the reported time (and
      one microsecond more if the capacity is above 576460) is allowed by all three layers exactly
      when its cost fits the bucket and the quota at all, whatever either check rounds to. */
  lemma RetryAfterIsHonestInDoubles(plans: Plans, es: seq<Step>, i: int, j: int)
    requires ValidPlans(plans) && Allowable(plans, es) && 0 <= i < j < |es| && es[i].Checks? && es[j].Checks?
    requires es[i].slot == es[j].slot && es[i].cost == es[j].cost && es[i].slot.key in plans
    requires NoneAllowed(plans, es, es[i].slot.key, i, j)
    requires var reply := ReplyTo(StateAt(plans, es, i), plans[es[i].slot.key], es[i]);
             es[i].clock.us + Ahead(plans[es[i].slot.key]) + reply.retryAfter * UTOK < es[j].clock.us
    ensures var p := plans[es[i].slot.key];
            ReplyTo(StateAt(plans, es, j), p, es[j]).allowed <==> es[i].cost * UTOK <= Cap(p) && es[i].cost <= p.monthlyQuota
  {
    var st, p := MeetsRun(plans, es, i);
    var st', _ := MeetsRun(plans, es, j);
    if es[i].cost * UTOK <= Cap(p) && es[i].cost <= p.monthlyQuota {
      StaysQuiet(plans, es, es[i].slot, i, j);
      DeniedCovers(p, st, es[i]);
      LaterHasSeen(plans, es, i, j, st.admitted);
      AllPass(p, st, st', es[i], es[j], ReplyTo(st, p, es[i]).retryAfter);
    } else {
      TooMuchNeverFits(p, st', es[j]);
    }
  }
}
