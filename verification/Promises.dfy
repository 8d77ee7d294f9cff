/** What a key's plan promises, in the plan's own numbers: which checks pass, which layer is
    named when one does not, what the reported limits, remainders and resets mean, and that a
    deny takes nothing. */
module Promises {
  import opened Arith
  import opened Calendar
  import opened Limits
  import opened Redis
  import opened CheckScript
  import opened History
  import opened Refinement
  import opened RetryAfter
  import OverAdmission
  import RoundedRun
  import RoundedScript

  // ----- the three layers of a plan

  /** The cost fits the bucket, and with what was spent it is covered from every past admission
      on by one full bucket and the refill since. */
  ghost predicate BurstFits(p: Plan, h: seq<Admission>, slot: Slot, cost: int, now: int) {
    && cost <= p.burstCapacity
    && forall i :: 0 <= i < |h| && h[i].slot == slot ==>
         (SlotCost(h[i..], slot) + cost) * 1_000_000 <= p.burstCapacity * 1_000_000 + p.burstRefillPerSec * (now - h[i].clock.us)
  }

  predicate WindowFits(p: Plan, h: seq<Admission>, slot: Slot, now: int) {
    CountSince(h, slot, now - p.sustainedWindowSeconds * 1_000_000) < p.sustainedLimit
  }

  predicate QuotaFits(p: Plan, h: seq<Admission>, slot: Slot, cost: int, month: Month) {
    MonthSum(h, KeyMonth(slot.key, month)) + cost <= p.monthlyQuota
  }

  lemma BurstByPlan(p: Plan, h: seq<Admission>, slot: Slot, cost: int, c: Clock)
    requires ValidPlan(p)
    ensures BurstAllows(h, ScriptArgv(p), slot, cost, c) <==> BurstFits(p, h, slot, cost, c.us)
  {
    PlansAreProper(p);
    var argv := ScriptArgv(p);
    forall i | 0 <= i < |h| && h[i].slot == slot
      ensures Covered(h, slot, i, argv.cap, PerMicro(argv), c.us, cost * UTOK)
          <==> (SlotCost(h[i..], slot) + cost) * 1_000_000 <= p.burstCapacity * 1_000_000 + p.burstRefillPerSec * (c.us - h[i].clock.us)
    {
    }
  }

  lemma WindowByPlan(p: Plan, h: seq<Admission>, slot: Slot, c: Clock)
    ensures SustainedAllows(h, ScriptArgv(p), slot, c) <==> WindowFits(p, h, slot, c.us)
  {
  }

  lemma QuotaByPlan(p: Plan, h: seq<Admission>, slot: Slot, cost: int, c: Clock)
    ensures QuotaAllows(h, ScriptArgv(p), slot, cost, c) <==> QuotaFits(p, h, slot, cost, c.month)
  {
  }

  /** The admitted total goes from below the percentage of the quota, rounded down, to it. */
  predicate CrossesPercentage(p: Plan, before: int, after: int) {
    p.quotaSoftPct > 0 && 100 * (before + 1) <= p.monthlyQuota * p.quotaSoftPct < 100 * (after + 1)
  }

  lemma SoftByPlan(p: Plan, before: int, after: int)
    requires ValidPlan(p) && before >= 0
    ensures 0 < ScriptArgv(p).soft && before < ScriptArgv(p).soft <= after <==> CrossesPercentage(p, before, after)
  {
    SoftIsThePercentage(p, before + 1);
    SoftIsThePercentage(p, after + 1);
  }

  ghost predicate AllValid(plans: map<string, Plan>) {
    forall k :: k in plans ==> ValidPlan(plans[k])
  }

  // ----- what every check of every run replies

  /** The layer that a refusal names is the first of burst, sustained and quota that refused. */
  predicate NamesFirstRefusal(d: Decision, burst: bool, sustained: bool, quota: bool) {
    && (d.allowed <==> burst && sustained && quota)
    && (d.denyLayer == NoLayer <==> d.allowed)
    && (d.denyLayer == Burst <==> !burst)
    && (d.denyLayer == Sustained <==> burst && !sustained)
    && (d.denyLayer == Quota <==> burst && sustained && !quota)
  }

  /** The limits are the plan's, and used and remaining add up to them. */
  predicate ReportsThePlan(p: Plan, d: Decision, count: int, total: int) {
    && d.bLimit == p.burstCapacity && d.sLimit == p.sustainedLimit && d.qLimit == p.monthlyQuota
    && d.sRemaining == p.sustainedLimit - count
    && d.qUsed == total && d.qRemaining == p.monthlyQuota - total
  }

  /** One check of a plan, given whether the bucket had room. */
  ghost predicate FollowsPlan(p: Plan, h: seq<Admission>, after: seq<Admission>, slot: Slot, cost: int, c: Clock, burst: bool, d: Decision) {
    && NamesFirstRefusal(d, burst, WindowFits(p, h, slot, c.us), QuotaFits(p, h, slot, cost, c.month))
    && ReportsThePlan(p, d, CountSince(after, slot, c.us - p.sustainedWindowSeconds * 1_000_000), MonthSum(after, KeyMonth(slot.key, c.month)))
    && CrossesHere(p, h, slot, cost, c, d)
    && d.month == c.month
  }

  /** The soft crossing is reported exactly when this admission takes the month's total to the
      plan's percentage of the quota. */
  predicate CrossesHere(p: Plan, h: seq<Admission>, slot: Slot, cost: int, c: Clock, d: Decision) {
    var before := MonthSum(h, KeyMonth(slot.key, c.month));
    d.softCrossed <==> d.allowed && CrossesPercentage(p, before, before + cost)
  }

  lemma SpecNamesFirstRefusal(argv: Argv, cost: int, c: Clock, b: bool, s: bool, q: bool, u: Usage)
    requires ProperArgv(argv)
    ensures NamesFirstRefusal(SpecDecision(argv, cost, c, b, s, q, u), b, s, q)
  {
  }

  lemma SpecReportsThePlan(p: Plan, cost: int, c: Clock, b: bool, s: bool, q: bool, u: Usage)
    requires ValidPlan(p) && ProperArgv(ScriptArgv(p))
    ensures ReportsThePlan(p, SpecDecision(ScriptArgv(p), cost, c, b, s, q, u), u.count, u.used)
  {
  }

  /** The whole run of a plan's limits, at one check: the history before, and the plan. */
  lemma AtPlannedCheck(es: seq<Event>, plans: map<string, Plan>, k: int) returns (h: seq<Admission>, p: Plan)
    requires AllValid(plans) && ValidRun(es, BookOf(plans)) && 0 <= k < |es| && es[k].Check?
    ensures es[k].slot.key in plans && p == plans[es[k].slot.key] && ValidPlan(p) && ProperArgv(ScriptArgv(p))
    ensures h == HistoryAt(es, BookOf(plans), k) && es[k].cost >= 1
    ensures ReplyAt(es, BookOf(plans), k) == SpecReply(h, ScriptArgv(p), es[k].slot, es[k].cost, es[k].id, es[k].clock)
    ensures HistoryAt(es, BookOf(plans), k + 1) == Admit(h, ScriptArgv(p), es[k].slot, es[k].cost, es[k].id, es[k].clock)
  {
    AtEvent(es, BookOf(plans), k);
    h, p := HistoryAt(es, BookOf(plans), k), plans[es[k].slot.key];
    PlansAreProper(p);
  }

  lemma SpecFollowsPlan(p: Plan, h: seq<Admission>, after: seq<Admission>, slot: Slot, cost: int, id: string, c: Clock,
                        b: bool, s: bool, q: bool, level: int)
    requires ValidPlan(p) && ProperArgv(ScriptArgv(p)) && MonthSum(h, KeyMonth(slot.key, c.month)) >= 0
    requires s == SustainedAllows(h, ScriptArgv(p), slot, c) && q == QuotaAllows(h, ScriptArgv(p), slot, cost, c)
    requires after == if b && s && q then h + [Admission(slot, cost, id, c)] else h
    ensures FollowsPlan(p, h, after, slot, cost, c, b, SpecDecision(ScriptArgv(p), cost, c, b, s, q, UsageWith(level, h, after, ScriptArgv(p), slot, c)))
  {
    var u, before := UsageWith(level, h, after, ScriptArgv(p), slot, c), MonthSum(h, KeyMonth(slot.key, c.month));
    Appended(h, Admission(slot, cost, id, c));
    SpecNamesFirstRefusal(ScriptArgv(p), cost, c, b, s, q, u);
    SpecReportsThePlan(p, cost, c, b, s, q, u);
    SoftByPlan(p, before, before + cost);
    WindowByPlan(p, h, slot, c);
    QuotaByPlan(p, h, slot, cost, c);
  }

  lemma SpecReplyFollowsPlan(p: Plan, h: seq<Admission>, after: seq<Admission>, slot: Slot, cost: int, id: string, c: Clock)
    requires ValidPlan(p) && ProperArgv(ScriptArgv(p)) && MonthSum(h, KeyMonth(slot.key, c.month)) >= 0
    requires after == Admit(h, ScriptArgv(p), slot, cost, id, c)
    ensures FollowsPlan(p, h, after, slot, cost, c, BurstFits(p, h, slot, cost, c.us), SpecReply(h, ScriptArgv(p), slot, cost, id, c))
  {
    BurstByPlan(p, h, slot, cost, c);
    SpecFollowsPlan(p, h, after, slot, cost, id, c, BurstAllows(h, ScriptArgv(p), slot, cost, c), SustainedAllows(h, ScriptArgv(p), slot, c),
                    QuotaAllows(h, ScriptArgv(p), slot, cost, c), LevelAt(after, slot, ScriptArgv(p).cap, PerMicro(ScriptArgv(p)), c.us));
  }

  /** In exact arithmetic, for every check of every run: it is allowed exactly when the three
      layers of its key's plan have room for it, a refusal names the first layer without, the
      limits and remainders are the plan's, the soft crossing is the plan's percentage, and the
      month is the clock's. */
  lemma ChecksFollowThePlan(es: seq<Event>, plans: map<string, Plan>, k: int)
    requires AllValid(plans) && ValidRun(es, BookOf(plans)) && 0 <= k < |es| && es[k].Check?
    ensures es[k].slot.key in plans
    ensures var h, p := HistoryAt(es, BookOf(plans), k), plans[es[k].slot.key];
            FollowsPlan(p, h, HistoryAt(es, BookOf(plans), k + 1), es[k].slot, es[k].cost, es[k].clock,
                        BurstFits(p, h, es[k].slot, es[k].cost, es[k].clock.us), ReplyAt(es, BookOf(plans), k))
  {
    var h, p := AtPlannedCheck(es, plans, k);
    HistoryCosts(es, BookOf(plans), k);
    MonthSumNotNegative(h, KeyMonth(es[k].slot.key, es[k].clock.month));
    SpecReplyFollowsPlan(p, h, HistoryAt(es, BookOf(plans), k + 1), es[k].slot, es[k].cost, es[k].id, es[k].clock);
  }

  lemma HistoryCosts(es: seq<Event>, book: Book, k: int)
    requires ValidRun(es, book) && 0 <= k <= |es|
    ensures forall i :: 0 <= i < |HistoryAt(es, book, k)| ==> HistoryAt(es, book, k)[i].cost >= 0
  {
    PrefixesAreValid(es, book, k);
    OverAdmission.RunsAreLawful(es[..k], book);
    forall i | 0 <= i < |HistoryAt(es, book, k)|
      ensures HistoryAt(es, book, k)[i].cost >= 0
    {
      assert OverAdmission.LawfulAt(HistoryAt(es, book, k), book, i);
    }
  }

  // ----- what the remainders and resets mean

  /** The reply to a check, from the history that stands after it. */
  ghost predicate Stands(p: Plan, h: seq<Admission>, slot: Slot, c: Clock, level: int, reply: Decision)
    requires ValidPlan(p)
  {
    var oldest := OldestSince(h, slot, c.us - p.sustainedWindowSeconds * UTOK);
    && NotAfter(h, c.us)
    && level == LevelAt(h, slot, p.burstCapacity * UTOK, p.burstRefillPerSec, c.us) <= p.burstCapacity * UTOK
    && reply.bRemaining == level / UTOK
    && reply.bReset == CeilDiv(p.burstCapacity * UTOK - level, p.burstRefillPerSec * UTOK)
    && reply.sReset == (if oldest.None? then 0 else CeilDiv(oldest.value + p.sustainedWindowSeconds * UTOK - c.us, UTOK))
    && reply.qReset == c.monthEndS - c.s
  }

  lemma SpecStands(p: Plan, h: seq<Admission>, slot: Slot, cost: int, id: string, c: Clock, h': seq<Admission>, level: int)
    requires ValidPlan(p) && ProperArgv(ScriptArgv(p)) && h' == Admit(h, ScriptArgv(p), slot, cost, id, c) && NotAfter(h, c.us)
    requires level == LevelAt(h', slot, p.burstCapacity * UTOK, p.burstRefillPerSec, c.us)
    ensures Stands(p, h', slot, c, level, SpecReply(h, ScriptArgv(p), slot, cost, id, c))
  {
    PlansAreProper(p);
    LevelAtMostCap(h', slot, p.burstCapacity * UTOK, p.burstRefillPerSec, c.us);
  }

  lemma ReplyStands(es: seq<Event>, plans: map<string, Plan>, k: int)
    returns (h: seq<Admission>, p: Plan, c: Clock, level: int, reply: Decision)
    requires AllValid(plans) && ValidRun(es, BookOf(plans)) && 0 <= k < |es| && es[k].Check?
    ensures es[k].slot.key in plans && p == plans[es[k].slot.key] && ValidPlan(p) && c == es[k].clock
    ensures h == HistoryAt(es, BookOf(plans), k + 1) && reply == ReplyAt(es, BookOf(plans), k)
    ensures Stands(p, h, es[k].slot, c, level, reply)
  {
    var before;
    before, p := AtPlannedCheck(es, plans, k);
    SeesHistory(es, BookOf(plans), k);
    h, c, reply := HistoryAt(es, BookOf(plans), k + 1), es[k].clock, ReplyAt(es, BookOf(plans), k);
    level := LevelAt(h, es[k].slot, p.burstCapacity * UTOK, p.burstRefillPerSec, c.us);
    SpecStands(p, before, es[k].slot, es[k].cost, es[k].id, c, h, level);
  }

  lemma FullAfter(h: seq<Admission>, slot: Slot, cap: int, r: int, now: int, n: nat, reset: int)
    requires NotAfter(h, now) && r > 0 && LevelAt(h, slot, cap, r, now) <= cap
    requires reset == CeilDiv(cap - LevelAt(h, slot, cap, r, now), r * UTOK)
    ensures LevelAt(h, slot, cap, r, now + n * UTOK) == cap <==> n >= reset
  {
    LevelAdvances(h, slot, cap, r, now, now + n * UTOK);
    assert r * (n * UTOK) == n * (r * UTOK);
    CeilIsLeast(cap - LevelAt(h, slot, cap, r, now), r * UTOK, n);
  }

  lemma WholeTokens(level: int, whole: int)
    requires whole == level / UTOK
    ensures whole * UTOK <= level < (whole + 1) * UTOK
  {
  }

  /** The burst remainder is the whole tokens left, and with nothing admitted meanwhile the bucket
      is full n seconds later exactly when n reaches the burst reset. */
  predicate BurstResetMeans(p: Plan, h: seq<Admission>, slot: Slot, c: Clock, reply: Decision, n: nat) {
    var cap, r := p.burstCapacity * 1_000_000, p.burstRefillPerSec;
    && reply.bRemaining * 1_000_000 <= LevelAt(h, slot, cap, r, c.us) < (reply.bRemaining + 1) * 1_000_000
    && (LevelAt(h, slot, cap, r, c.us + n * 1_000_000) == cap <==> n >= reply.bReset)
  }

  lemma BurstResetOf(p: Plan, h: seq<Admission>, slot: Slot, c: Clock, level: int, reply: Decision, n: nat)
    requires ValidPlan(p) && Stands(p, h, slot, c, level, reply)
    ensures BurstResetMeans(p, h, slot, c, reply, n)
  {
    WholeTokens(level, reply.bRemaining);
    FullAfter(h, slot, p.burstCapacity * 1_000_000, p.burstRefillPerSec, c.us, n, reply.bReset);
  }

  /** As long as the oldest counted admission is in the window the count stands. */
  lemma {:induction false} CountStays(h: seq<Admission>, slot: Slot, b: int, b': int)
    requires b <= b' && (OldestSince(h, slot, b).Some? ==> b' <= OldestSince(h, slot, b).value)
    ensures CountSince(h, slot, b') == CountSince(h, slot, b)
  {
    if h != [] {
      CountStays(h[..|h| - 1], slot, b, b');
    }
  }

  lemma {:induction false} OldestIsCounted(h: seq<Admission>, slot: Slot, b: int)
    ensures OldestSince(h, slot, b).Some? <==> CountSince(h, slot, b) > 0
    ensures CountSince(h, slot, b) >= 0
  {
    if h != [] {
      OldestIsCounted(h[..|h| - 1], slot, b);
    }
  }

  lemma CountFallsAfter(h: seq<Admission>, slot: Slot, start: int, n: nat, reset: int)
    requires var oldest := OldestSince(h, slot, start); reset == if oldest.None? then 0 else CeilDiv(oldest.value - start, UTOK)
    ensures CountSince(h, slot, start + n * UTOK + 1) < CountSince(h, slot, start) <==> CountSince(h, slot, start) > 0 && n >= reset
    ensures CountSince(h, slot, start) == 0 ==> reset == 0
  {
    var later, oldest := start + n * UTOK + 1, OldestSince(h, slot, start);
    OldestIsCounted(h, slot, start);
    OldestIsCounted(h, slot, later);
    CountDrops(h, slot, start, later);
    if oldest.Some? {
      CeilIsLeast(oldest.value - start, UTOK, n);
      if later <= oldest.value {
        CountStays(h, slot, start, later);
      }
    }
  }

  /** With nothing admitted meanwhile, just after n seconds the window counts less than now
      exactly when it counts anything and n reaches the window reset. */
  predicate WindowResetMeans(p: Plan, h: seq<Admission>, slot: Slot, c: Clock, reply: Decision, n: nat) {
    var start := c.us - p.sustainedWindowSeconds * 1_000_000;
    && (CountSince(h, slot, start + n * 1_000_000 + 1) < CountSince(h, slot, start)
        <==> CountSince(h, slot, start) > 0 && n >= reply.sReset)
    && (CountSince(h, slot, start) == 0 ==> reply.sReset == 0)
  }

  lemma WindowResetOf(p: Plan, h: seq<Admission>, slot: Slot, c: Clock, level: int, reply: Decision, n: nat)
    requires ValidPlan(p) && Stands(p, h, slot, c, level, reply)
    ensures WindowResetMeans(p, h, slot, c, reply, n)
  {
    CountFallsAfter(h, slot, c.us - p.sustainedWindowSeconds * UTOK, n, reply.sReset);
  }

  lemma WholeSeconds(c: Clock)
    requires TrueClock(c)
    ensures c.us / 1_000_000 == c.s && c.month == MonthOf(c.s) && c.monthEndS == MonthEndS(MonthOf(c.s))
  {
  }

  lemma SameMonthUntil(s: int, later: int, month: Month, end: int)
    requires s <= later && month == MonthOf(s) && end == MonthEndS(month)
    ensures MonthOf(later) == month <==> later < end
  {
    MonthContainsNow(s);
    MonthLasts(s, later, month, end);
  }

  lemma NextMonthAfter(c: Clock, n: nat)
    requires TrueClock(c)
    ensures MonthOf(c.us / 1_000_000 + n) == MonthOf(c.us / 1_000_000) <==> n < c.monthEndS - c.s
  {
    WholeSeconds(c);
    SameMonthUntil(c.s, c.s + n, c.month, c.monthEndS);
  }

  /** n seconds later it is another month exactly when n reaches the quota reset. */
  predicate QuotaResetMeans(c: Clock, reply: Decision, n: nat) {
    MonthOf(c.us / 1_000_000 + n) == MonthOf(c.us / 1_000_000) <==> n < reply.qReset
  }

  lemma QuotaResetOf(p: Plan, h: seq<Admission>, slot: Slot, c: Clock, level: int, reply: Decision, n: nat)
    requires ValidPlan(p) && Stands(p, h, slot, c, level, reply) && TrueClock(c)
    ensures QuotaResetMeans(c, reply, n)
  {
    NextMonthAfter(c, n);
  }

  lemma ClockIsTrueAt(es: seq<Event>, plans: map<string, Plan>, k: int)
    requires ValidRun(es, BookOf(plans)) && 0 <= k < |es|
    ensures TrueClock(es[k].clock)
  {
  }

  /** In exact arithmetic the remainders and resets of every reply of every run, allowed or
      denied, mean what they say of the history that then stands. */
  lemma ResetsAreExact(es: seq<Event>, plans: map<string, Plan>, k: int, n: nat)
    requires AllValid(plans) && ValidRun(es, BookOf(plans)) && 0 <= k < |es| && es[k].Check?
    ensures es[k].slot.key in plans
    ensures BurstResetMeans(plans[es[k].slot.key], HistoryAt(es, BookOf(plans), k + 1), es[k].slot, es[k].clock, ReplyAt(es, BookOf(plans), k), n)
    ensures WindowResetMeans(plans[es[k].slot.key], HistoryAt(es, BookOf(plans), k + 1), es[k].slot, es[k].clock, ReplyAt(es, BookOf(plans), k), n)
    ensures QuotaResetMeans(es[k].clock, ReplyAt(es, BookOf(plans), k), n)
  {
    var h, p, c, level, reply := ReplyStands(es, plans, k);
    BurstResetOf(p, h, es[k].slot, c, level, reply, n);
    WindowResetOf(p, h, es[k].slot, c, level, reply, n);
    ClockIsTrueAt(es, plans, k);
    QuotaResetOf(p, h, es[k].slot, c, level, reply, n);
  }

  /** A refusal's retry time is the least number of seconds that every refusing layer asks for:
      the bucket enough for the cost, the window and the quota their resets. */
  ghost predicate RetryMeans(p: Plan, h: seq<Admission>, slot: Slot, cost: int, c: Clock, reply: Decision, n: nat) {
    !reply.allowed ==>
      (n >= reply.retryAfter
       <==> && (BurstFits(p, h, slot, cost, c.us)
                || LevelAt(h, slot, p.burstCapacity * 1_000_000, p.burstRefillPerSec, c.us) + p.burstRefillPerSec * (n * 1_000_000) >= cost * 1_000_000)
            && (WindowFits(p, h, slot, c.us) || n >= reply.sReset)
            && (QuotaFits(p, h, slot, cost, c.month) || n >= reply.qReset))
  }

  lemma SpecRetryMeans(p: Plan, h: seq<Admission>, slot: Slot, cost: int, id: string, c: Clock, n: nat)
    requires ValidPlan(p) && ProperArgv(ScriptArgv(p))
    ensures RetryMeans(p, h, slot, cost, c, SpecReply(h, ScriptArgv(p), slot, cost, id, c), n)
  {
    var cap, r := p.burstCapacity * 1_000_000, p.burstRefillPerSec;
    PlansAreProper(p);
    BurstByPlan(p, h, slot, cost, c);
    WindowByPlan(p, h, slot, c);
    QuotaByPlan(p, h, slot, cost, c);
    CeilIsLeast(cost * UTOK - LevelAt(h, slot, cap, r, c.us), r * UTOK, n);
    assert n * (r * UTOK) == r * (n * 1_000_000);
  }

  lemma RetryIsTheLargestReset(es: seq<Event>, plans: map<string, Plan>, k: int, n: nat)
    requires AllValid(plans) && ValidRun(es, BookOf(plans)) && 0 <= k < |es| && es[k].Check?
    ensures es[k].slot.key in plans
    ensures RetryMeans(plans[es[k].slot.key], HistoryAt(es, BookOf(plans), k), es[k].slot, es[k].cost, es[k].clock, ReplyAt(es, BookOf(plans), k), n)
  {
    var h, p := AtPlannedCheck(es, plans, k);
    SpecRetryMeans(p, h, es[k].slot, es[k].cost, es[k].id, es[k].clock, n);
  }

  // ----- a deny takes nothing

  /** Every check trims its slot's window to one window's length, and a deny does nothing else:
      no tokens, no entry, no count, no flag, and no deadline moves. */
  lemma DenyOnlyTrims(s: Store, p: Plan, slot: Slot, cost: int, id: string, c: Clock)
    requires ValidPlan(p)
    ensures var s', allowed := CheckStore(s, ScriptArgv(p), slot, cost, id, c), CheckReply(s, ScriptArgv(p), slot, cost, id, c).allowed;
            var start := c.us - p.sustainedWindowSeconds * 1_000_000;
            && (forall e :: e in Entries(s', slot) <==> (e in Entries(s, slot) && start <= e.score) || (allowed && e == Entry(c.us, id)))
            && (slot in s'.windows <==> Entries(s', slot) != {})
            && (!allowed ==>
                  && s'.buckets == s.buckets && s'.counters == s.counters && s'.flags == s.flags
                  && (slot in s'.windows ==> slot in s.windows && s'.windows[slot].deadline == s.windows[slot].deadline)
                  && (forall other :: other != slot ==>
                        && (other in s'.windows <==> other in s.windows)
                        && (other in s.windows ==> s'.windows[other] == s.windows[other])))
  {
  }

  // ----- no more than the plan says

  /** What a stretch of admissions of one slot keeps to: `slack` is in microtokens. */
  ghost predicate KeepsToThePlan(p: Plan, h: seq<Admission>, i: int, j: int, slack: int)
    requires 0 <= i <= j < |h|
  {
    var slot, span := h[j].slot, h[j].clock.us - h[i].clock.us;
    && SlotCost(h[i..j + 1], slot) * 1_000_000 <= p.burstCapacity * 1_000_000 + p.burstRefillPerSec * span + slack
    && (OverAdmission.SlotCount(h[i..j + 1], slot) > p.sustainedLimit ==> span > p.sustainedWindowSeconds * 1_000_000)
    && MonthSum(h, KeyMonth(slot.key, h[j].clock.month)) <= p.monthlyQuota
  }

  lemma BoundsByPlan(p: Plan, h: seq<Admission>, i: int, j: int, argv: Argv, slack: int)
    requires ValidPlan(p) && 0 <= i <= j < |h| && argv == ScriptArgv(p).(cap := p.burstCapacity * UTOK + slack)
    requires OverAdmission.WithinBounds(h, argv, i, j)
    ensures KeepsToThePlan(p, h, i, j, slack)
  {
    PlansAreProper(p);
  }

  /** In exact arithmetic no run of any plans lets more pass than the plans say. */
  lemma PlansAreKept(es: seq<Event>, plans: map<string, Plan>, i: int, j: int)
    requires AllValid(plans) && ValidRun(es, BookOf(plans)) && 0 <= i <= j < |OverAdmission.Admitted(es, BookOf(plans))|
    requires var h := OverAdmission.Admitted(es, BookOf(plans)); h[i].slot == h[j].slot
    ensures var h := OverAdmission.Admitted(es, BookOf(plans));
            h[j].slot.key in plans && KeepsToThePlan(plans[h[j].slot.key], h, i, j, 0)
  {
    var h := OverAdmission.Admitted(es, BookOf(plans));
    OverAdmission.NoOverAdmission(es, BookOf(plans), i, j);
    var p := plans[h[j].slot.key];
    BoundsByPlan(p, h, i, j, ScriptArgv(p), 0);
  }

  // ----- the same in doubles

  /** A microsecond's refill, if the capacity is above 576460. */
  function RoundingSlack(p: Plan): int {
    if p.burstCapacity <= 576_460 then 0 else p.burstRefillPerSec
  }

  /** In doubles too, over whole runs with expiry, but for a microsecond's refill. */
  lemma PlansAreKeptInDoubles(plans: RoundedScript.Plans, es: seq<RoundedScript.Step>, i: int, j: int)
    requires RoundedScript.ValidPlans(plans) && RoundedScript.Allowable(plans, es)
    requires 0 <= i <= j < |RoundedScript.Run(plans, es).admitted|
    requires var h := RoundedScript.Run(plans, es).admitted; h[i].slot == h[j].slot
    ensures var h := RoundedScript.Run(plans, es).admitted;
            h[j].slot.key in plans && KeepsToThePlan(plans[h[j].slot.key], h, i, j, RoundingSlack(plans[h[j].slot.key]))
  {
    var h := RoundedScript.Run(plans, es).admitted;
    RoundedScript.NoOverAdmissionInDoubles(plans, es, i, j);
    var p := plans[h[j].slot.key];
    BoundsByPlan(p, h, i, j, RoundedScript.Slackened(p), RoundingSlack(p));
  }

  lemma DatedCosts(plans: RoundedScript.Plans, es: seq<RoundedScript.Step>, now: int, km: KeyMonth)
    requires RoundedScript.ValidPlans(plans) && RoundedScript.Allowable(plans, es) && (es != [] ==> es[|es| - 1].clock.us <= now)
    ensures MonthSum(RoundedScript.Run(plans, es).admitted, km) >= 0
  {
    RoundedScript.RunsAgree(plans, es, now);
    MonthSumNotNegative(RoundedScript.Run(plans, es).admitted, km);
  }

  lemma FoundFollowsPlan(p: Plan, st: RoundedScript.State, e: RoundedScript.Step)
    requires ValidPlan(p) && e.Checks? && RoundedScript.Finds(p, st, e) && MonthSum(st.admitted, KeyMonth(e.slot.key, e.clock.month)) >= 0
    requires RoundedScript.ReplyTo(st, p, e) == RoundedScript.SpecWith(st, p, e, RoundedScript.Reads(st, p, e))
    ensures FollowsPlan(p, st.admitted, RoundedScript.Checked(st, p, e).admitted, e.slot, e.cost, e.clock,
                        RoundedScript.Reads(st, p, e).level.tokens >= e.cost * 1_000_000, RoundedScript.ReplyTo(st, p, e))
  {
    var r := RoundedScript.Reads(st, p, e);
    PlansAreProper(p);
    RoundedScript.FoundVerdicts(st, p, e);
    SpecFollowsPlan(p, st.admitted, RoundedScript.Checked(st, p, e).admitted, e.slot, e.cost, e.id, e.clock,
                    r.burstOk, r.sustainedOk, r.quotaOk, TokensLeft(r, e.cost));
  }

  /** In doubles a check is allowed exactly when its refilled bucket holds the cost and the
      plan's window and quota have room on what was admitted; a refusal names the first that
      had none, limits, remainders and the soft crossing are the plan's, the month the clock's. */
  lemma ChecksFollowThePlanInDoubles(plans: RoundedScript.Plans, es: seq<RoundedScript.Step>, e: RoundedScript.Step)
    requires RoundedScript.ValidPlans(plans) && e.Checks? && RoundedScript.Continues(plans, es, e)
    ensures var st, p := RoundedScript.Run(plans, es), plans[e.slot.key];
            FollowsPlan(p, st.admitted, RoundedScript.Checked(st, p, e).admitted, e.slot, e.cost, e.clock,
                        RoundedScript.Reads(st, p, e).level.tokens >= e.cost * 1_000_000, RoundedScript.ReplyTo(st, p, e))
  {
    DatedCosts(plans, es, e.clock.us, KeyMonth(e.slot.key, e.clock.month));
    RoundedScript.RunFinds(plans, es, e);
    RoundedScript.FoundReply(RoundedScript.Run(plans, es), plans[e.slot.key], e);
    FoundFollowsPlan(plans[e.slot.key], RoundedScript.Run(plans, es), e);
  }
}
