/** Runs of one bucket in doubles, on a forward clock and with expiry, against the history of
    what they admitted: what is left of the exact specification when every operation rounds. */
module RoundedRun {
  import opened Arith
  import opened Limits
  import opened Redis
  import opened CheckScript
  import opened History
  import opened RoundedRefill
  import opened RoundedLoss
  import opened Refinement
  import RetryAfter

  /** A check of the bucket, with the verdict of the other layers and what its operations came
      out as, or an expiry of the bucket's key. */
  datatype Moment =
    | Visit(cost: int, id: string, clock: Clock, othersAllow: bool, rounding: Rounding)
    | Vanish(clock: Clock)

  /** The bucket key, all admissions so far, and how many have come since one that found the
      bucket absent or full. */
  datatype Ledger = Ledger(bucket: Option<Bucket>, admitted: seq<Admission>, since: nat)

  function Cap(p: Plan): int {
    p.burstCapacity * UTOK
  }

  /** How far the stored clock can be ahead of the reading, in microseconds. */
  function Ahead(p: Plan): int {
    if p.burstCapacity <= EXACT_CAPACITY then 0 else 1
  }

  /** The most that one refill can lose, in microtokens. */
  function Lossy(p: Plan): int {
    if p.burstCapacity <= EXACT_CAPACITY then 1 else p.burstRefillPerSec
  }

  function Refilled(c: Rounding, p: Plan, b: Option<Bucket>, now: int): Level {
    if b.None? then Level(Cap(p), now) else RoundedLevel(c, p, b.value.tokens, b.value.ts, now)
  }

  function LevelOf(p: Plan, b: Option<Bucket>, v: Moment): Level
    requires v.Visit?
  {
    Refilled(v.rounding, p, b, v.clock.us)
  }

  /** The key that charging a refilled bucket leaves. */
  function Charged(p: Plan, l: Level, cost: int, now: int): Bucket
    requires ValidPlan(p)
  {
    Bucket(l.tokens - cost * UTOK, l.ts, Some(BucketDeadline(ScriptArgv(p), now)))
  }

  /** Charges since the bucket was full, after one more of a bucket refilled to l. */
  function Since(p: Plan, l: Level, now: int, since: nat): nat {
    if l == Level(Cap(p), now) then 0 else since + 1
  }

  predicate BurstOk(p: Plan, b: Option<Bucket>, v: Moment)
    requires v.Visit?
  {
    LevelOf(p, b, v).tokens >= v.cost * UTOK
  }

  function Next(p: Plan, slot: Slot, ledger: Ledger, m: Moment): Ledger
    requires ValidPlan(p)
  {
    match m
    case Vanish(c) =>
      if ledger.bucket.Some? && Overdue(ledger.bucket.value.deadline, NowMs(c.us)) then ledger.(bucket := None) else ledger
    case Visit(cost, id, c, othersAllow, _) =>
      var l := LevelOf(p, ledger.bucket, m);
      if othersAllow && BurstOk(p, ledger.bucket, m) then
        Ledger(Some(Charged(p, l, cost, c.us)), ledger.admitted + [Admission(slot, cost, id, c)],
               Since(p, l, c.us, ledger.since))
      else ledger
  }

  function Run(p: Plan, slot: Slot, ms: seq<Moment>): Ledger
    requires ValidPlan(p)
  {
    if ms == [] then Ledger(None, [], 0) else Next(p, slot, Run(p, slot, ms[..|ms| - 1]), ms[|ms| - 1])
  }

  function LatestUs(ms: seq<Moment>): int {
    if ms == [] then 0 else ms[|ms| - 1].clock.us
  }

  predicate CanRound(c: Rounding, p: Plan, b: Option<Bucket>, now: int)
    requires ValidPlan(p)
  {
    b.Some? ==> Possible(c, p, Max(0, now - b.value.ts))
  }

  /** What the next moment of a run may be: no earlier, and rounded as doubles allow. */
  predicate CanFollow(p: Plan, ledger: Ledger, m: Moment)
    requires ValidPlan(p)
  {
    m.Visit? ==> m.cost >= 1 && CanRound(m.rounding, p, ledger.bucket, m.clock.us)
  }

  predicate Allowable(p: Plan, slot: Slot, ms: seq<Moment>)
    requires ValidPlan(p)
  {
    ms == []
    || (var n := |ms| - 1;
        && Allowable(p, slot, ms[..n]) && CanFollow(p, Run(p, slot, ms[..n]), ms[n])
        && (n > 0 ==> LatestUs(ms[..n]) <= ms[n].clock.us))
  }

  // ----- one refill against the exact one

  /** How a rounded refill compares with x, the exact sum that the elapsed time pays for. */
  predicate CloseRefill(x: int, xl: int, l: Level, now: int, cap: int, r: int, lossy: int, ahead: int) {
    && 0 <= l.tokens <= cap && l.ts <= now + ahead
    && xl <= cap && Min(cap, x) - lossy <= xl <= Min(cap, x)
    && Min(cap, x) - 1 <= l.tokens <= Min(cap, x) + ahead * r
  }

  /** The sum that a stored level is worth at a time, before the capacity cuts it off. */
  function WorthAt(tokens: int, ts: int, r: int, t: int): int {
    tokens + r * (t - ts)
  }

  lemma WorthLoss(tokens: int, ts: int, r: int, l: Level, now: int)
    ensures WorthAt(l.tokens, l.ts, r, now) == WorthAt(tokens, ts, r, now) - Loss(tokens, ts, r, l)
  {
    assert r * (now - ts) == r * now - r * ts;
    assert r * (now - l.ts) == r * now - r * l.ts;
  }

  lemma WorthLater(tokens: int, ts: int, r: int, t: int, now: int)
    ensures WorthAt(tokens, ts, r, now) == WorthAt(tokens, ts, r, t) + r * (now - t)
  {
    assert r * (now - ts) == r * (t - ts) + r * (now - t);
  }

  /** The loss of a refill that does not fill the bucket, and where its clock ends up. */
  lemma RefillLoses(c: Rounding, p: Plan, tokens: nat, ts: int, now: int)
    requires ValidPlan(p) && Possible(c, p, Max(0, now - ts)) && ts <= now + Ahead(p)
    ensures var l := RoundedLevel(c, p, tokens, ts, now);
            && l.ts <= now + Ahead(p)
            && (l != Level(Cap(p), now) ==> 0 <= Loss(tokens, ts, p.burstRefillPerSec, l) <= Lossy(p))
  {
    RoundedRefillUnderCredits(c, p, tokens, ts, now);
    if p.burstCapacity <= EXACT_CAPACITY {
      SmallPlansStayBehind(c, p, tokens, ts, now);
      SmallRefillLoss(c, p, tokens, ts, now);
    }
  }

  /** What a refill that does not fill the bucket credits. */
  lemma RefillCredits(c: Rounding, p: Plan, tokens: nat, ts: int, now: int)
    requires ValidPlan(p) && Possible(c, p, Max(0, now - ts)) && tokens < Cap(p)
    ensures var l, exact := RoundedLevel(c, p, tokens, ts, now), Max(0, now - ts) * p.burstRefillPerSec;
            if l == Level(Cap(p), now) then now > ts && tokens + exact >= Cap(p)
            else tokens <= l.tokens < Cap(p) && tokens + exact - 1 <= l.tokens <= tokens + exact
  {
    var elapsed := Max(0, now - ts);
    NeverCreditsEarly(c, p, elapsed);
    FillsNotAtOnce(c, p, elapsed);
    MulMonotone(p.burstRefillPerSec, 0, elapsed);
  }

  lemma WorthBeforeAhead(tokens: int, ts: int, r: int, now: int, ahead: int)
    requires r > 0 && 0 <= ahead <= 1 && ts <= now + ahead
    ensures now >= ts ==> WorthAt(tokens, ts, r, now) == tokens + Max(0, now - ts) * r
    ensures now < ts ==> WorthAt(tokens, ts, r, now) == tokens - ahead * r && Max(0, now - ts) * r == 0 && ahead == 1
  {
    var d := now - ts;
    if d >= 0 {
      assert Max(0, d) == d;
    } else {
      assert ahead == 1 && d == -1 && Max(0, d) == 0;
    }
  }

  lemma FillIsClose(x: int, xl: int, now: int, cap: int, r: int, lossy: int, ahead: int)
    requires x >= cap && xl == cap && cap > 0 && lossy >= 0 && ahead >= 0 && r > 0
    ensures CloseRefill(x, xl, Level(cap, now), now, cap, r, lossy, ahead)
  {
    MulMonotone(r, 0, ahead);
  }

  /** `behind` is what a clock ahead of the reading holds back. */
  lemma CreditIsClose(x: int, xl: int, l: Level, now: int, cap: int, r: int, lossy: int, ahead: int,
                      tokens: int, exact: int, behind: int)
    requires 0 <= tokens <= l.tokens < cap && tokens + exact - 1 <= l.tokens <= tokens + exact && l.ts <= now + ahead
    requires x == tokens + exact - behind && 0 <= behind <= ahead * r && 0 <= x - xl <= lossy
    ensures CloseRefill(x, xl, l, now, cap, r, lossy, ahead)
  {
  }

  /** What a refill credits, loses and stores makes it a close one. */
  lemma RefillFactsAreClose(l: Level, tokens: nat, ts: int, now: int, cap: int, r: int, lossy: int, ahead: int, exact: int)
    requires r > 0 && 0 <= ahead <= 1 && lossy >= 0 && cap > 0 && tokens < cap && ts <= now + ahead
    requires exact == Max(0, now - ts) * r && l.ts <= now + ahead
    requires l != Level(cap, now) ==> 0 <= Loss(tokens, ts, r, l) <= lossy
    requires if l == Level(cap, now) then now > ts && tokens + exact >= cap
             else tokens <= l.tokens < cap && tokens + exact - 1 <= l.tokens <= tokens + exact
    ensures CloseRefill(WorthAt(tokens, ts, r, now), WorthAt(l.tokens, l.ts, r, now), l, now, cap, r, lossy, ahead)
  {
    var x, xl := WorthAt(tokens, ts, r, now), WorthAt(l.tokens, l.ts, r, now);
    WorthBeforeAhead(tokens, ts, r, now, ahead);
    if l == Level(cap, now) {
      FillIsClose(x, xl, now, cap, r, lossy, ahead);
    } else {
      WorthLoss(tokens, ts, r, l, now);
      MulMonotone(r, 0, ahead);
      CreditIsClose(x, xl, l, now, cap, r, lossy, ahead, tokens, exact, tokens + exact - x);
    }
  }

  lemma RefillIsClose(c: Rounding, p: Plan, tokens: nat, ts: int, now: int)
    requires ValidPlan(p) && Possible(c, p, Max(0, now - ts)) && tokens < Cap(p) && ts <= now + Ahead(p)
    ensures var l, r := RoundedLevel(c, p, tokens, ts, now), p.burstRefillPerSec;
            CloseRefill(WorthAt(tokens, ts, r, now), WorthAt(l.tokens, l.ts, r, now), l, now, Cap(p), r, Lossy(p), Ahead(p))
  {
    RefillLoses(c, p, tokens, ts, now);
    RefillCredits(c, p, tokens, ts, now);
    RefillFactsAreClose(RoundedLevel(c, p, tokens, ts, now), tokens, ts, now, Cap(p), p.burstRefillPerSec, Lossy(p), Ahead(p),
                        Max(0, now - ts) * p.burstRefillPerSec);
  }

  // ----- the run against its history

  /** The history's level and the stored bucket's worth differ by at most the losses so far. */
  predicate NearHistory(p: Plan, level: int, worth: int, since: int) {
    level - since * Lossy(p) <= Min(Cap(p), worth) <= level
  }

  /** What every stored bucket keeps to. */
  predicate BucketInOrder(p: Plan, b: Option<Bucket>, t: int)
    requires ValidPlan(p)
  {
    b.Some? ==>
      && 0 <= b.value.tokens < Cap(p) && b.value.ts <= t + Ahead(p)
      && b.value.deadline.Some? && BucketDeadline(ScriptArgv(p), b.value.ts - 1) <= b.value.deadline.value
  }

  /** The bucket holds what the history of its slot gives, but for the losses of the charges
      since it was full. */
  ghost predicate Follows(p: Plan, b: Option<Bucket>, h: seq<Admission>, since: nat, slot: Slot, t: int)
    requires ValidPlan(p)
  {
    var r := p.burstRefillPerSec;
    var level := LevelAt(h, slot, Cap(p), r, t);
    && BucketInOrder(p, b, t)
    && if b.None? then level == Cap(p)
       else NearHistory(p, level, WorthAt(b.value.tokens, b.value.ts, r, t), since)
  }

  lemma NearLater(p: Plan, level: int, worth: int, since: int, paid: int)
    requires NearHistory(p, level, worth, since) && paid >= 0 && since * Lossy(p) >= 0
    ensures NearHistory(p, Min(Cap(p), level + paid), worth + paid, since)
  {
  }

  lemma FollowsLater(p: Plan, b: Option<Bucket>, h: seq<Admission>, since: nat, slot: Slot, t: int, now: int)
    requires ValidPlan(p) && Follows(p, b, h, since, slot, t) && NotAfter(h, t) && t <= now
    ensures Follows(p, b, h, since, slot, now)
  {
    var r := p.burstRefillPerSec;
    LevelAdvances(h, slot, Cap(p), r, t, now);
    MulMonotone(r, 0, now - t);
    if b.Some? {
      WorthLater(b.value.tokens, b.value.ts, r, t, now);
      MulMonotone(Lossy(p), 0, since);
      NearLater(p, LevelAt(h, slot, Cap(p), r, t), WorthAt(b.value.tokens, b.value.ts, r, t), since, r * (now - t));
    }
  }

  /** A bucket whose key is overdue is worth its whole capacity. */
  lemma OverdueIsWorthAll(p: Plan, tokens: int, ts: int, now: int)
    requires ValidPlan(p) && tokens >= 0 && BucketDeadline(ScriptArgv(p), ts - 1) <= NowMs(now)
    ensures WorthAt(tokens, ts, p.burstRefillPerSec, now) >= Cap(p)
  {
    var r, rate := p.burstRefillPerSec, p.burstRefillPerSec * UTOK;
    var seconds := CeilDiv(Cap(p), rate);
    CeilBounds(Cap(p), rate);
    CeilIsLeast(Cap(p), rate, 0);
    assert now - ts >= seconds * UTOK;
    MulMonotone(r, seconds * UTOK, now - ts);
    assert r * (seconds * UTOK) == seconds * rate;
  }

  lemma VanishedFollows(p: Plan, b: Option<Bucket>, h: seq<Admission>, since: nat, slot: Slot, now: int)
    requires ValidPlan(p) && Follows(p, b, h, since, slot, now)
    requires b.Some? && Overdue(b.value.deadline, NowMs(now))
    ensures Follows(p, None, h, since, slot, now)
  {
    OverdueIsWorthAll(p, b.value.tokens, b.value.ts, now);
    LevelAtMostCap(h, slot, Cap(p), p.burstRefillPerSec, now);
  }

  /** The refilled level of a visit, against the level that the history gives. */
  predicate LevelIsNear(p: Plan, l: Level, level: int, since: int, now: int) {
    && 0 <= l.tokens <= Cap(p) && l.ts <= now + Ahead(p)
    && WorthAt(l.tokens, l.ts, p.burstRefillPerSec, now) <= Cap(p)
    && level - (since + 1) * Lossy(p) <= WorthAt(l.tokens, l.ts, p.burstRefillPerSec, now) <= level
    && level - since * Lossy(p) - 1 <= l.tokens <= level + Ahead(p) * p.burstRefillPerSec
  }

  lemma CloseIsNear(p: Plan, l: Level, level: int, worth: int, since: int, now: int)
    requires ValidPlan(p) && NearHistory(p, level, worth, since)
    requires CloseRefill(worth, WorthAt(l.tokens, l.ts, p.burstRefillPerSec, now), l, now, Cap(p), p.burstRefillPerSec, Lossy(p), Ahead(p))
    ensures LevelIsNear(p, l, level, since, now)
  {
    assert (since + 1) * Lossy(p) == since * Lossy(p) + Lossy(p);
  }

  lemma VisitReadsNear(c: Rounding, p: Plan, b: Option<Bucket>, h: seq<Admission>, since: nat, slot: Slot, now: int)
    requires ValidPlan(p) && CanRound(c, p, b, now) && Follows(p, b, h, since, slot, now)
    ensures LevelIsNear(p, Refilled(c, p, b, now), LevelAt(h, slot, Cap(p), p.burstRefillPerSec, now), since, now)
  {
    var r := p.burstRefillPerSec;
    MulMonotone(Lossy(p), 0, since);
    MulMonotone(Lossy(p), 0, since + 1);
    if b.Some? {
      RefillIsClose(c, p, b.value.tokens, b.value.ts, now);
      CloseIsNear(p, Refilled(c, p, b, now), LevelAt(h, slot, Cap(p), r, now),
                  WorthAt(b.value.tokens, b.value.ts, r, now), since, now);
    } else {
      assert WorthAt(Cap(p), now, r, now) == Cap(p);
    }
  }

  lemma DeadlineIsLater(p: Plan, ts: int, now: int)
    requires ValidPlan(p) && ts <= now
    ensures BucketDeadline(ScriptArgv(p), ts) <= BucketDeadline(ScriptArgv(p), now)
  {
  }

  /** A full bucket forgets its losses: the history's level is then the capacity. */
  lemma FullIsExact(p: Plan, level: int, since: int, now: int)
    requires ValidPlan(p) && LevelIsNear(p, Level(Cap(p), now), level, since, now) && level <= Cap(p)
    ensures level == Cap(p) == WorthAt(Cap(p), now, p.burstRefillPerSec, now)
  {
    assert p.burstRefillPerSec * (now - now) == 0;
  }

  lemma ChargeStaysNear(p: Plan, l: Level, level: int, since: nat, now: int, charge: int)
    requires ValidPlan(p) && LevelIsNear(p, l, level, since, now) && level <= Cap(p) && 0 < charge <= l.tokens
    ensures NearHistory(p, level - charge, WorthAt(l.tokens - charge, l.ts, p.burstRefillPerSec, now), Since(p, l, now, since))
  {
    if l == Level(Cap(p), now) {
      FullIsExact(p, level, since, now);
    }
  }

  lemma ChargedFollows(p: Plan, h: seq<Admission>, since: nat, slot: Slot, cost: int, id: string, c: Clock, l: Level)
    requires ValidPlan(p) && cost >= 1 && l.tokens >= cost * UTOK
    requires LevelIsNear(p, l, LevelAt(h, slot, Cap(p), p.burstRefillPerSec, c.us), since, c.us)
    ensures Follows(p, Some(Charged(p, l, cost, c.us)), h + [Admission(slot, cost, id, c)], Since(p, l, c.us, since), slot, c.us)
  {
    var now, r := c.us, p.burstRefillPerSec;
    Appended(h, Admission(slot, cost, id, c));
    LevelAtMostCap(h, slot, Cap(p), r, now);
    assert r * (now - now) == 0;
    ChargeStaysNear(p, l, LevelAt(h, slot, Cap(p), r, now), since, now, cost * UTOK);
    DeadlineIsLater(p, l.ts - 1, now);
  }

  ghost predicate Tracks(p: Plan, ledger: Ledger, slot: Slot, t: int)
    requires ValidPlan(p)
  {
    NotAfter(ledger.admitted, t) && Follows(p, ledger.bucket, ledger.admitted, ledger.since, slot, t)
  }

  lemma NextKeepsTrack(p: Plan, ledger: Ledger, slot: Slot, m: Moment)
    requires ValidPlan(p) && CanFollow(p, ledger, m) && Tracks(p, ledger, slot, m.clock.us)
    ensures Tracks(p, Next(p, slot, ledger, m), slot, m.clock.us)
  {
    var b, h := ledger.bucket, ledger.admitted;
    if m.Visit? {
      VisitReadsNear(m.rounding, p, b, h, ledger.since, slot, m.clock.us);
      if m.othersAllow && BurstOk(p, b, m) {
        ChargedFollows(p, h, ledger.since, slot, m.cost, m.id, m.clock, LevelOf(p, b, m));
      }
    } else if b.Some? && Overdue(b.value.deadline, NowMs(m.clock.us)) {
      VanishedFollows(p, b, h, ledger.since, slot, m.clock.us);
    }
  }

  lemma {:induction false} RunsTrack(p: Plan, slot: Slot, ms: seq<Moment>, now: int)
    requires ValidPlan(p) && Allowable(p, slot, ms) && (ms != [] ==> LatestUs(ms) <= now)
    ensures Tracks(p, Run(p, slot, ms), slot, now)
  {
    if ms != [] {
      var n, ledger := |ms| - 1, Run(p, slot, ms);
      RunsTrack(p, slot, ms[..n], ms[n].clock.us);
      NextKeepsTrack(p, Run(p, slot, ms[..n]), slot, ms[n]);
      FollowsLater(p, ledger.bucket, ledger.admitted, ledger.since, slot, ms[n].clock.us, now);
    }
  }

  /** A moment that continues a run of doubles. */
  predicate Continues(p: Plan, slot: Slot, ms: seq<Moment>, m: Moment)
    requires ValidPlan(p)
  {
    Allowable(p, slot, ms) && CanFollow(p, Run(p, slot, ms), m) && (ms != [] ==> LatestUs(ms) <= m.clock.us)
  }

  /** What rounding leaves of the refinement. Let h be what a run of doubles has admitted. Whatever
      it then finds room for, the exact specification on h finds room for too, up to one
      microsecond's refill when the capacity is above 576460; and it finds room for whatever the
      specification could grant with one microtoken (or one microsecond's refill) more in hand per
      admission since the one that last found the bucket absent or full, and one more. */
  lemma RoundedVerdictIsClose(p: Plan, slot: Slot, ms: seq<Moment>, v: Moment)
    requires ValidPlan(p) && v.Visit? && Continues(p, slot, ms, v)
    ensures var ledger, r := Run(p, slot, ms), p.burstRefillPerSec;
            && (BurstOk(p, ledger.bucket, v) ==>
                  BurstRoom(ledger.admitted, slot, Cap(p), r, v.clock.us, v.cost * UTOK - Ahead(p) * r))
            && (BurstRoom(ledger.admitted, slot, Cap(p), r, v.clock.us, v.cost * UTOK + ledger.since * Lossy(p) + 1) ==>
                  BurstOk(p, ledger.bucket, v))
  {
    var ledger, r, now := Run(p, slot, ms), p.burstRefillPerSec, v.clock.us;
    RunsTrack(p, slot, ms, now);
    VisitReadsNear(v.rounding, p, ledger.bucket, ledger.admitted, ledger.since, slot, now);
    LevelIsRoom(ledger.admitted, slot, Cap(p), r, now, v.cost * UTOK - Ahead(p) * r);
    LevelIsRoom(ledger.admitted, slot, Cap(p), r, now, v.cost * UTOK + ledger.since * Lossy(p) + 1);
  }

  /** For capacities up to 576460 the script in doubles admits nothing that the specification's
      burst layer would refuse on the same history. */
  lemma SmallPlansRefineOneWay(p: Plan, slot: Slot, ms: seq<Moment>, v: Moment)
    requires ValidPlan(p) && p.burstCapacity <= EXACT_CAPACITY && v.Visit? && Continues(p, slot, ms, v)
    requires BurstOk(p, Run(p, slot, ms).bucket, v)
    ensures BurstAllows(Run(p, slot, ms).admitted, ScriptArgv(p), slot, v.cost, v.clock)
  {
    RoundedVerdictIsClose(p, slot, ms, v);
    PlansAreProper(p);
  }

  // ----- the burst bound between any two admissions

  ghost predicate HadRoom(p: Plan, slot: Slot, h: seq<Admission>, j: int)
    requires 0 <= j < |h|
  {
    h[j].slot == slot
    && BurstRoom(h[..j], slot, Cap(p), p.burstRefillPerSec, h[j].clock.us, h[j].cost * UTOK - Ahead(p) * p.burstRefillPerSec)
  }

  lemma {:induction false} AdmissionsHadRoom(p: Plan, slot: Slot, ms: seq<Moment>, j: int)
    requires ValidPlan(p) && Allowable(p, slot, ms) && 0 <= j < |Run(p, slot, ms).admitted|
    ensures HadRoom(p, slot, Run(p, slot, ms).admitted, j)
  {
    var n := |ms| - 1;
    var h, h' := Run(p, slot, ms[..n]).admitted, Run(p, slot, ms).admitted;
    if j < |h| {
      AdmissionsHadRoom(p, slot, ms[..n], j);
      assert h'[..j] == h[..j];
    } else {
      RoundedVerdictIsClose(p, slot, ms[..n], ms[n]);
      assert h'[..j] == h;
    }
  }

  lemma RoomBounds(h: seq<Admission>, slot: Slot, cap: int, r: int, i: int, j: int, extra: int)
    requires 0 <= i <= j < |h| && h[i].slot == h[j].slot == slot && extra >= 0
    requires BurstRoom(h[..j], slot, cap, r, h[j].clock.us, h[j].cost * UTOK - extra)
    ensures SlotCost(h[i..j + 1], slot) * UTOK <= cap + r * (h[j].clock.us - h[i].clock.us) + extra
  {
    var earlier := h[..j];
    assert h[i..j + 1] == earlier[i..] + [h[j]];
    SlotCostAppend(earlier[i..], h[j], slot);
    if i < j {
      assert earlier[i].slot == slot;
      assert Covered(earlier, slot, i, cap, r, h[j].clock.us, h[j].cost * UTOK - extra);
    } else {
      assert r * (h[j].clock.us - h[i].clock.us) == 0;
    }
  }

  lemma RoomBoundsBetween(p: Plan, slot: Slot, h: seq<Admission>, i: int, j: int)
    requires ValidPlan(p) && 0 <= i <= j < |h| && HadRoom(p, slot, h, i) && HadRoom(p, slot, h, j)
    ensures SlotCost(h[i..j + 1], slot) * UTOK
            <= Cap(p) + p.burstRefillPerSec * (h[j].clock.us - h[i].clock.us) + Ahead(p) * p.burstRefillPerSec
  {
    MulMonotone(p.burstRefillPerSec, 0, Ahead(p));
    RoomBounds(h, slot, Cap(p), p.burstRefillPerSec, i, j, Ahead(p) * p.burstRefillPerSec);
  }

  /** In doubles, over a whole run on a forward clock and with expiry: the cost admitted between
      any two admissions is at most one full bucket plus the refill between them, plus one
      microsecond's refill when the capacity is above 576460. */
  lemma RoundedBurstBound(p: Plan, slot: Slot, ms: seq<Moment>, i: int, j: int)
    requires ValidPlan(p) && Allowable(p, slot, ms) && 0 <= i <= j < |Run(p, slot, ms).admitted|
    ensures var h, r := Run(p, slot, ms).admitted, p.burstRefillPerSec;
            SlotCost(h[i..j + 1], slot) * UTOK <= Cap(p) + r * (h[j].clock.us - h[i].clock.us) + Ahead(p) * r
  {
    AdmissionsHadRoom(p, slot, ms, i);
    AdmissionsHadRoom(p, slot, ms, j);
    RoomBoundsBetween(p, slot, Run(p, slot, ms).admitted, i, j);
  }

  // ----- the retry time

  /** What a waiting time pays for, at least. */
  lemma WaitingPays(r: int, elapsed: int, later: int, retry: int)
    requires r > 0 && elapsed >= 0 && retry >= 0 && later > elapsed + retry * UTOK
    ensures later * r >= elapsed * r + retry * (r * UTOK) + r && later >= 0
  {
    MulMonotone(r, elapsed + retry * UTOK + 1, later);
    assert r * (elapsed + retry * UTOK + 1) == elapsed * r + retry * (r * UTOK) + r;
  }

  /** A stored bucket that, by one reading and its rounding, is worth the cost after `retry`
      seconds, grants it at any strictly later reading with any rounding. The wait counts from
      the stored clock if that is ahead of the reading. */
  lemma WaitingSufficesInDoubles(c: Rounding, c': Rounding, p: Plan, tokens: nat, ts: int, cost: int, now: int, later: int, retry: int)
    requires ValidPlan(p) && tokens < Cap(p) && cost * UTOK <= Cap(p) && retry >= 0
    requires Possible(c, p, Max(0, now - ts)) && Possible(c', p, Max(0, later - ts))
    requires cost * UTOK <= RoundedLevel(c, p, tokens, ts, now).tokens + retry * (p.burstRefillPerSec * UTOK)
    requires later > Max(now, ts) + retry * UTOK
    ensures RoundedLevel(c', p, tokens, ts, later).tokens >= cost * UTOK
  {
    RefillCredits(c, p, tokens, ts, now);
    WaitingPays(p.burstRefillPerSec, Max(0, now - ts), later - ts, retry);
    RefillCredits(c', p, tokens, ts, later);
  }

  /** In particular after the seconds that a refusal reports for its bucket. */
  lemma RetrySufficesInDoubles(c: Rounding, c': Rounding, p: Plan, tokens: nat, ts: int, cost: int, now: int, later: int)
    requires ValidPlan(p) && tokens < Cap(p) && cost * UTOK <= Cap(p)
    requires Possible(c, p, Max(0, now - ts)) && Possible(c', p, Max(0, later - ts))
    requires var l := RoundedLevel(c, p, tokens, ts, now);
             && l.tokens < cost * UTOK
             && later > Max(now, ts) + CeilDiv(cost * UTOK - l.tokens, p.burstRefillPerSec * UTOK) * UTOK
    ensures RoundedLevel(c', p, tokens, ts, later).tokens >= cost * UTOK
  {
    var need, rate := cost * UTOK - RoundedLevel(c, p, tokens, ts, now).tokens, p.burstRefillPerSec * UTOK;
    CeilBounds(need, rate);
    CeilIsLeast(need, rate, 0);
    WaitingSufficesInDoubles(c, c', p, tokens, ts, cost, now, later, CeilDiv(need, rate));
  }

  /** Retry-After in doubles, all three layers: with h what the key's checks had been granted, and
      nothing of the key granted since, a cost that fits is granted at any clock reading strictly
      later than a time that covers every refusing layer (and one microsecond, if the capacity is
      above 576460). */
  lemma RetryIsHonestInDoubles(c: Rounding, c': Rounding, p: Plan, tokens: nat, ts: int, h: seq<Admission>, h': seq<Admission>,
                               slot: Slot, cost: int, at: Clock, later: Clock, retry: int)
    requires ValidPlan(p) && tokens < Cap(p) && ts <= at.us + Ahead(p) && cost * UTOK <= Cap(p) && cost <= p.monthlyQuota
    requires Possible(c, p, Max(0, at.us - ts)) && Possible(c', p, Max(0, later.us - ts))
    requires retry >= 0 && later.us > at.us + Ahead(p) + retry * UTOK
    requires AllBefore(h, at) && RetryAfter.InOrder(h, at, later) && RetryAfter.SameForSlot(h, h', slot)
    requires CountSince(h, slot, at.us - ScriptArgv(p).windowUs) <= p.sustainedLimit
    requires cost * UTOK <= RoundedLevel(c, p, tokens, ts, at.us).tokens + retry * (p.burstRefillPerSec * UTOK)
    requires RetryAfter.SustainedWait(h, ScriptArgv(p), slot, at, retry)
    requires RetryAfter.QuotaWait(h, ScriptArgv(p), slot, cost, at, retry)
    ensures RoundedLevel(c', p, tokens, ts, later.us).tokens >= cost * UTOK
    ensures SustainedAllows(h', ScriptArgv(p), slot, later) && QuotaAllows(h', ScriptArgv(p), slot, cost, later)
  {
    PlansAreProper(p);
    WaitingSufficesInDoubles(c, c', p, tokens, ts, cost, at.us, later.us, retry);
    RetryAfter.SustainedPasses(h, h', ScriptArgv(p), slot, at, later, retry);
    RetryAfter.QuotaPasses(h, h', ScriptArgv(p), slot, cost, at, later, retry);
  }

  /** Nothing was admitted since, so the bucket is as it was, or expired. */
  lemma {:induction false} QuietKeepsBucket(p: Plan, slot: Slot, ms: seq<Moment>, i: int)
    requires ValidPlan(p) && 0 <= i <= |ms| && Run(p, slot, ms).admitted == Run(p, slot, ms[..i]).admitted
    ensures Run(p, slot, ms).bucket == None || Run(p, slot, ms).bucket == Run(p, slot, ms[..i]).bucket
  {
    if i < |ms| {
      var n := |ms| - 1;
      AdmittedGrows(p, slot, ms[..n], i);
      assert ms[..n][..i] == ms[..i];
      QuietKeepsBucket(p, slot, ms[..n], i);
    } else {
      assert ms[..i] == ms;
    }
  }

  lemma {:induction false} AdmittedGrows(p: Plan, slot: Slot, ms: seq<Moment>, i: int)
    requires ValidPlan(p) && 0 <= i <= |ms|
    ensures |Run(p, slot, ms[..i]).admitted| <= |Run(p, slot, ms).admitted|
    ensures Run(p, slot, ms[..i]).admitted <= Run(p, slot, ms).admitted
  {
    if i < |ms| {
      var n := |ms| - 1;
      AdmittedGrows(p, slot, ms[..n], i);
      assert ms[..n][..i] == ms[..i];
    } else {
      assert ms[..i] == ms;
    }
  }

  /** The burst part of Retry-After in doubles: a refused cost that fits the bucket is granted by
      any check strictly later than the reported seconds (and one microsecond, if the capacity is
      above 576460) with no admission in between. */
  lemma BurstRetryIsHonestInDoubles(p: Plan, slot: Slot, ms: seq<Moment>, i: int, v: Moment)
    requires ValidPlan(p) && v.Visit? && Continues(p, slot, ms, v) && v.cost * UTOK <= Cap(p)
    requires 0 <= i < |ms| && ms[i].Visit? && ms[i].cost == v.cost && Continues(p, slot, ms[..i], ms[i])
    requires !BurstOk(p, Run(p, slot, ms[..i]).bucket, ms[i]) && Run(p, slot, ms).admitted == Run(p, slot, ms[..i]).admitted
    requires var retry := CeilDiv(v.cost * UTOK - LevelOf(p, Run(p, slot, ms[..i]).bucket, ms[i]).tokens, p.burstRefillPerSec * UTOK);
             v.clock.us > ms[i].clock.us + retry * UTOK + Ahead(p)
    ensures BurstOk(p, Run(p, slot, ms).bucket, v)
  {
    QuietKeepsBucket(p, slot, ms, i);
    var b := Run(p, slot, ms).bucket;
    if b.Some? {
      RunsTrack(p, slot, ms[..i], ms[i].clock.us);
      RetrySufficesInDoubles(ms[i].rounding, v.rounding, p, b.value.tokens, b.value.ts, v.cost, ms[i].clock.us, v.clock.us);
    }
  }

  // ----- an input on which doubles refuse what exact arithmetic grants

  const REFUSED_SECONDS := 5_224_175_567_749_775.0 / 18_014_398_509_481_984.0
  const REFUSED_CREDIT := 7_784_628_223_999_999.0 / 268_435_456.0
  const REFUSED_ADVANCE := 4_982_161_891_561_308.0 / 17_179_869_184.0

  /** 290000 microseconds at rate 100: 0.29 times 10^8 comes out just below 29 million. */
  function RefusedCase(quotient: real, limit: real): Rounding {
    Rounding(quotient, limit, REFUSED_SECONDS, REFUSED_CREDIT, 28_999_999_000_000.0, REFUSED_ADVANCE)
  }

  lemma RefusedCaseIsCorrectlyRounded()
    ensures NearestEven(290_000.0 / UTOK_R, 1.0 / 18_014_398_509_481_984.0, 5_224_175_567_749_775)
    ensures NearestEven(REFUSED_SECONDS * 100_000_000.0, 1.0 / 268_435_456.0, 7_784_628_223_999_999)
    ensures NearestEven(28_999_999_000_000.0 / 100_000_000.0, 1.0 / 17_179_869_184.0, 4_982_161_891_561_308)
  {
  }

  lemma RefusedRoundingsArePossible()
    ensures Earns(290_000.0, 100_000_000.0, REFUSED_SECONDS, REFUSED_CREDIT) && REFUSED_CREDIT.Floor == 28_999_999
    ensures Advances(28_999_999.0, 100_000_000.0, 28_999_999_000_000.0, REFUSED_ADVANCE) && Ceil(REFUSED_ADVANCE) == 290_000
  {
  }

  /** An empty bucket of capacity 50 and rate 100 after 290000 microseconds: in exact arithmetic
      it holds 29 tokens and grants a cost of 29; in correctly rounded doubles it refuses it. */
  lemma DoublesCanRefuse(p: Plan, quotient: real, limit: real, ts: int)
    requires ValidPlan(p) && p.burstCapacity == 50 && p.burstRefillPerSec == 100
    requires FullAfter(50_000_000.0, 100_000_000.0, quotient, limit)
    ensures Possible(RefusedCase(quotient, limit), p, 290_000)
    ensures RefillLevel(0, ts, Cap(p), 100 * UTOK, ts + 290_000) == Level(29 * UTOK, ts + 290_000)
    ensures RoundedLevel(RefusedCase(quotient, limit), p, 0, ts, ts + 290_000) == Level(29 * UTOK - 1, ts + 290_000)
  {
    var c := RefusedCase(quotient, limit);
    RefusedRoundingsArePossible();
    assert Possible(c, p, 290_000);
    LimitBounds(c, p, 290_000);
    NotFullYet(limit, 100, 290_000, Cap(p));
  }
}
