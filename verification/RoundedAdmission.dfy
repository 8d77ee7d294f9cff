/** Equal checks at one clock instant, in doubles. A second refill at the same instant credits
    nothing exactly at rates of two and more; at rate one it can, and one check too many passes. */
module RoundedAdmission {
  import opened Arith
  import opened Limits
  import opened Redis
  import opened CheckScript
  import opened RoundedRefill
  import opened RoundedLoss
  import opened RoundedRun
  import opened RoundedScript
  import opened ExactAdmission

  // ----- a second refill at the same instant

  lemma ShortAdvanceReaches(adv: int, r: int, add: int, elapsed: int)
    requires r >= 2 && add <= adv * r && add >= elapsed * r - 1
    ensures adv >= elapsed
  {
    assert r * (elapsed - 1) == elapsed * r - r;
    if adv <= elapsed - 1 { MulMonotone(r, adv, elapsed - 1); }
  }

  /** At rates of two and more a refill, even one that comes out short, pays its clock up to the
      reading. */
  lemma RefillPaysInFull(c: Rounding, p: Plan, tokens: int, ts: int, now: int)
    requires ValidPlan(p) && p.burstRefillPerSec >= 2 && Possible(c, p, Max(0, now - ts))
    ensures RoundedLevel(c, p, tokens, ts, now).ts >= now
  {
    var elapsed, r, add := Max(0, now - ts), p.burstRefillPerSec, c.credit.Floor;
    NeverCreditsEarly(c, p, elapsed);
    FillsNotAtOnce(c, p, elapsed);
    MulMonotone(elapsed, 2, r);
    if elapsed as real < c.limit && add > 0 {
      InUnits(r);
      AdvanceBounds(add, r, (r * UTOK) as real, c.product, c.advance);
      ShortAdvanceReaches(Ceil(c.advance), r, add, elapsed);
    }
  }

  /** With no time to pay for, nothing is credited. */
  lemma NoTimeNoCredit(c: Rounding, p: Plan, tokens: int, ts: int, now: int)
    requires ValidPlan(p) && now <= ts && Possible(c, p, 0)
    ensures RoundedLevel(c, p, tokens, ts, now) == Level(tokens, ts)
  {
    NeverCreditsEarly(c, p, 0);
    FillsNotAtOnce(c, p, 0);
  }

  lemma RefillIsStableInDoubles(c: Rounding, c': Rounding, p: Plan, tokens: int, ts: int, charged: int, now: int)
    requires ValidPlan(p) && p.burstRefillPerSec >= 2 && Possible(c, p, Max(0, now - ts))
    requires Possible(c', p, Max(0, now - RoundedLevel(c, p, tokens, ts, now).ts))
    ensures var l := RoundedLevel(c, p, tokens, ts, now);
            RoundedLevel(c', p, charged, l.ts, now) == Level(charged, l.ts)
  {
    RefillPaysInFull(c, p, tokens, ts, now);
    NoTimeNoCredit(c', p, charged, RoundedLevel(c, p, tokens, ts, now).ts, now);
  }

  /** Refilling again at the same instant credits nothing, whatever was charged in between and
      whatever both refills round to. */
  ghost predicate Stable(p: Plan)
    requires ValidPlan(p)
  {
    forall c: Rounding, c': Rounding, tokens: nat, ts: int, charged: nat, now: int ::
      RefillsTwice(c, c', p, tokens, ts, now) ==> NothingMore(c, c', p, tokens, ts, charged, now)
  }

  predicate RefillsTwice(c: Rounding, c': Rounding, p: Plan, tokens: nat, ts: int, now: int)
    requires ValidPlan(p)
  {
    Possible(c, p, Max(0, now - ts)) && Possible(c', p, Max(0, now - RoundedLevel(c, p, tokens, ts, now).ts))
  }

  predicate NothingMore(c: Rounding, c': Rounding, p: Plan, tokens: nat, ts: int, charged: nat, now: int)
    requires ValidPlan(p)
  {
    var l := RoundedLevel(c, p, tokens, ts, now);
    RoundedLevel(c', p, charged, l.ts, now) == Level(charged, l.ts)
  }

  // ----- the slip at rate one

  const SLIP_ELAPSED := 249
  const SLIP_SECONDS := 4_593_239_274_353_678.0 / 18_446_744_073_709_551_616.0
  const SLIP_CREDIT := 8_760_908_650_119_167.0 / 35_184_372_088_832.0
  const REST_SECONDS := 4_722_366_482_869_645.0 / 4_722_366_482_869_645_213_696.0

  /** 249 microseconds at rate one: the credit comes out just below 249. */
  function SlipCase(quotient: real, limit: real): Rounding {
    Rounding(quotient, limit, SLIP_SECONDS, SLIP_CREDIT, 248_000_000.0, 248.0)
  }

  /** The one microsecond that is left over from it. */
  function RestCase(quotient: real, limit: real): Rounding {
    Rounding(quotient, limit, REST_SECONDS, 1.0, 1_000_000.0, 1.0)
  }

  /** Seconds at spacing 2^-64 and 2^-72, the first credit at spacing 2^-45; the second lies
      nearer to 1 than half the spacing 2^-53 below it. The rest is exact. */
  lemma SlipIsCorrectlyRounded()
    ensures NearestEven(SLIP_ELAPSED as real / UTOK_R, 1.0 / 18_446_744_073_709_551_616.0, 4_593_239_274_353_678)
    ensures NearestEven(SLIP_SECONDS * UTOK_R, 1.0 / 35_184_372_088_832.0, 8_760_908_650_119_167)
    ensures NearestEven(1.0 / UTOK_R, 1.0 / 4_722_366_482_869_645_213_696.0, 4_722_366_482_869_645)
    ensures 0.0 < 1.0 - REST_SECONDS * UTOK_R < U / 2.0
    ensures 248.0 * UTOK_R == 248_000_000.0 && 248_000_000.0 / UTOK_R == 248.0
  {
  }

  lemma SlipRoundings()
    ensures Earns(SLIP_ELAPSED as real, UTOK_R, SLIP_SECONDS, SLIP_CREDIT) && SLIP_CREDIT.Floor == 248
    ensures Advances(248.0, UTOK_R, 248_000_000.0, 248.0) && Ceil(248.0) == 248
  {
  }

  lemma RestRoundings()
    ensures Earns(1.0, UTOK_R, REST_SECONDS, 1.0)
    ensures Advances(1.0, UTOK_R, 1_000_000.0, 1.0) && Ceil(1.0) == 1
  {
  }

  lemma SlipIsPossible(p: Plan, quotient: real, limit: real)
    requires ValidPlan(p) && p.burstRefillPerSec == 1 && FullAfter(Cap(p) as real, UTOK_R, quotient, limit)
    ensures Possible(SlipCase(quotient, limit), p, SLIP_ELAPSED)
  {
    SlipRoundings();
    PossibleFromParts(SlipCase(quotient, limit), p, SLIP_ELAPSED, Cap(p) as real, UTOK_R, 248.0);
  }

  lemma RestIsPossible(p: Plan, quotient: real, limit: real)
    requires ValidPlan(p) && p.burstRefillPerSec == 1 && FullAfter(Cap(p) as real, UTOK_R, quotient, limit)
    ensures Possible(RestCase(quotient, limit), p, 1)
  {
    RestRoundings();
    PossibleFromParts(RestCase(quotient, limit), p, 1, Cap(p) as real, UTOK_R, 1.0);
  }

  /** After 249 microseconds 248 microtokens are credited and 248 microseconds paid for. */
  lemma SlipCredits(p: Plan, quotient: real, limit: real, tokens: nat, ts: int)
    requires ValidPlan(p) && p.burstRefillPerSec == 1 && tokens + 248 < Cap(p)
    requires FullAfter(Cap(p) as real, UTOK_R, quotient, limit)
    ensures RoundedLevel(SlipCase(quotient, limit), p, tokens, ts, ts + SLIP_ELAPSED) == Level(tokens + 248, ts + 248)
  {
    SlipRoundings();
    NotFullAfter(p, quotient, limit, SLIP_ELAPSED);
  }

  /** The microsecond left over is then worth one microtoken more. */
  lemma RestCredits(p: Plan, quotient: real, limit: real, charged: nat, ts: int)
    requires ValidPlan(p) && p.burstRefillPerSec == 1 && charged + 1 < Cap(p)
    requires FullAfter(Cap(p) as real, UTOK_R, quotient, limit)
    ensures RoundedLevel(RestCase(quotient, limit), p, charged, ts, ts + 1) == Level(charged + 1, ts + 1)
  {
    RestRoundings();
    NotFullAfter(p, quotient, limit, 1);
  }

  lemma RateOneIsNotStable(p: Plan)
    requires ValidPlan(p) && p.burstRefillPerSec == 1
    ensures !Stable(p)
  {
    var q, limit := Cap(p) as real / UTOK_R, Cap(p) as real / UTOK_R * UTOK_R;
    ExactFullAfter(Cap(p) as real, UTOK_R);
    SlipIsPossible(p, q, limit);
    RestIsPossible(p, q, limit);
    SlipCredits(p, q, limit, 0, 0);
    RestCredits(p, q, limit, 0, 248);
    assert RefillsTwice(SlipCase(q, limit), RestCase(q, limit), p, 0, 0, SLIP_ELAPSED);
    assert !NothingMore(SlipCase(q, limit), RestCase(q, limit), p, 0, 0, 0, SLIP_ELAPSED);
  }

  /** A plan's refills are stable exactly at a rate of two or more; at rate one correctly rounded
      doubles already are not. */
  lemma StableExactlyAboveRateOne(p: Plan)
    requires ValidPlan(p)
    ensures Stable(p) <==> p.burstRefillPerSec >= 2
  {
    if p.burstRefillPerSec == 1 {
      RateOneIsNotStable(p);
    } else {
      forall c: Rounding, c': Rounding, tokens: nat, ts: int, charged: nat, now: int
        | RefillsTwice(c, c', p, tokens, ts, now)
        ensures NothingMore(c, c', p, tokens, ts, charged, now)
      {
        RefillIsStableInDoubles(c, c', p, tokens, ts, charged, now);
      }
    }
  }

  // ----- equal checks at one instant

  /** Double arithmetic: what a refill's operations come out as depends on the elapsed time only. */
  type Arithmetic = int -> Rounding

  ghost predicate Sound(arith: Arithmetic, p: Plan)
    requires ValidPlan(p)
  {
    forall elapsed: nat :: Possible(arith(elapsed), p, elapsed)
  }

  function LevelBy(arith: Arithmetic, p: Plan, b: Option<Bucket>, now: int): Level {
    Refilled(arith(if b.Some? then Max(0, now - b.value.ts) else 0), p, b, now)
  }

  function ReadBy(arith: Arithmetic, s: Store, p: Plan, slot: Slot, cost: int, c: Clock): Reading {
    ReadWith(LevelBy(arith, p, BucketOf(s, slot), c.us), s, ScriptArgv(p), slot, KeyMonth(slot.key, c.month), cost, c.us)
  }

  function CheckedBy(arith: Arithmetic, s: Store, p: Plan, slot: Slot, cost: int, id: string, c: Clock): Store
    requires ValidPlan(p)
  {
    Written(s, ScriptArgv(p), slot, ReadBy(arith, s, p, slot, cost, c), cost, id, c.us, c.monthEndS)
  }

  /** The keyspace after one check per id, all of one slot and cost, at one instant. */
  function AfterChecks(arith: Arithmetic, s: Store, p: Plan, slot: Slot, cost: int, ids: seq<string>, c: Clock): Store
    requires ValidPlan(p)
  {
    if ids == [] then s
    else CheckedBy(arith, AfterChecks(arith, s, p, slot, cost, ids[..|ids| - 1], c), p, slot, cost, ids[|ids| - 1], c)
  }

  function AllowedCount(arith: Arithmetic, s: Store, p: Plan, slot: Slot, cost: int, ids: seq<string>, c: Clock): int
    requires ValidPlan(p)
  {
    if ids == [] then 0
    else
      var earlier := ids[..|ids| - 1];
      AllowedCount(arith, s, p, slot, cost, earlier, c)
      + (if ReadBy(arith, AfterChecks(arith, s, p, slot, cost, earlier, c), p, slot, cost, c).Allowed() then 1 else 0)
  }

  /** What every keyspace of a run keeps to: a charged bucket is not full, nothing is negative. */
  predicate InOrder(s: Store, p: Plan, slot: Slot, c: Clock) {
    && (slot in s.buckets ==> 0 <= s.buckets[slot].tokens < Cap(p))
    && Value(s, KeyMonth(slot.key, c.month)) >= 0
  }

  /** When no check too many can pass: nothing is credited twice, or it does not matter because a
      second check of the instant is refused anyway. */
  predicate CountsExactly(p: Plan) {
    p.burstRefillPerSec >= 2 || p.burstCapacity == 1 || p.sustainedLimit == 1 || p.monthlyQuota == 1
  }

  lemma LevelInOrder(arith: Arithmetic, p: Plan, b: Option<Bucket>, now: int)
    requires ValidPlan(p) && Sound(arith, p) && (b.Some? ==> 0 <= b.value.tokens < Cap(p))
    ensures var l := LevelBy(arith, p, b, now);
            0 <= l.tokens <= Cap(p) && (l.tokens == Cap(p) ==> l.ts == now) && (b.Some? ==> b.value.tokens <= l.tokens)
  {
    if b.Some? {
      RefillCredits(arith(Max(0, now - b.value.ts)), p, b.value.tokens, b.value.ts, now);
    }
  }

  /** What the next check of the instant finds in the bucket that this one left. */
  lemma NextLevel(arith: Arithmetic, p: Plan, b: Option<Bucket>, charged: Bucket, cost: int, now: int)
    requires ValidPlan(p) && Sound(arith, p) && cost >= 1 && (b.Some? ==> 0 <= b.value.tokens < Cap(p))
    requires var l := LevelBy(arith, p, b, now); l.tokens >= cost * UTOK && charged.tokens == l.tokens - cost * UTOK && charged.ts == l.ts
    ensures var l, l' := LevelBy(arith, p, b, now), LevelBy(arith, p, Some(charged), now);
            && l'.tokens >= charged.tokens
            && (p.burstRefillPerSec >= 2 || p.burstCapacity == 1 ==> l'.tokens == charged.tokens)
  {
    var l := LevelBy(arith, p, b, now);
    LevelInOrder(arith, p, b, now);
    LevelInOrder(arith, p, Some(charged), now);
    if p.burstCapacity == 1 {
      NoTimeNoCredit(arith(0), p, charged.tokens, charged.ts, now);
    } else if p.burstRefillPerSec >= 2 && b.Some? {
      RefillIsStableInDoubles(arith(Max(0, now - b.value.ts)), arith(Max(0, now - l.ts)), p, b.value.tokens, b.value.ts, charged.tokens, now);
    } else if b.None? {
      NoTimeNoCredit(arith(0), p, charged.tokens, charged.ts, now);
    }
  }

  /** What the next check of the instant reads. */
  predicate NextOf(p: Plan, r: Reading, r': Reading, cost: int) {
    if r.Allowed() then
      && |r'.entries| == |r.entries| + 1 && r'.used == r.used + cost
      && r'.level.tokens >= r.level.tokens - cost * UTOK
      && (p.burstRefillPerSec >= 2 || p.burstCapacity == 1 ==> r'.level.tokens == r.level.tokens - cost * UTOK)
    else
      r' == r
  }

  lemma NextReadingInDoubles(arith: Arithmetic, s: Store, p: Plan, slot: Slot, cost: int, id: string, c: Clock)
    requires ValidPlan(p) && Sound(arith, p) && cost >= 1 && InOrder(s, p, slot, c) && Unused(s, slot, c, id)
    ensures InOrder(CheckedBy(arith, s, p, slot, cost, id, c), p, slot, c)
    ensures NextOf(p, ReadBy(arith, s, p, slot, cost, c), ReadBy(arith, CheckedBy(arith, s, p, slot, cost, id, c), p, slot, cost, c), cost)
  {
    var argv, r, s' := ScriptArgv(p), ReadBy(arith, s, p, slot, cost, c), CheckedBy(arith, s, p, slot, cost, id, c);
    LevelInOrder(arith, p, BucketOf(s, slot), c.us);
    if r.Allowed() {
      NextLevel(arith, p, BucketOf(s, slot), s'.buckets[slot], cost, c.us);
      assert Trim(Entries(s', slot), c.us - argv.windowUs) == r.entries + {Entry(c.us, id)};
    } else {
      assert Trim(Entries(s', slot), c.us - argv.windowUs) == r.entries;
    }
  }

  /** A budget that one limit of one caps is used up by one check. */
  lemma LastOne(r: Reading, r': Reading, argv: Argv, cost: int)
    requires cost >= 1 && Budget(r, argv, cost) >= 1 && r.used >= 0 && (argv.sustained == 1 || argv.hard == 1)
    requires |r'.entries| == |r.entries| + 1 && r'.used == r.used + cost && r'.level.tokens >= 0
    ensures Budget(r', argv, cost) == Budget(r, argv, cost) - 1
  {
    FloorReaches(argv.hard - r.used, cost, 1);
    FloorReaches(argv.hard - r.used, cost, 2);
    OneLess(argv.hard - r.used, cost);
    FloorReaches(r'.level.tokens, cost * UTOK, 0);
  }

  function BudgetOf(arith: Arithmetic, s: Store, p: Plan, slot: Slot, cost: int, c: Clock): int
    requires cost >= 1
  {
    Budget(ReadBy(arith, s, p, slot, cost, c), ScriptArgv(p), cost)
  }

  lemma AllowedByBudget(arith: Arithmetic, s: Store, p: Plan, slot: Slot, cost: int, c: Clock)
    requires cost >= 1
    ensures ReadBy(arith, s, p, slot, cost, c).Allowed() <==> BudgetOf(arith, s, p, slot, cost, c) >= 1
  {
    AllowedIsBudget(ReadBy(arith, s, p, slot, cost, c), ScriptArgv(p), cost);
  }

  lemma BudgetFallsByOne(p: Plan, r: Reading, r': Reading, cost: int)
    requires ValidPlan(p) && CountsExactly(p) && cost >= 1 && r.Allowed() && NextOf(p, r, r', cost)
    requires Budget(r, ScriptArgv(p), cost) >= 1 && r.used >= 0 && r.level.tokens >= cost * UTOK
    ensures Budget(r', ScriptArgv(p), cost) == Budget(r, ScriptArgv(p), cost) - 1
  {
    if p.burstRefillPerSec >= 2 || p.burstCapacity == 1 {
      BudgetFalls(r, r', ScriptArgv(p), cost);
    } else {
      LastOne(r, r', ScriptArgv(p), cost);
    }
  }

  lemma CheckSpendsOne(arith: Arithmetic, s: Store, p: Plan, slot: Slot, cost: int, id: string, c: Clock)
    requires ValidPlan(p) && CountsExactly(p) && Sound(arith, p) && cost >= 1 && InOrder(s, p, slot, c) && Unused(s, slot, c, id)
    ensures var s' := CheckedBy(arith, s, p, slot, cost, id, c);
            && InOrder(s', p, slot, c)
            && BudgetOf(arith, s', p, slot, cost, c)
               == BudgetOf(arith, s, p, slot, cost, c) - (if ReadBy(arith, s, p, slot, cost, c).Allowed() then 1 else 0)
  {
    var r, r' := ReadBy(arith, s, p, slot, cost, c), ReadBy(arith, CheckedBy(arith, s, p, slot, cost, id, c), p, slot, cost, c);
    NextReadingInDoubles(arith, s, p, slot, cost, id, c);
    if r.Allowed() {
      AllowedByBudget(arith, s, p, slot, cost, c);
      BudgetFallsByOne(p, r, r', cost);
    }
  }

  lemma {:induction false} StillUnused(arith: Arithmetic, s: Store, p: Plan, slot: Slot, cost: int, ids: seq<string>, c: Clock, id: string)
    requires ValidPlan(p) && Unused(s, slot, c, id) && id !in ids
    ensures Unused(AfterChecks(arith, s, p, slot, cost, ids, c), slot, c, id)
  {
    if ids != [] {
      StillUnused(arith, s, p, slot, cost, ids[..|ids| - 1], c, id);
    }
  }

  /** Of checks at one instant exactly the first Budget are admitted, whatever is rounded. */
  lemma {:induction false} ExactlyTheBudgetInDoubles(arith: Arithmetic, s: Store, p: Plan, slot: Slot, cost: int, ids: seq<string>, c: Clock)
    requires ValidPlan(p) && CountsExactly(p) && Sound(arith, p) && cost >= 1 && InOrder(s, p, slot, c) && FreshIds(s, slot, c, ids)
    ensures var budget := BudgetOf(arith, s, p, slot, cost, c);
            var n, after := AllowedCount(arith, s, p, slot, cost, ids, c), AfterChecks(arith, s, p, slot, cost, ids, c);
            && n == Max(0, Min(|ids|, budget))
            && BudgetOf(arith, after, p, slot, cost, c) == budget - n
            && (ReadBy(arith, after, p, slot, cost, c).Allowed() <==> |ids| < budget)
            && InOrder(after, p, slot, c)
  {
    AllowedByBudget(arith, AfterChecks(arith, s, p, slot, cost, ids, c), p, slot, cost, c);
    if ids != [] {
      var n := |ids| - 1;
      ExactlyTheBudgetInDoubles(arith, s, p, slot, cost, ids[..n], c);
      assert ids[n] !in ids[..n];
      StillUnused(arith, s, p, slot, cost, ids[..n], c, ids[n]);
      CheckSpendsOne(arith, AfterChecks(arith, s, p, slot, cost, ids[..n], c), p, slot, cost, ids[n], c);
    }
  }

  // ----- one check too many

  /** An arithmetic in which those two elapsed times come out as correctly rounded, and every
      other is exact. */
  function Slipping(p: Plan): Arithmetic
    requires ValidPlan(p)
  {
    var cap, rate := Cap(p) as real, (p.burstRefillPerSec * UTOK) as real;
    var q, limit := cap / rate, cap / rate * UTOK_R;
    elapsed =>
      if elapsed == SLIP_ELAPSED then SlipCase(q, limit)
      else if elapsed == 1 then RestCase(q, limit)
      else ExactRounding(q, limit, elapsed as real, rate)
  }

  function ExactRounding(q: real, limit: real, elapsed: real, rate: real): Rounding
    requires rate > 0.0
  {
    var credit := elapsed / UTOK_R * rate;
    Rounding(q, limit, elapsed / UTOK_R, credit, credit.Floor as real * UTOK_R, credit.Floor as real * UTOK_R / rate)
  }

  lemma RoundsToItself(x: real)
    ensures Rounds(x, x)
  {
  }

  lemma ExactEarns(elapsed: real, rate: real, seconds: real, credit: real)
    requires seconds == elapsed / UTOK_R && credit == seconds * rate
    ensures Earns(elapsed, rate, seconds, credit)
  {
    RoundsToItself(seconds);
    RoundsToItself(credit);
  }

  lemma ExactAdvances(add: real, rate: real, product: real, advance: real)
    requires rate > 0.0 && product == add * UTOK_R && advance == product / rate
    ensures Advances(add, rate, product, advance)
  {
    RoundsToItself(product);
    RoundsToItself(advance);
  }

  lemma ExactPartsArePossible(c: Rounding, p: Plan, elapsed: nat, cap: real, rate: real, add: real)
    requires ValidPlan(p) && cap == Cap(p) as real && rate == (p.burstRefillPerSec * UTOK) as real
    requires c.quotient == cap / rate && c.limit == c.quotient * UTOK_R
    requires c.seconds == elapsed as real / UTOK_R && c.credit == c.seconds * rate
    requires add == c.credit.Floor as real && c.product == add * UTOK_R && c.advance == c.product / rate
    ensures Possible(c, p, elapsed)
  {
    ExactFullAfter(cap, rate);
    ExactEarns(elapsed as real, rate, c.seconds, c.credit);
    ExactAdvances(add, rate, c.product, c.advance);
    PossibleFromParts(c, p, elapsed, cap, rate, add);
  }

  lemma ExactIsPossible(p: Plan, elapsed: nat)
    requires ValidPlan(p)
    ensures var cap, rate := Cap(p) as real, (p.burstRefillPerSec * UTOK) as real;
            Possible(ExactRounding(cap / rate, cap / rate * UTOK_R, elapsed as real, rate), p, elapsed)
  {
    var cap, rate := Cap(p) as real, (p.burstRefillPerSec * UTOK) as real;
    var c := ExactRounding(cap / rate, cap / rate * UTOK_R, elapsed as real, rate);
    ExactPartsArePossible(c, p, elapsed, cap, rate, c.credit.Floor as real);
  }

  lemma SlippingIsSound(p: Plan)
    requires ValidPlan(p) && p.burstRefillPerSec == 1
    ensures Sound(Slipping(p), p)
  {
    var q, limit := Cap(p) as real / UTOK_R, Cap(p) as real / UTOK_R * UTOK_R;
    ExactFullAfter(Cap(p) as real, UTOK_R);
    forall elapsed: nat
      ensures Possible(Slipping(p)(elapsed), p, elapsed)
    {
      if elapsed == SLIP_ELAPSED {
        SlipIsPossible(p, q, limit);
      } else if elapsed == 1 {
        RestIsPossible(p, q, limit);
      } else {
        ExactIsPossible(p, elapsed);
      }
    }
  }

  /** A bucket of 1999751 microtokens, paid up to 249 microseconds before the instant, and room
      for two more checks in the window and in the quota. */
  predicate AboutToSlip(p: Plan, s: Store, slot: Slot, c: Clock) {
    && p.burstRefillPerSec == 1 && p.burstCapacity >= 2
    && slot in s.buckets && s.buckets[slot].tokens == 1_999_751 && s.buckets[slot].ts == c.us - SLIP_ELAPSED
    && |Trim(Entries(s, slot), c.us - ScriptArgv(p).windowUs)| + 2 <= p.sustainedLimit
    && 0 <= Value(s, KeyMonth(slot.key, c.month)) <= p.monthlyQuota - 2
  }

  ghost predicate CountIsBudget(p: Plan, arith: Arithmetic, s: Store, slot: Slot, cost: int, ids: seq<string>, c: Clock)
    requires ValidPlan(p) && cost >= 1
  {
    AllowedCount(arith, s, p, slot, cost, ids, c) == Max(0, Min(|ids|, BudgetOf(arith, s, p, slot, cost, c)))
  }

  /** The promise for one plan: of any equal checks at one instant exactly the budget of the first
      one's reading pass. */
  ghost predicate AdmitsTheBudget(p: Plan)
    requires ValidPlan(p)
  {
    forall arith: Arithmetic, s: Store, slot: Slot, cost: int, ids: seq<string>, c: Clock ::
      cost >= 1 && Sound(arith, p) && InOrder(s, p, slot, c) && FreshIds(s, slot, c, ids)
      ==> CountIsBudget(p, arith, s, slot, cost, ids, c)
  }

  /** The first of two checks reads 1999999 microtokens, a budget of one, and leaves 999999 paid
      up to one microsecond before the instant. */
  lemma FirstSlips(p: Plan, s: Store, slot: Slot, id: string, c: Clock)
    requires ValidPlan(p) && AboutToSlip(p, s, slot, c)
    ensures var r := ReadBy(Slipping(p), s, p, slot, 1, c);
            && r.level == Level(1_999_999, c.us - 1) && r.Allowed() && Budget(r, ScriptArgv(p), 1) == 1
            && BucketOf(CheckedBy(Slipping(p), s, p, slot, 1, id, c), slot)
               == Some(Bucket(999_999, c.us - 1, Some(BucketDeadline(ScriptArgv(p), c.us))))
  {
    var q, limit := Cap(p) as real / UTOK_R, Cap(p) as real / UTOK_R * UTOK_R;
    ExactFullAfter(Cap(p) as real, UTOK_R);
    SlipCredits(p, q, limit, 1_999_751, c.us - SLIP_ELAPSED);
  }

  lemma OneMoreEntry(p: Plan, s: Store, s': Store, slot: Slot, id: string, c: Clock)
    requires ValidPlan(p) && Unused(s, slot, c, id)
    requires Entries(s', slot) == Trim(Entries(s, slot), c.us - ScriptArgv(p).windowUs) + {Entry(c.us, id)}
    ensures var bound := c.us - ScriptArgv(p).windowUs;
            |Trim(Entries(s', slot), bound)| == |Trim(Entries(s, slot), bound)| + 1
  {
    var bound := c.us - ScriptArgv(p).windowUs;
    assert Trim(Entries(s', slot), bound) == Trim(Entries(s, slot), bound) + {Entry(c.us, id)};
  }

  /** The second one is credited the missing microtoken, and passes too. */
  lemma SecondPasses(p: Plan, s: Store, slot: Slot, id: string, c: Clock)
    requires ValidPlan(p) && AboutToSlip(p, s, slot, c) && Unused(s, slot, c, id)
    ensures ReadBy(Slipping(p), CheckedBy(Slipping(p), s, p, slot, 1, id, c), p, slot, 1, c).Allowed()
  {
    var q, limit := Cap(p) as real / UTOK_R, Cap(p) as real / UTOK_R * UTOK_R;
    ExactFullAfter(Cap(p) as real, UTOK_R);
    FirstSlips(p, s, slot, id, c);
    RestCredits(p, q, limit, 999_999, c.us - 1);
    OneMoreEntry(p, s, CheckedBy(Slipping(p), s, p, slot, 1, id, c), slot, id, c);
  }

  lemma CountOfTwo(arith: Arithmetic, s: Store, p: Plan, slot: Slot, a: string, b: string, c: Clock)
    requires ValidPlan(p) && ReadBy(arith, s, p, slot, 1, c).Allowed()
    requires ReadBy(arith, CheckedBy(arith, s, p, slot, 1, a, c), p, slot, 1, c).Allowed()
    ensures AllowedCount(arith, s, p, slot, 1, [a, b], c) == 2
  {
    var ids := [a, b];
    assert ids[..1] == [a] && ids[..1][..0] == [];
    assert AfterChecks(arith, s, p, slot, 1, [], c) == s && AllowedCount(arith, s, p, slot, 1, [], c) == 0;
    assert AfterChecks(arith, s, p, slot, 1, [a], c) == CheckedBy(arith, s, p, slot, 1, a, c);
    assert AllowedCount(arith, s, p, slot, 1, [a], c) == 1;
  }

  /** In such a keyspace two checks of cost one at one instant both pass against a budget of one. */
  lemma OneTooMany(p: Plan, s: Store, slot: Slot, a: string, b: string, c: Clock)
    requires ValidPlan(p) && AboutToSlip(p, s, slot, c) && FreshIds(s, slot, c, [a, b])
    ensures Sound(Slipping(p), p) && InOrder(s, p, slot, c)
    ensures BudgetOf(Slipping(p), s, p, slot, 1, c) == 1
    ensures AllowedCount(Slipping(p), s, p, slot, 1, [a, b], c) == 2
  {
    SlippingIsSound(p);
    assert Unused(s, slot, c, [a, b][0]);
    FirstSlips(p, s, slot, a, c);
    SecondPasses(p, s, slot, a, c);
    CountOfTwo(Slipping(p), s, p, slot, a, b, c);
  }

  /** The keyspace after one check on an empty keyspace, */
  lemma OneCheck(p: Plan, slot: Slot, id: string, c: Clock)
    requires ValidPlan(p) && p.burstCapacity == 3
    ensures var s := CheckedBy(Slipping(p), Empty, p, slot, 1, id, c);
            && BucketOf(s, slot) == Some(Bucket(2_000_000, c.us, Some(BucketDeadline(ScriptArgv(p), c.us))))
            && Entries(s, slot) == {Entry(c.us, id)} && Value(s, KeyMonth(slot.key, c.month)) == 1
  {
    assert Trim(Entries(Empty, slot), c.us - ScriptArgv(p).windowUs) == {};
  }

  /** and after a second one 999751 microseconds later. */
  lemma AnotherCheck(p: Plan, s: Store, slot: Slot, first: Entry, id: string, c: Clock)
    requires ValidPlan(p) && p.burstCapacity == 3 && p.burstRefillPerSec == 1 && p.sustainedLimit >= 2 && p.monthlyQuota >= 2
    requires slot in s.buckets && s.buckets[slot].tokens == 2_000_000 && s.buckets[slot].ts == c.us - 999_751
    requires Entries(s, slot) == {first} && Value(s, KeyMonth(slot.key, c.month)) == 1
    ensures var s' := CheckedBy(Slipping(p), s, p, slot, 1, id, c);
            && slot in s'.buckets && s'.buckets[slot].tokens == 1_999_751 && s'.buckets[slot].ts == c.us
            && Entries(s', slot) <= {first, Entry(c.us, id)} && Value(s', KeyMonth(slot.key, c.month)) == 2
  {
    WholeCreditAtRateOne(p, 2_000_000, c.us - 999_751, 999_751);
    FewEntries(Trim({first}, c.us - ScriptArgv(p).windowUs), first, first);
  }

  /** Two checks of cost one lead there: one a second before the instant, in an empty keyspace,
      and one 249 microseconds before it. */
  lemma SlipIsReached(p: Plan, slot: Slot, a: string, b: string, c0: Clock, c1: Clock, c: Clock)
    requires ValidPlan(p) && p.burstCapacity == 3 && p.burstRefillPerSec == 1 && p.sustainedLimit >= 4 && p.monthlyQuota >= 4
    requires c0.us == c.us - UTOK && c1.us == c.us - SLIP_ELAPSED && c0.month == c1.month == c.month
    ensures var s := CheckedBy(Slipping(p), Empty, p, slot, 1, a, c0);
            AboutToSlip(p, CheckedBy(Slipping(p), s, p, slot, 1, b, c1), slot, c)
  {
    OneCheck(p, slot, a, c0);
    var s := CheckedBy(Slipping(p), Empty, p, slot, 1, a, c0);
    AnotherCheck(p, s, slot, Entry(c0.us, a), b, c1);
    FewEntries(Trim(Entries(CheckedBy(Slipping(p), s, p, slot, 1, b, c1), slot), c.us - ScriptArgv(p).windowUs),
               Entry(c0.us, a), Entry(c1.us, b));
  }

  lemma FewEntries(entries: set<Entry>, x: Entry, y: Entry)
    requires entries <= {x, y}
    ensures |entries| <= |{x, y}| <= 2
  {
    assert |{x, y} - entries| + |entries * {x, y}| == |{x, y}|;
    assert entries * {x, y} == entries;
  }

  lemma WholeCreditAtRateOne(p: Plan, tokens: nat, ts: int, elapsed: int)
    requires ValidPlan(p) && p.burstRefillPerSec == 1 && elapsed > 1 && elapsed != SLIP_ELAPSED && tokens + elapsed < Cap(p)
    ensures RoundedLevel(Slipping(p)(elapsed), p, tokens, ts, ts + elapsed) == Level(tokens + elapsed, ts + elapsed)
  {
    var q, limit := Cap(p) as real / UTOK_R, Cap(p) as real / UTOK_R * UTOK_R;
    ExactFullAfter(Cap(p) as real, UTOK_R);
    NotFullAfter(p, q, limit, elapsed);
    assert elapsed as real / UTOK_R * UTOK_R == elapsed as real;
    QuotientOfProduct(elapsed as real, UTOK_R, elapsed as real * UTOK_R);
    CeilOfWhole(elapsed);
  }

  lemma MiscountRefutes(p: Plan, arith: Arithmetic, s: Store, slot: Slot, cost: int, ids: seq<string>, c: Clock)
    requires ValidPlan(p) && cost >= 1 && Sound(arith, p) && InOrder(s, p, slot, c) && FreshIds(s, slot, c, ids)
    requires AllowedCount(arith, s, p, slot, cost, ids, c) > Max(0, BudgetOf(arith, s, p, slot, cost, c))
    ensures !AdmitsTheBudget(p)
  {
    assert !CountIsBudget(p, arith, s, slot, cost, ids, c);
  }

  lemma SlippingPlansAdmitMore(p: Plan, slot: Slot, c: Clock)
    requires ValidPlan(p) && !CountsExactly(p)
    ensures !AdmitsTheBudget(p)
  {
    var s := Empty.(buckets := map[slot := Bucket(1_999_751, c.us - SLIP_ELAPSED, None)]);
    assert Trim(Entries(s, slot), c.us - ScriptArgv(p).windowUs) == {};
    assert FreshIds(s, slot, c, ["a", "b"]);
    OneTooMany(p, s, slot, "a", "b", c);
    MiscountRefutes(p, Slipping(p), s, slot, 1, ["a", "b"], c);
  }

  /** N equal checks at one instant admit exactly the budget, in any sound double arithmetic,
      exactly for plans that refill two tokens a second or more, or that have a capacity, window
      limit or quota of one. */
  lemma AdmitsTheBudgetExactlyAboveRateOne(p: Plan)
    requires ValidPlan(p)
    ensures AdmitsTheBudget(p) <==> CountsExactly(p)
  {
    if CountsExactly(p) {
      forall arith: Arithmetic, s: Store, slot: Slot, cost: int, ids: seq<string>, c: Clock
        | cost >= 1 && Sound(arith, p) && InOrder(s, p, slot, c) && FreshIds(s, slot, c, ids)
        ensures CountIsBudget(p, arith, s, slot, cost, ids, c)
      {
        ExactlyTheBudgetInDoubles(arith, s, p, slot, cost, ids, c);
      }
    } else {
      SlippingPlansAdmitMore(p, Slot("", ""), ReadClock(0, 0));
    }
  }
}
