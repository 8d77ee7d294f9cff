/** How much one refill loses in doubles. The documentation bounds it by less than a microtoken;
    here is when that holds, and when a bound of one microtoken does. */
module RoundedLoss {
  import opened Arith
  import opened Limits
  import opened CheckScript
  import opened RoundedRefill

  /** What a refill took from the bucket's potential, in microtokens. */
  function Loss(tokens: int, ts: int, r: int, l: Level): int {
    (tokens - r * ts) - (l.tokens - r * l.ts)
  }

  /** No refill of the plan that does not fill the bucket loses more than `bound`, whatever each
      operation rounds to. */
  ghost predicate LosesAtMost(p: Plan, bound: int)
    requires ValidPlan(p)
  {
    forall c: Rounding, tokens: nat, ts: int, now: int ::
      Possible(c, p, Max(0, now - ts)) && RoundedLevel(c, p, tokens, ts, now) != Level(p.burstCapacity * UTOK, now)
      ==> Loss(tokens, ts, p.burstRefillPerSec, RoundedLevel(c, p, tokens, ts, now)) <= bound
  }

  // ----- plans whose credits are exact

  lemma CreditLoss(tokens: int, ts: int, r: int, add: int, adv: int)
    ensures Loss(tokens, ts, r, Level(tokens + add, ts + adv)) == adv * r - add
  {
    Split(r, ts, adv);
  }

  lemma ShortAdvance(adv: int, r: int, add: int, elapsed: int)
    requires r > 1 && add <= adv * r <= add + r && add == elapsed * r - 1
    ensures adv == elapsed
  {
    NotOneMore(adv, r, add, elapsed);
    assert r * (elapsed - 1) == elapsed * r - r;
    if adv <= elapsed - 1 { MulMonotone(r, adv, elapsed - 1); }
  }

  /** The advance of a credit that is exact, or one short. */
  lemma SmallAdvance(c: Rounding, p: Plan, elapsed: int)
    requires ValidPlan(p) && p.burstCapacity <= EXACT_CAPACITY && elapsed >= 0 && Possible(c, p, elapsed)
    requires var add, exact := c.credit.Floor, elapsed * p.burstRefillPerSec;
             0 < add <= p.burstCapacity * UTOK && (add == exact || add == exact - 1)
    ensures var add, r := c.credit.Floor, p.burstRefillPerSec;
            Ceil(c.advance) * r - add == if add < elapsed * r && r > 1 then 1 else 0
  {
    var add, r := c.credit.Floor, p.burstRefillPerSec;
    InUnits(r);
    if add == elapsed * r {
      ExactAdvance(add, r, elapsed, (r * UTOK) as real, c.product, c.advance);
    } else if r == 1 {
      ExactAdvance(add, 1, add, (r * UTOK) as real, c.product, c.advance);
    } else {
      AdvanceBounds(add, r, (r * UTOK) as real, c.product, c.advance);
      ShortAdvance(Ceil(c.advance), r, add, elapsed);
    }
  }

  /** With a capacity of at most 576460 a refill fills the bucket, or it loses exactly one
      microtoken when its credit came out short at a rate above one, and nothing otherwise. */
  lemma SmallRefillLoss(c: Rounding, p: Plan, tokens: nat, ts: int, now: int)
    requires ValidPlan(p) && p.burstCapacity <= EXACT_CAPACITY && Possible(c, p, Max(0, now - ts))
    ensures var l, r := RoundedLevel(c, p, tokens, ts, now), p.burstRefillPerSec;
            l == Level(p.burstCapacity * UTOK, now)
            || Loss(tokens, ts, r, l) == if 0 < c.credit.Floor < Max(0, now - ts) * r && r > 1 then 1 else 0
  {
    var elapsed, add, adv := Max(0, now - ts), c.credit.Floor, Ceil(c.advance);
    NeverCreditsEarly(c, p, elapsed);
    if elapsed as real < c.limit && add > 0 && tokens + add < p.burstCapacity * UTOK {
      SmallAdvance(c, p, elapsed);
      CreditLoss(tokens, ts, p.burstRefillPerSec, add, adv);
    }
  }

  // ----- the passing case loses its whole rate

  /** At the input that carries the clock past the reading, 541 microtokens are lost. */
  lemma PassingCaseLoses(p: Plan, quotient: real, limit: real, ts: int)
    requires ValidPlan(p) && p.burstCapacity > EXACT_CAPACITY && p.burstRefillPerSec == PASSING_RATE
    requires FullAfter((p.burstCapacity * UTOK) as real, (PASSING_RATE * UTOK) as real, quotient, limit)
    ensures Possible(PassingCase(quotient, limit), p, PASSING_ELAPSED)
    ensures var l := RoundedLevel(PassingCase(quotient, limit), p, 0, ts, ts + PASSING_ELAPSED);
            l != Level(p.burstCapacity * UTOK, ts + PASSING_ELAPSED) && Loss(0, ts, PASSING_RATE, l) == 541
  {
    PassingCasePasses(p, quotient, limit, ts);
    CreditLoss(0, ts, PASSING_RATE, PASSING_CREDIT, PASSING_ELAPSED + 1);
    PassingCaseIsCorrectlyRounded();
  }

  /** Refills lose at most one microtoken, at every rate and with every rounding, exactly when
      the capacity is at most 576460. */
  lemma LosesAtMostOneExactlyForSmallCapacities(capacity: int)
    requires 1 <= capacity <= 1_000_000
    ensures (forall p: Plan :: ValidPlan(p) && p.burstCapacity == capacity ==> LosesAtMost(p, 1))
        <==> capacity <= EXACT_CAPACITY
  {
    if capacity <= EXACT_CAPACITY {
      forall p: Plan | ValidPlan(p) && p.burstCapacity == capacity
        ensures LosesAtMost(p, 1)
      {
        SmallPlanLoses(p);
      }
    } else {
      var p := Plan(capacity, PASSING_RATE, 1, 1, 1, 0);
      PassingPlanLoses(p);
    }
  }

  lemma SmallPlanLoses(p: Plan)
    requires ValidPlan(p) && p.burstCapacity <= EXACT_CAPACITY
    ensures LosesAtMost(p, 1) && (p.burstRefillPerSec == 1 ==> LosesAtMost(p, 0))
  {
    forall c: Rounding, tokens: nat, ts: int, now: int
      | Possible(c, p, Max(0, now - ts)) && RoundedLevel(c, p, tokens, ts, now) != Level(p.burstCapacity * UTOK, now)
      ensures Loss(tokens, ts, p.burstRefillPerSec, RoundedLevel(c, p, tokens, ts, now)) <= if p.burstRefillPerSec == 1 then 0 else 1
    {
      SmallRefillLoss(c, p, tokens, ts, now);
    }
  }

  lemma PassingPlanLoses(p: Plan)
    requires ValidPlan(p) && p.burstCapacity > EXACT_CAPACITY && p.burstRefillPerSec == PASSING_RATE
    ensures !LosesAtMost(p, 1)
  {
    var cap, rate := (p.burstCapacity * UTOK) as real, (PASSING_RATE * UTOK) as real;
    var q, limit := cap / rate, cap / rate * UTOK_R;
    assert FullAfter(cap, rate, q, limit);
    PassingCaseLoses(p, q, limit, 0);
    LossRefutes(PassingCase(q, limit), p, 0, 0, PASSING_ELAPSED, 1);
  }

  lemma LossRefutes(c: Rounding, p: Plan, tokens: nat, ts: int, now: int, bound: int)
    requires ValidPlan(p) && Possible(c, p, Max(0, now - ts))
    requires RoundedLevel(c, p, tokens, ts, now) != Level(p.burstCapacity * UTOK, now)
    requires Loss(tokens, ts, p.burstRefillPerSec, RoundedLevel(c, p, tokens, ts, now)) > bound
    ensures !LosesAtMost(p, bound)
  {
  }

  // ----- a refill that loses nothing at all

  const SHORT_RATE := 42_711
  const SHORT_ELAPSED := 1_249
  const SHORT_SECONDS := 5_759_995_837_015_807.0 / 4_611_686_018_427_387_904.0
  const SHORT_CREDIT := 7_159_984_152_379_391.0 / 134_217_728.0
  const SHORT_ADVANCE := 5_493_159_989_396_675.0 / 4_398_046_511_104.0

  function ShortCase(quotient: real, limit: real): Rounding {
    Rounding(quotient, limit, SHORT_SECONDS, SHORT_CREDIT, 53_346_038_000_000.0, SHORT_ADVANCE)
  }

  /** The short case is what round-to-nearest-even gives: seconds at spacing 2^-62, credit at
      spacing 2^-27, an exact product, and the advance at spacing 2^-42. */
  lemma ShortCaseIsCorrectlyRounded()
    ensures NearestEven(SHORT_ELAPSED as real / UTOK_R, 1.0 / 4_611_686_018_427_387_904.0, 5_759_995_837_015_807)
    ensures NearestEven(SHORT_SECONDS * (SHORT_RATE * UTOK) as real, 1.0 / 134_217_728.0, 7_159_984_152_379_391)
    ensures NearestEven(53_346_038_000_000.0 / (SHORT_RATE * UTOK) as real, 1.0 / 4_398_046_511_104.0, 5_493_159_989_396_675)
  {
  }

  lemma ShortRoundingsArePossible()
    ensures Earns(SHORT_ELAPSED as real, (SHORT_RATE * UTOK) as real, SHORT_SECONDS, SHORT_CREDIT)
    ensures SHORT_CREDIT.Floor == 53_346_038
    ensures Advances(53_346_038.0, (SHORT_RATE * UTOK) as real, 53_346_038_000_000.0, SHORT_ADVANCE)
    ensures Ceil(SHORT_ADVANCE) == SHORT_ELAPSED
  {
  }

  /** A bucket with room for 53.4 more tokens, at rate 42711 after 1249 microseconds: the credit is
      one microtoken short and the clock advances in full, so that microtoken is lost. */
  lemma ShortCaseLoses(p: Plan, quotient: real, limit: real, tokens: nat, ts: int)
    requires ValidPlan(p) && p.burstRefillPerSec == SHORT_RATE && tokens + SHORT_ELAPSED * SHORT_RATE < p.burstCapacity * UTOK
    requires FullAfter((p.burstCapacity * UTOK) as real, (SHORT_RATE * UTOK) as real, quotient, limit)
    ensures Possible(ShortCase(quotient, limit), p, SHORT_ELAPSED)
    ensures var l := RoundedLevel(ShortCase(quotient, limit), p, tokens, ts, ts + SHORT_ELAPSED);
            && l == Level(tokens + SHORT_ELAPSED * SHORT_RATE - 1, ts + SHORT_ELAPSED)
            && Loss(tokens, ts, SHORT_RATE, l) == 1
  {
    var c := ShortCase(quotient, limit);
    ShortRoundingsArePossible();
    NotFullAfter(p, quotient, limit, SHORT_ELAPSED);
    CreditsOnly(c, p, tokens, ts, SHORT_ELAPSED, 53_346_038, SHORT_ELAPSED);
    PossibleFromParts(c, p, SHORT_ELAPSED, (p.burstCapacity * UTOK) as real, (SHORT_RATE * UTOK) as real, 53_346_038.0);
  }

  /** n such refills in a row, each followed by a charge of one token. */
  function ShortRefills(p: Plan, c: Rounding, tokens: int, ts: int, n: nat): Level {
    if n == 0 then Level(tokens, ts)
    else
      var earlier := ShortRefills(p, c, tokens, ts, n - 1);
      var l := RoundedLevel(c, p, earlier.tokens, earlier.ts, earlier.ts + SHORT_ELAPSED);
      Level(l.tokens - UTOK, l.ts)
  }

  /** Losses add up: the bucket ends n microtokens short of what exact arithmetic would have left. */
  lemma {:induction false} LossesAddUp(p: Plan, quotient: real, limit: real, tokens: nat, ts: int, n: nat)
    requires ValidPlan(p) && p.burstRefillPerSec == SHORT_RATE
    requires FullAfter((p.burstCapacity * UTOK) as real, (SHORT_RATE * UTOK) as real, quotient, limit)
    requires tokens + n * (SHORT_ELAPSED * SHORT_RATE) < p.burstCapacity * UTOK
    ensures ShortRefills(p, ShortCase(quotient, limit), tokens, ts, n)
         == Level(tokens + n * (SHORT_ELAPSED * SHORT_RATE - UTOK) - n, ts + n * SHORT_ELAPSED)
  {
    if n > 0 {
      LossesAddUp(p, quotient, limit, tokens, ts, n - 1);
      var earlier := ShortRefills(p, ShortCase(quotient, limit), tokens, ts, n - 1);
      ShortCaseLoses(p, quotient, limit, earlier.tokens, earlier.ts);
    }
  }

  lemma NotFullYet(limit: real, r: int, elapsed: int, cap: int)
    requires r > 0 && cap as real - 0.001 <= limit * r as real && elapsed * r + 1 <= cap
    ensures elapsed as real < limit
  {
    IntProduct(elapsed, r, elapsed * r);
    LessByProduct(elapsed as real, limit, r as real);
  }

  lemma NotFullAfter(p: Plan, quotient: real, limit: real, elapsed: int)
    requires ValidPlan(p) && FullAfter((p.burstCapacity * UTOK) as real, (p.burstRefillPerSec * UTOK) as real, quotient, limit)
    requires elapsed * p.burstRefillPerSec + 1 <= p.burstCapacity * UTOK
    ensures elapsed as real < limit
  {
    LimitOf(p, quotient, limit);
    NotFullYet(limit, p.burstRefillPerSec, elapsed, p.burstCapacity * UTOK);
  }

  /** A refill that only credits, given what its operations came out as. */
  lemma CreditsOnly(c: Rounding, p: Plan, tokens: nat, ts: int, elapsed: nat, add: int, adv: int)
    requires elapsed as real < c.limit && c.credit.Floor == add && Ceil(c.advance) == adv
    requires 0 < add && tokens + add < p.burstCapacity * UTOK
    ensures RoundedLevel(c, p, tokens, ts, ts + elapsed) == Level(tokens + add, ts + adv)
    ensures Loss(tokens, ts, p.burstRefillPerSec, RoundedLevel(c, p, tokens, ts, ts + elapsed)) == adv * p.burstRefillPerSec - add
  {
    CreditLoss(tokens, ts, p.burstRefillPerSec, add, adv);
  }

  // ----- when nothing is ever lost

  lemma OneMicrosecondCredit(r: int, rate: real, seconds: real)
    requires 2 <= r <= 100_000 && rate == r as real * UTOK_R && seconds == (1.0 - U / 2.0) / UTOK_R
    ensures seconds * rate == r as real - r as real * U / 2.0
    ensures (seconds * rate).Floor == r - 1
    ensures Earns(1.0, rate, seconds, seconds * rate)
  {
    assert seconds * UTOK_R == 1.0 - U / 2.0;
    assert seconds * rate == (seconds * UTOK_R) * r as real;
    var x := r as real - r as real * U / 2.0;
    assert r as real - 1.0 < x < r as real;
    FloorBetween(x, r - 1);
  }

  /** r - 1 microtokens take the better part of a microsecond. */
  lemma OneMicrosecondAdvance(r: int, rate: real)
    requires 2 <= r <= 100_000 && rate == r as real * UTOK_R
    ensures var product := (r - 1) as real * UTOK_R;
            Advances((r - 1) as real, rate, product, product / rate) && Ceil(product / rate) == 1
  {
    var product := (r - 1) as real * UTOK_R;
    assert product / rate * rate == product;
    LessByProduct(0.0, product / rate, rate);
    LessByProduct(product / rate, 1.0, rate);
    FloorBetween(product / rate, 0);
  }

  /** Roundings put together from their three parts. */
  lemma PossibleFromParts(c: Rounding, p: Plan, elapsed: int, cap: real, rate: real, add: real)
    requires ValidPlan(p) && cap == (p.burstCapacity * UTOK) as real && rate == (p.burstRefillPerSec * UTOK) as real
    requires FullAfter(cap, rate, c.quotient, c.limit) && Earns(elapsed as real, rate, c.seconds, c.credit)
    requires add == c.credit.Floor as real && Advances(add, rate, c.product, c.advance)
    ensures Possible(c, p, elapsed)
  {
  }

  lemma ExactFullAfter(cap: real, rate: real)
    requires cap >= 0.0 && rate > 0.0
    ensures FullAfter(cap, rate, cap / rate, cap / rate * UTOK_R)
  {
  }

  /** One microsecond at a rate above one, with the seconds rounded down a little. */
  lemma OneMicrosecond(p: Plan) returns (c: Rounding)
    requires ValidPlan(p) && p.burstRefillPerSec >= 2
    ensures Possible(c, p, 1) && c.credit.Floor == p.burstRefillPerSec - 1 && Ceil(c.advance) == 1
  {
    var r, cap, rate := p.burstRefillPerSec, (p.burstCapacity * UTOK) as real, (p.burstRefillPerSec * UTOK) as real;
    InUnits(r);
    var seconds := (1.0 - U / 2.0) / UTOK_R;
    OneMicrosecondCredit(r, rate, seconds);
    OneMicrosecondAdvance(r, rate);
    ExactFullAfter(cap, rate);
    var product := (r - 1) as real * UTOK_R;
    c := Rounding(cap / rate, cap / rate * UTOK_R, seconds, seconds * rate, product, product / rate);
    PossibleFromParts(c, p, 1, cap, rate, (r - 1) as real);
  }

  /** Any roundings with that credit and advance lose a microtoken. */
  lemma OneMicrosecondLoses(c: Rounding, p: Plan)
    requires ValidPlan(p) && p.burstRefillPerSec >= 2 && Possible(c, p, 1)
    requires c.credit.Floor == p.burstRefillPerSec - 1 && Ceil(c.advance) == 1
    ensures !LosesAtMost(p, 0)
  {
    var r := p.burstRefillPerSec;
    NotFullAfter(p, c.quotient, c.limit, 1);
    CreditsOnly(c, p, 0, 0, 1, r - 1, 1);
    LossRefutes(c, p, 0, 0, 1, 0);
  }

  /** In the rounding model: the seconds it takes are no double. */
  lemma RatesAboveOneLose(p: Plan)
    requires ValidPlan(p) && p.burstRefillPerSec >= 2
    ensures !LosesAtMost(p, 0)
  {
    var c := OneMicrosecond(p);
    OneMicrosecondLoses(c, p);
  }

  const TWO_ELAPSED := 249
  const TWO_SECONDS := 4_593_239_274_353_678.0 / 18_446_744_073_709_551_616.0
  const TWO_CREDIT := 8_760_908_650_119_167.0 / 17_592_186_044_416.0

  /** 249 microseconds at rate two: the credit comes out just below 498. */
  function TwoCase(quotient: real, limit: real): Rounding {
    Rounding(quotient, limit, TWO_SECONDS, TWO_CREDIT, 497_000_000.0, 248.5)
  }

  /** Seconds at spacing 2^-64 and credit at spacing 2^-44; product and advance are exact. */
  lemma TwoCaseIsCorrectlyRounded()
    ensures NearestEven(TWO_ELAPSED as real / UTOK_R, 1.0 / 18_446_744_073_709_551_616.0, 4_593_239_274_353_678)
    ensures NearestEven(TWO_SECONDS * 2_000_000.0, 1.0 / 17_592_186_044_416.0, 8_760_908_650_119_167)
    ensures 497.0 * UTOK_R == 497_000_000.0 && 497_000_000.0 / 2_000_000.0 == 248.5
  {
  }

  lemma TwoRoundingsArePossible()
    ensures Earns(TWO_ELAPSED as real, 2_000_000.0, TWO_SECONDS, TWO_CREDIT) && TWO_CREDIT.Floor == 497
    ensures Advances(497.0, 2_000_000.0, 497_000_000.0, 248.5) && Ceil(248.5) == TWO_ELAPSED
  {
  }

  /** Correctly rounded, every plan of rate two can lose: any bucket with room for the credit
      loses a microtoken after 249 microseconds. */
  lemma TwoCaseLoses(p: Plan, quotient: real, limit: real, tokens: nat, ts: int)
    requires ValidPlan(p) && p.burstRefillPerSec == 2 && tokens + 498 < p.burstCapacity * UTOK
    requires FullAfter((p.burstCapacity * UTOK) as real, 2_000_000.0, quotient, limit)
    ensures Possible(TwoCase(quotient, limit), p, TWO_ELAPSED)
    ensures var l := RoundedLevel(TwoCase(quotient, limit), p, tokens, ts, ts + TWO_ELAPSED);
            l == Level(tokens + 497, ts + TWO_ELAPSED) && Loss(tokens, ts, 2, l) == 1
  {
    var c := TwoCase(quotient, limit);
    TwoRoundingsArePossible();
    NotFullAfter(p, quotient, limit, TWO_ELAPSED);
    CreditsOnly(c, p, tokens, ts, TWO_ELAPSED, 497, TWO_ELAPSED);
    PossibleFromParts(c, p, TWO_ELAPSED, (p.burstCapacity * UTOK) as real, 2_000_000.0, 497.0);
  }

  const SLOW_ELAPSED := 576_460_796_875

  /** The passing case of rate one: again a tie at spacing 128 and a quotient at spacing 2^-13. */
  function SlowCase(quotient: real, limit: real): Rounding {
    Rounding(quotient, limit, SLOW_ELAPSED as real / UTOK_R, SLOW_ELAPSED as real,
             576_460_796_875_000_064.0, SLOW_ELAPSED as real + 1.0 / 8_192.0)
  }

  lemma SlowCaseIsCorrectlyRounded()
    ensures SLOW_ELAPSED as real / UTOK_R == 36_893_491.0 / 64.0
    ensures NearestEven(SLOW_ELAPSED as real * UTOK_R, 128.0, 4_503_599_975_585_938)
    ensures NearestEven(576_460_796_875_000_064.0 / UTOK_R, 1.0 / 8_192.0, 4_722_366_848_000_001)
  {
  }

  lemma SlowRoundingsArePossible()
    ensures Earns(SLOW_ELAPSED as real, UTOK_R, SLOW_ELAPSED as real / UTOK_R, SLOW_ELAPSED as real)
    ensures Advances(SLOW_ELAPSED as real, UTOK_R, 576_460_796_875_000_064.0, SLOW_ELAPSED as real + 1.0 / 8_192.0)
    ensures Ceil(SLOW_ELAPSED as real + 1.0 / 8_192.0) == SLOW_ELAPSED + 1
  {
    assert (SLOW_ELAPSED as real * UTOK_R).Floor == 576_460_796_875_000_000;
  }

  /** Correctly rounded, an empty bucket of rate one and any capacity above 576460 loses a
      microtoken after that time, and its clock passes the reading. */
  lemma SlowCaseLoses(p: Plan, quotient: real, limit: real, ts: int)
    requires ValidPlan(p) && p.burstRefillPerSec == 1 && p.burstCapacity > EXACT_CAPACITY
    requires FullAfter((p.burstCapacity * UTOK) as real, UTOK_R, quotient, limit)
    ensures Possible(SlowCase(quotient, limit), p, SLOW_ELAPSED)
    ensures var l := RoundedLevel(SlowCase(quotient, limit), p, 0, ts, ts + SLOW_ELAPSED);
            l == Level(SLOW_ELAPSED, ts + SLOW_ELAPSED + 1) && Loss(0, ts, 1, l) == 1
  {
    var c := SlowCase(quotient, limit);
    SlowRoundingsArePossible();
    NotFullAfter(p, quotient, limit, SLOW_ELAPSED);
    CeilOfWhole(SLOW_ELAPSED);
    CreditsOnly(c, p, 0, ts, SLOW_ELAPSED, SLOW_ELAPSED, SLOW_ELAPSED + 1);
    PossibleFromParts(c, p, SLOW_ELAPSED, (p.burstCapacity * UTOK) as real, UTOK_R, SLOW_ELAPSED as real);
  }

  lemma LargePlansOfRateOneLose(p: Plan)
    requires ValidPlan(p) && p.burstRefillPerSec == 1 && p.burstCapacity > EXACT_CAPACITY
    ensures !LosesAtMost(p, 0)
  {
    var cap := (p.burstCapacity * UTOK) as real;
    ExactFullAfter(cap, UTOK_R);
    var c := SlowCase(cap / UTOK_R, cap / UTOK_R * UTOK_R);
    SlowCaseLoses(p, c.quotient, c.limit, 0);
    LossRefutes(c, p, 0, 0, SLOW_ELAPSED, 0);
  }

  /** The documented bound, less than one microtoken, holds for all roundings of a plan exactly
      when it refills one token a second and its capacity is at most 576460. That it holds then is
      true of the code; that it fails otherwise is said of the rounding model, whose seconds may
      err by any amount within the bound. Correctly rounded doubles lose too at the inputs of
      TwoCaseLoses, ShortCaseLoses and SlowCaseLoses, but need not at every rate above one. */
  lemma LosesNothingExactlyAtRateOne(p: Plan)
    requires ValidPlan(p)
    ensures LosesAtMost(p, 0) <==> p.burstRefillPerSec == 1 && p.burstCapacity <= EXACT_CAPACITY
  {
    if p.burstRefillPerSec >= 2 {
      RatesAboveOneLose(p);
    } else if p.burstCapacity <= EXACT_CAPACITY {
      SmallPlanLoses(p);
    } else {
      LargePlansOfRateOneLose(p);
    }
  }
}
