/** The refill as Lua's doubles compute it. Each inexact product or quotient may come out as any
    real within relative error 2^-53 of the exact one; an exactly representable one is exact. */
module RoundedRefill {
  import opened Arith
  import opened Limits
  import opened CheckScript
  import opened TokenBucket

  const TWO53 := 9_007_199_254_740_992
  const U := 1.0 / 9007199254740992.0
  const UTOK_R := 1000000.0

  /** Integers that a double holds exactly: up to 2^53, and multiples of 64 up to 2^59. */
  predicate Exact(x: real) {
    && x == x.Floor as real
    && (-TWO53 <= x.Floor <= TWO53 || (x.Floor % 64 == 0 && -64 * TWO53 <= x.Floor <= 64 * TWO53))
  }

  /** Within relative error 2^-53; every exact value here is non-negative. */
  predicate Near(exact: real, result: real) {
    exact >= 0.0 ==> -U * exact <= result - exact <= U * exact
  }

  predicate Rounds(exact: real, result: real) {
    Near(exact, result) && (Exact(exact) ==> result == exact)
  }

  function Ceil(x: real): int {
    -((-x).Floor)
  }

  /** The value each double operation of one refill produced. */
  datatype Rounding = Rounding(quotient: real, limit: real, seconds: real, credit: real, product: real, advance: real)

  /** The roundings that doubles allow for a refill of a plan after `elapsed` microseconds. */
  predicate Possible(c: Rounding, p: Plan, elapsed: int)
    requires ValidPlan(p)
  {
    var cap, rate := (p.burstCapacity * UTOK) as real, (p.burstRefillPerSec * UTOK) as real;
    && FullAfter(cap, rate, c.quotient, c.limit)
    && Earns(elapsed as real, rate, c.seconds, c.credit)
    && Advances(c.credit.Floor as real, rate, c.product, c.advance)
  }

  /** (cap_utok / rate_utok) * UTOK */
  predicate FullAfter(cap: real, rate: real, quotient: real, limit: real)
    requires rate > 0.0
  {
    Rounds(cap / rate, quotient) && Rounds(quotient * UTOK_R, limit)
  }

  /** (elapsed / UTOK) * rate_utok */
  predicate Earns(elapsed: real, rate: real, seconds: real, credit: real) {
    Rounds(elapsed / UTOK_R, seconds) && Rounds(seconds * rate, credit)
  }

  /** add * UTOK / rate_utok */
  predicate Advances(add: real, rate: real, product: real, advance: real)
    requires rate > 0.0
  {
    Rounds(add * UTOK_R, product) && Rounds(product / rate, advance)
  }

  /** The script's refill with the given rounded values. */
  function RoundedLevel(c: Rounding, p: Plan, tokens: int, ts: int, now: int): Level {
    var cap := p.burstCapacity * UTOK;
    var elapsed := Max(0, now - ts);
    if elapsed as real >= c.limit then Level(cap, now)
    else
      var add := c.credit.Floor;
      if add > 0 then
        if tokens + add >= cap then Level(cap, now)
        else Level(tokens + add, ts + Ceil(c.advance))
      else Level(tokens, ts)
  }

  /** Two roundings in a row keep a value within a tiny fraction of itself. */
  lemma TwoRoundings(x: real, y: real, z: real)
    requires x >= 0.0 && Near(x, y) && Near(y, z)
    ensures y >= 0.0 && -3.0 * U * x <= z - x <= 3.0 * U * x
  {
  }

  /** Scaling a rounded value by a positive factor. */
  lemma ScaledRounding(x: real, y: real, r: real, xr: real, yr: real)
    requires r > 0.0 && x >= 0.0 && Near(x, y) && xr == x * r && yr == y * r
    ensures xr >= 0.0 && Near(xr, yr)
  {
    ProductOrder(-U * x, y - x, r);
    ProductOrder(y - x, U * x, r);
    ProductOrder(0.0, x, r);
    Distribute(y, x, r);
    Associate(U, x, r);
  }

  lemma ProductOrder(a: real, b: real, r: real)
    requires a <= b && r >= 0.0
    ensures a * r <= b * r
  {
  }

  lemma Distribute(y: real, x: real, r: real)
    ensures (y - x) * r == y * r - x * r
  {
  }

  lemma Associate(u: real, x: real, r: real)
    ensures (u * x) * r == u * (x * r) && (-u * x) * r == -(u * (x * r)) && (x * u) * r == (x * r) * u
  {
  }

  lemma QuotientTimes(a: real, b: real)
    requires b > 0.0
    ensures a / b * b == a && (a >= 0.0 ==> a / b >= 0.0)
  {
  }

  /** A rounded quotient of n * k by r * k, scaled back by r. */
  lemma RoundedRatio(n: real, r: real, k: real, q: real)
    requires n >= 0.0 && r > 0.0 && k > 0.0 && Near(n * k / (r * k), q)
    ensures Near(n, q * r) && q >= 0.0
  {
    var x := n * k / (r * k);
    QuotientTimes(n * k, r * k);
    assert x * r == n by {
      assert (x * r) * k == n * k by { assert x * (r * k) == (x * r) * k; }
      Cancel(x * r, n, k);
    }
    ScaledRounding(x, q, r, n, q * r);
    assert q >= x - U * x;
  }

  lemma StrictOrder(a: real, b: real, k: real)
    requires k > 0.0
    ensures a < b ==> a * k < b * k
  {
    var d := b - a;
    if d > 0.0 { assert d * k > 0.0; }
    Distribute(b, a, k);
  }

  lemma Cancel(a: real, b: real, k: real)
    requires k > 0.0 && a * k == b * k
    ensures a == b
  {
    StrictOrder(a, b, k);
    StrictOrder(b, a, k);
  }

  /** The fill time in real terms: two roundings of n * 10^6 / r, scaled by r. */
  lemma LimitReal(n: real, r: real, q: real, l: real)
    requires 1.0 <= n <= 1000000.0 && r > 0.0 && q >= 0.0 && Near(n, q * r) && Near(q * UTOK_R, l)
    ensures n * UTOK_R - 0.001 <= l * r <= n * UTOK_R + 0.001
  {
    Associate(UTOK_R, q, r);
    ScaledRounding(q * UTOK_R, l, r, (q * r) * UTOK_R, l * r);
    TwoRoundings(n * UTOK_R, (q * r) * UTOK_R, l * r);
  }

  lemma LimitWithin(n: real, r: real, cap: real, rate: real, q: real, l: real)
    requires 1.0 <= n <= 1000000.0 && r > 0.0 && cap == n * UTOK_R && rate == r * UTOK_R && FullAfter(cap, rate, q, l)
    ensures cap - 0.001 <= l * r <= cap + 0.001
  {
    RoundedRatio(n, r, UTOK_R, q);
    LimitReal(n, r, q, l);
  }

  lemma LimitOf(p: Plan, quotient: real, limit: real)
    requires ValidPlan(p) && FullAfter((p.burstCapacity * UTOK) as real, (p.burstRefillPerSec * UTOK) as real, quotient, limit)
    ensures var cap, r := (p.burstCapacity * UTOK) as real, p.burstRefillPerSec as real;
            cap - 0.001 <= limit * r <= cap + 0.001
  {
    InUnits(p.burstCapacity);
    InUnits(p.burstRefillPerSec);
    LimitWithin(p.burstCapacity as real, p.burstRefillPerSec as real, (p.burstCapacity * UTOK) as real,
                (p.burstRefillPerSec * UTOK) as real, quotient, limit);
  }

  lemma LimitBounds(c: Rounding, p: Plan, elapsed: int)
    requires ValidPlan(p) && Possible(c, p, elapsed)
    ensures var cap, r := (p.burstCapacity * UTOK) as real, p.burstRefillPerSec as real;
            cap - 0.001 <= c.limit * r <= cap + 0.001
  {
    LimitOf(p, c.quotient, c.limit);
  }

  /** The credit in real terms: two roundings of e / 10^6 * r * 10^6. */
  lemma CreditReal(e: real, r: real, er: real, t: real, rate: real, s: real, credit: real)
    requires t == e / UTOK_R && rate == r * UTOK_R && er == e * r
    requires e >= 0.0 && r > 0.0 && 0.0 <= er <= 1000000000000.0
    requires Near(t, s) && Near(s * rate, credit)
    ensures er - 0.001 <= credit <= er + 0.001
  {
    assert t * rate == er;
    ScaledRounding(t, s, rate, er, s * rate);
    TwoRoundings(er, s * rate, credit);
  }

  lemma IntProduct(a: int, b: int, v: int)
    requires v == a * b
    ensures v as real == a as real * b as real
  {
  }

  lemma FullOrNot(elapsed: int, r: int, cap: int, limit: real, lr: real, exact: int)
    requires r > 0 && lr == limit * r as real && exact == elapsed * r
    requires cap as real - 0.001 <= lr <= cap as real + 0.001
    ensures elapsed as real >= limit ==> exact >= cap
    ensures elapsed as real < limit ==> exact <= cap
  {
    IntProduct(elapsed, r, exact);
    if elapsed as real >= limit {
      ProductOrder(limit, elapsed as real, r as real);
    } else {
      ProductOrder(elapsed as real, limit, r as real);
    }
  }

  lemma FloorWithin(credit: real, exact: int)
    requires exact as real - 0.001 <= credit <= exact as real + 0.001
    ensures credit.Floor == exact || credit.Floor == exact - 1
  {
  }

  lemma InUnits(r: int)
    ensures (r * UTOK) as real == r as real * UTOK_R
  {
  }

  lemma CreditWithin(elapsed: int, r: int, exact: int, s: real, rate: real, credit: real)
    requires elapsed >= 0 && r > 0 && exact == elapsed * r && 0 <= exact <= 1000000 * UTOK
    requires rate == r as real * UTOK_R && Earns(elapsed as real, rate, s, credit)
    ensures credit.Floor == exact || credit.Floor == exact - 1
  {
    IntProduct(elapsed, r, exact);
    CreditReal(elapsed as real, r as real, exact as real, elapsed as real / UTOK_R, rate, s, credit);
    FloorWithin(credit, exact);
  }

  lemma FullInTime(p: Plan, elapsed: int, quotient: real, limit: real)
    requires ValidPlan(p) && elapsed >= 0
    requires FullAfter((p.burstCapacity * UTOK) as real, (p.burstRefillPerSec * UTOK) as real, quotient, limit)
    ensures var exact, cap := elapsed * p.burstRefillPerSec, p.burstCapacity * UTOK;
            exact >= 0 && if elapsed as real >= limit then exact >= cap else exact <= cap
  {
    var r, exact := p.burstRefillPerSec, elapsed * p.burstRefillPerSec;
    MulMonotone(r, 0, elapsed);
    LimitOf(p, quotient, limit);
    FullOrNot(elapsed, r, p.burstCapacity * UTOK, limit, limit * r as real, exact);
  }

  lemma CreditOf(c: Rounding, p: Plan, elapsed: int, exact: int)
    requires ValidPlan(p) && elapsed >= 0 && exact == elapsed * p.burstRefillPerSec && 0 <= exact <= p.burstCapacity * UTOK
    requires Earns(elapsed as real, (p.burstRefillPerSec * UTOK) as real, c.seconds, c.credit)
    ensures c.credit.Floor == exact || c.credit.Floor == exact - 1
  {
    InUnits(p.burstRefillPerSec);
    CreditWithin(elapsed, p.burstRefillPerSec, exact, c.seconds, (p.burstRefillPerSec * UTOK) as real, c.credit);
  }

  /** The bucket is never declared full before it is, and otherwise its credit is the exact
      one or one microtoken less. */
  lemma NeverCreditsEarly(c: Rounding, p: Plan, elapsed: int)
    requires ValidPlan(p) && elapsed >= 0 && Possible(c, p, elapsed)
    ensures var exact, cap := elapsed * p.burstRefillPerSec, p.burstCapacity * UTOK;
            if elapsed as real >= c.limit then exact >= cap
            else exact <= cap && (c.credit.Floor == exact || c.credit.Floor == exact - 1)
  {
    FullInTime(p, elapsed, c.quotient, c.limit);
    if !(elapsed as real >= c.limit) {
      CreditOf(c, p, elapsed, elapsed * p.burstRefillPerSec);
    }
  }

  lemma UnitProduct(d: real, r: real)
    requires 0.0 <= d < 1.0 && r > 0.0
    ensures 0.0 <= d * r < r
  {
    assert (1.0 - d) * r > 0.0;
  }

  lemma SumProduct(a: real, d: real, n: real, r: real)
    requires n == a + d
    ensures n * r == a * r + d * r
  {
  }

  lemma ProductBetween(a: real, n: real, r: real, ar: real, nr: real)
    requires a <= n < a + 1.0 && r > 0.0 && ar == a * r && nr == n * r
    ensures ar <= nr && nr < ar + r
  {
    var d := n - a;
    var dr := d * r;
    assert 0.0 <= dr < r by { UnitProduct(d, r); }
    SumProduct(a, d, n, r);
  }

  lemma CeilBetween(x: real)
    ensures x <= Ceil(x) as real < x + 1.0
  {
    var k := (-x).Floor;
    assert (-k) as real == -(k as real);
  }

  /** The advance in real terms: two roundings of add * 10^6 / (r * 10^6), scaled by r. */
  lemma AdvanceReal(add: real, r: real, m: real, a: real)
    requires 0.0 <= add <= 1000000000000.0 && r > 0.0
    requires Near(add * UTOK_R, m) && m >= 0.0 && Near(m / (r * UTOK_R), a)
    ensures add - 0.001 <= a * r <= add + 0.001
  {
    var k := m / UTOK_R;
    assert m == k * UTOK_R;
    RoundedRatio(k, r, UTOK_R, a);
    TwoRoundings(add, k, a * r);
  }

  lemma CeilProduct(a: real, n: int, r: int, ar: real, v: int)
    requires n == Ceil(a) && r > 0 && ar == a * r as real && v == n * r
    ensures ar <= v as real && v as real < ar + r as real
  {
    CeilBetween(a);
    IntProduct(n, r, v);
    ProductBetween(a, n as real, r as real, ar, v as real);
  }

  lemma Between(add: int, r: int, v: int, x: real)
    requires add as real - 0.001 <= x <= add as real + 0.001
    requires x <= v as real < x + r as real
    ensures add <= v <= add + r
  {
    assert (add + r) as real == add as real + r as real;
    IntBelow(add, v);
    IntBelow(v, add + r);
  }

  lemma IntBelow(v: int, w: int)
    requires v as real < w as real + 0.5
    ensures v <= w
  {
  }

  /** The stored clock's advance is worth at least the credit, and at most one microsecond's
      refill more. */
  lemma AdvanceBounds(add: int, r: int, rate: real, product: real, advance: real)
    requires 0 <= add <= 1000000 * UTOK && r > 0
    requires rate == r as real * UTOK_R && Advances(add as real, rate, product, advance)
    ensures add <= Ceil(advance) * r <= add + r
  {
    AdvanceReal(add as real, r as real, product, advance);
    var v := Ceil(advance) * r;
    CeilProduct(advance, Ceil(advance), r, advance * r as real, v);
    Between(add, r, v, advance * r as real);
  }

  // ----- one rounded refill

  /** One refill in integers: fill up, credit nothing, or credit and advance. */
  predicate Conservative(tokens: int, ts: int, now: int, cap: int, r: int, l: Level) {
    && l.tokens <= tokens + r * Max(0, now - ts)
    && l.tokens - r * l.ts <= tokens - r * ts
    && (l != Level(cap, now) ==> tokens - r * ts - r <= l.tokens - r * l.ts)
    && ts <= l.ts <= Max(ts, now + 1)
    && (tokens <= cap ==> l.tokens <= cap)
    && 0 <= l.tokens
  }

  lemma FillIsConservative(tokens: int, ts: int, now: int, cap: int, r: int)
    requires r > 0 && cap > 0 && tokens >= 0 && cap <= tokens + r * Max(0, now - ts) && ts <= now
    ensures Conservative(tokens, ts, now, cap, r, Level(cap, now))
  {
    Split(r, ts, now - ts);
  }

  lemma CreditIsConservative(tokens: int, ts: int, now: int, cap: int, r: int, add: int, adv: int)
    requires r > 0 && tokens >= 0 && 0 < add <= r * (now - ts) && tokens + add < cap
    requires add <= adv * r <= add + r && 0 < adv <= now - ts + 1
    ensures Conservative(tokens, ts, now, cap, r, Level(tokens + add, ts + adv))
  {
    Split(r, ts, adv);
  }

  lemma Split(r: int, ts: int, d: int)
    ensures r * (ts + d) == r * ts + d * r
  {
  }

  /** With doubles as with exact numbers: a refill never credits more than the elapsed time is
      worth, its potential never rises, it loses at most one microsecond's worth unless it fills
      the bucket, and the stored clock never passes the reading by more than a microsecond. */
  lemma RoundedRefillUnderCredits(c: Rounding, p: Plan, tokens: int, ts: int, now: int)
    requires ValidPlan(p) && 0 <= tokens && Possible(c, p, Max(0, now - ts))
    ensures Conservative(tokens, ts, now, p.burstCapacity * UTOK, p.burstRefillPerSec, RoundedLevel(c, p, tokens, ts, now))
  {
    var elapsed, r, cap := Max(0, now - ts), p.burstRefillPerSec, p.burstCapacity * UTOK;
    var add, adv := c.credit.Floor, Ceil(c.advance);
    NeverCreditsEarly(c, p, elapsed);
    FillsNotAtOnce(c, p, elapsed);
    MulMonotone(r, 0, elapsed);
    if elapsed as real >= c.limit {
      FillIsConservative(tokens, ts, now, cap, r);
    } else if add > 0 {
      if tokens + add >= cap {
        FillIsConservative(tokens, ts, now, cap, r);
      } else {
        InUnits(r);
        AdvanceBounds(add, r, (r * UTOK) as real, c.product, c.advance);
        AdvanceSteps(adv, r, add, elapsed);
        CreditIsConservative(tokens, ts, now, cap, r, add, adv);
      }
    }
  }

  lemma FillsNotAtOnce(c: Rounding, p: Plan, elapsed: int)
    requires ValidPlan(p) && Possible(c, p, elapsed)
    ensures c.limit > 0.0
  {
    LimitBounds(c, p, elapsed);
    if c.limit <= 0.0 {
      ProductOrder(c.limit, 0.0, p.burstRefillPerSec as real);
    }
  }

  lemma AdvanceSteps(adv: int, r: int, add: int, elapsed: int)
    requires r > 0 && 0 < add <= adv * r <= add + r && add <= elapsed * r
    ensures 0 < adv <= elapsed + 1
  {
    if adv <= 0 { MulMonotone(r, adv, 0); }
    assert r * (elapsed + 2) == elapsed * r + 2 * r;
    if adv >= elapsed + 2 { MulMonotone(r, elapsed + 2, adv); }
  }

  // ----- whether the stored clock can pass the reading

  /** The largest capacity whose credits, times 10^6, are all exact doubles (below 2^59). */
  const EXACT_CAPACITY := 576_460

  /** The design's promise for one plan: no refill stores a clock later than the reading. */
  ghost predicate ClockStaysBehind(p: Plan)
    requires ValidPlan(p)
  {
    forall c: Rounding, tokens: nat, ts: int, now: int ::
      Possible(c, p, Max(0, now - ts)) ==> RoundedLevel(c, p, tokens, ts, now).ts <= Max(ts, now)
  }

  lemma WholeIsExact(n: int)
    requires 0 <= n <= TWO53
    ensures Exact(n as real)
  {
  }

  lemma MicrosAreExact(add: int)
    requires 0 <= add <= EXACT_CAPACITY * UTOK
    ensures Exact(add as real * UTOK_R)
  {
    assert add as real * UTOK_R == (add * 1_000_000) as real;
    assert add * 1_000_000 == 64 * (add * 15_625);
  }

  /** An exact credit has exactly its own time as its advance. */
  lemma ExactAdvance(add: int, r: int, elapsed: int, rate: real, product: real, advance: real)
    requires r > 0 && elapsed >= 0 && add == elapsed * r && 0 <= add <= EXACT_CAPACITY * UTOK
    requires rate == r as real * UTOK_R && Advances(add as real, rate, product, advance)
    ensures Ceil(advance) == elapsed
  {
    MicrosAreExact(add);
    var e, rr := elapsed as real, r as real;
    IntProduct(elapsed, r, add);
    assert product == (e * rr) * UTOK_R;
    assert product == e * rate;
    QuotientOfProduct(e, rate, product);
    if elapsed > add { MulMonotone(elapsed, 1, r); }
    WholeIsExact(elapsed);
  }

  lemma QuotientOfProduct(e: real, rate: real, product: real)
    requires rate > 0.0 && product == e * rate
    ensures product / rate == e
  {
  }

  lemma SmallPlansStayBehind(c: Rounding, p: Plan, tokens: nat, ts: int, now: int)
    requires ValidPlan(p) && p.burstCapacity <= EXACT_CAPACITY && Possible(c, p, Max(0, now - ts))
    ensures RoundedLevel(c, p, tokens, ts, now).ts <= Max(ts, now)
  {
    var elapsed, r, add := Max(0, now - ts), p.burstRefillPerSec, c.credit.Floor;
    NeverCreditsEarly(c, p, elapsed);
    FillsNotAtOnce(c, p, elapsed);
    if elapsed as real < c.limit && add > 0 {
      InUnits(r);
      if add == elapsed * r {
        ExactAdvance(add, r, elapsed, (r * UTOK) as real, c.product, c.advance);
      } else {
        AdvanceBounds(add, r, (r * UTOK) as real, c.product, c.advance);
        NotOneMore(Ceil(c.advance), r, add, elapsed);
      }
      assert elapsed > 0;
    }
  }

  lemma NotOneMore(adv: int, r: int, add: int, elapsed: int)
    requires r > 0 && adv * r <= add + r && add == elapsed * r - 1
    ensures adv <= elapsed
  {
    assert r * (elapsed + 1) == elapsed * r + r;
    if adv >= elapsed + 1 { MulMonotone(r, elapsed + 1, adv); }
  }

  /** Round to nearest, ties to even, in steps of `step`: what a double with that spacing does. */
  predicate NearestEven(exact: real, step: real, multiple: int)
    requires step > 0.0
  {
    var result := multiple as real * step;
    && TWO53 / 2 <= multiple < TWO53
    && -step / 2.0 <= exact - result <= step / 2.0
    && ((exact - result == step / 2.0 || result - exact == step / 2.0) ==> multiple % 2 == 0)
  }

  const PASSING_RATE := 541
  const PASSING_ELAPSED := 1_065_546_875
  const PASSING_CREDIT := 576_460_859_375
  const PASSING_PRODUCT := 576_460_859_375_000_064.0
  const PASSING_ADVANCE := 1_065_546_875.0 + 1.0 / 8_388_608.0

  /** The four roundings of the passing case; how the fill time rounds does not matter. */
  function PassingCase(quotient: real, limit: real): Rounding {
    Rounding(quotient, limit, PASSING_ELAPSED as real / UTOK_R, PASSING_CREDIT as real, PASSING_PRODUCT, PASSING_ADVANCE)
  }

  /** The passing case is what round-to-nearest-even gives: the first two values are exact, the
      product is a tie at spacing 128 and the quotient is rounded at spacing 2^-23. */
  lemma PassingCaseIsCorrectlyRounded()
    ensures PASSING_CREDIT == PASSING_ELAPSED * PASSING_RATE
    ensures PASSING_ELAPSED as real / UTOK_R == 68195.0 / 64.0
    ensures PASSING_PRODUCT == 4_503_600_463_867_188.0 * 128.0
    ensures NearestEven(PASSING_CREDIT as real * UTOK_R, 128.0, 4_503_600_463_867_188)
    ensures PASSING_ADVANCE == 8_938_455_040_000_001.0 / 8_388_608.0
    ensures NearestEven(PASSING_PRODUCT / (PASSING_RATE * UTOK) as real, 1.0 / 8_388_608.0, 8_938_455_040_000_001)
  {
  }

  /** An empty bucket of any larger plan at that rate, refilled after that time. */
  lemma PassingCasePasses(p: Plan, quotient: real, limit: real, ts: int)
    requires ValidPlan(p) && p.burstCapacity > EXACT_CAPACITY && p.burstRefillPerSec == PASSING_RATE
    requires FullAfter((p.burstCapacity * UTOK) as real, (PASSING_RATE * UTOK) as real, quotient, limit)
    ensures Possible(PassingCase(quotient, limit), p, PASSING_ELAPSED)
    ensures RoundedLevel(PassingCase(quotient, limit), p, 0, ts, ts + PASSING_ELAPSED)
         == Level(PASSING_CREDIT, ts + PASSING_ELAPSED + 1)
  {
    var c := PassingCase(quotient, limit);
    PassingRoundingsArePossible();
    assert Possible(c, p, PASSING_ELAPSED);
    LimitBounds(c, p, PASSING_ELAPSED);
    assert limit * 541.0 >= 576_461_000_000.0 - 0.001;
    assert PASSING_ELAPSED as real < limit;
    assert c.credit.Floor == PASSING_CREDIT;
    PassingCeil();
  }

  lemma PassingCeil()
    ensures Ceil(PASSING_ADVANCE) == PASSING_ELAPSED + 1
  {
  }

  lemma PassingRoundingsArePossible()
    ensures Earns(PASSING_ELAPSED as real, (PASSING_RATE * UTOK) as real, PASSING_ELAPSED as real / UTOK_R, PASSING_CREDIT as real)
    ensures Advances(PASSING_CREDIT as real, (PASSING_RATE * UTOK) as real, PASSING_PRODUCT, PASSING_ADVANCE)
  {
    assert (PASSING_CREDIT as real * UTOK_R).Floor == 576_460_859_375_000_000;
  }

  /** The promise holds for every rate and every possible rounding of a plan exactly when its
      capacity is at most 576460; above it, round-to-nearest already breaks it. */
  lemma ClockStaysBehindExactlyForSmallCapacities(capacity: int)
    requires 1 <= capacity <= 1_000_000
    ensures (forall p: Plan :: ValidPlan(p) && p.burstCapacity == capacity ==> ClockStaysBehind(p))
        <==> capacity <= EXACT_CAPACITY
  {
    if capacity <= EXACT_CAPACITY {
      forall p: Plan | ValidPlan(p) && p.burstCapacity == capacity
        ensures ClockStaysBehind(p)
      {
        forall c: Rounding, tokens: nat, ts: int, now: int | Possible(c, p, Max(0, now - ts))
          ensures RoundedLevel(c, p, tokens, ts, now).ts <= Max(ts, now)
        {
          SmallPlansStayBehind(c, p, tokens, ts, now);
        }
      }
    } else {
      var p := Plan(capacity, PASSING_RATE, 1, 1, 1, 0);
      PassingPlan(p);
    }
  }

  lemma PassingPlan(p: Plan)
    requires ValidPlan(p) && p.burstCapacity > EXACT_CAPACITY && p.burstRefillPerSec == PASSING_RATE
    ensures !ClockStaysBehind(p)
  {
    var cap, rate := (p.burstCapacity * UTOK) as real, (PASSING_RATE * UTOK) as real;
    assert FullAfter(cap, rate, cap / rate, cap / rate * UTOK_R);
    var c := PassingCase(cap / rate, cap / rate * UTOK_R);
    PassingCasePasses(p, cap / rate, cap / rate * UTOK_R, 0);
    assert Possible(c, p, Max(0, PASSING_ELAPSED - 0));
    assert RoundedLevel(c, p, 0, 0, PASSING_ELAPSED).ts > Max(0, PASSING_ELAPSED);
  }

  // ----- the script's other divisions

  lemma CloseToExact(x: real, q: real, b: real, a: real)
    requires b > 0.0 && 0.0 <= a <= 1000000000000.0 && x * b == a && x >= 0.0 && Near(x, q)
    ensures a - 0.001 <= q * b <= a + 0.001
  {
    ScaledRounding(x, q, b, a, q * b);
  }

  lemma LessByProduct(u: real, v: real, b: real)
    requires b > 0.0 && u * b < v * b
    ensures u < v
  {
    if v <= u { ProductOrder(v, u, b); }
  }

  lemma BetweenMultiples(k: int, b: int, a: int, q: real, qb: real)
    requires b > 0 && k * b + 1 <= a <= (k + 1) * b - 1 && qb == q * b as real
    requires a as real - 0.001 <= qb <= a as real + 0.001
    ensures k as real < q < (k + 1) as real
  {
    var low, high := k * b, (k + 1) * b;
    IntProduct(k, b, low);
    IntProduct(k + 1, b, high);
    LessByProduct(k as real, q, b as real);
    LessByProduct(q, (k + 1) as real, b as real);
  }

  lemma WholeQuotient(a: int, b: int, k: int, q: real)
    requires 0 <= a <= 1_000_000_000_000 && b > 0 && a == k * b && 0 <= k <= a && Rounds(a as real / b as real, q)
    ensures q == k as real
  {
    IntProduct(k, b, a);
    QuotientOfProduct(k as real, b as real, a as real);
    WholeIsExact(k);
  }

  lemma FractionalQuotient(a: int, b: int, k: int, q: real)
    requires 0 <= a <= 1_000_000_000_000 && b > 0 && k * b + 1 <= a <= (k + 1) * b - 1 && Rounds(a as real / b as real, q)
    ensures q.Floor == k && Ceil(q) == k + 1
  {
    QuotientTimes(a as real, b as real);
    CloseToExact(a as real / b as real, q, b as real, a as real);
    BetweenMultiples(k, b, a, q, q * b as real);
    FloorBetween(q, k);
  }

  lemma CeilOf(a: int, b: int, k: int, kb: int)
    requires b > 0 && kb == k * b && kb <= a < kb + b
    ensures CeilDiv(a, b) == if a == kb then k else k + 1
  {
    OneMoreMultiple(k, b, kb);
    OneMoreMultiple(k - 1, b, kb - b);
    CeilIsLeast(a, b, k - 1);
    CeilIsLeast(a, b, k);
    CeilIsLeast(a, b, k + 1);
  }

  lemma OneMoreMultiple(k: int, b: int, kb: int)
    ensures kb == k * b <==> (k + 1) * b == kb + b
  {
  }

  /** Where an integer quotient lies: on its floor, or strictly between it and the next. */
  lemma QuotientParts(a: int, b: int, k: int, kb: int)
    requires a >= 0 && b > 0 && k == a / b && kb == k * b
    ensures 0 <= k <= a
    ensures a == kb || kb + 1 <= a <= kb + b - 1
    ensures CeilDiv(a, b) == if a == kb then k else k + 1
  {
    assert a == kb + a % b;
    FloorReaches(a, b, 0);
    MulMonotone(k, 1, b);
    CeilOf(a, b, k, kb);
  }

  /** Floors and ceilings of a rounded quotient are those of the exact one: the calendar's
      divisions, the reset and retry times and the key lifetimes come out as in integers. */
  lemma QuotientsRoundAlike(a: int, b: int, q: real)
    requires 0 <= a <= 1_000_000_000_000 && b > 0 && Rounds(a as real / b as real, q)
    ensures q.Floor == a / b && Ceil(q) == CeilDiv(a, b)
  {
    QuotientParts(a, b, a / b, a / b * b);
    OneMoreMultiple(a / b, b, a / b * b);
    if a == a / b * b {
      WholeQuotient(a, b, a / b, q);
      CeilOfWhole(a / b);
    } else {
      FractionalQuotient(a, b, a / b, q);
    }
  }

  lemma CeilOfWhole(k: int)
    ensures (k as real).Floor == k && Ceil(k as real) == k
  {
    assert -(k as real) == (-k) as real;
  }

  lemma FloorBetween(q: real, k: int)
    requires k as real < q < (k + 1) as real
    ensures q.Floor == k && Ceil(q) == k + 1
  {
  }
}
