/** When one refill in doubles gives the burst verdict of exact arithmetic: always, except at a
    cost that the exact refill reaches to the microtoken after a time that is no whole number of
    seconds. */
module RoundedVerdict {
  import opened Arith
  import opened Limits
  import opened CheckScript
  import opened TokenBucket
  import opened RoundedRefill
  import opened RoundedLoss
  import opened RoundedRun

  function Elapsed(ts: int, now: int): int {
    Max(0, now - ts)
  }

  /** Whatever each operation rounds to, the refilled bucket reaches x microtokens exactly when it
      does in exact arithmetic. */
  ghost predicate AlwaysAgrees(p: Plan, tokens: int, ts: int, now: int, x: int)
    requires ValidPlan(p)
  {
    forall c: Rounding :: Possible(c, p, Elapsed(ts, now)) ==> Agrees(c, p, tokens, ts, now, x)
  }

  predicate Agrees(c: Rounding, p: Plan, tokens: int, ts: int, now: int, x: int)
    requires ValidPlan(p)
  {
    RoundedLevel(c, p, tokens, ts, now).tokens >= x
    <==> RefillLevel(tokens, ts, Cap(p), p.burstRefillPerSec * UTOK, now).tokens >= x
  }

  /** The elapsed time pays for x exactly, and is not a whole number of seconds. */
  predicate OnTheBoundary(p: Plan, tokens: int, elapsed: int, x: int) {
    tokens < x <= Cap(p) && tokens + elapsed * p.burstRefillPerSec == x && elapsed % UTOK != 0
  }

  lemma ExactTokens(p: Plan, tokens: int, ts: int, now: int)
    requires ValidPlan(p) && 0 <= tokens < Cap(p)
    ensures RefillLevel(tokens, ts, Cap(p), p.burstRefillPerSec * UTOK, now).tokens
         == Min(Cap(p), tokens + Elapsed(ts, now) * p.burstRefillPerSec)
  {
    if ts <= now {
      RefillIsExact(tokens, ts, Cap(p), p.burstRefillPerSec, now);
    } else {
      assert Credit(0, p.burstRefillPerSec * UTOK) == 0;
    }
  }

  // ----- whole seconds are exact

  lemma WholeSeconds(elapsed: int, seconds: int)
    requires 0 <= elapsed == seconds * UTOK && elapsed <= 1_000_000 * UTOK
    ensures elapsed as real / UTOK_R == seconds as real && Exact(elapsed as real / UTOK_R)
  {
    assert elapsed as real == seconds as real * UTOK_R;
    WholeIsExact(seconds);
  }

  lemma WholeCredit(s: int, r: int, rate: real, credit: int)
    requires rate == r as real * UTOK_R && credit == s * UTOK * r && 0 <= credit <= 1_000_000 * UTOK
    ensures s as real * rate == credit as real && Exact(credit as real)
  {
    var micros := s * UTOK;
    IntProduct(micros, r, credit);
    assert micros as real == s as real * UTOK_R;
    assert s as real * rate == (s as real * UTOK_R) * r as real;
    WholeIsExact(credit);
  }

  /** Exact seconds, and an exact product of them with the rate, leave nothing to round. */
  lemma EarnsExactly(elapsed: real, rate: real, seconds: real, credit: real, s: real, exact: real)
    requires Earns(elapsed, rate, seconds, credit)
    requires elapsed / UTOK_R == s && Exact(s) && s * rate == exact && Exact(exact)
    ensures credit == exact
  {
    assert seconds == s;
    assert seconds * rate == exact;
  }

  /** After whole seconds the credit of a bucket that is not overfilled is exact. */
  lemma WholeSecondsEarnExactly(elapsed: int, s: int, r: int, exact: int, rate: real, seconds: real, credit: real)
    requires elapsed == s * UTOK && r >= 1 && exact == elapsed * r && 0 <= elapsed <= exact <= 1_000_000 * UTOK
    requires rate == r as real * UTOK_R && Earns(elapsed as real, rate, seconds, credit)
    ensures credit == exact as real
  {
    WholeSeconds(elapsed, s);
    WholeCredit(s, r, rate, exact);
    EarnsExactly(elapsed as real, rate, seconds, credit, s as real, exact as real);
  }

  lemma WholeSecondsCreditExactly(c: Rounding, p: Plan, elapsed: int, exact: int)
    requires ValidPlan(p) && elapsed >= 0 && elapsed % UTOK == 0 && exact == elapsed * p.burstRefillPerSec <= Cap(p)
    requires Earns(elapsed as real, (p.burstRefillPerSec * UTOK) as real, c.seconds, c.credit)
    ensures c.credit == exact as real
  {
    var r := p.burstRefillPerSec;
    MulMonotone(elapsed, 1, r);
    InUnits(r);
    WholeSecondsEarnExactly(elapsed, elapsed / UTOK, r, exact, (r * UTOK) as real, c.seconds, c.credit);
  }

  lemma AgreesOffTheBoundary(c: Rounding, p: Plan, tokens: nat, ts: int, now: int, x: int)
    requires ValidPlan(p) && tokens < Cap(p) && Possible(c, p, Elapsed(ts, now))
    requires !OnTheBoundary(p, tokens, Elapsed(ts, now), x)
    ensures Agrees(c, p, tokens, ts, now, x)
  {
    var elapsed, l := Elapsed(ts, now), RoundedLevel(c, p, tokens, ts, now);
    var exact := elapsed * p.burstRefillPerSec;
    ExactTokens(p, tokens, ts, now);
    RefillCredits(c, p, tokens, ts, now);
    if l.tokens == tokens + exact - 1 && x == tokens + exact && tokens < x <= Cap(p) {
      WholeSecondsCreditExactly(c, p, elapsed, exact);
      ExactCreditCounts(c, p, tokens, ts, now, exact);
    }
  }

  lemma ExactCreditCounts(c: Rounding, p: Plan, tokens: nat, ts: int, now: int, exact: int)
    requires ValidPlan(p) && tokens < Cap(p) && c.credit == exact as real && exact > 0
    ensures RoundedLevel(c, p, tokens, ts, now).tokens >= Min(Cap(p), tokens + exact)
  {
    assert c.credit.Floor == exact;
  }

  // ----- on the boundary some rounding comes out one short

  lemma ShortSeconds(elapsed: int, seconds: real)
    requires 0 < elapsed <= 1_000_000 * UTOK && elapsed % UTOK != 0
    requires seconds == elapsed as real / UTOK_R * (1.0 - U / 2.0)
    ensures Rounds(elapsed as real / UTOK_R, seconds)
  {
    var x := elapsed as real / UTOK_R;
    if Exact(x) {
      NotWhole(elapsed, x.Floor);
    }
  }

  lemma NotWhole(elapsed: int, n: int)
    requires elapsed % UTOK != 0
    ensures elapsed as real / UTOK_R != n as real
  {
    if elapsed as real / UTOK_R == n as real {
      WholeFromReal(elapsed, n);
    }
  }

  lemma WholeFromReal(elapsed: int, n: int)
    requires elapsed as real / UTOK_R == n as real
    ensures elapsed % UTOK == 0
  {
    assert elapsed as real == (n * UTOK) as real;
    assert elapsed == n * UTOK;
  }

  /** The credit of those seconds, as real numbers. */
  lemma ShortProduct(e: real, r: real, er: real, rate: real, seconds: real)
    requires rate == r * UTOK_R && er == e * r && seconds == e / UTOK_R * (1.0 - U / 2.0)
    ensures seconds * rate == er - er * (U / 2.0)
  {
    var t := e / UTOK_R;
    assert t * rate == er by { assert t * UTOK_R == e; assert t * rate == (t * UTOK_R) * r; }
    var f := 1.0 - U / 2.0;
    assert (t * f) * rate == (t * rate) * f;
  }

  lemma ShortFloor(exact: int, x: real)
    requires 0 < exact <= 1_000_000 * UTOK && x == exact as real - exact as real * (U / 2.0)
    ensures x.Floor == exact - 1
  {
    FloorBetween(x, exact - 1);
  }

  lemma ShortEarns(elapsed: int, r: int, exact: int, rate: real, seconds: real)
    requires 0 < elapsed <= 1_000_000 * UTOK && elapsed % UTOK != 0 && r > 0
    requires exact == elapsed * r && 0 < exact <= 1_000_000 * UTOK && rate == r as real * UTOK_R
    requires seconds == elapsed as real / UTOK_R * (1.0 - U / 2.0)
    ensures Earns(elapsed as real, rate, seconds, seconds * rate) && (seconds * rate).Floor == exact - 1
  {
    ShortSeconds(elapsed, seconds);
    IntProduct(elapsed, r, exact);
    ShortProduct(elapsed as real, r as real, exact as real, rate, seconds);
    ShortFloor(exact, seconds * rate);
  }

  /** A fill time that is not reached: exact when the time is too short anyway, and rounded up a
      little when it would be reached exactly. */
  lemma LateFullAfter(p: Plan, elapsed: int) returns (quotient: real, limit: real)
    requires ValidPlan(p) && 0 < elapsed && elapsed % UTOK != 0 && 0 < elapsed * p.burstRefillPerSec <= Cap(p)
    ensures FullAfter(Cap(p) as real, (p.burstRefillPerSec * UTOK) as real, quotient, limit) && elapsed as real < limit
  {
    var cap, r, rate := Cap(p) as real, p.burstRefillPerSec, (p.burstRefillPerSec * UTOK) as real;
    InUnits(r);
    if elapsed * r < Cap(p) {
      quotient, limit := cap / rate, cap / rate * UTOK_R;
      ExactFullAfter(cap, rate);
      NotFullYetExactly(elapsed, r, Cap(p), cap / rate, rate);
    } else {
      quotient, limit := RaisedLimit(elapsed, r, Cap(p), rate);
    }
  }

  lemma NotFullYetExactly(elapsed: int, r: int, cap: int, q: real, rate: real)
    requires r > 0 && elapsed * r < cap && rate == r as real * UTOK_R && q == cap as real / rate
    ensures elapsed as real < q * UTOK_R
  {
    var limit := q * UTOK_R;
    IntProduct(elapsed, r, elapsed * r);
    assert limit * r as real == cap as real by {
      assert q * rate == cap as real;
      assert limit * r as real == q * (UTOK_R * r as real);
    }
    LessByProduct(elapsed as real, limit, r as real);
  }

  lemma RaisedLimit(elapsed: int, r: int, cap: int, rate: real) returns (quotient: real, limit: real)
    requires r > 0 && 0 < elapsed <= 1_000_000 * UTOK && elapsed % UTOK != 0 && elapsed * r == cap && rate == r as real * UTOK_R
    ensures FullAfter(cap as real, rate, quotient, limit) && elapsed as real < limit
  {
    var t := elapsed as real / UTOK_R;
    ExactFillTime(elapsed, r, cap, rate, t);
    quotient := t * (1.0 + U / 2.0);
    limit := quotient * UTOK_R;
    RaisedTime(elapsed, t, quotient);
  }

  /** cap / rate is the elapsed time in seconds, when that pays for exactly the capacity. */
  lemma ExactFillTime(elapsed: int, r: int, cap: int, rate: real, t: real)
    requires r > 0 && elapsed * r == cap && rate == r as real * UTOK_R && t == elapsed as real / UTOK_R
    ensures cap as real / rate == t
  {
    IntProduct(elapsed, r, cap);
    assert t * UTOK_R == elapsed as real;
    assert t * rate == (t * UTOK_R) * r as real;
    QuotientOfProduct(t, rate, cap as real);
  }

  lemma RaisedTime(elapsed: int, t: real, quotient: real)
    requires 0 < elapsed <= 1_000_000 * UTOK && elapsed % UTOK != 0
    requires t == elapsed as real / UTOK_R && quotient == t * (1.0 + U / 2.0)
    ensures Rounds(t, quotient) && Rounds(quotient * UTOK_R, quotient * UTOK_R) && elapsed as real < quotient * UTOK_R
  {
    if Exact(t) {
      NotWhole(elapsed, t.Floor);
    }
    assert quotient * UTOK_R == elapsed as real + elapsed as real * (U / 2.0);
  }

  /** On the boundary: roundings that doubles' error bound allows, with a credit one short. */
  lemma ShortRounding(p: Plan, elapsed: int) returns (c: Rounding)
    requires ValidPlan(p) && 0 < elapsed <= 1_000_000 * UTOK && elapsed % UTOK != 0
    requires 0 < elapsed * p.burstRefillPerSec <= Cap(p)
    ensures Possible(c, p, elapsed) && c.credit.Floor == elapsed * p.burstRefillPerSec - 1 && elapsed as real < c.limit
  {
    var r, exact, rate := p.burstRefillPerSec, elapsed * p.burstRefillPerSec, (p.burstRefillPerSec * UTOK) as real;
    var quotient, limit := LateFullAfter(p, elapsed);
    var seconds := elapsed as real / UTOK_R * (1.0 - U / 2.0);
    InUnits(r);
    ShortEarns(elapsed, r, exact, rate, seconds);
    var add := (exact - 1) as real;
    c := Rounding(quotient, limit, seconds, seconds * rate, add * UTOK_R, add * UTOK_R / rate);
    ExactAdvances(add, rate);
    PossibleFromParts(c, p, elapsed, Cap(p) as real, rate, add);
  }

  lemma ExactAdvances(add: real, rate: real)
    requires add >= 0.0 && rate > 0.0
    ensures Advances(add, rate, add * UTOK_R, add * UTOK_R / rate)
  {
  }

  lemma BoundaryRefutes(p: Plan, tokens: nat, ts: int, now: int, x: int)
    requires ValidPlan(p) && tokens < Cap(p) && OnTheBoundary(p, tokens, Elapsed(ts, now), x)
    ensures !AlwaysAgrees(p, tokens, ts, now, x)
  {
    var elapsed, r := Elapsed(ts, now), p.burstRefillPerSec;
    MulMonotone(elapsed, 1, r);
    var c := ShortRounding(p, elapsed);
    ExactTokens(p, tokens, ts, now);
    assert RoundedLevel(c, p, tokens, ts, now).tokens < x;
    assert !Agrees(c, p, tokens, ts, now, x);
  }

  /** The exact condition. A refill in doubles and one in exact arithmetic give the same verdict
      on x microtokens, whatever is rounded, exactly when the elapsed time does not pay for x to
      the microtoken, or is a whole number of seconds (or the bucket holds x already, or x does
      not fit it). That the verdicts then agree holds of the code; that they otherwise can
      differ is said of the rounding model, in which each operation errs by any amount within
      its bound. */
  lemma VerdictsAgreeExactlyOffTheBoundary(p: Plan, tokens: nat, ts: int, now: int, x: int)
    requires ValidPlan(p) && tokens < Cap(p)
    ensures AlwaysAgrees(p, tokens, ts, now, x) <==> !OnTheBoundary(p, tokens, Elapsed(ts, now), x)
  {
    if OnTheBoundary(p, tokens, Elapsed(ts, now), x) {
      BoundaryRefutes(p, tokens, ts, now, x);
    } else {
      forall c: Rounding | Possible(c, p, Elapsed(ts, now))
        ensures Agrees(c, p, tokens, ts, now, x)
      {
        AgreesOffTheBoundary(c, p, tokens, ts, now, x);
      }
    }
  }
}
