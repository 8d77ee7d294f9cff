/** The token bucket's refill in exact arithmetic: every rounding under-credits. */
module TokenBucket {
  import opened Arith
  import opened Limits
  import opened CheckScript

  /** Refill potential: what the bucket holds minus what its clock has been paid for. */
  function Potential(tokens: int, ts: int, rate: int): int {
    tokens * UTOK - rate * ts
  }

  lemma CreditBounds(elapsed: int, rate: int)
    requires rate > 0 && elapsed >= 0
    ensures 0 <= Credit(elapsed, rate) * UTOK <= elapsed * rate < (Credit(elapsed, rate) + 1) * UTOK
  {
    MulMonotone(rate, 0, elapsed);
  }

  /** A credit is worth its own time, rounded up by less than a microsecond and never past now. */
  lemma WorthBounds(add: int, elapsed: int, rate: int)
    requires rate > 0 && add == Credit(elapsed, rate) && elapsed >= 0
    ensures add * UTOK <= Worth(add, rate) * rate < add * UTOK + rate
    ensures 0 <= Worth(add, rate) <= elapsed
  {
    CreditBounds(elapsed, rate);
    CeilBounds(add * UTOK, rate);
    CeilIsLeast(add * UTOK, rate, elapsed);
    CeilIsLeast(add * UTOK, rate, -1);
    assert -1 * rate == -rate;
  }

  /** For any rate and any clock, even one that ran backwards: the credit never exceeds the
      elapsed time's worth, the stored clock moves only forward and never past the reading,
      and the potential never rises. */
  lemma RefillUnderCredits(tokens: int, ts: int, cap: int, rate: int, now: int)
    requires rate > 0 && cap > 0 && tokens >= 0
    ensures var l := RefillLevel(tokens, ts, cap, rate, now);
            && ts <= l.ts <= Max(ts, now)
            && l.tokens * UTOK <= tokens * UTOK + rate * Max(0, now - ts)
            && Potential(l.tokens, l.ts, rate) <= Potential(tokens, ts, rate)
            && (tokens <= cap ==> l.tokens <= cap)
            && (l == Level(cap, now) || l.tokens >= tokens)
  {
    var elapsed := Max(0, now - ts);
    var add := Credit(elapsed, rate);
    CreditBounds(elapsed, rate);
    WorthBounds(add, elapsed, rate);
    var worth := Worth(add, rate);
    assert rate * (ts + elapsed) == rate * ts + elapsed * rate;
    assert rate * (ts + worth) == rate * ts + worth * rate;
  }

  /** A refill that does not fill the bucket loses less than one microsecond's worth. */
  lemma RefillLosesLittle(tokens: int, ts: int, cap: int, rate: int, now: int)
    requires rate > 0 && cap > 0 && tokens >= 0
    requires RefillLevel(tokens, ts, cap, rate, now) != Level(cap, now)
    ensures var l := RefillLevel(tokens, ts, cap, rate, now);
            Potential(tokens, ts, rate) - rate < Potential(l.tokens, l.ts, rate)
  {
    var elapsed := Max(0, now - ts);
    var add := Credit(elapsed, rate);
    WorthBounds(add, elapsed, rate);
    var worth := Worth(add, rate);
    assert rate * (ts + worth) == rate * ts + worth * rate;
  }

  lemma WholeRate(elapsed: int, r: int)
    ensures elapsed * (r * UTOK) == (elapsed * r) * UTOK
    ensures Credit(elapsed, r * UTOK) == elapsed * r
  {
    assert elapsed * (r * UTOK) == (elapsed * r) * UTOK;
  }

  /** The rate is always sent as r * 10^6, so the credit is exactly r per microsecond and the
      stored clock catches up completely. */
  lemma RefillIsExact(tokens: int, ts: int, cap: int, r: int, now: int)
    requires r > 0 && 0 <= tokens <= cap && ts <= now
    ensures RefillLevel(tokens, ts, cap, r * UTOK, now) == Level(Min(cap, tokens + r * (now - ts)), now)
  {
    var elapsed := now - ts;
    var add := elapsed * r;
    WholeRate(elapsed, r);
    MulMonotone(r, 0, elapsed);
    assert elapsed >= 1 ==> add >= r by { if elapsed >= 1 { MulMonotone(r, 1, elapsed); } }
    assert add * UTOK == elapsed * (r * UTOK);
    CeilIsLeast(add * UTOK, r * UTOK, elapsed);
    CeilIsLeast(add * UTOK, r * UTOK, elapsed - 1);
    assert (elapsed - 1) * (r * UTOK) == elapsed * (r * UTOK) - r * UTOK;
  }
}
