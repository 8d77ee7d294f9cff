/** The burst bound in double arithmetic: whatever each operation rounds to, at any clock. */
module RoundedEnvelope {
  import opened Arith
  import opened Limits
  import opened CheckScript
  import opened RoundedRefill

  /** One check of a bucket: the clock it read, whether the other layers agreed, and what its
      double operations came out as. */
  datatype Visit = Visit(now: int, cost: nat, othersAllow: bool, rounding: Rounding)

  predicate Charges(p: Plan, l: Level, v: Visit) {
    v.othersAllow && RoundedLevel(v.rounding, p, l.tokens, l.ts, v.now).tokens >= v.cost * UTOK
  }

  /** The stored bucket after a visit: a deny leaves it as it was. */
  function Visited(p: Plan, l: Level, v: Visit): Level {
    var refilled := RoundedLevel(v.rounding, p, l.tokens, l.ts, v.now);
    if Charges(p, l, v) then Level(refilled.tokens - v.cost * UTOK, refilled.ts) else l
  }

  function Bucket(p: Plan, start: Level, vs: seq<Visit>): Level {
    if vs == [] then start else Visited(p, Bucket(p, start, vs[..|vs| - 1]), vs[|vs| - 1])
  }

  function Spent(p: Plan, start: Level, vs: seq<Visit>): int {
    if vs == [] then 0
    else
      var n := |vs| - 1;
      Spent(p, start, vs[..n]) + (if Charges(p, Bucket(p, start, vs[..n]), vs[n]) then vs[n].cost else 0)
  }

  /** Every visit's roundings are ones that doubles allow for the time that had elapsed. */
  predicate AllPossible(p: Plan, start: Level, vs: seq<Visit>)
    requires ValidPlan(p)
  {
    vs == []
    || (var n := |vs| - 1;
        && AllPossible(p, start, vs[..n])
        && Possible(vs[n].rounding, p, Max(0, vs[n].now - Bucket(p, start, vs[..n]).ts)))
  }

  function LatestReading(vs: seq<Visit>, t: int): int {
    if vs == [] then t else Max(LatestReading(vs[..|vs| - 1], t), vs[|vs| - 1].now)
  }

  predicate Accounted(l: Level, start: Level, spent: int, r: int, latest: int) {
    && 0 <= l.tokens
    && start.ts <= l.ts <= latest + 1
    && l.tokens - r * l.ts + spent * UTOK <= start.tokens - r * start.ts
  }

  lemma VisitKeepsAccount(p: Plan, l: Level, start: Level, spent: int, latest: int, v: Visit)
    requires ValidPlan(p) && Possible(v.rounding, p, Max(0, v.now - l.ts))
    requires Accounted(l, start, spent, p.burstRefillPerSec, latest)
    ensures Accounted(Visited(p, l, v), start, spent + (if Charges(p, l, v) then v.cost else 0),
                      p.burstRefillPerSec, Max(latest, v.now))
  {
    RoundedRefillUnderCredits(v.rounding, p, l.tokens, l.ts, v.now);
    ChargeIsAccounted(RoundedLevel(v.rounding, p, l.tokens, l.ts, v.now), l, start, spent, v, p.burstRefillPerSec,
                      p.burstCapacity * UTOK, latest);
  }

  lemma ChargeIsAccounted(refilled: Level, l: Level, start: Level, spent: int, v: Visit, r: int, cap: int, latest: int)
    requires Accounted(l, start, spent, r, latest)
    requires Conservative(l.tokens, l.ts, v.now, cap, r, refilled)
    ensures refilled.tokens >= v.cost * UTOK ==>
              Accounted(Level(refilled.tokens - v.cost * UTOK, refilled.ts), start, spent + v.cost, r, Max(latest, v.now))
    ensures Accounted(l, start, spent, r, Max(latest, v.now))
  {
  }

  lemma {:induction false} VisitsAreAccounted(p: Plan, start: Level, vs: seq<Visit>)
    requires ValidPlan(p) && 0 <= start.tokens && AllPossible(p, start, vs)
    ensures Accounted(Bucket(p, start, vs), start, Spent(p, start, vs), p.burstRefillPerSec, LatestReading(vs, start.ts))
  {
    if vs != [] {
      var n := |vs| - 1;
      VisitsAreAccounted(p, start, vs[..n]);
      VisitKeepsAccount(p, Bucket(p, start, vs[..n]), start, Spent(p, start, vs[..n]), LatestReading(vs[..n], start.ts), vs[n]);
    }
  }

  lemma AccountBoundsSpending(l: Level, start: Level, spent: int, r: int, latest: int)
    requires Accounted(l, start, spent, r, latest)
    ensures spent * UTOK <= start.tokens + r * (l.ts - start.ts)
    ensures start.ts <= l.ts <= latest + 1
  {
    assert r * (l.ts - start.ts) == r * l.ts - r * start.ts;
  }

  /** From any stored bucket, over any visits at any clock readings and with any roundings that
      doubles allow: what is spent is at most what was there plus the refill of the stored
      clock's advance, and that clock is at most one microsecond past the largest reading. */
  lemma RoundingNeverOverAdmits(p: Plan, start: Level, vs: seq<Visit>)
    requires ValidPlan(p) && 0 <= start.tokens && AllPossible(p, start, vs)
    ensures var end := Bucket(p, start, vs);
            && Spent(p, start, vs) * UTOK <= start.tokens + p.burstRefillPerSec * (end.ts - start.ts)
            && start.ts <= end.ts <= LatestReading(vs, start.ts) + 1
  {
    VisitsAreAccounted(p, start, vs);
    AccountBoundsSpending(Bucket(p, start, vs), start, Spent(p, start, vs), p.burstRefillPerSec, LatestReading(vs, start.ts));
  }
}
