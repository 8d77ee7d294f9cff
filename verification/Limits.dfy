/** Plan limits and the integer arguments the admission script receives. */
module Limits {
  import opened Arith

  const UTOK := 1_000_000

  /** A resolved key's limits, in tokens, requests and seconds. */
  datatype Plan = Plan(
    burstCapacity: int,
    burstRefillPerSec: int,
    sustainedLimit: int,
    sustainedWindowSeconds: int,
    monthlyQuota: int,
    quotaSoftPct: int)

  /** The bounds that every plan and override write enforces. */
  predicate ValidPlan(p: Plan) {
    && 1 <= p.burstCapacity <= 1_000_000
    && 1 <= p.burstRefillPerSec <= 100_000
    && 1 <= p.sustainedLimit <= 1_000_000
    && 1 <= p.sustainedWindowSeconds <= 86_400
    && 1 <= p.monthlyQuota <= 1_000_000_000_000
    && 0 <= p.quotaSoftPct <= 100
  }

  /** The script's numeric arguments 1 to 6. */
  datatype Argv = Argv(cap: int, rate: int, sustained: int, windowUs: int, hard: int, soft: int)

  function ScriptArgv(p: Plan): Argv {
    Argv(
      p.burstCapacity * UTOK,
      p.burstRefillPerSec * UTOK,
      p.sustainedLimit,
      p.sustainedWindowSeconds * UTOK,
      p.monthlyQuota,
      if p.quotaSoftPct > 0 then p.monthlyQuota * p.quotaSoftPct / 100 else 0)
  }

  /** The soft threshold is never above the hard quota. */
  lemma SoftAtMostHard(p: Plan)
    requires ValidPlan(p)
    ensures 0 <= ScriptArgv(p).soft <= ScriptArgv(p).hard
  {
    PercentOfQuota(p.monthlyQuota, p.quotaSoftPct, p.monthlyQuota * p.quotaSoftPct);
  }

  /** The threshold sent is the percentage of the quota, rounded down: the greatest number whose
      hundredfold the product reaches. */
  lemma SoftIsThePercentage(p: Plan, s: int)
    requires ValidPlan(p)
    ensures p.quotaSoftPct > 0 ==> (s <= ScriptArgv(p).soft <==> 100 * s <= p.monthlyQuota * p.quotaSoftPct)
    ensures p.quotaSoftPct == 0 ==> ScriptArgv(p).soft == 0
  {
    FloorReaches(p.monthlyQuota * p.quotaSoftPct, 100, s);
  }

  lemma PercentOfQuota(quota: int, pct: int, product: int)
    requires quota >= 1 && 0 <= pct <= 100 && product == quota * pct
    ensures 0 <= product / 100 <= quota
  {
    MulMonotone(quota, 0, pct);
    MulMonotone(quota, pct, 100);
  }

  /** Refill in microtokens per microsecond. */
  function PerMicro(argv: Argv): int {
    argv.rate / UTOK
  }

  /** What the run-wide results need of the arguments; every bounded plan gives it. */
  predicate ProperArgv(argv: Argv) {
    && argv.cap > 0 && argv.sustained > 0 && argv.windowUs > 0 && argv.hard > 0
    && argv.rate == PerMicro(argv) * UTOK && PerMicro(argv) > 0
  }

  lemma PlansAreProper(p: Plan)
    requires ValidPlan(p)
    ensures ProperArgv(ScriptArgv(p)) && PerMicro(ScriptArgv(p)) == p.burstRefillPerSec
  {
  }
}
