# quotaguard: the admission decision and the protocols around it, verified

quotaguard decides API requests with one atomic Redis script over three layers: a token bucket, a
sliding-window log and a monthly counter. This project models that script, the quota lifecycle
around it (rollup, restore, reconciliation, webhook outbox) and the in-process key cache, and
proves properties of every run of the model.

`dafny verify dfyconfig.toml` checks everything.

## How it is organised

| module | what it is |
|---|---|
| `Arith`, `Limits`, `Calendar` | integer division, plan bounds and script arguments, the civil calendar |
| `Redis`, `CheckScript`, `RedisServer` | Redis keys as typed maps with deadlines; what one script run computes; class `Server`, whose methods are the scripts statement by statement |
| `TokenBucket` | the refill in exact arithmetic |
| `RoundedRefill`, `RoundedLoss`, `RoundedVerdict`, `RoundedEnvelope` | one refill in doubles: bounds, what it loses, when it decides as exact arithmetic does, any clock |
| `RoundedRun`, `RoundedScript`, `RoundedAdmission` | in doubles: runs of one bucket, runs of the whole script over all keys, and equal checks at one instant |
| `DataLoss` | the burst and window bounds, in doubles, when Redis loses the keys |
| `History`, `Refinement` | the limiter as a specification that keeps every admission, and the proof that in exact arithmetic the script replies exactly the same |
| `OverAdmission`, `Expiry`, `RetryAfter`, `SoftThreshold`, `ExactAdmission`, `BurstEnvelope` | consequences for runs of the script |
| `Promises` | the same in a plan's own numbers, for exact arithmetic and for doubles: which checks pass, which layer is named, what limits, remainders, resets and retry times mean |
| `Accounting` | a month counter under checks, scans, upserts, restores and data loss |
| `Naming`, `Rollup`, `RollupLock` | key names, the rollup job, its advisory lock |
| `Outbox`, `SoftWarning` | webhook rows and their delivery; the soft warning from flag to row |
| `Registry`, `KeyCache`, `CacheCoherence` | plans and keys, the resolver's cache, and their interleavings |
| `Views` | the models of one bucket, of losses, of the books and of the lock agree with the script and the rollup job |

A run is any sequence of atomic steps, so concurrency is any interleaving. The clock is an input of
each step. Every key may vanish at any moment from its deadline on, or not: an expiry event names
any set of keys and drops those that are overdue. The main results are these.

* In exact arithmetic, the script, which trims, refills lazily, forgets expired keys and writes
  nothing on a deny, gives the same fifteen-element reply at every check as a specification that
  recomputes the bucket level, the window count and the month total from the full list of admissions
  (`Refinement.ScriptRefinesSpec`). The specification's bucket test needs no bucket: a cost is
  refused if and only if some stretch of the history would exceed capacity plus refill. A refill in
  doubles gives the same burst verdict, however it rounds, exactly when the elapsed time does not pay
  for the cost to the microtoken or is a whole number of seconds
  (`RoundedVerdict.VerdictsAgreeExactlyOffTheBoundary`).
* In doubles, over every run of the whole script, the window and the month still decide and report
  exactly as the specification does on the same history, and the bucket nearly so: for capacities up
  to 576460 it grants nothing that the specification refuses, and refuses nothing that the
  specification would grant with one microtoken more per admission of the slot since one that found
  its bucket absent or full, and one more (`RoundedScript.DoublesRefineClosely`).
* Nothing is over-admitted, in exact arithmetic on a forward clock (`OverAdmission.NoOverAdmission`),
  on a clock that jumps backwards (`BurstEnvelope.BurstNeverExceedsEnvelope`), in double arithmetic
  (`RoundedScript.NoOverAdmissionInDoubles`, and at any clocks `RoundedEnvelope.RoundingNeverOverAdmits`),
  and, after data loss, by one burst for each lost bucket, one window for each lost window
  (`DataLoss.LossesCostABurstAndAWindowEach`), and no more of the quota than is still lost
  (`Accounting.OverAdmissionIsAtMostLoss`).
* Every check of every run is allowed exactly when its plan has room for it, in the plan's own numbers;
  a refusal names the first layer without room, resets and retry times are exact
  (`Promises.ChecksFollowThePlan`, `Promises.ResetsAreExact`, `Promises.RetryIsTheLargestReset`), and
  a deny takes nothing (`Promises.DenyOnlyTrims`).
* Retry-After is honest if and only if the cost can fit at all, in exact arithmetic
  (`RetryAfter.RetryAfterIsHonest`) and in doubles (`RoundedScript.RetryAfterIsHonestInDoubles`).
* Equal checks at one instant admit exactly what is left: always in exact arithmetic
  (`ExactAdmission.ExactlyTheBudget`), and in doubles exactly when the plan refills at least two
  tokens a second or has a limit of one (`RoundedAdmission.AdmitsTheBudgetExactlyAboveRateOne`).

The rounding model lets each inexact double operation come out as any real within relative error
2^-53 of the exact value. What is proved for all its roundings holds of the code. Where a result is
an "exactly when", the half that says that the property fails is a statement about that model,
unless a correctly rounded input is named.

## Where the code and its documentation differ

The model follows the code.

* docs/architecture.md:214-217 says the stored clock never advances past the reading. In exact
  arithmetic that holds. With doubles it holds for every rate and elapsed time exactly when the
  burst capacity is at most 576460: above that, a credit times 10^6 can exceed 2^59, round up, and
  carry the advance one microsecond too far
  (`RoundedRefill.ClockStaysBehindExactlyForSmallCapacities`). Nothing is over-credited by it.
* The same document bounds intermediates by 2^53; the product of a credit and 10^6 can reach 10^18.
* It also bounds the error of one refill by less than one microtoken. That holds of the code for
  plans that refill one token a second and have a capacity of at most 576460, and in the rounding
  model for no other plan (`RoundedLoss.LosesNothingExactlyAtRateOne`; a plan of a higher rate may
  lose nothing in correctly rounded doubles, since the seconds of that half are no double). In
  correctly rounded doubles every plan of rate two loses a microtoken after 249 microseconds
  (`RoundedLoss.TwoCaseLoses`), every one of rate 42711 with room for 54 tokens after 1249 microseconds
  (`RoundedLoss.ShortCaseLoses`), and every one of rate one with a capacity above 576460 too
  (`RoundedLoss.SlowCaseLoses`). A bound of one microtoken holds at all rates
  exactly when the capacity is at most 576460
  (`RoundedLoss.LosesAtMostOneExactlyForSmallCapacities`); in the passing case above it 541
  microtokens are lost (`RoundedLoss.PassingCaseLoses`). No refill loses more than a microsecond's
  worth. Nor is it so that losses never accumulate (docs/architecture.md:316-317): those of successive
  refills add up (`RoundedLoss.LossesAddUp`).
* The refill in doubles can refuse what exact arithmetic grants: capacity 50, rate 100, an empty
  bucket, a cost of 29 after 290000 microseconds (`RoundedRun.DoublesCanRefuse`). For a charged
  bucket below the cost this takes an elapsed time that pays for the cost to the microtoken and is no
  whole number of seconds; at every other input the verdicts agree
  (`RoundedVerdict.VerdictsAgreeExactlyOffTheBoundary`, whose other half, that they then can differ,
  is about the rounding model).
* docs/architecture.md:310-312 says that N concurrent checks against a remaining budget of M admit
  exactly min(N, M). In doubles a refill at rate one can leave a microsecond unpaid, which the next
  check of the same instant is credited: with capacity 3, rate 1 and checks of cost 1 at 0, 999751,
  1000000 and 1000000 microseconds, the third reads a budget of one and both it and the fourth pass
  (`RoundedAdmission.OneTooMany`, `RoundedAdmission.SlipIsReached`). The promise holds exactly for
  plans of rate two or more, or with a capacity, window limit or quota of one
  (`RoundedAdmission.AdmitsTheBudgetExactlyAboveRateOne`). The fourth check is no over-admission: the
  microtoken it needs had been earned.
* docs/architecture.md:318-321 says that overlapping rollup runs never lower a persisted value. That
  holds exactly when every write comes at most the lease of 120 seconds after its run's acquire
  (`RollupLock.NeverFallsExactlyInsideTheLease`): an update overwrites what another run has written
  since the row was read.
* A check whose cost exceeds the burst capacity or the quota gets a finite retry time and is denied
  for ever (`RetryAfter.CostThatNeverFits`).
* The window's trim bound is exclusive, so an entry exactly one window old still counts.
* `restore.lua` sets the counter to the floor; docs/architecture.md:300 describes an increment. In
  one atomic script the value is the same.
* app/services/rollup.py uses `get_pool` and `registry.scripts`, which app/redis_client.py does not
  define. The model takes them as atomic runs of `restore.lua` and `unlock.lua`.
* The rollup reads a month's year from four characters, so its month is the script's exactly up to
  the year 9999 (`Naming.RollupMonthReadsBack`).

## Model

| member | source | states |
|---|---|---|
| Limits.SoftAtMostHard | app/services/checker.py:93-99 | the soft threshold lies between 0 and the hard quota for every percentage |
| Limits.PlansAreProper | app/schemas/plans.py:16-20 | a plan within its bounds sends positive limits and a rate that is a whole number of microtokens per microsecond |
| Limits.SoftIsThePercentage | app/services/checker.py:93 | the threshold sent is the greatest number whose hundredfold the quota times the percentage reaches, and 0 for a percentage of 0 |
| Calendar.DateRoundTrip | app/lua/check.lua:38-64 | every valid date comes back from its day number |
| Calendar.CivilIsGregorian | app/lua/check.lua:38-64 | for every integer day, before and after 1970, the script's date is the one found by walking the Gregorian calendar day by day, and its day number comes back |
| Calendar.ConsecutiveDays | app/lua/check.lua:38-53 | consecutive days get consecutive dates, starting from 1970-01-01 |
| Calendar.MonthInterval | app/lua/check.lua:73-79 | a second belongs to a month if and only if it lies in the month's half-open interval |
| Calendar.MonthContainsNow | app/lua/check.lua:73-79 | the month derived from a clock reading contains it, so the reported reset is positive |
| Calendar.MonthLength | app/services/checker.py:111-114 | the derived interval is as long as the policy header's month window |
| Calendar.MonthEndsAgree | app/services/rollup.py:117-123 | the rollup's month end equals the script's, for every year |
| RedisServer.Server.ReadBucket | app/lua/check.lua:83-114 | in exact arithmetic, reads and refills the bucket as the refill function says |
| RedisServer.Server.TrimWindow | app/lua/check.lua:117-119 | leaves exactly the entries at or after the bound, counts them, and drops an emptied set |
| RedisServer.Oldest | app/lua/check.lua:176 | returns the lowest score of a set of entries |
| RedisServer.Server.Consume | app/lua/check.lua:139-164 | charges all three layers with their deadlines, and raises the soft flag exactly when this charge crosses the threshold first |
| RedisServer.Server.Settle | app/lua/check.lua:139-164 | the whole keyspace after the decision, consumed or only trimmed, and the values that step 8 reports from |
| RedisServer.Server.SustainedReset | app/lua/check.lua:175-182 | seconds until the oldest entry leaves the window, never negative, 0 for an empty window |
| RedisServer.Server.RetryTime | app/lua/check.lua:190-201 | the largest retry time over the denying layers |
| RedisServer.Server.Report | app/lua/check.lua:166-201 | the limits, remainders, resets and retry time from what stands after the decision |
| RedisServer.Server.Check | app/lua/check.lua:67-208 | in exact arithmetic, one whole script run: new keyspace and reply |
| RedisServer.Server.Restore | app/lua/restore.lua:9-20 | raises a counter to a floor with the month's deadline, never lowers it, returns what stands |
| CheckScript.ClockIsTrue | app/lua/check.lua:67-79 | every TIME reply yields a reading whose second, month and month end belong together |
| TokenBucket.RefillUnderCredits | app/lua/check.lua:92-113 | in exact arithmetic, for any rate and any clock: credit at most the elapsed time's worth, the stored clock only forward and never past the reading, the potential never rises |
| TokenBucket.RefillLosesLittle | app/lua/check.lua:108-110 | in exact arithmetic, a refill that does not fill the bucket loses less than one microsecond's worth |
| TokenBucket.RefillIsExact | app/services/checker.py:95-96 | in exact arithmetic, with the rates that are sent, the credit is exact and the stored clock catches up completely |
| RoundedRefill.NeverCreditsEarly | app/lua/check.lua:97-101 | with any roundings doubles allow: the bucket is not declared full early, and the credit is the exact one or one microtoken less |
| RoundedRefill.RoundedRefillUnderCredits | app/lua/check.lua:92-113 | with any roundings: no over-credit, the potential never rises, at most one microsecond's worth lost at any capacity, the clock at most one microsecond past the reading |
| RoundedRefill.PassingCasePasses | app/lua/check.lua:108-110 | an empty bucket of any capacity above 576460 at rate 541, refilled after 1065546875 microseconds, stores a clock one microsecond past the reading |
| RoundedRefill.PassingCaseIsCorrectlyRounded | app/lua/check.lua:108-110 | that case's product and quotient are what round-to-nearest-even gives |
| RoundedRefill.ClockStaysBehindExactlyForSmallCapacities | docs/architecture.md:214-217 | the stored clock never passes the reading, for every rate, state and rounding, if and only if the capacity is at most 576460 |
| RoundedRefill.QuotientsRoundAlike | app/lua/check.lua:167-193 | floor and ceiling of a rounded quotient equal those of the exact one, so calendar, resets and lifetimes may be modelled in integers |
| RoundedLoss.SmallRefillLoss | app/lua/check.lua:97-113 | at capacities up to 576460 a refill that does not fill the bucket loses one microtoken exactly when its credit came out short at a rate above one, and nothing otherwise |
| RoundedLoss.LosesAtMostOneExactlyForSmallCapacities | docs/architecture.md:270-276 | no refill loses more than one microtoken, at any rate and rounding, if and only if the capacity is at most 576460 |
| RoundedLoss.LosesNothingExactlyAtRateOne | docs/architecture.md:270-276 | no refill of a plan loses anything, at any rounding of the model, if and only if its rate is one token a second and its capacity at most 576460; the if half holds of the code |
| RoundedLoss.TwoCaseLoses | app/lua/check.lua:101-110 | every plan of rate two loses a microtoken after 249 microseconds, in correctly rounded doubles |
| RoundedLoss.TwoCaseIsCorrectlyRounded | app/lua/check.lua:101-110 | that case's values are what round-to-nearest-even gives |
| RoundedLoss.SlowCaseLoses | app/lua/check.lua:101-110 | an empty bucket of rate one and any capacity above 576460 loses a microtoken after 576460796875 microseconds |
| RoundedLoss.SlowCaseIsCorrectlyRounded | app/lua/check.lua:101-110 | that case's values are what round-to-nearest-even gives |
| RoundedLoss.PassingCaseLoses | app/lua/check.lua:108-110 | the input that carries the clock past the reading loses 541 microtokens |
| RoundedLoss.ShortCaseLoses | app/lua/check.lua:101-110 | at rate 42711 after 1249 microseconds the credit is one microtoken short and lost |
| RoundedLoss.LossesAddUp | docs/architecture.md:316-317 | n such refills with a charge of one token after each leave the bucket n microtokens short |
| RoundedLoss.ShortCaseIsCorrectlyRounded | app/lua/check.lua:101-110 | that case's values are what round-to-nearest-even gives |
| RoundedRun.DoublesCanRefuse | app/lua/check.lua:101-115 | on a named input exact arithmetic reaches the cost of 29 and possible doubles stay one microtoken below |
| RoundedRun.RefusedCaseIsCorrectlyRounded | app/lua/check.lua:101-110 | that case's values are what round-to-nearest-even gives |
| RoundedVerdict.VerdictsAgreeExactlyOffTheBoundary | app/lua/check.lua:92-115 | a refill in doubles reaches an amount exactly when one in exact arithmetic does, under every rounding of the model, if and only if it is not the case that the amount fits the bucket, is more than the bucket held, is reached to the microtoken by the elapsed time, and that time is no whole number of seconds; the if half holds of the code |
| RoundedVerdict.WholeSecondsCreditExactly | app/lua/check.lua:101 | after whole seconds the credit is exact whatever is rounded |
| RoundedRun.RoundedVerdictIsClose | app/lua/check.lua:83-115 | over whole runs in doubles with expiry: what the bucket grants, the exact specification grants on the same history (up to a microsecond's refill above capacity 576460), and what the specification grants with one microtoken (or microsecond's refill) more per admission since one that found the bucket absent or full, and one more, the bucket grants |
| RoundedRun.SmallPlansRefineOneWay | app/lua/check.lua:83-115 | at capacities up to 576460 doubles grant nothing that the specification's burst layer refuses |
| RoundedRun.RoundedBurstBound | app/lua/check.lua:83-115 | in doubles, between any two admissions of a run the cost is at most one full bucket plus the refill between them, plus a microsecond's refill above capacity 576460 |
| RoundedRun.RetrySufficesInDoubles | app/lua/check.lua:192-194 | a refused cost that fits is granted strictly after the reported seconds, counted from the stored clock if that is ahead of the reading, whatever both refills round to |
| RoundedRun.BurstRetryIsHonestInDoubles | app/lua/check.lua:190-201 | the same over runs with expiry and no admission in between |
| RoundedRun.RetryIsHonestInDoubles | app/lua/check.lua:190-201 | in doubles, all three layers grant a cost that fits strictly after a time that covers every refusing layer, and one microsecond above capacity 576460 |
| RoundedScript.RunsAgree | app/lua/check.lua:67-164 | in every run of the whole script in doubles, over all keys and with expiry, the keyspace holds window, month and flag as the run's own admissions give them, and each bucket as nearly as rounding allows |
| RoundedScript.DoublesRefineClosely | app/lua/check.lua:67-208 | at every check of such a run the window and quota verdicts are the specification's on what was admitted, the burst verdict and level are within the rounding's slack of it, and the reply is the specification's for those verdicts and that level |
| RoundedScript.NoOverAdmissionInDoubles | app/lua/check.lua:126-143 | in every such run: the burst bound (with a microsecond's refill more above capacity 576460), the sliding-window bound and the quota bound |
| RoundedScript.RetryAfterIsHonestInDoubles | app/lua/check.lua:190-201 | in every such run, after a deny with no check of the key allowed in between, the same check strictly after the reply's retry time (and one microsecond above capacity 576460) is allowed by all layers if and only if its cost fits the bucket and the quota |
| RoundedAdmission.RefillIsStableInDoubles | app/lua/check.lua:92-113 | at rates of two and more a second refill at the same instant credits nothing, whatever both round to |
| RoundedAdmission.StableExactlyAboveRateOne | app/lua/check.lua:92-113 | that holds of a plan under every rounding if and only if its rate is at least two; at rate one correctly rounded doubles break it |
| RoundedAdmission.ExactlyTheBudgetInDoubles | docs/architecture.md:310-312 | in any sound double arithmetic, of equal checks at one instant exactly the first min(how many, whole tokens, window places, quota left) are admitted, for plans of rate two or more or with a capacity, window limit or quota of one |
| RoundedAdmission.AdmitsTheBudgetExactlyAboveRateOne | docs/architecture.md:310-312 | a plan keeps that promise in every keyspace and sound arithmetic if and only if it is such a plan |
| RoundedAdmission.OneTooMany | app/lua/check.lua:92-115 | two checks of cost one at one instant pass against a budget of one |
| RoundedAdmission.SlipIsReached | app/lua/check.lua:92-115 | two earlier checks on an empty keyspace lead there, at capacity 3 and rate 1 |
| RoundedAdmission.SlipIsCorrectlyRounded | app/lua/check.lua:92-115 | the values of that case are what round-to-nearest-even gives |
| DataLoss.LossesCostABurstAndAWindowEach | docs/architecture.md:300 | in doubles, with expiry and any losses, each lost bucket costs at most one more full bucket and each lost window at most one more full window |
| RoundedEnvelope.RoundingNeverOverAdmits | app/lua/check.lua:84-115 | over any visits, at any clocks and with any roundings, spending is at most the starting tokens plus the refill of the stored clock's advance |
| History.LevelIsRoom | app/lua/check.lua:83-115 | the recomputed bucket level admits a cost if and only if every stretch of past admissions plus that cost fits capacity plus refill |
| History.LevelAdvances | app/lua/check.lua:92-113 | between admissions the level only refills, up to the capacity |
| Refinement.PlansMakeAProperBook | app/services/checker.py:92-103 | bounded plans give limits under which all run-wide results hold |
| Refinement.RunsExtend | app/routers/check.py:47 | any later check of a known key under a new id, and any later expiry, continues a run |
| Refinement.EntriesCount | app/lua/check.lua:118-119 | with unique request ids the trimmed set has as many members as there were admissions in the window |
| Refinement.BucketReads | app/lua/check.lua:83-114 | in exact arithmetic, the stored bucket refilled, or a full one when there is none, is the level that the whole history gives |
| Refinement.CheckKeepsAgreement | app/lua/check.lua:67-208 | in exact arithmetic, one check replies as the specification and keeps the keyspace in agreement with the history |
| Refinement.ExpiryKeepsAgreement | app/lua/check.lua:146-162 | dropping any overdue keys keeps the keyspace in agreement with the history |
| Refinement.ScriptRefinesSpec | app/lua/check.lua:67-208 | in exact arithmetic, in every run with a forward clock, fixed limits and any expiries, all replies equal those recomputed from the full admission history |
| OverAdmission.AdmittedIsHistory | app/lua/check.lua:126-143 | in exact arithmetic, the checks the script allowed are exactly the specification's admissions |
| OverAdmission.BurstBound | app/lua/check.lua:115 | cost admitted between two admissions of a slot is at most one full bucket plus the refill between them |
| OverAdmission.SlidingWindow | app/lua/check.lua:117-120 | more admissions than the sustained limit span strictly more than one window |
| OverAdmission.QuotaBound | app/lua/check.lua:122-124 | a key's month total never exceeds its quota, at any point |
| OverAdmission.NoOverAdmission | app/lua/check.lua:126-143 | in exact arithmetic, the three bounds hold of what the script itself allowed, in every run |
| OverAdmission.WindowSetIsBounded | app/lua/check.lua:117-120 | the sorted set never holds more than the sustained limit |
| Expiry.EveryKeyIsDated | app/lua/check.lua:146-162 | every key of a run has a deadline |
| Expiry.KeysLiveAsLongAsNeeded | app/lua/check.lua:146-162 | what an allowed check writes goes, to the millisecond, one minute past the bucket's fill time, one minute past the window's length, and 45 days past the month's end for counter and flag, which are dated once |
| Expiry.ExpiryDropsTheOverdue | app/lua/check.lua:146-162 | an expiry drops exactly the named keys whose deadline the clock has reached |
| Expiry.GoneBucketIsFull | app/lua/check.lua:146 | a bucket that is gone would be full |
| Expiry.GoneWindowIsEmpty | app/lua/check.lua:149 | a window that is gone would be empty |
| Expiry.GoneCounterIsLongOver | app/lua/check.lua:153-155 | a counter that is gone belongs to a month over for at least 45 days |
| RetryAfter.BurstRetryIsLeast | app/lua/check.lua:192-194 | in exact arithmetic, after n whole seconds the bucket allows the cost if and only if n reaches the reported ceiling |
| RetryAfter.BurstOnlyRetry | app/lua/check.lua:190-201 | in exact arithmetic, when only the bucket denies, the reply's retry time is the least whole number of seconds that suffices |
| RetryAfter.RetryAfterIsHonest | app/lua/check.lua:190-201 | in exact arithmetic, after a deny with no admission of the key in between, the same check strictly after the retry time is allowed, across months too, if and only if its cost fits the bucket and the quota |
| RetryAfter.CostThatNeverFits | app/lua/check.lua:115-124 | a cost above capacity or quota is denied at every point of every run |
| Promises.ChecksFollowThePlan | app/lua/check.lua:115-201 | in exact arithmetic, every check of every run is allowed exactly when the plan's burst capacity and rate, window and quota have room for it on the history; the layer named is the first without room; limits, remainders, the soft crossing and the month are the plan's and the clock's |
| Promises.ResetsAreExact | app/lua/check.lua:166-188 | in exact arithmetic, n seconds after any reply, with nothing admitted meanwhile, the bucket is full, the window counts less, and it is another month, each exactly when n reaches that layer's reset |
| Promises.RetryIsTheLargestReset | app/lua/check.lua:190-201 | in exact arithmetic, a refusal's retry time is the least number of seconds that every refusing layer asks for |
| Promises.DenyOnlyTrims | docs/architecture.md:313-314 | every check trims its slot's window to one window's length, and a deny changes nothing else |
| Promises.PlansAreKept | app/services/checker.py:92-103 | in exact arithmetic, between two admissions of a slot the cost is at most capacity plus refill, more than the plan's limit of admissions span more than the plan's window, and a month stays within the plan's quota |
| Promises.ChecksFollowThePlanInDoubles | app/lua/check.lua:115-201 | the same for every check of every run in doubles, where the bucket has room exactly when its refilled level holds the cost |
| Promises.PlansAreKeptInDoubles | app/services/checker.py:92-103 | the plan's bounds in doubles, with a microsecond's refill more above capacity 576460 |
| SoftThreshold.ReportIsTheCrossing | app/lua/check.lua:157-163 | a check reports the crossing if and only if it takes the month's total, over all resources, from below the threshold to it |
| SoftThreshold.CrossedExactlyOnce | app/lua/check.lua:157-163 | the crossing is reported once if the month's total reaches the threshold, else never |
| SoftThreshold.ReportedOnceWhileTheFlagStands | docs/architecture.md:322-323 | over any checks, restores and losses that spare the month's flag, counters lost and limits changed included, the crossing is reported at most once, exactly if the flag stands at the end |
| ExactAdmission.RefillIsStable | app/lua/check.lua:92-113 | in exact arithmetic, refilling again at the same instant credits nothing |
| ExactAdmission.ExactlyTheBudget | app/lua/check.lua:115-164 | in exact arithmetic, of equal checks at one instant exactly the first min(how many, whole tokens, window places, quota left) are admitted |
| BurstEnvelope.EnvelopeHolds | app/lua/check.lua:84-115 | any checks of any slots at any clocks keep a bucket's books: its potential falls by what was spent |
| BurstEnvelope.BurstNeverExceedsEnvelope | app/lua/check.lua:84-115 | from a slot's first admission on, even if the clock jumps backwards, spending is at most capacity plus the refill of the stored clock's advance, and that clock never passes the largest reading |
| Accounting.AdmittedIsConserved | app/lua/restore.lua:13-20 | in every interleaving admitted cost is counter plus lost minus raised, and no counter, row or value in flight exceeds it |
| Accounting.OverAdmissionIsAtMostLoss | app/lua/check.lua:123-124 | admitted cost is at most the quota plus what was lost and not yet restored |
| Accounting.NoLossIsExact | app/services/rollup.py:147-171 | without loss the counter is exact and every restore is a no-op |
| Accounting.LossIsMadeGood | app/services/rollup.py:147-171 | a counter that was scanned and upserted before any loss is, after a query and a restore, at least what it was |
| Accounting.EveryKeyExpires | app/lua/restore.lua:14-16 | under checks, restores and losses with any limits every key has a deadline, and both writers of a month key give it the same one |
| Naming.MonthStrIsInjective | app/lua/check.lua:74 | different months have different names |
| Naming.RollupMonthReadsBack | app/services/rollup.py:154-155 | the rollup reads back the month the script named if and only if the year is at most 9999 |
| Naming.NamesAreInjective | app/services/checker.py:82-89 | names of all four kinds are equal only for equal keys, even when a resource has colons, and never the lock's |
| Naming.ParseIsExact | app/services/rollup.py:101-114 | parsing accepts exactly the names built from a colon-free key id and month, and returns them |
| Naming.ParsingRecoversNames | app/services/rollup.py:101-114 | of the limiter's names the rollup reads exactly the counters, reconciliation exactly the flags |
| Naming.CheckFramesEverythingElse | app/lua/check.lua:80-81 | a check leaves every key of other slots, other key ids and other months as it was |
| Rollup.ScanReachesMaximum | app/services/rollup.py:126-144 | after a scan each row holds the largest value read for it, or keeps what it had |
| Rollup.ScanOrderIsIrrelevant | app/services/rollup.py:266-283 | the result does not depend on scan order or repetitions |
| Rollup.RunsCompose | app/services/rollup.py:266-283 | two runs amount to one over both scans |
| Rollup.RepeatedRunChangesNothing | app/services/rollup.py:266-283 | upserting the same scan again changes nothing |
| Rollup.ScriptMonthsAreRestorable | app/services/rollup.py:154-157 | the restore of a month that the script names reaches its own counter and dates it by that month if and only if it is one of January of the year 1 to November 9999 |
| Rollup.RestoreDatesCounters | app/services/rollup.py:154-164 | after the restore of any rows a counter that its row raised has the row's value and goes 45 days after the end of its own month, and every other restorable counter keeps value and deadline |
| Rollup.RestoresSpareTheRest | app/lua/restore.lua:13-20 | restores touch no bucket, window, flag, or counter that no row names |
| Rollup.CountersStayDated | app/lua/restore.lua:14-16 | in every run of checks, losses and restores of any accounts, each counter of a month up to November 9999 goes 45 days after that month's end |
| Rollup.EntriesAreCounters | app/services/rollup.py:101-106 | a scanned name is about an account exactly when it is the counter name of that key and month and the key is known |
| Rollup.ParsingCounts | app/services/rollup.py:266-283 | the number of upserts is the number of scanned entries about known keys |
| Rollup.Year10000IsRestoredIntoThePast | app/services/rollup.py:154-157 | the first nine months of the year 10000 are restored too, with the end of a month of the year 1000 |
| Rollup.RestoreReachesFloor | app/services/rollup.py:285-292 | restoring raises each known key's counter to its row and no other counter |
| Rollup.RunReconciles | app/services/rollup.py:247-292 | an undisturbed run leaves Redis and the table agreeing on the larger value, for every known key and month |
| Rollup.RollupJob.UpsertRollup | app/services/rollup.py:126-144 | inserts or raises one row in place |
| Rollup.RollupJob.UpsertScanned | app/services/rollup.py:266-283 | the upsert loop: the table after the scan, and how many entries were upserted |
| Rollup.RollupJob.RestoreFromRollup | app/services/rollup.py:147-171 | one restore with the deadline of the month as it was read, and whether the counter then shows the row's value; a month that cannot be read or dated restores nothing |
| Rollup.RollupJob.RestoreAll | app/services/rollup.py:285-292 | the restore loop over the rows in query order |
| RollupLock.LockKey.Acquire | app/services/rollup.py:33-42 | takes the lock only when nobody holds it, for 120 seconds |
| RollupLock.LockKey.Unlock | app/lua/unlock.lua:6-14 | deletes the lock if and only if the token is its own |
| RollupLock.AcquireTakesAFreeLock | app/services/rollup.py:33-42 | in every run an acquire succeeds exactly when no lease runs, for 120 seconds, and otherwise changes nothing |
| RollupLock.ReleaseFreesTheLock | app/lua/unlock.lua:9-14 | a run that releases inside its lease leaves no lock |
| RollupLock.OverlapNeedsOverrun | app/services/rollup.py:247-308 | two runs are at work together only if one has outlived its lease |
| RollupLock.ReleaseSparesOthers | app/lua/unlock.lua:9-14 | no release, however late, takes the lock from a run inside its lease |
| RollupLock.PersistedIsMaximum | app/services/rollup.py:126-144 | if every write comes inside its run's lease, each row always holds the largest value written and never falls, although rows are read and written in two steps and other runs may outlive their lease |
| RollupLock.NeverFallsExactlyInsideTheLease | docs/architecture.md:318-321 | no row ever falls, whatever overlaps, if and only if the time a run may write in after its acquire is at most the lease |
| RollupLock.OverrunCanLowerARow | app/services/rollup.py:126-144 | the run in which a write one millisecond past its lease lowers a row |
| Outbox.BackoffIsDoublingToAnHour | app/services/webhooks.py:115-121 | the capped doubling is min(30 * 2^(n-1), 3600) for every n, never shortens, and reaches an hour exactly from the eighth attempt |
| Outbox.NextAttemptIsLater | app/services/webhooks.py:115-121 | with jitter the next attempt is 24 to 4320 seconds away |
| Outbox.EnqueueKeepsUnique | app/services/webhooks.py:67-83 | an enqueue keeps rows unique per key, month and kind, and leaves one for its subject |
| Outbox.EnqueueAddsOneRow | app/services/webhooks.py:67-83 | an enqueue adds, for a subject without one, exactly one row of the soft kind with its payload, no attempts and due at once, and nothing for any other |
| Outbox.PostResult | app/services/webhooks.py:156-180 | a reply of 200 to 299 delivers the row; anything else adds an attempt, keeps the outcome as the last error and puts the next attempt off by jitter times min(30 * 2^(n-1), 3600); payload, key, month and kind stay |
| Outbox.Table.Enqueue | app/services/webhooks.py:67-83 | inserts one row, or nothing when one exists |
| Outbox.Table.DeliverOne | app/services/webhooks.py:137-180 | one POST and the row's update |
| Outbox.Table.DeliverWebhooks | app/services/webhooks.py:183-210 | one pass: each of at most fifty due rows with a webhook is posted once |
| Outbox.PassAttemptsEachOnce | app/services/webhooks.py:198-210 | a pass posts each row of its batch that has a webhook exactly once and updates it by that outcome, and touches nothing else |
| Outbox.PassPostsTheWaiting | app/services/webhooks.py:190-210 | a pass posts only undelivered rows whose next attempt has come, with attempts left and a webhook, each once, all of them if at most fifty wait; a posted row becomes what its outcome makes of it, others stay |
| Outbox.PassIsBounded | app/services/webhooks.py:190-196 | no pass makes more than fifty POSTs |
| Outbox.FirstPassPostsIt | app/services/webhooks.py:190-210 | over any run, a row with attempts left waits unchanged, and the first pass from its next attempt on posts it once if it has a webhook and at most fifty rows wait |
| Outbox.RowsKeepTheirText | app/models.py:142-153 | over any run a row keeps its key, month, kind and payload |
| Outbox.PostIsAccounted | app/services/webhooks.py:137-180 | one POST of an unfinished row strictly lowers the sum of remaining attempts |
| Outbox.DeliveredIsTerminal | app/services/webhooks.py:190-196 | a delivered or exhausted row is never touched again |
| Outbox.DeliveryIsBounded | app/services/webhooks.py:183-210 | over any run of passes that do not overlap a row is posted exactly attempts plus one if delivered, at most the maximum, and all posts are bounded by the maximum per row |
| SoftWarning.WarningsAreSound | app/models.py:135-140 | in every run, with crashes and races, at most one row per key, month and kind, and only if the flag was once set |
| SoftWarning.EnqueuedCrossingIsWarned | app/routers/check.py:47-58 | a crossing whose hot-path enqueue ran has its row in every later state |
| SoftWarning.FinishedPassMissesNothing | app/services/rollup.py:174-244 | after an error-free pass every flag present throughout it whose key is known has a row |
| SoftWarning.Reconcile | app/services/rollup.py:174-244 | the loop over scanned flags: the table afterwards and the number of rows inserted |
| SoftWarning.ReconcileCoversTheScan | app/services/rollup.py:174-244 | every scanned flag of a known key then has its one row, and older rows remain |
| SoftWarning.ReconcileWarnsByName | app/services/rollup.py:174-244 | from the scanned names alone: every flag of a known key then has a row; rows are added only for such flags that had none, fresh and with that subject's own payload; every earlier row stays |
| SoftWarning.PassTurnIsTheLoop | app/services/rollup.py:174-244 | a flag that a pass looks at and inserts with nothing in between is one turn of that loop |
| Registry.ResolvesToTheIndexedKey | app/services/keycache.py:64-81 | a digest resolves exactly when it is indexed, to the key it is indexed for, so two digests resolve to one id exactly when the index maps them to one |
| Registry.MutationsKeepDigestsApart | app/services/keys.py:40-55 | no mutation makes two digests share a key |
| Registry.IssuedKeyResolves | app/services/keys.py:40-55 | issuing succeeds exactly for a known plan and a new id and digest; the digest then resolves to that id, name and plan, live, with the plan's limits, soft percentage and policy, and every other digest as before |
| Registry.UpdatePlanTakesEffect | app/services/plans.py:51-68 | through each key of the plan, limits it does not override, soft percentage and policy become what was given; nothing else of it and no key of another plan changes |
| Registry.UpdatePlanIsRefused | app/services/plans.py:51-60 | an update is refused exactly for an unknown plan, a null outside the webhook, or a soft threshold left without a webhook; otherwise it changes that plan only and stores the webhook as given |
| Registry.MutationsKeepWebhooks | app/services/plans.py:17-19 | every plan with a soft threshold keeps a webhook |
| Registry.RevokeSparesOthers | app/services/keys.py:91-101 | revoking changes nothing but the revoked mark, and no other key |
| Registry.UpdateKeyKeepsTheRest | app/services/keys.py:73-88 | an update of a key is refused exactly for an unknown or revoked key, no fields, or a null name, and changes only name and limits |
| Registry.LoadedLimitsAreValid | app/models.py:102-107 | whatever key the check path resolves, with or without overrides, its limits are within the schema bounds |
| Registry.MutationsKeepGood | app/services/keys.py:40-101 | every committed mutation keeps stored numbers in bounds and references intact |
| Registry.RevocationIsPermanent | app/services/keys.py:91-101 | whatever is committed, a digest keeps naming its key, and a revoked key stays revoked and unchanged |
| Registry.RevokeRevokes | app/services/keys.py:91-101 | revoking succeeds exactly for keys not yet revoked, and revokes for every digest |
| Registry.UpdateKeyTakesEffect | app/models.py:102-107 | after an update each changed limit is the new value, or the plan's again when cleared, each other limit is as before, and no other key is affected |
| KeyCache.StoredAnswers | app/services/keycache.py:101-109 | a lookup of the current generation answers until exactly its expiry, a stale one changes nothing, and other entries stay unless the cache was full |
| KeyCache.StoredIsBounded | app/services/keycache.py:101-108 | storing never grows the cache beyond its maximum |
| KeyCache.ResolverCache.Invalidate | app/services/keycache.py:57-61 | drops everything and starts a new generation |
| KeyCache.ResolverCache.Begin | app/services/keycache.py:89-98 | answers from an unexpired entry, else hands out the generation |
| KeyCache.ResolverCache.Finish | app/services/keycache.py:99-109 | stores unless the generation moved |
| KeyCache.Admin.IssueKey | app/services/keys.py:40-55 | commits and invalidates, or fails and changes nothing |
| KeyCache.Admin.UpdateKey | app/services/keys.py:73-88 | sets, clears or keeps each field and invalidates, or fails and changes nothing |
| KeyCache.Admin.RevokeKey | app/services/keys.py:91-101 | revokes and invalidates, or fails and changes nothing |
| KeyCache.Admin.UpdatePlan | app/services/plans.py:51-68 | merges, checks the webhook rule, commits and invalidates, or fails and changes nothing |
| CacheCoherence.AdminCommitsThenInvalidates | app/services/keys.py:91-101 | what an admin service does is a commit step and an invalidation step of the interleavings, with the same database and cache at the end |
| CacheCoherence.CacheIsCoherent | app/services/keycache.py:89-109 | in every interleaving each entry, known misses included, was read no earlier than the commit of every mutation whose invalidate has finished, and the size is bounded |
| CacheCoherence.AnswersAreCurrent | app/services/keycache.py:89-109 | a resolve's answer includes every mutation whose invalidate had finished when it began |
| CacheCoherence.UndisturbedResolve | app/services/keycache.py:89-109 | a resolve that misses the cache and that nothing disturbs answers what the database holds, and stores that answer |
| CacheCoherence.IssuedKeyIsAnswered | app/services/keys.py:40-55 | a resolve that begins after an issue's invalidate answers with that key id and plan, and with exactly the plan's limits, soft percentage and policy if nothing else was committed |
| CacheCoherence.PlanUpdateIsAnswered | app/services/plans.py:51-68 | a resolve that begins after a plan update's invalidate, with nothing committed since, sees the plan as given |
| CacheCoherence.AnswersNeverShareAKey | app/services/keycache.py:64-81 | in every interleaving two secrets never resolve to one key id |
| CacheCoherence.RevokedIsNeverResurrected | app/services/keys.py:91-101 | a resolve that begins after a revocation's invalidate never returns the key live |
| CacheCoherence.StalenessIsBounded | app/services/keycache.py:93-109 | a hit at time t was read later than t - ttl and reflects every commit made by then, whatever was invalidated |
| Views.RunSeesTheScript | app/lua/check.lua:83-146 | one check of the script in doubles is, for its slot, a visit of the runs of one bucket |
| Views.EnvelopeSeesTheScript | app/lua/check.lua:83-146 | and a visit of the envelope |
| Views.LossesSeeTheScript | app/lua/check.lua:83-149 | and, window included, a visit of the account of losses |
| Views.BooksSeeTheRestore | app/services/rollup.py:147-171 | the restore step of the conservation law is the rollup job's restore of that row |
| Views.BooksSeeTheUpsert | app/services/rollup.py:126-144 | its upsert step is the job's upsert |
| Views.LockSeesTheUpsert | app/services/rollup.py:126-144 | what a run under the lock writes over an unchanged row is the job's upsert |

## Left out

- Routers, request ids, error envelope, CLI, configuration, logging, migrations: plumbing.
- Redis and database clients, script reloading, SCAN cursors: a script is one atomic step, and a SCAN is a sequence that contains every key present throughout.
- The fallback GET then DEL of the lock release (app/services/rollup.py:54-56): unlock.lua is modelled instead.
- The restored total of a rollup run: it also counts counters equal to their row.
- Loss of the lock key itself with Redis: the lock results assume it lives out its lease.
- Months before the year 0, and how numbers are printed for Redis: years from 0 on, and exact integers.
- Digests, signatures, secrets: a digest is an opaque key, and the surrogate row ids are replaced by the key ids they stand for.
- A POST is a success or failure chosen from outside; jitter is any factor from 0.8 to 1.2; database errors during delivery and the log of exhausted rows are not modelled.
- Due rows are delivered in table order; the query itself promises no order.
- Plan names and plan creation: creation commits without invalidating, and no key can refer to the plan yet.
- selected_policy and the header strings: a minimum of ratios and formatting.
- The usage report: it assembles what other parts store.
- The policy for an unreachable Redis: documented, but not in the code that was modelled.
- Python thread races inside an invalidation or inside the compare-and-store: each is one step.
- RedisServer.Server.ReadBucket: the refill's double operations are integer divisions here; RoundedVerdict says when that makes no difference to a verdict.
- RedisServer.Server.Check: in integer arithmetic, where the refill is really in doubles; RoundedScript has the same run with the refill in doubles.
- TokenBucket.RefillUnderCredits: in exact arithmetic; RoundedRefill.RoundedRefillUnderCredits is its counterpart in doubles.
- TokenBucket.RefillLosesLittle: in exact arithmetic; RoundedLoss has the exact losses in doubles.
- TokenBucket.RefillIsExact: in exact arithmetic; doubles can credit one microtoken less.
- Refinement.BucketReads: equality of level in exact arithmetic; RoundedRun.RoundedVerdictIsClose bounds the difference in doubles.
- Refinement.CheckKeepsAgreement: one step in exact arithmetic; RoundedScript.RunsAgree is its counterpart in doubles.
- Refinement.ScriptRefinesSpec: equality of replies in exact arithmetic, which RoundedRun.DoublesCanRefuse shows false in doubles; RoundedVerdict.VerdictsAgreeExactlyOffTheBoundary says at which inputs a verdict can differ, and RoundedScript.DoublesRefineClosely what holds over runs.
- RoundedVerdict.VerdictsAgreeExactlyOffTheBoundary: that verdicts can differ at every input on the boundary is said of the rounding model; which of them correctly rounded doubles meet is not.
- RoundedLoss.LosesNothingExactlyAtRateOne: its only-if half is about the rounding model.
- OverAdmission.AdmittedIsHistory: in exact arithmetic.
- RetryAfter.BurstRetryIsLeast: leastness in exact arithmetic; in doubles RoundedRun.RetrySufficesInDoubles shows that the time suffices.
- RetryAfter.BurstOnlyRetry: leastness in exact arithmetic.
- RetryAfter.RetryAfterIsHonest: in exact arithmetic; RoundedScript.RetryAfterIsHonestInDoubles is its counterpart in doubles.
- RoundedRun.RetryIsHonestInDoubles: of one bucket and history and any covering time; RoundedScript.RetryAfterIsHonestInDoubles states it of one run and the reply's own time.
- ExactAdmission.RefillIsStable: in exact arithmetic; false of the doubles at rate one (RoundedAdmission.StableExactlyAboveRateOne).
- ExactAdmission.ExactlyTheBudget: in exact arithmetic; false of the doubles at rate one (RoundedAdmission.AdmitsTheBudgetExactlyAboveRateOne).
- Outbox.FirstPassPostsIt: with more than fifty rows waiting the query, which has no order, may leave any of them to a later pass; nothing is promised then.
- Outbox.DeliveryIsBounded: a pass is one step, although a real one holds up to fifty POSTs and no lock; two passes at once, which the one-process deployment does not start, could post a row twice.
- RollupLock.PersistedIsMaximum: a selected row is the table's current one; a session that keeps rows loaded (expire_on_commit=False) could select its own earlier reading, which under the lock is the same.
- Rollup.RollupJob.RestoreFromRollup: an account whose month is not spelt as the script spells it names a key outside this keyspace.
- Accounting.EveryKeyExpires: a restore computes the end of the row's own month, as the rollup does up to November 9999.
- Accounting tracks the `used` column only; the row's quota limit is in Rollup.
