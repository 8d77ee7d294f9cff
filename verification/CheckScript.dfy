/** What one run of the admission script computes and writes, as functions of the store. */
module CheckScript {
  import opened Arith
  import opened Calendar
  import opened Limits
  import opened Redis

  datatype Layer = NoLayer | Burst | Sustained | Quota

  /** The script's fifteen-element reply. */
  datatype Decision = Decision(
    allowed: bool, denyLayer: Layer,
    bLimit: int, bRemaining: int, bReset: int,
    sLimit: int, sRemaining: int, sReset: int,
    qLimit: int, qUsed: int, qRemaining: int, qReset: int,
    softCrossed: bool, month: Month, retryAfter: int)

  /** Bucket contents after refill: microtokens and the clock they are paid up to. */
  datatype Level = Level(tokens: int, ts: int)

  /** Credit for elapsed time: floor(elapsed * rate / 10^6) microtokens. */
  function Credit(elapsed: int, rate: int): int {
    elapsed * rate / UTOK
  }

  /** The time that a credit is worth, rounded up. */
  function Worth(credit: int, rate: int): int
    requires rate > 0
  {
    CeilDiv(credit * UTOK, rate)
  }

  function RefillLevel(tokens: int, ts: int, cap: int, rate: int, nowUs: int): Level
    requires rate > 0
  {
    var elapsed := Max(0, nowUs - ts);
    if elapsed * rate >= cap * UTOK then Level(cap, nowUs)
    else
      var add := Credit(elapsed, rate);
      if add > 0 then
        if tokens + add >= cap then Level(cap, nowUs)
        else Level(tokens + add, ts + Worth(add, rate))
      else Level(tokens, ts)
  }

  function Refill(s: Store, slot: Slot, argv: Argv, nowUs: int): Level
    requires argv.rate > 0
  {
    if slot in s.buckets then
      RefillLevel(s.buckets[slot].tokens, s.buckets[slot].ts, argv.cap, argv.rate, nowUs)
    else Level(argv.cap, nowUs)
  }

  /** The trim bound is exclusive: an entry exactly one window old stays. */
  function Trim(entries: set<Entry>, bound: int): set<Entry> {
    set e | e in entries && bound <= e.score
  }

  ghost function OldestScore(entries: set<Entry>): (m: int)
    requires entries != {}
    ensures exists e :: e in entries && e.score == m
    ensures forall e :: e in entries ==> m <= e.score
  {
    var e :| e in entries;
    if entries == {e} then e.score
    else
      var rest := entries - {e};
      assert entries == rest + {e};
      Min(e.score, OldestScore(rest))
  }

  /** Steps 1 and 2: the one clock reading and the month it derives. */
  datatype Clock = Clock(us: int, s: int, month: Month, monthEndS: int)

  function ReadClock(seconds: int, micros: int): Clock {
    var month := MonthOf(seconds);
    Clock(seconds * UTOK + micros, seconds, month, MonthEndS(month))
  }

  predicate TrueClock(c: Clock) {
    c.s == c.us / UTOK && c.month == MonthOf(c.s) && c.monthEndS == MonthEndS(c.month)
  }

  /** Every TIME reply reads as a true clock. */
  lemma ClockIsTrue(seconds: int, micros: int)
    requires 0 <= micros < UTOK
    ensures TrueClock(ReadClock(seconds, micros))
  {
    assert (seconds * UTOK + micros) / UTOK == seconds;
  }

  function NowMs(nowUs: int): int {
    nowUs / 1000
  }

  const GRACE_S := 3_888_000

  /** EXPIREAT 45 days after a month's end, in milliseconds. */
  function Grace(monthEndS: int): int {
    (monthEndS + GRACE_S) * 1000
  }

  function BucketDeadline(argv: Argv, nowUs: int): int
    requires argv.rate > 0
  {
    NowMs(nowUs) + CeilDiv(argv.cap, argv.rate) * 1000 + 60000
  }

  function WindowDeadline(argv: Argv, nowUs: int): int {
    NowMs(nowUs) + CeilDiv(argv.windowUs, 1000) + 60000
  }

  function DenyLayer(burstOk: bool, sustainedOk: bool, quotaOk: bool): Layer {
    if burstOk && sustainedOk && quotaOk then NoLayer
    else if !burstOk then Burst
    else if !sustainedOk then Sustained
    else Quota
  }

  /** What the script has read and decided before it writes. */
  datatype Reading = Reading(level: Level, entries: set<Entry>, used: int, km: KeyMonth,
                             burstOk: bool, sustainedOk: bool, quotaOk: bool)
  {
    predicate Allowed() {
      burstOk && sustainedOk && quotaOk
    }
  }

  function Read(s: Store, argv: Argv, slot: Slot, km: KeyMonth, cost: int, nowUs: int): Reading
    requires argv.rate > 0
  {
    ReadWith(Refill(s, slot, argv, nowUs), s, argv, slot, km, cost, nowUs)
  }

  /** Steps 4 to 6, given the refilled bucket. */
  function ReadWith(level: Level, s: Store, argv: Argv, slot: Slot, km: KeyMonth, cost: int, nowUs: int): Reading {
    var entries := Trim(Entries(s, slot), nowUs - argv.windowUs);
    var used := Value(s, km);
    Reading(level, entries, used, km,
            level.tokens >= cost * UTOK, |entries| + 1 <= argv.sustained, used + cost <= argv.hard)
  }

  predicate Crosses(s: Store, argv: Argv, r: Reading, cost: int) {
    r.Allowed() && argv.soft > 0 && r.used < argv.soft <= r.used + cost && r.km !in s.flags
  }

  /** Trimming on every check; an emptied sorted set is no key at all. */
  function TrimmedWindows(s: Store, slot: Slot, entries: set<Entry>): map<Slot, Window> {
    if entries == {} then s.windows - {slot}
    else if slot in s.windows then s.windows[slot := s.windows[slot].(entries := entries)]
    else s.windows
  }

  /** The keyspace after a script run that read r; monthEndS closes the month of r. */
  function Written(s: Store, argv: Argv, slot: Slot, r: Reading, cost: int, id: string, nowUs: int, monthEndS: int): Store
    requires argv.rate > 0
  {
    if !r.Allowed() then s.(windows := TrimmedWindows(s, slot, r.entries))
    else
      var counter :=
        if r.used + cost == cost then Counter(cost, Some(Grace(monthEndS)))
        else Counter(r.used + cost, if r.km in s.counters then s.counters[r.km].deadline else None);
      Store(
        s.buckets[slot := Bucket(r.level.tokens - cost * UTOK, r.level.ts, Some(BucketDeadline(argv, nowUs)))],
        s.windows[slot := Window(r.entries + {Entry(nowUs, id)}, Some(WindowDeadline(argv, nowUs)))],
        s.counters[r.km := counter],
        if Crosses(s, argv, r, cost) then s.flags[r.km := Flag(Some(Grace(monthEndS)))] else s.flags)
  }

  function ResetOf(oldest: Option<int>, windowUs: int, nowUs: int): int {
    if oldest.None? then 0 else Max(0, CeilDiv(oldest.value + windowUs - nowUs, UTOK))
  }

  ghost function OldestOf(entries: set<Entry>): Option<int> {
    if entries == {} then None else Some(OldestScore(entries))
  }

  /** The largest retry time over the denying layers. */
  function RetryOf(burstOk: bool, sustainedOk: bool, quotaOk: bool, need: int, rate: int, sReset: int, qReset: int): int
    requires rate > 0
  {
    var bRetry := if burstOk then 0 else CeilDiv(need, rate);
    var sRetry := if sustainedOk then bRetry else Max(bRetry, sReset);
    if quotaOk then sRetry else Max(sRetry, qReset)
  }

  /** Step 8: the reported values, from what stands after the decision. */
  function Reported(argv: Argv, cost: int, c: Clock, burstOk: bool, sustainedOk: bool, quotaOk: bool,
                    tokens: int, countAfter: int, oldest: Option<int>, newUsed: int, crossed: bool): Decision
    requires argv.rate > 0
  {
    var allowed := burstOk && sustainedOk && quotaOk;
    var sReset := ResetOf(oldest, argv.windowUs, c.us);
    var qReset := c.monthEndS - c.s;
    Decision(
      allowed, DenyLayer(burstOk, sustainedOk, quotaOk),
      argv.cap / UTOK, tokens / UTOK, CeilDiv(argv.cap - tokens, argv.rate),
      argv.sustained, Max(0, argv.sustained - countAfter), sReset,
      argv.hard, newUsed, Max(0, argv.hard - newUsed), qReset,
      crossed, c.month, RetryOf(burstOk, sustainedOk, quotaOk, cost * UTOK - tokens, argv.rate, sReset, qReset))
  }

  /** The reply of a script run that read r. */
  ghost function Reply(argv: Argv, r: Reading, cost: int, id: string, c: Clock, crossed: bool): Decision
    requires argv.rate > 0
  {
    Reported(argv, cost, c, r.burstOk, r.sustainedOk, r.quotaOk,
             if r.Allowed() then r.level.tokens - cost * UTOK else r.level.tokens, if r.Allowed() then |r.entries| + 1 else |r.entries|,
             OldestOf(if r.Allowed() then r.entries + {Entry(c.us, id)} else r.entries),
             if r.Allowed() then r.used + cost else r.used, crossed)
  }

  /** One run of check.lua on the keyspace. */
  function CheckStore(s: Store, argv: Argv, slot: Slot, cost: int, id: string, c: Clock): Store
    requires argv.rate > 0
  {
    var r := Read(s, argv, slot, KeyMonth(slot.key, c.month), cost, c.us);
    Written(s, argv, slot, r, cost, id, c.us, c.monthEndS)
  }

  ghost function CheckReply(s: Store, argv: Argv, slot: Slot, cost: int, id: string, c: Clock): Decision
    requires argv.rate > 0
  {
    var r := Read(s, argv, slot, KeyMonth(slot.key, c.month), cost, c.us);
    Reply(argv, r, cost, id, c, Crosses(s, argv, r, cost))
  }

  /** restore.lua: the counter becomes the larger of itself and the floor. */
  function RestoreStore(s: Store, km: KeyMonth, floor: int, monthEnd: int): Store {
    if Value(s, km) < floor then
      s.(counters := s.counters[km := Counter(floor, Some((monthEnd + GRACE_S) * 1000))])
    else s
  }
}
