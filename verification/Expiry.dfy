/** Why expiry loses nothing: a key is gone only when it has nothing left to say. */
module Expiry {
  import opened Arith
  import opened Limits
  import opened Redis
  import opened CheckScript
  import opened History
  import opened Refinement

  ghost predicate AllDated(s: Store, book: Book) {
    && (forall slot: Slot :: slot.key in book && slot in s.buckets ==> s.buckets[slot].deadline.Some?)
    && (forall slot: Slot :: slot.key in book && slot in s.windows ==> s.windows[slot].deadline.Some?)
    && (forall km: KeyMonth :: km.key in book && km in s.counters ==> s.counters[km].deadline.Some?)
    && (forall km: KeyMonth :: km.key in book && km in s.flags ==> s.flags[km].deadline.Some?)
  }

  /** Every key of a run has a deadline. */
  lemma EveryKeyIsDated(es: seq<Event>, book: Book)
    requires ValidRun(es, book)
    ensures AllDated(ScriptRun(es, book).0, book)
  {
    ScriptRefinesSpec(es, book);
    if es != [] {
      var s, h, t := ScriptRun(es, book).0, SpecRun(es, book).0, LastUs(es);
      forall slot: Slot | slot.key in book
        ensures slot in s.buckets ==> s.buckets[slot].deadline.Some?
        ensures slot in s.windows ==> s.windows[slot].deadline.Some?
      {
        assert SlotAgrees(s, h, book[slot.key], slot, t);
      }
      forall km: KeyMonth | km.key in book
        ensures km in s.counters ==> s.counters[km].deadline.Some?
        ensures km in s.flags ==> s.flags[km].deadline.Some?
      {
        assert MonthAgrees(s, h, book[km.key], km, t);
      }
    }
  }

  lemma SlotAtEnd(es: seq<Event>, book: Book, slot: Slot)
    requires ValidRun(es, book) && es != [] && slot.key in book
    ensures ProperArgv(book[slot.key]) && DistinctIds(SpecRun(es, book).0)
    ensures SlotAgrees(ScriptRun(es, book).0, SpecRun(es, book).0, book[slot.key], slot, LastUs(es))
  {
    ScriptRefinesSpec(es, book);
  }

  /** A bucket that is gone would be full. */
  lemma GoneBucketIsFull(es: seq<Event>, book: Book, slot: Slot)
    requires ValidRun(es, book) && es != [] && slot.key in book && slot !in ScriptRun(es, book).0.buckets
    ensures LevelAt(SpecRun(es, book).0, slot, book[slot.key].cap, PerMicro(book[slot.key]), LastUs(es)) == book[slot.key].cap
  {
    SlotAtEnd(es, book, slot);
  }

  /** Admissions on a slot that a window ending at t still holds. */
  function InWindow(h: seq<Admission>, argv: Argv, slot: Slot, t: int): int {
    CountSince(h, slot, t - argv.windowUs)
  }

  lemma NothingLogged(s: Store, h: seq<Admission>, argv: Argv, slot: Slot, t: int)
    requires ProperArgv(argv) && DistinctIds(h) && SlotAgrees(s, h, argv, slot, t) && slot !in s.windows
    ensures InWindow(h, argv, slot, t) == 0
  {
    EntriesCount(h, slot, t - argv.windowUs);
    assert Trim(AllEntries(h, slot), t - argv.windowUs) == {};
  }

  /** A window that is gone would be empty. */
  lemma GoneWindowIsEmpty(es: seq<Event>, book: Book, slot: Slot)
    requires ValidRun(es, book) && es != [] && slot.key in book && slot !in ScriptRun(es, book).0.windows
    ensures InWindow(SpecRun(es, book).0, book[slot.key], slot, LastUs(es)) == 0
  {
    SlotAtEnd(es, book, slot);
    NothingLogged(ScriptRun(es, book).0, SpecRun(es, book).0, book[slot.key], slot, LastUs(es));
  }

  /** A counter that is gone belongs to a month over for at least 45 days, if anything was ever
      admitted in it. */
  lemma GoneCounterIsLongOver(es: seq<Event>, book: Book, km: KeyMonth, i: nat)
    requires ValidRun(es, book) && es != [] && km.key in book && km !in ScriptRun(es, book).0.counters
    requires i < |SpecRun(es, book).0| && InMonth(SpecRun(es, book).0[i], km)
    ensures (SpecRun(es, book).0[i].clock.monthEndS + 45 * 86_400) * UTOK <= LastUs(es)
  {
    ScriptRefinesSpec(es, book);
    assert MonthAgrees(ScriptRun(es, book).0, SpecRun(es, book).0, book[km.key], km, LastUs(es));
  }

  // ----- how long keys live

  /** A deadline in milliseconds that comes at this time in microseconds, to the millisecond. */
  predicate ComesAt(deadline: Option<int>, us: int) {
    deadline.Some? && us - 1_000 < deadline.value * 1_000 <= us
  }

  lemma FillTime(capacity: int, rate: int)
    requires capacity > 0 && rate > 0
    ensures CeilDiv(capacity * UTOK, rate * UTOK) == CeilDiv(capacity, rate)
  {
    var n := CeilDiv(capacity, rate);
    CeilIsLeast(capacity, rate, n);
    CeilIsLeast(capacity, rate, n - 1);
    assert n * (rate * UTOK) == (n * rate) * UTOK && (n - 1) * (rate * UTOK) == ((n - 1) * rate) * UTOK;
    CeilIsLeast(capacity * UTOK, rate * UTOK, n);
    CeilIsLeast(capacity * UTOK, rate * UTOK, n - 1);
  }

  lemma BucketComesAt(p: Plan, now: int)
    requires ValidPlan(p)
    ensures ComesAt(Some(BucketDeadline(ScriptArgv(p), now)), now + CeilDiv(p.burstCapacity, p.burstRefillPerSec) * 1_000_000 + 60_000_000)
  {
    FillTime(p.burstCapacity, p.burstRefillPerSec);
  }

  lemma WindowComesAt(p: Plan, now: int)
    requires ValidPlan(p)
    ensures ComesAt(Some(WindowDeadline(ScriptArgv(p), now)), now + p.sustainedWindowSeconds * 1_000_000 + 60_000_000)
  {
    var ms := p.sustainedWindowSeconds * 1_000;
    CeilIsLeast(ScriptArgv(p).windowUs, 1000, ms);
    CeilIsLeast(ScriptArgv(p).windowUs, 1000, ms - 1);
  }

  /** What an allowed check writes lives as long as it must and no longer, to the millisecond: the
      bucket one minute past the time it takes to fill, the window one minute past its length, a
      month's counter and flag 45 days past the month's end, set once. */
  lemma KeysLiveAsLongAsNeeded(s: Store, p: Plan, slot: Slot, cost: int, id: string, c: Clock)
    requires ValidPlan(p) && CheckReply(s, ScriptArgv(p), slot, cost, id, c).allowed
    ensures var s', km := CheckStore(s, ScriptArgv(p), slot, cost, id, c), KeyMonth(slot.key, c.month);
            && slot in s'.buckets && slot in s'.windows && km in s'.counters
            && ComesAt(s'.buckets[slot].deadline, c.us + CeilDiv(p.burstCapacity, p.burstRefillPerSec) * 1_000_000 + 60_000_000)
            && ComesAt(s'.windows[slot].deadline, c.us + p.sustainedWindowSeconds * 1_000_000 + 60_000_000)
            && (s'.counters[km].deadline
                == if Value(s, km) == 0 then Some((c.monthEndS + 45 * 86_400) * 1_000)
                   else if km in s.counters then s.counters[km].deadline else None)
            && (km in s'.flags && km !in s.flags ==> s'.flags[km].deadline == Some((c.monthEndS + 45 * 86_400) * 1_000))
            && (km in s.flags ==> km in s'.flags && s'.flags[km] == s.flags[km])
  {
    BucketComesAt(p, c.us);
    WindowComesAt(p, c.us);
  }

  /** A key may go from its deadline on, and not before: of the keys named, expiry drops exactly
      those whose deadline the clock has reached, and it keeps all others as they are. */
  lemma ExpiryDropsTheOverdue(s: Store, gone: set<RedisKey>, now: int, slot: Slot, km: KeyMonth)
    ensures var s' := Expire(s, gone, NowMs(now));
            && (slot in s'.buckets <==> slot in s.buckets && !(BucketKey(slot) in gone && MayGo(s.buckets[slot].deadline, now)))
            && (slot in s'.windows <==> slot in s.windows && !(WindowKey(slot) in gone && MayGo(s.windows[slot].deadline, now)))
            && (km in s'.counters <==> km in s.counters && !(CounterKey(km) in gone && MayGo(s.counters[km].deadline, now)))
            && (km in s'.flags <==> km in s.flags && !(FlagKey(km) in gone && MayGo(s.flags[km].deadline, now)))
            && (slot in s'.buckets ==> s'.buckets[slot] == s.buckets[slot]) && (slot in s'.windows ==> s'.windows[slot] == s.windows[slot])
            && (km in s'.counters ==> s'.counters[km] == s.counters[km]) && (km in s'.flags ==> s'.flags[km] == s.flags[km])
  {
  }

  predicate MayGo(deadline: Option<int>, now: int) {
    deadline.Some? && deadline.value * 1_000 <= now
  }
}
