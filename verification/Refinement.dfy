/** In exact arithmetic, every run of the admission script, with trimming, lazy refill, expiry and
    silent denies, replies exactly as the specification that never forgets an admission. */
module Refinement {
  import opened Arith
  import opened Calendar
  import opened Limits
  import opened Redis
  import opened CheckScript
  import opened History
  import opened TokenBucket

  /** The script arguments of each key, fixed over a run. */
  type Book = map<string, Argv>

  ghost predicate ProperBook(book: Book) {
    forall k :: k in book ==> ProperArgv(book[k])
  }

  function BookOf(plans: map<string, Plan>): Book {
    map k | k in plans :: ScriptArgv(plans[k])
  }

  /** Plans within their bounds give a proper book. */
  lemma PlansMakeAProperBook(plans: map<string, Plan>)
    requires forall k :: k in plans ==> ValidPlan(plans[k])
    ensures ProperBook(BookOf(plans))
  {
    forall k | k in plans
      ensures ProperArgv(ScriptArgv(plans[k]))
    {
      PlansAreProper(plans[k]);
    }
  }

  /** A run interleaves checks of any keys and resources with expiry of overdue Redis keys. */
  datatype Event =
    | Check(slot: Slot, cost: int, id: string, clock: Clock)
    | Expiry(gone: set<RedisKey>, clock: Clock)

  /** Each check is of a known key with proper limits, and costs at least one. */
  ghost predicate Planned(es: seq<Event>, book: Book) {
    && ProperBook(book)
    && forall e :: e in es && e.Check? ==> e.slot.key in book && e.cost >= 1
  }

  /** The clock is true and never runs backwards; request ids are unique. */
  ghost predicate ValidRun(es: seq<Event>, book: Book) {
    && Planned(es, book)
    && (forall i :: 0 <= i < |es| ==> TrueClock(es[i].clock))
    && (forall i, j :: 0 <= i < j < |es| ==> es[i].clock.us <= es[j].clock.us)
    && (forall i, j :: 0 <= i < j < |es| && es[i].Check? && es[j].Check? ==> es[i].id != es[j].id)
  }

  lemma ExtendOrdered(es: seq<Event>, e: Event, i: int, j: int)
    requires forall i, j :: 0 <= i < j < |es| ==> es[i].clock.us <= es[j].clock.us
    requires (es != [] ==> es[|es| - 1].clock.us <= e.clock.us) && 0 <= i < j < |es| + 1
    ensures (es + [e])[i].clock.us <= (es + [e])[j].clock.us
  {
    if j == |es| && i < |es| - 1 {
      assert es[i].clock.us <= es[|es| - 1].clock.us;
    }
  }

  lemma ExtendFresh(es: seq<Event>, e: Event, i: int, j: int)
    requires forall i, j :: 0 <= i < j < |es| && es[i].Check? && es[j].Check? ==> es[i].id != es[j].id
    requires e.Check? ==> forall i :: 0 <= i < |es| && es[i].Check? ==> es[i].id != e.id
    requires 0 <= i < j < |es| + 1
    ensures (es + [e])[i].Check? && (es + [e])[j].Check? ==> (es + [e])[i].id != (es + [e])[j].id
  {
  }

  /** Runs are open-ended: any later check of a known key under a new id, and any later expiry,
      continues a run. */
  lemma RunsExtend(es: seq<Event>, book: Book, e: Event)
    requires ProperBook(book) && ValidRun(es, book) && TrueClock(e.clock)
    requires es != [] ==> es[|es| - 1].clock.us <= e.clock.us
    requires e.Check? ==> e.slot.key in book && e.cost >= 1 && forall i :: 0 <= i < |es| && es[i].Check? ==> es[i].id != e.id
    ensures ValidRun(es + [e], book)
  {
    ExtendPlanned(es, book, e);
    forall i, j | 0 <= i < j < |es + [e]|
      ensures (es + [e])[i].clock.us <= (es + [e])[j].clock.us
      ensures (es + [e])[i].Check? && (es + [e])[j].Check? ==> (es + [e])[i].id != (es + [e])[j].id
    {
      ExtendOrdered(es, e, i, j);
      ExtendFresh(es, e, i, j);
    }
  }

  lemma ExtendPlanned(es: seq<Event>, book: Book, e: Event)
    requires Planned(es, book) && (e.Check? ==> e.slot.key in book && e.cost >= 1)
    ensures Planned(es + [e], book)
  {
    forall x | x in es + [e] && x.Check?
      ensures x.slot.key in book && x.cost >= 1
    {
      if x != e { assert x in es; }
    }
  }

  ghost function ScriptRun(es: seq<Event>, book: Book): (Store, seq<Decision>)
    requires Planned(es, book)
  {
    if es == [] then (Empty, [])
    else
      var (s, replies) := ScriptRun(es[..|es| - 1], book);
      match es[|es| - 1]
      case Expiry(gone, c) => (Expire(s, gone, NowMs(c.us)), replies)
      case Check(slot, cost, id, c) =>
        assert es[|es| - 1] in es;
        var argv := book[slot.key];
        (CheckStore(s, argv, slot, cost, id, c), replies + [CheckReply(s, argv, slot, cost, id, c)])
  }

  ghost function SpecRun(es: seq<Event>, book: Book): (seq<Admission>, seq<Decision>)
    requires Planned(es, book)
  {
    if es == [] then ([], [])
    else
      var (h, replies) := SpecRun(es[..|es| - 1], book);
      match es[|es| - 1]
      case Expiry(_, _) => (h, replies)
      case Check(slot, cost, id, c) =>
        assert es[|es| - 1] in es;
        var argv := book[slot.key];
        (Admit(h, argv, slot, cost, id, c), replies + [SpecReply(h, argv, slot, cost, id, c)])
  }

  // ----- what the keyspace remembers of the history

  /** What two true clock readings in order know of each other. */
  predicate Before(a: Clock, c: Clock) {
    && a.us <= c.us
    && (a.month == c.month ==> a.monthEndS == c.monthEndS)
    && (a.month != c.month ==> a.monthEndS <= c.s)
  }

  predicate Sane(c: Clock) {
    c.s * UTOK <= c.us < (c.s + 1) * UTOK && c.s < c.monthEndS
  }

  ghost predicate AllBefore(h: seq<Admission>, c: Clock) {
    forall i :: 0 <= i < |h| ==> Before(h[i].clock, c)
  }

  ghost predicate Fresh(h: seq<Admission>, id: string) {
    forall i :: 0 <= i < |h| ==> h[i].id != id
  }

  ghost predicate DistinctIds(h: seq<Admission>) {
    forall i, j :: 0 <= i < j < |h| ==> h[i].id != h[j].id
  }

  ghost predicate NotAfter(h: seq<Admission>, t: int) {
    forall i :: 0 <= i < |h| ==> h[i].clock.us <= t
  }

  /** The window log entries that the admissions of a slot wrote. */
  function AllEntries(h: seq<Admission>, slot: Slot): set<Entry> {
    if h == [] then {}
    else
      var a := h[|h| - 1];
      AllEntries(h[..|h| - 1], slot) + (if a.slot == slot then {Entry(a.clock.us, a.id)} else {})
  }

  ghost predicate BucketAgrees(s: Store, h: seq<Admission>, argv: Argv, slot: Slot, t: int)
    requires ProperArgv(argv)
  {
    if slot in s.buckets then
      var b := s.buckets[slot];
      && (forall i :: 0 <= i < |h| && h[i].slot == slot ==> h[i].clock.us <= b.ts)
      && b.ts <= t
      && 0 <= b.tokens == LevelAt(h, slot, argv.cap, PerMicro(argv), b.ts)
      && b.deadline == Some(BucketDeadline(argv, b.ts))
    else
      LevelAt(h, slot, argv.cap, PerMicro(argv), t) == argv.cap
  }

  /** The log holds every admission since `bound`, and nothing but admissions. */
  ghost predicate LogHolds(entries: set<Entry>, h: seq<Admission>, slot: Slot, bound: int) {
    Trim(AllEntries(h, slot), bound) <= entries <= AllEntries(h, slot)
  }

  ghost predicate WindowAgrees(s: Store, h: seq<Admission>, argv: Argv, slot: Slot, t: int) {
    && LogHolds(Entries(s, slot), h, slot, t - argv.windowUs)
    && |Entries(s, slot)| <= argv.sustained
    && (slot in s.windows ==> OutlivesEntries(s.windows[slot], argv.windowUs))
  }

  /** A window key's deadline comes after its last entry has left the window. */
  ghost predicate OutlivesEntries(w: Window, windowUs: int) {
    w.deadline.Some? && forall e :: e in w.entries ==> e.score + windowUs < 1000 * w.deadline.value
  }

  ghost predicate CounterAgrees(s: Store, h: seq<Admission>, km: KeyMonth, t: int) {
    if km in s.counters then
      && s.counters[km].value == MonthSum(h, km)
      && s.counters[km].deadline.Some?
      && forall i :: 0 <= i < |h| && InMonth(h[i], km) ==> s.counters[km].deadline.value == Grace(h[i].clock.monthEndS)
    else
      forall i :: 0 <= i < |h| && InMonth(h[i], km) ==> Grace(h[i].clock.monthEndS) <= NowMs(t)
  }

  ghost predicate FlagAgrees(s: Store, h: seq<Admission>, argv: Argv, km: KeyMonth, t: int) {
    var soft := argv.soft;
    if km in s.flags then
      && 0 < soft <= MonthSum(h, km)
      && s.flags[km].deadline.Some?
      && forall i :: 0 <= i < |h| && InMonth(h[i], km) ==> s.flags[km].deadline.value == Grace(h[i].clock.monthEndS)
    else
      0 < soft <= MonthSum(h, km) ==>
        forall i :: 0 <= i < |h| && InMonth(h[i], km) ==> Grace(h[i].clock.monthEndS) <= NowMs(t)
  }

  ghost predicate SlotAgrees(s: Store, h: seq<Admission>, argv: Argv, slot: Slot, t: int)
    requires ProperArgv(argv)
  {
    BucketAgrees(s, h, argv, slot, t) && WindowAgrees(s, h, argv, slot, t)
  }

  ghost predicate MonthAgrees(s: Store, h: seq<Admission>, argv: Argv, km: KeyMonth, t: int) {
    CounterAgrees(s, h, km, t) && FlagAgrees(s, h, argv, km, t) && MonthSum(h, km) <= argv.hard
  }

  /** The keyspace at time t holds exactly what the future needs of the history. */
  ghost predicate Agrees(s: Store, h: seq<Admission>, book: Book, t: int)
    requires ProperBook(book)
  {
    && NotAfter(h, t)
    && DistinctIds(h)
    && (forall slot: Slot :: slot.key in book ==> SlotAgrees(s, h, book[slot.key], slot, t))
    && (forall km: KeyMonth :: km.key in book ==> MonthAgrees(s, h, book[km.key], km, t))
  }

  // ----- reading the keyspace gives what the history says

  lemma {:induction false} EntriesAreOfHistory(h: seq<Admission>, slot: Slot, e: Entry)
    ensures e in AllEntries(h, slot) ==>
              exists i :: 0 <= i < |h| && h[i].slot == slot && h[i].id == e.id && h[i].clock.us == e.score
  {
    if h != [] {
      var n := |h| - 1;
      EntriesAreOfHistory(h[..n], slot, e);
      if e in AllEntries(h[..n], slot) {
        var i :| 0 <= i < n && h[..n][i].slot == slot && h[..n][i].id == e.id && h[..n][i].clock.us == e.score;
        assert h[i].slot == slot;
      }
    }
  }

  lemma TrimAppend(h: seq<Admission>, a: Admission, slot: Slot, bound: int)
    ensures Trim(AllEntries(h + [a], slot), bound)
         == Trim(AllEntries(h, slot), bound)
            + (if a.slot == slot && bound <= a.clock.us then {Entry(a.clock.us, a.id)} else {})
  {
    Appended(h, a);
  }

  lemma NewIdIsNew(h: seq<Admission>, slot: Slot, e: Entry)
    requires Fresh(h, e.id)
    ensures e !in AllEntries(h, slot)
  {
    EntriesAreOfHistory(h, slot, e);
  }

  /** With unique request ids the sorted set has one entry per admission. */
  lemma {:induction false} EntriesCount(h: seq<Admission>, slot: Slot, bound: int)
    requires DistinctIds(h)
    ensures |Trim(AllEntries(h, slot), bound)| == CountSince(h, slot, bound)
  {
    if h != [] {
      var n := |h| - 1;
      var earlier, a := h[..n], h[n];
      assert h == earlier + [a];
      EntriesCount(earlier, slot, bound);
      TrimAppend(earlier, a, slot, bound);
      NewIdIsNew(earlier, slot, Entry(a.clock.us, a.id));
    }
  }

  lemma {:induction false} OldestIsOldest(h: seq<Admission>, slot: Slot, bound: int)
    ensures var entries := Trim(AllEntries(h, slot), bound); var oldest := OldestSince(h, slot, bound);
            && (oldest.None? <==> entries == {})
            && (oldest.Some? ==>
                  && (exists e :: e in entries && e.score == oldest.value)
                  && (forall e :: e in entries ==> oldest.value <= e.score))
  {
    if h != [] {
      var n := |h| - 1;
      assert h == h[..n] + [h[n]];
      OldestIsOldest(h[..n], slot, bound);
      TrimAppend(h[..n], h[n], slot, bound);
      if h[n].slot == slot && bound <= h[n].clock.us {
        assert Entry(h[n].clock.us, h[n].id) in Trim(AllEntries(h, slot), bound);
        assert forall e :: e in Trim(AllEntries(h[..n], slot), bound) ==> e in Trim(AllEntries(h, slot), bound);
      }
    }
  }

  lemma {:induction false} NoneInMonth(h: seq<Admission>, km: KeyMonth)
    requires forall i :: 0 <= i < |h| ==> !InMonth(h[i], km)
    ensures MonthSum(h, km) == 0
  {
    if h != [] {
      NoneInMonth(h[..|h| - 1], km);
    }
  }

  lemma {:induction false} LevelAtMostCap(h: seq<Admission>, slot: Slot, cap: int, r: int, now: int)
    ensures LevelAt(h, slot, cap, r, now) <= cap
  {
    if h != [] {
      LevelAtMostCap(h[..|h| - 1], slot, cap, r, now);
    }
  }

  /** Lazy refill of the stored bucket, or a full bucket when there is none, is the level that
      the whole history gives. */
  lemma BucketReads(s: Store, h: seq<Admission>, argv: Argv, slot: Slot, t: int, now: int)
    requires ProperArgv(argv) && t <= now && NotAfter(h, t)
    requires BucketAgrees(s, h, argv, slot, t)
    ensures Refill(s, slot, argv, now)
         == Level(LevelAt(h, slot, argv.cap, PerMicro(argv), now), now)
  {
    var r := PerMicro(argv);
    if slot in s.buckets {
      var b := s.buckets[slot];
      LevelAdvances(h, slot, argv.cap, r, b.ts, now);
      LevelAtMostCap(h, slot, argv.cap, r, b.ts);
      RefillIsExact(b.tokens, b.ts, argv.cap, r, now);
    } else {
      LevelAdvances(h, slot, argv.cap, r, t, now);
      MulMonotone(r, 0, now - t);
    }
  }

  lemma TrimmedLog(entries: set<Entry>, all: set<Entry>, b0: int, b1: int)
    requires Trim(all, b0) <= entries <= all && b0 <= b1
    ensures Trim(entries, b1) == Trim(all, b1)
  {
    forall e | e in all && b1 <= e.score
      ensures e in entries
    {
      assert e in Trim(all, b0);
    }
  }

  lemma SubsetCard<T>(a: set<T>, b: set<T>)
    requires a <= b
    ensures |a| <= |b|
  {
    assert b == a + (b - a);
  }

  /** A month counter that is gone belongs to a month long over, or was never written. */
  lemma CounterReads(s: Store, h: seq<Admission>, km: KeyMonth, t: int, c: Clock)
    requires CounterAgrees(s, h, km, t) && AllBefore(h, c) && Sane(c) && t <= c.us && km.month == c.month
    ensures Value(s, km) == MonthSum(h, km)
  {
    if km !in s.counters {
      forall i | 0 <= i < |h|
        ensures !InMonth(h[i], km)
      {
        NotYetGone(h[i], km, t, c);
      }
      NoneInMonth(h, km);
    }
  }

  lemma NotYetGone(a: Admission, km: KeyMonth, t: int, c: Clock)
    requires Before(a.clock, c) && Sane(c) && t <= c.us && km.month == c.month
    ensures InMonth(a, km) ==> NowMs(t) < Grace(a.clock.monthEndS)
  {
  }

  /** What one run of the script has read is what the history says: exactly, of the level too, */
  ghost predicate ReadsHistory(r: Reading, h: seq<Admission>, argv: Argv, slot: Slot, cost: int, c: Clock) {
    ReadsLog(r, h, argv, slot, cost, c) && r.level == Level(LevelAt(h, slot, argv.cap, PerMicro(argv), c.us), c.us)
  }

  /** or of the window and the month, which no rounding touches. */
  ghost predicate ReadsLog(r: Reading, h: seq<Admission>, argv: Argv, slot: Slot, cost: int, c: Clock) {
    && r.km == KeyMonth(slot.key, c.month)
    && r.entries == Trim(AllEntries(h, slot), c.us - argv.windowUs)
    && |r.entries| == CountSince(h, slot, c.us - argv.windowUs) <= argv.sustained
    && r.used == MonthSum(h, r.km) <= argv.hard
    && r.burstOk == (cost * UTOK <= r.level.tokens)
    && r.sustainedOk == (|r.entries| + 1 <= argv.sustained)
    && r.quotaOk == (r.used + cost <= argv.hard)
  }

  /** The script's three verdicts are the history's. */
  lemma VerdictsAgree(r: Reading, h: seq<Admission>, argv: Argv, slot: Slot, cost: int, c: Clock)
    requires ReadsHistory(r, h, argv, slot, cost, c)
    ensures r.burstOk == BurstAllows(h, argv, slot, cost, c)
    ensures r.sustainedOk == SustainedAllows(h, argv, slot, c)
    ensures r.quotaOk == QuotaAllows(h, argv, slot, cost, c)
    ensures r.Allowed() == Allows(h, argv, slot, cost, c)
  {
    LevelIsRoom(h, slot, argv.cap, PerMicro(argv), c.us, cost * UTOK);
  }

  lemma WindowReads(entries: set<Entry>, h: seq<Admission>, slot: Slot, b0: int, b1: int)
    requires LogHolds(entries, h, slot, b0) && b0 <= b1 && DistinctIds(h)
    ensures Trim(entries, b1) == Trim(AllEntries(h, slot), b1)
    ensures CountSince(h, slot, b1) == |Trim(entries, b1)| <= |entries|
  {
    TrimmedLog(entries, AllEntries(h, slot), b0, b1);
    EntriesCount(h, slot, b1);
    SubsetCard(Trim(entries, b1), entries);
  }

  lemma ReadWithAgrees(level: Level, s: Store, h: seq<Admission>, argv: Argv, slot: Slot, cost: int, c: Clock, kept: set<Entry>)
    requires kept == Trim(Entries(s, slot), c.us - argv.windowUs) == Trim(AllEntries(h, slot), c.us - argv.windowUs)
    requires |kept| == CountSince(h, slot, c.us - argv.windowUs) <= argv.sustained
    requires Value(s, KeyMonth(slot.key, c.month)) == MonthSum(h, KeyMonth(slot.key, c.month)) <= argv.hard
    ensures ReadsLog(ReadWith(level, s, argv, slot, KeyMonth(slot.key, c.month), cost, c.us), h, argv, slot, cost, c)
  {
  }

  /** Whatever the refilled level, the window and the month read as the history gives them. */
  lemma LogReads(level: Level, s: Store, h: seq<Admission>, argv: Argv, slot: Slot, cost: int, t: int, c: Clock)
    requires t <= c.us && DistinctIds(h) && AllBefore(h, c) && Sane(c)
    requires WindowAgrees(s, h, argv, slot, t) && MonthAgrees(s, h, argv, KeyMonth(slot.key, c.month), t)
    ensures ReadsLog(ReadWith(level, s, argv, slot, KeyMonth(slot.key, c.month), cost, c.us), h, argv, slot, cost, c)
  {
    CounterReads(s, h, KeyMonth(slot.key, c.month), t, c);
    WindowReads(Entries(s, slot), h, slot, t - argv.windowUs, c.us - argv.windowUs);
    ReadWithAgrees(level, s, h, argv, slot, cost, c, Trim(Entries(s, slot), c.us - argv.windowUs));
  }

  lemma ReadAgrees(s: Store, h: seq<Admission>, argv: Argv, slot: Slot, cost: int, t: int, c: Clock)
    requires ProperArgv(argv) && t <= c.us && NotAfter(h, t) && DistinctIds(h) && AllBefore(h, c) && Sane(c)
    requires SlotAgrees(s, h, argv, slot, t) && MonthAgrees(s, h, argv, KeyMonth(slot.key, c.month), t)
    ensures ReadsHistory(Read(s, argv, slot, KeyMonth(slot.key, c.month), cost, c.us), h, argv, slot, cost, c)
  {
    BucketReads(s, h, argv, slot, t, c.us);
    LogReads(Refill(s, slot, argv, c.us), s, h, argv, slot, cost, t, c);
  }

  // ----- the reply

  lemma OldestAgrees(h: seq<Admission>, slot: Slot, bound: int)
    ensures var entries := Trim(AllEntries(h, slot), bound); var oldest := OldestSince(h, slot, bound);
            oldest == OldestOf(entries) && (oldest.Some? ==> bound <= oldest.value)
  {
    OldestIsOldest(h, slot, bound);
  }

  lemma AdmittedAgrees(h: seq<Admission>, a: Admission, argv: Argv, r: int, bound: int, km: KeyMonth)
    requires bound <= a.clock.us && InMonth(a, km)
    ensures var after := h + [a];
            && Trim(AllEntries(after, a.slot), bound) == Trim(AllEntries(h, a.slot), bound) + {Entry(a.clock.us, a.id)}
            && CountSince(after, a.slot, bound) == CountSince(h, a.slot, bound) + 1
            && MonthSum(after, km) == MonthSum(h, km) + a.cost
            && (a.cost >= 0 ==>
                LevelAt(after, a.slot, argv.cap, r, a.clock.us) == LevelAt(h, a.slot, argv.cap, r, a.clock.us) - a.cost * UTOK)
  {
    Appended(h, a);
    TrimAppend(h, a, a.slot, bound);
    LevelAtMostCap(h, a.slot, argv.cap, r, a.clock.us);
    assert r * (a.clock.us - a.clock.us) == 0;
  }

  /** The script's reporting arithmetic, clamps and all, on values within the limits. */
  lemma ClampsNeverFire(argv: Argv, cost: int, c: Clock, b: bool, s: bool, q: bool, u: Usage, crossed: bool)
    requires ProperArgv(argv) && (!b ==> u.level < cost * UTOK)
    requires u.count <= argv.sustained && u.used <= argv.hard
    requires u.oldest.Some? ==> c.us - argv.windowUs <= u.oldest.value
    requires crossed == (b && s && q && 0 < argv.soft && u.usedBefore < argv.soft <= u.used)
    ensures Reported(argv, cost, c, b, s, q, u.level, u.count, u.oldest, u.used, crossed)
         == SpecDecision(argv, cost, c, b, s, q, u)
  {
    CeilIsLeast(cost * UTOK - u.level, argv.rate, 0);
    if u.oldest.Some? {
      CeilIsLeast(u.oldest.value + argv.windowUs - c.us, UTOK, -1);
    }
  }

  /** What a reading leaves: the history with its own admission, if any, and the bucket. */
  function AdmittedBy(r: Reading, h: seq<Admission>, slot: Slot, cost: int, id: string, c: Clock): seq<Admission> {
    if r.Allowed() then h + [Admission(slot, cost, id, c)] else h
  }

  function TokensLeft(r: Reading, cost: int): int {
    if r.Allowed() then r.level.tokens - cost * UTOK else r.level.tokens
  }

  /** What stands of the window and the month after the decision is what the history gives. */
  lemma UsageAgrees(h: seq<Admission>, argv: Argv, r: Reading, slot: Slot, cost: int, id: string, c: Clock)
    requires ProperArgv(argv) && ReadsLog(r, h, argv, slot, cost, c)
    ensures var n := if r.Allowed() then 1 else 0;
            var entries := if r.Allowed() then r.entries + {Entry(c.us, id)} else r.entries;
            && UsageWith(TokensLeft(r, cost), h, AdmittedBy(r, h, slot, cost, id, c), argv, slot, c)
               == Usage(TokensLeft(r, cost), |r.entries| + n, OldestOf(entries), r.used, if r.Allowed() then r.used + cost else r.used)
            && (OldestOf(entries).Some? ==> c.us - argv.windowUs <= OldestOf(entries).value)
  {
    var bound := c.us - argv.windowUs;
    if r.Allowed() {
      var a := Admission(slot, cost, id, c);
      AdmittedAgrees(h, a, argv, PerMicro(argv), bound, r.km);
      OldestAgrees(h + [a], slot, bound);
    } else {
      OldestAgrees(h, slot, bound);
    }
  }

  /** A reply is the specification's for the verdicts and the level that were read. */
  lemma ReplyOfLog(h: seq<Admission>, argv: Argv, r: Reading, slot: Slot, cost: int, id: string, c: Clock, crossed: bool)
    requires ProperArgv(argv) && ReadsLog(r, h, argv, slot, cost, c)
    requires crossed == (r.Allowed() && 0 < argv.soft && r.used < argv.soft <= r.used + cost)
    ensures Reply(argv, r, cost, id, c, crossed)
         == SpecDecision(argv, cost, c, r.burstOk, r.sustainedOk, r.quotaOk,
                         UsageWith(TokensLeft(r, cost), h, AdmittedBy(r, h, slot, cost, id, c), argv, slot, c))
  {
    UsageAgrees(h, argv, r, slot, cost, id, c);
    ClampsNeverFire(argv, cost, c, r.burstOk, r.sustainedOk, r.quotaOk,
                    UsageWith(TokensLeft(r, cost), h, AdmittedBy(r, h, slot, cost, id, c), argv, slot, c), crossed);
  }

  lemma TokensLeftAgree(h: seq<Admission>, argv: Argv, r: Reading, slot: Slot, cost: int, id: string, c: Clock)
    requires ReadsHistory(r, h, argv, slot, cost, c) && cost >= 1
    ensures LevelAt(AdmittedBy(r, h, slot, cost, id, c), slot, argv.cap, PerMicro(argv), c.us) == TokensLeft(r, cost)
  {
    if r.Allowed() {
      AdmittedAgrees(h, Admission(slot, cost, id, c), argv, PerMicro(argv), c.us, r.km);
    }
  }

  lemma ReplyOfReading(h: seq<Admission>, argv: Argv, r: Reading, slot: Slot, cost: int, id: string, c: Clock, crossed: bool)
    requires ProperArgv(argv) && cost >= 1 && ReadsHistory(r, h, argv, slot, cost, c)
    requires crossed == (r.Allowed() && 0 < argv.soft && r.used < argv.soft <= r.used + cost)
    ensures Reply(argv, r, cost, id, c, crossed) == SpecReply(h, argv, slot, cost, id, c)
  {
    VerdictsAgree(r, h, argv, slot, cost, c);
    TokensLeftAgree(h, argv, r, slot, cost, id, c);
    ReplyOfLog(h, argv, r, slot, cost, id, c, crossed);
  }

  /** The reported values are those that the history gives, and no clamp ever acts. */
  lemma ReplyAgrees(s: Store, h: seq<Admission>, argv: Argv, slot: Slot, cost: int, id: string, t: int, c: Clock)
    requires ProperArgv(argv) && cost >= 1
    requires t <= c.us && NotAfter(h, t) && DistinctIds(h) && AllBefore(h, c) && Sane(c)
    requires SlotAgrees(s, h, argv, slot, t) && MonthAgrees(s, h, argv, KeyMonth(slot.key, c.month), t)
    ensures CheckReply(s, argv, slot, cost, id, c) == SpecReply(h, argv, slot, cost, id, c)
  {
    var r := Read(s, argv, slot, KeyMonth(slot.key, c.month), cost, c.us);
    ReadAgrees(s, h, argv, slot, cost, t, c);
    NoFlagBeforeSoft(s, h, argv, r, cost, t);
    ReplyOfReading(h, argv, r, slot, cost, id, c, Crosses(s, argv, r, cost));
  }

  lemma NoFlagBeforeSoft(s: Store, h: seq<Admission>, argv: Argv, r: Reading, cost: int, t: int)
    requires MonthAgrees(s, h, argv, r.km, t) && r.used == MonthSum(h, r.km)
    ensures Crosses(s, argv, r, cost) <==> r.Allowed() && 0 < argv.soft && r.used < argv.soft <= r.used + cost
  {
  }

  // ----- time passing

  lemma BucketLater(s: Store, h: seq<Admission>, argv: Argv, slot: Slot, t: int, now: int)
    requires ProperArgv(argv) && t <= now && NotAfter(h, t) && BucketAgrees(s, h, argv, slot, t)
    ensures BucketAgrees(s, h, argv, slot, now)
  {
    if slot !in s.buckets {
      LevelAdvances(h, slot, argv.cap, PerMicro(argv), t, now);
      MulMonotone(PerMicro(argv), 0, now - t);
    }
  }

  lemma WindowLater(s: Store, h: seq<Admission>, argv: Argv, slot: Slot, t: int, now: int)
    requires t <= now && WindowAgrees(s, h, argv, slot, t)
    ensures WindowAgrees(s, h, argv, slot, now)
  {
    LogLater(Entries(s, slot), AllEntries(h, slot), t - argv.windowUs, now - argv.windowUs);
  }

  lemma LogLater(entries: set<Entry>, all: set<Entry>, b0: int, b1: int)
    requires Trim(all, b0) <= entries && b0 <= b1
    ensures Trim(all, b1) <= entries
  {
    forall e | e in Trim(all, b1)
      ensures e in entries
    {
      assert e in Trim(all, b0);
    }
  }

  lemma MillisecondsLater(t: int, now: int)
    requires t <= now
    ensures NowMs(t) <= NowMs(now)
  {
  }

  lemma MonthLater(s: Store, h: seq<Admission>, argv: Argv, km: KeyMonth, t: int, now: int)
    requires t <= now && MonthAgrees(s, h, argv, km, t)
    ensures MonthAgrees(s, h, argv, km, now)
  {
    MillisecondsLater(t, now);
  }

  // ----- expiry

  /** A bucket is only ever dropped once it would be full again. */
  lemma OverdueBucketIsFull(argv: Argv, tokens: int, ts: int, now: int)
    requires ProperArgv(argv) && tokens >= 0
    requires BucketDeadline(argv, ts) <= NowMs(now)
    ensures tokens + PerMicro(argv) * (now - ts) >= argv.cap && ts <= now
  {
    var r := PerMicro(argv);
    var seconds := CeilDiv(argv.cap, argv.rate);
    CeilBounds(argv.cap, argv.rate);
    CeilIsLeast(argv.cap, argv.rate, 0);
    assert now - ts >= seconds * UTOK;
    MulMonotone(r, seconds * UTOK, now - ts);
    assert r * (seconds * UTOK) == seconds * (r * UTOK);
  }

  lemma BucketExpires(s: Store, h: seq<Admission>, argv: Argv, slot: Slot, t: int, gone: set<RedisKey>, now: int)
    requires ProperArgv(argv) && t <= now && NotAfter(h, t) && BucketAgrees(s, h, argv, slot, t)
    ensures BucketAgrees(Expire(s, gone, NowMs(now)), h, argv, slot, now)
  {
    BucketLater(s, h, argv, slot, t, now);
    if slot in s.buckets && slot !in Expire(s, gone, NowMs(now)).buckets {
      var b := s.buckets[slot];
      OverdueBucketIsFull(argv, b.tokens, b.ts, now);
      LevelAdvances(h, slot, argv.cap, PerMicro(argv), b.ts, now);
    }
  }

  /** A window is only ever dropped once all its entries have left it. */
  lemma WindowExpires(s: Store, h: seq<Admission>, argv: Argv, slot: Slot, t: int, gone: set<RedisKey>, now: int)
    requires t <= now && WindowAgrees(s, h, argv, slot, t)
    ensures WindowAgrees(Expire(s, gone, NowMs(now)), h, argv, slot, now)
  {
    WindowLater(s, h, argv, slot, t, now);
    if slot in s.windows && slot !in Expire(s, gone, NowMs(now)).windows {
      var w := s.windows[slot];
      assert w.deadline.value * 1000 <= now;
      if Trim(AllEntries(h, slot), now - argv.windowUs) != {} {
        var e :| e in Trim(AllEntries(h, slot), now - argv.windowUs);
        assert e in w.entries;
      }
    }
  }

  lemma MonthExpires(s: Store, h: seq<Admission>, argv: Argv, km: KeyMonth, t: int, gone: set<RedisKey>, now: int)
    requires t <= now && MonthAgrees(s, h, argv, km, t)
    ensures MonthAgrees(Expire(s, gone, NowMs(now)), h, argv, km, now)
  {
    MonthLater(s, h, argv, km, t, now);
  }

  // ----- one check writes its own keys

  lemma CheckedBucket(s: Store, h: seq<Admission>, argv: Argv, r: Reading, slot: Slot, cost: int, id: string, t: int, c: Clock)
    requires ProperArgv(argv) && t <= c.us && NotAfter(h, t) && cost >= 1
    requires BucketAgrees(s, h, argv, slot, t) && ReadsHistory(r, h, argv, slot, cost, c)
    ensures BucketAgrees(Written(s, argv, slot, r, cost, id, c.us, c.monthEndS),
              if r.Allowed() then h + [Admission(slot, cost, id, c)] else h, argv, slot, c.us)
  {
    if r.Allowed() {
      AdmittedAgrees(h, Admission(slot, cost, id, c), argv, PerMicro(argv), c.us - argv.windowUs, r.km);
    } else {
      BucketLater(s, h, argv, slot, t, c.us);
    }
  }

  lemma WindowDeadlineOutlives(argv: Argv, now: int, score: int)
    requires score <= now
    ensures score + argv.windowUs < 1000 * WindowDeadline(argv, now)
  {
    CeilBounds(argv.windowUs, 1000);
  }

  lemma CheckedWindow(s: Store, h: seq<Admission>, argv: Argv, r: Reading, slot: Slot, cost: int, id: string, t: int, c: Clock)
    requires ProperArgv(argv) && t <= c.us && NotAfter(h, t)
    requires WindowAgrees(s, h, argv, slot, t) && ReadsLog(r, h, argv, slot, cost, c)
    requires r.entries == Trim(Entries(s, slot), c.us - argv.windowUs)
    ensures WindowAgrees(Written(s, argv, slot, r, cost, id, c.us, c.monthEndS),
              if r.Allowed() then h + [Admission(slot, cost, id, c)] else h, argv, slot, c.us)
  {
    var a := Admission(slot, cost, id, c);
    var e0 := Entry(c.us, id);
    if r.Allowed() {
      Appended(h, a);
      TrimAppend(h, a, slot, c.us - argv.windowUs);
      forall e | e in r.entries + {e0}
        ensures e.score + argv.windowUs < 1000 * WindowDeadline(argv, c.us)
      {
        if e != e0 {
          EntriesAreOfHistory(h, slot, e);
        }
        WindowDeadlineOutlives(argv, c.us, e.score);
      }
    }
  }

  /** A month with cost on it has an admission, and the clock still reads before its end. */
  lemma MonthIsLive(h: seq<Admission>, km: KeyMonth, t: int, c: Clock) returns (i: int)
    requires AllBefore(h, c) && Sane(c) && t <= c.us && km.month == c.month && MonthSum(h, km) != 0
    ensures 0 <= i < |h| && InMonth(h[i], km) && h[i].clock.monthEndS == c.monthEndS
    ensures NowMs(t) < Grace(h[i].clock.monthEndS)
  {
    if forall j :: 0 <= j < |h| ==> !InMonth(h[j], km) {
      NoneInMonth(h, km);
    }
    i :| 0 <= i < |h| && InMonth(h[i], km);
    NotYetGone(h[i], km, t, c);
  }

  lemma CheckedCounter(s: Store, h: seq<Admission>, argv: Argv, r: Reading, slot: Slot, cost: int, id: string, t: int, c: Clock)
    requires t <= c.us && AllBefore(h, c) && Sane(c) && argv.rate > 0
    requires CounterAgrees(s, h, r.km, t) && r.km == KeyMonth(slot.key, c.month) && r.used == Value(s, r.km) == MonthSum(h, r.km)
    requires r.Allowed()
    ensures CounterAgrees(Written(s, argv, slot, r, cost, id, c.us, c.monthEndS), h + [Admission(slot, cost, id, c)], r.km, c.us)
  {
    var a := Admission(slot, cost, id, c);
    Appended(h, a);
    if r.used != 0 {
      var i := MonthIsLive(h, r.km, t, c);
      assert s.counters[r.km].deadline.value == Grace(h[i].clock.monthEndS);
    }
    var after, s' := h + [a], Written(s, argv, slot, r, cost, id, c.us, c.monthEndS);
    assert MonthSum(after, r.km) == r.used + cost;
    forall i | 0 <= i < |after| && InMonth(after[i], r.km)
      ensures s'.counters[r.km].deadline == Some(Grace(after[i].clock.monthEndS))
    {
    }
  }

  lemma CheckedFlag(s: Store, h: seq<Admission>, argv: Argv, r: Reading, slot: Slot, cost: int, id: string, t: int, c: Clock)
    requires t <= c.us && AllBefore(h, c) && Sane(c) && argv.rate > 0 && cost >= 1
    requires FlagAgrees(s, h, argv, r.km, t) && r.km == KeyMonth(slot.key, c.month) && r.used == MonthSum(h, r.km)
    requires r.Allowed()
    ensures FlagAgrees(Written(s, argv, slot, r, cost, id, c.us, c.monthEndS), h + [Admission(slot, cost, id, c)], argv, r.km, c.us)
  {
    var a := Admission(slot, cost, id, c);
    Appended(h, a);
    if 0 < argv.soft <= r.used {
      var i := MonthIsLive(h, r.km, t, c);
    }
    var after, s' := h + [a], Written(s, argv, slot, r, cost, id, c.us, c.monthEndS);
    assert MonthSum(after, r.km) == r.used + cost;
    forall i | 0 <= i < |after| && InMonth(after[i], r.km)
      ensures r.km in s'.flags ==> s'.flags[r.km].deadline == Some(Grace(after[i].clock.monthEndS))
    {
    }
  }

  lemma CheckedMonth(s: Store, h: seq<Admission>, argv: Argv, r: Reading, slot: Slot, cost: int, id: string, t: int, c: Clock)
    requires t <= c.us && AllBefore(h, c) && Sane(c) && cost >= 1 && argv.rate > 0
    requires MonthAgrees(s, h, argv, r.km, t) && ReadsLog(r, h, argv, slot, cost, c)
    requires r.used == Value(s, r.km)
    ensures MonthAgrees(Written(s, argv, slot, r, cost, id, c.us, c.monthEndS),
              if r.Allowed() then h + [Admission(slot, cost, id, c)] else h, argv, r.km, c.us)
  {
    if r.Allowed() {
      Appended(h, Admission(slot, cost, id, c));
      CheckedCounter(s, h, argv, r, slot, cost, id, t, c);
      CheckedFlag(s, h, argv, r, slot, cost, id, t, c);
    } else {
      MonthLater(s, h, argv, r.km, t, c.us);
    }
  }

  // ----- one check leaves every other slot and month alone

  lemma OtherWindow(s: Store, s': Store, h: seq<Admission>, a: Admission, argv: Argv, slot: Slot, t: int, now: int)
    requires t <= now && a.slot != slot && WindowAgrees(s, h, argv, slot, t)
    requires slot in s.windows <==> slot in s'.windows
    requires slot in s.windows ==> s.windows[slot] == s'.windows[slot]
    ensures WindowAgrees(s', h, argv, slot, now) && WindowAgrees(s', h + [a], argv, slot, now)
  {
    WindowLater(s, h, argv, slot, t, now);
    Appended(h, a);
    TrimAppend(h, a, slot, now - argv.windowUs);
    assert WindowAgrees(s', h, argv, slot, now);
  }

  lemma OtherSlot(s: Store, s': Store, h: seq<Admission>, a: Admission, argv: Argv, slot: Slot, t: int, now: int)
    requires ProperArgv(argv) && t <= now && NotAfter(h, t) && a.slot != slot
    requires slot in s.buckets <==> slot in s'.buckets
    requires slot in s.buckets ==> s.buckets[slot] == s'.buckets[slot]
    requires slot in s.windows <==> slot in s'.windows
    requires slot in s.windows ==> s.windows[slot] == s'.windows[slot]
    requires SlotAgrees(s, h, argv, slot, t)
    ensures SlotAgrees(s', h, argv, slot, now) && SlotAgrees(s', h + [a], argv, slot, now)
  {
    BucketLater(s, h, argv, slot, t, now);
    OtherWindow(s, s', h, a, argv, slot, t, now);
    Appended(h, a);
    assert SlotAgrees(s', h, argv, slot, now);
  }

  lemma OtherMonth(s: Store, s': Store, h: seq<Admission>, a: Admission, argv: Argv, km: KeyMonth, t: int, now: int)
    requires t <= now && !InMonth(a, km)
    requires km in s.counters <==> km in s'.counters
    requires km in s.counters ==> s.counters[km] == s'.counters[km]
    requires km in s.flags <==> km in s'.flags
    requires km in s.flags ==> s.flags[km] == s'.flags[km]
    requires MonthAgrees(s, h, argv, km, t)
    ensures MonthAgrees(s', h, argv, km, now) && MonthAgrees(s', h + [a], argv, km, now)
  {
    MonthLater(s, h, argv, km, t, now);
    Appended(h, a);
    assert MonthAgrees(s', h, argv, km, now);
  }

  // ----- the step and the run

  lemma CheckedSlotAgrees(s: Store, h: seq<Admission>, argv: Argv, slot: Slot, cost: int, id: string, t: int, c: Clock,
                          sl: Slot, other: Argv)
    requires ProperArgv(argv) && ProperArgv(other) && cost >= 1 && t <= c.us && NotAfter(h, t)
    requires SlotAgrees(s, h, argv, slot, t) && SlotAgrees(s, h, other, sl, t) && (sl == slot ==> other == argv)
    requires ReadsHistory(Read(s, argv, slot, KeyMonth(slot.key, c.month), cost, c.us), h, argv, slot, cost, c)
    ensures SlotAgrees(CheckStore(s, argv, slot, cost, id, c), Admit(h, argv, slot, cost, id, c), other, sl, c.us)
  {
    var r := Read(s, argv, slot, KeyMonth(slot.key, c.month), cost, c.us);
    VerdictsAgree(r, h, argv, slot, cost, c);
    if sl == slot {
      CheckedBucket(s, h, argv, r, slot, cost, id, t, c);
      CheckedWindow(s, h, argv, r, slot, cost, id, t, c);
    } else {
      OtherSlot(s, CheckStore(s, argv, slot, cost, id, c), h, Admission(slot, cost, id, c), other, sl, t, c.us);
    }
  }

  lemma CheckedMonthAgrees(s: Store, h: seq<Admission>, argv: Argv, slot: Slot, cost: int, id: string, t: int, c: Clock,
                           km: KeyMonth, other: Argv)
    requires argv.rate > 0 && cost >= 1 && t <= c.us && AllBefore(h, c) && Sane(c)
    requires MonthAgrees(s, h, argv, KeyMonth(slot.key, c.month), t) && MonthAgrees(s, h, other, km, t)
    requires km == KeyMonth(slot.key, c.month) ==> other == argv
    requires ReadsHistory(Read(s, argv, slot, KeyMonth(slot.key, c.month), cost, c.us), h, argv, slot, cost, c)
    ensures MonthAgrees(CheckStore(s, argv, slot, cost, id, c), Admit(h, argv, slot, cost, id, c), other, km, c.us)
  {
    var r := Read(s, argv, slot, KeyMonth(slot.key, c.month), cost, c.us);
    VerdictsAgree(r, h, argv, slot, cost, c);
    if km == r.km {
      CheckedMonth(s, h, argv, r, slot, cost, id, t, c);
    } else {
      OtherMonth(s, CheckStore(s, argv, slot, cost, id, c), h, Admission(slot, cost, id, c), other, km, t, c.us);
    }
  }

  lemma AdmitKeepsOrder(h: seq<Admission>, argv: Argv, slot: Slot, cost: int, id: string, t: int, c: Clock)
    requires NotAfter(h, t) && t <= c.us && DistinctIds(h) && Fresh(h, id)
    ensures NotAfter(Admit(h, argv, slot, cost, id, c), c.us) && DistinctIds(Admit(h, argv, slot, cost, id, c))
  {
  }

  lemma CheckedStoreAgrees(s: Store, h: seq<Admission>, book: Book, slot: Slot, cost: int, id: string, t: int, c: Clock)
    requires ProperBook(book) && slot.key in book && cost >= 1
    requires Agrees(s, h, book, t) && t <= c.us && AllBefore(h, c) && Sane(c) && Fresh(h, id)
    ensures Agrees(CheckStore(s, book[slot.key], slot, cost, id, c), Admit(h, book[slot.key], slot, cost, id, c), book, c.us)
  {
    var argv := book[slot.key];
    var s', h' := CheckStore(s, argv, slot, cost, id, c), Admit(h, argv, slot, cost, id, c);
    ReadAgrees(s, h, argv, slot, cost, t, c);
    AdmitKeepsOrder(h, argv, slot, cost, id, t, c);
    forall sl: Slot | sl.key in book
      ensures SlotAgrees(s', h', book[sl.key], sl, c.us)
    {
      CheckedSlotAgrees(s, h, argv, slot, cost, id, t, c, sl, book[sl.key]);
    }
    forall km: KeyMonth | km.key in book
      ensures MonthAgrees(s', h', book[km.key], km, c.us)
    {
      CheckedMonthAgrees(s, h, argv, slot, cost, id, t, c, km, book[km.key]);
    }
  }

  lemma CheckReplyAgrees(s: Store, h: seq<Admission>, book: Book, slot: Slot, cost: int, id: string, t: int, c: Clock)
    requires ProperBook(book) && slot.key in book && cost >= 1
    requires Agrees(s, h, book, t) && t <= c.us && AllBefore(h, c) && Sane(c)
    ensures CheckReply(s, book[slot.key], slot, cost, id, c) == SpecReply(h, book[slot.key], slot, cost, id, c)
  {
    ReplyAgrees(s, h, book[slot.key], slot, cost, id, t, c);
  }

  lemma CheckCounts(s: Store, h: seq<Admission>, book: Book, slot: Slot, cost: int, t: int, c: Clock)
    requires ProperBook(book) && slot.key in book && cost >= 1
    requires Agrees(s, h, book, t) && t <= c.us && AllBefore(h, c) && Sane(c)
    ensures CountSince(h, slot, c.us - book[slot.key].windowUs) <= book[slot.key].sustained
  {
    ReadAgrees(s, h, book[slot.key], slot, cost, t, c);
  }

  /** One check in exact arithmetic: the same reply, and the keyspace again holds what the history
      needs. */
  lemma CheckKeepsAgreement(s: Store, h: seq<Admission>, book: Book, slot: Slot, cost: int, id: string, t: int, c: Clock)
    requires ProperBook(book) && slot.key in book && cost >= 1
    requires Agrees(s, h, book, t) && t <= c.us && AllBefore(h, c) && Sane(c) && Fresh(h, id)
    ensures CheckReply(s, book[slot.key], slot, cost, id, c) == SpecReply(h, book[slot.key], slot, cost, id, c)
    ensures Agrees(CheckStore(s, book[slot.key], slot, cost, id, c), Admit(h, book[slot.key], slot, cost, id, c), book, c.us)
  {
    CheckReplyAgrees(s, h, book, slot, cost, id, t, c);
    CheckedStoreAgrees(s, h, book, slot, cost, id, t, c);
  }

  lemma ExpiryKeepsAgreement(s: Store, h: seq<Admission>, book: Book, gone: set<RedisKey>, t: int, now: int)
    requires ProperBook(book) && Agrees(s, h, book, t) && t <= now
    ensures Agrees(Expire(s, gone, NowMs(now)), h, book, now)
  {
    var s' := Expire(s, gone, NowMs(now));
    forall slot: Slot | slot.key in book
      ensures SlotAgrees(s', h, book[slot.key], slot, now)
    {
      BucketExpires(s, h, book[slot.key], slot, t, gone, now);
      WindowExpires(s, h, book[slot.key], slot, t, gone, now);
    }
    forall km: KeyMonth | km.key in book
      ensures MonthAgrees(s', h, book[km.key], km, now)
    {
      MonthExpires(s, h, book[km.key], km, t, gone, now);
    }
  }

  lemma TrueClocksAreOrdered(a: Clock, c: Clock)
    requires TrueClock(a) && TrueClock(c) && a.us <= c.us
    ensures Before(a, c) && Sane(c)
  {
    MonthContainsNow(c.s);
    assert a.s <= c.s;
    MonthsAreOrdered(a.s, c.s);
  }

  predicate ComesFrom(es: seq<Event>, i: int, a: Admission) {
    0 <= i < |es| && es[i].Check? && es[i].clock == a.clock && es[i].id == a.id
  }

  /** The last event adds at most its own admission. */
  lemma LastAdmission(es: seq<Event>, book: Book, n: nat)
    requires Planned(es, book) && n == |es| - 1
    ensures var h, h', e := SpecRun(es[..n], book).0, SpecRun(es, book).0, es[n];
            h' == h || (e.Check? && h' == h + [Admission(e.slot, e.cost, e.id, e.clock)])
  {
  }

  /** Admissions come from earlier events of the run. */
  lemma {:induction false} HistoryIsOfEvents(es: seq<Event>, book: Book, j: int) returns (i: int)
    requires Planned(es, book) && 0 <= j < |SpecRun(es, book).0|
    ensures ComesFrom(es, i, SpecRun(es, book).0[j])
  {
    var n := |es| - 1;
    LastAdmission(es, book, n);
    if j < |SpecRun(es[..n], book).0| {
      i := HistoryIsOfEvents(es[..n], book, j);
    } else {
      i := n;
    }
  }

  lemma PrefixIsValid(es: seq<Event>, book: Book)
    requires ValidRun(es, book) && es != []
    ensures ValidRun(es[..|es| - 1], book)
  {
    var n := |es| - 1;
    assert forall i :: 0 <= i < n ==> es[..n][i] == es[i];
  }

  function LastUs(es: seq<Event>): int {
    if es == [] then 0 else es[|es| - 1].clock.us
  }

  /** What the last event knows of one earlier admission. */
  lemma LastHasSeen(es: seq<Event>, book: Book, n: nat, j: nat)
    requires ValidRun(es, book) && n == |es| - 1 && j < |SpecRun(es[..n], book).0|
    ensures Before(SpecRun(es[..n], book).0[j].clock, es[n].clock)
    ensures es[n].Check? ==> SpecRun(es[..n], book).0[j].id != es[n].id
  {
    var i := HistoryIsOfEvents(es[..n], book, j);
    assert es[..n][i] == es[i];
    TrueClocksAreOrdered(es[i].clock, es[n].clock);
  }

  /** What the last event knows of everything admitted before it. */
  lemma PastOfLast(es: seq<Event>, book: Book)
    requires ValidRun(es, book) && es != []
    ensures var n := |es| - 1; var h := SpecRun(es[..n], book).0; var e := es[n];
            && AllBefore(h, e.clock) && Sane(e.clock) && (n > 0 ==> LastUs(es[..n]) <= e.clock.us)
            && (e.Check? ==> Fresh(h, e.id))
  {
    var n := |es| - 1;
    TrueClocksAreOrdered(es[n].clock, es[n].clock);
    forall j | 0 <= j < |SpecRun(es[..n], book).0|
      ensures Before(SpecRun(es[..n], book).0[j].clock, es[n].clock)
      ensures es[n].Check? ==> SpecRun(es[..n], book).0[j].id != es[n].id
    {
      LastHasSeen(es, book, n, j);
    }
  }

  lemma EmptyAgrees(book: Book, t: int)
    requires ProperBook(book)
    ensures Agrees(Empty, [], book, t)
  {
  }

  /** In exact arithmetic, in every run with a true non-decreasing clock and fixed limits, whatever
      overdue keys expire and whenever, the script replies at every check exactly as the specification that
      recomputes everything from the full list of admissions. */
  lemma {:induction false} ScriptRefinesSpec(es: seq<Event>, book: Book)
    requires ValidRun(es, book)
    ensures ScriptRun(es, book).1 == SpecRun(es, book).1
    ensures es != [] ==> Agrees(ScriptRun(es, book).0, SpecRun(es, book).0, book, LastUs(es))
  {
    if es != [] {
      var n := |es| - 1;
      PrefixIsValid(es, book);
      ScriptRefinesSpec(es[..n], book);
      PastOfLast(es, book);
      var s, h, e := ScriptRun(es[..n], book).0, SpecRun(es[..n], book).0, es[n];
      var t := if n == 0 then e.clock.us else LastUs(es[..n]);
      if n == 0 {
        EmptyAgrees(book, t);
      }
      match e
      case Check(slot, cost, id, c) =>
        assert e in es;
        CheckKeepsAgreement(s, h, book, slot, cost, id, t, c);
      case Expiry(gone, c) =>
        ExpiryKeepsAgreement(s, h, book, gone, t, c.us);
    }
  }
}
