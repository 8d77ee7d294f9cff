/** A denied check's retry time is honest (section 10.2.3 of RFC 9110): strictly after it, the
    same check passes, unless its cost can never fit. */
module RetryAfter {
  import opened Arith
  import opened Calendar
  import opened Limits
  import opened Redis
  import opened CheckScript
  import opened History
  import opened Refinement
  import opened OverAdmission

  // ----- what waiting does to each layer, with nothing admitted meanwhile

  lemma BurstAfterWaiting(h: seq<Admission>, argv: Argv, slot: Slot, cost: int, now: int, later: int, retry: int)
    requires ProperArgv(argv) && NotAfter(h, now) && now + retry * UTOK <= later && retry >= 0
    requires cost * UTOK <= argv.cap
    requires var level := LevelAt(h, slot, argv.cap, PerMicro(argv), now);
             level < cost * UTOK ==> cost * UTOK <= level + retry * argv.rate
    ensures cost * UTOK <= LevelAt(h, slot, argv.cap, PerMicro(argv), later)
  {
    LevelAdvances(h, slot, argv.cap, PerMicro(argv), now, later);
    RefillWhileWaiting(PerMicro(argv), argv.rate, retry, later - now);
  }

  lemma RefillWhileWaiting(r: int, rate: int, retry: int, waited: int)
    requires r > 0 && rate == r * UTOK && retry >= 0 && retry * UTOK <= waited
    ensures r * waited >= retry * rate && r * waited >= 0
  {
    MulMonotone(r, retry * UTOK, waited);
    MulMonotone(r, 0, waited);
    assert r * (retry * UTOK) == retry * rate;
  }

  /** The burst part of the retry time is the least whole number of seconds that suffices. */
  lemma BurstRetryIsLeast(h: seq<Admission>, argv: Argv, slot: Slot, cost: int, c: Clock, c': Clock, n: nat)
    requires ProperArgv(argv) && NotAfter(h, c.us) && c'.us == c.us + n * UTOK
    requires cost * UTOK <= argv.cap && !BurstAllows(h, argv, slot, cost, c)
    ensures BurstAllows(h, argv, slot, cost, c')
            <==> n >= CeilDiv(cost * UTOK - LevelAt(h, slot, argv.cap, PerMicro(argv), c.us), argv.rate)
  {
    var r := PerMicro(argv);
    var level := LevelAt(h, slot, argv.cap, r, c.us);
    LevelIsRoom(h, slot, argv.cap, r, c'.us, cost * UTOK);
    LevelAdvances(h, slot, argv.cap, r, c.us, c'.us);
    assert r * (n * UTOK) == n * argv.rate;
    CeilIsLeast(cost * UTOK - level, argv.rate, n);
  }

  /** When the bucket alone denies, the reply's retry time is that least number. */
  lemma BurstOnlyRetry(h: seq<Admission>, argv: Argv, slot: Slot, cost: int, id: string, c: Clock, c': Clock, n: nat)
    requires ProperArgv(argv) && NotAfter(h, c.us) && c'.us == c.us + n * UTOK && cost * UTOK <= argv.cap
    requires !BurstAllows(h, argv, slot, cost, c) && SustainedAllows(h, argv, slot, c) && QuotaAllows(h, argv, slot, cost, c)
    ensures BurstAllows(h, argv, slot, cost, c') <==> n >= SpecReply(h, argv, slot, cost, id, c).retryAfter
  {
    BurstRetryIsLeast(h, argv, slot, cost, c, c', n);
    LevelIsRoom(h, slot, argv.cap, PerMicro(argv), c.us, cost * UTOK);
    CeilIsLeast(cost * UTOK - LevelAt(h, slot, argv.cap, PerMicro(argv), c.us), argv.rate, 0);
  }

  /** Once the oldest counted admission has left the window the count has dropped. */
  lemma {:induction false} CountDrops(h: seq<Admission>, slot: Slot, b: int, b': int)
    requires b <= b'
    ensures CountSince(h, slot, b') <= CountSince(h, slot, b)
    ensures OldestSince(h, slot, b).Some? && OldestSince(h, slot, b).value < b' ==>
              CountSince(h, slot, b') < CountSince(h, slot, b)
    ensures OldestSince(h, slot, b).None? ==> CountSince(h, slot, b) == 0
  {
    if h != [] {
      CountDrops(h[..|h| - 1], slot, b, b');
    }
  }

  /** A month other than the clock's own, named by a later clock, has nothing on it yet. */
  lemma NextMonthIsEmpty(h: seq<Admission>, km: KeyMonth, c: Clock, c': Clock)
    requires AllBefore(h, c) && AllBefore(h, c') && Sane(c) && Sane(c') && c.us <= c'.us
    requires km.month == c'.month != c.month
    ensures MonthSum(h, km) == 0
  {
    forall i | 0 <= i < |h|
      ensures !InMonth(h[i], km)
    {
      assert Before(h[i].clock, c) && Before(h[i].clock, c');
      assert c.s <= c'.s;
    }
    NoneInMonth(h, km);
  }

  // ----- the specification's retry time

  /** The earlier and later histories look the same to the key. */
  ghost predicate SameForSlot(h: seq<Admission>, h': seq<Admission>, slot: Slot) {
    && (forall cap, r, now :: LevelAt(h', slot, cap, r, now) == LevelAt(h, slot, cap, r, now))
    && (forall bound :: CountSince(h', slot, bound) == CountSince(h, slot, bound))
    && (forall month :: MonthSum(h', KeyMonth(slot.key, month)) == MonthSum(h, KeyMonth(slot.key, month)))
  }

  lemma OtherKeyChangesNothing(h: seq<Admission>, a: Admission, slot: Slot)
    requires a.slot.key != slot.key
    ensures SameForSlot(h, h + [a], slot)
  {
    Appended(h, a);
  }

  /** What each denying layer needs of a waiting time in seconds. */
  ghost predicate BurstWait(h: seq<Admission>, argv: Argv, slot: Slot, cost: int, c: Clock, retry: int) {
    !BurstAllows(h, argv, slot, cost, c) ==>
      cost * UTOK <= LevelAt(h, slot, argv.cap, PerMicro(argv), c.us) + retry * argv.rate
  }

  ghost predicate SustainedWait(h: seq<Admission>, argv: Argv, slot: Slot, c: Clock, retry: int) {
    var oldest := OldestSince(h, slot, c.us - argv.windowUs);
    !SustainedAllows(h, argv, slot, c) && oldest.Some? ==> oldest.value + argv.windowUs <= c.us + retry * UTOK
  }

  ghost predicate QuotaWait(h: seq<Admission>, argv: Argv, slot: Slot, cost: int, c: Clock, retry: int) {
    !QuotaAllows(h, argv, slot, cost, c) ==> retry >= c.monthEndS - c.s
  }

  ghost predicate Waits(h: seq<Admission>, argv: Argv, slot: Slot, cost: int, c: Clock, retry: int) {
    && ProperArgv(argv) && AllBefore(h, c) && retry >= 0
    && CountSince(h, slot, c.us - argv.windowUs) <= argv.sustained
    && BurstWait(h, argv, slot, cost, c, retry)
    && SustainedWait(h, argv, slot, c, retry)
    && QuotaWait(h, argv, slot, cost, c, retry)
  }

  ghost predicate InOrder(h: seq<Admission>, c: Clock, c': Clock) {
    Before(c, c') && Sane(c) && Sane(c') && AllBefore(h, c')
  }

  /** The reported time is the largest that any denying layer asks for. */
  lemma DecisionCovers(argv: Argv, cost: int, c: Clock, b: bool, s: bool, q: bool, u: Usage)
    requires ProperArgv(argv) && !(b && s && q) && (!b ==> u.level < cost * UTOK)
    ensures var retry := SpecDecision(argv, cost, c, b, s, q, u).retryAfter;
            && retry >= 0
            && (!b ==> cost * UTOK <= u.level + retry * argv.rate)
            && (!s && u.oldest.Some? ==> u.oldest.value + argv.windowUs <= c.us + retry * UTOK)
            && (!q ==> retry >= c.monthEndS - c.s)
  {
    var retry := SpecDecision(argv, cost, c, b, s, q, u).retryAfter;
    CeilIsLeast(cost * UTOK - u.level, argv.rate, 0);
    CeilIsLeast(cost * UTOK - u.level, argv.rate, retry);
    if u.oldest.Some? {
      CeilIsLeast(u.oldest.value + argv.windowUs - c.us, UTOK, retry);
    }
  }

  lemma RetryCoversLayers(h: seq<Admission>, argv: Argv, slot: Slot, cost: int, id: string, c: Clock)
    requires ProperArgv(argv) && !Allows(h, argv, slot, cost, c) && AllBefore(h, c)
    requires CountSince(h, slot, c.us - argv.windowUs) <= argv.sustained
    ensures Waits(h, argv, slot, cost, c, SpecReply(h, argv, slot, cost, id, c).retryAfter)
  {
    LevelIsRoom(h, slot, argv.cap, PerMicro(argv), c.us, cost * UTOK);
    DecisionCovers(argv, cost, c, BurstAllows(h, argv, slot, cost, c), SustainedAllows(h, argv, slot, c),
                   QuotaAllows(h, argv, slot, cost, c), UsageOf(h, h, argv, slot, c));
  }

  lemma WaitingIsEnough(h: seq<Admission>, h': seq<Admission>, argv: Argv, slot: Slot, cost: int,
                        c: Clock, c': Clock, retry: int)
    requires Waits(h, argv, slot, cost, c, retry) && InOrder(h, c, c') && SameForSlot(h, h', slot)
    requires cost * UTOK <= argv.cap && cost <= argv.hard
    requires c.us + retry * UTOK < c'.us
    ensures Allows(h', argv, slot, cost, c')
  {
    BurstPasses(h, h', argv, slot, cost, c, c', retry);
    SustainedPasses(h, h', argv, slot, c, c', retry);
    QuotaPasses(h, h', argv, slot, cost, c, c', retry);
  }

  lemma BurstPasses(h: seq<Admission>, h': seq<Admission>, argv: Argv, slot: Slot, cost: int, c: Clock, c': Clock, retry: int)
    requires ProperArgv(argv) && cost * UTOK <= argv.cap && AllBefore(h, c) && SameForSlot(h, h', slot)
    requires retry >= 0 && c.us + retry * UTOK < c'.us
    requires BurstWait(h, argv, slot, cost, c, retry)
    ensures BurstAllows(h', argv, slot, cost, c')
  {
    LevelIsRoom(h, slot, argv.cap, PerMicro(argv), c.us, cost * UTOK);
    BurstAfterWaiting(h, argv, slot, cost, c.us, c'.us, retry);
    LevelIsRoom(h', slot, argv.cap, PerMicro(argv), c'.us, cost * UTOK);
  }

  lemma SustainedPasses(h: seq<Admission>, h': seq<Admission>, argv: Argv, slot: Slot, c: Clock, c': Clock, retry: int)
    requires ProperArgv(argv) && SameForSlot(h, h', slot)
    requires retry >= 0 && c.us + retry * UTOK < c'.us
    requires CountSince(h, slot, c.us - argv.windowUs) <= argv.sustained
    requires SustainedWait(h, argv, slot, c, retry)
    ensures SustainedAllows(h', argv, slot, c')
  {
    var b, b' := c.us - argv.windowUs, c'.us - argv.windowUs;
    CountDrops(h, slot, b, b');
  }

  /** Waiting for the quota's reset leads into another month. */
  lemma PastMonthEnd(c: Clock, c': Clock, retry: int)
    requires Sane(c) && Sane(c') && Before(c, c') && c.us + retry * UTOK < c'.us
    ensures retry >= c.monthEndS - c.s ==> c'.month != c.month
  {
    if retry >= c.monthEndS - c.s {
      assert c'.s >= c.monthEndS;
    }
  }

  lemma QuotaPasses(h: seq<Admission>, h': seq<Admission>, argv: Argv, slot: Slot, cost: int, c: Clock, c': Clock, retry: int)
    requires cost <= argv.hard && SameForSlot(h, h', slot)
    requires AllBefore(h, c) && AllBefore(h, c') && Sane(c) && Sane(c') && Before(c, c')
    requires retry >= 0 && c.us + retry * UTOK < c'.us
    requires QuotaWait(h, argv, slot, cost, c, retry)
    ensures QuotaAllows(h', argv, slot, cost, c')
  {
    var km := KeyMonth(slot.key, c'.month);
    assert MonthSum(h', km) == MonthSum(h, km);
    PastMonthEnd(c, c', retry);
    if c'.month != c.month {
      NextMonthIsEmpty(h, km, c, c');
    }
  }

  // ----- runs of the script

  lemma PrefixesAreValid(es: seq<Event>, book: Book, k: int)
    requires ValidRun(es, book) && 0 <= k <= |es|
    ensures ValidRun(es[..k], book)
  {
    assert forall i :: 0 <= i < k ==> es[..k][i] == es[i];
  }

  ghost function HistoryAt(es: seq<Event>, book: Book, k: int): seq<Admission>
    requires ValidRun(es, book) && 0 <= k <= |es|
  {
    PrefixesAreValid(es, book, k);
    SpecRun(es[..k], book).0
  }

  /** The script's reply to the k-th event of a run. */
  ghost function ReplyAt(es: seq<Event>, book: Book, k: int): Decision
    requires ValidRun(es, book) && 0 <= k < |es| && es[k].Check?
  {
    PrefixesAreValid(es, book, k);
    assert es[k] in es;
    var e := es[k];
    CheckReply(ScriptRun(es[..k], book).0, book[e.slot.key], e.slot, e.cost, e.id, e.clock)
  }

  /** What event k finds: a keyspace that agrees with the history so far. */
  lemma BeforeEvent(es: seq<Event>, book: Book, k: int) returns (t: int)
    requires ValidRun(es, book) && 0 <= k < |es|
    ensures ValidRun(es[..k], book) && t <= es[k].clock.us
    ensures Agrees(ScriptRun(es[..k], book).0, SpecRun(es[..k], book).0, book, t)
  {
    PrefixesAreValid(es, book, k);
    ScriptRefinesSpec(es[..k], book);
    t := if k == 0 then es[k].clock.us else LastUs(es[..k]);
    if k == 0 {
      EmptyAgrees(book, t);
    }
  }

  /** What event k knows of the history so far. */
  lemma SeesHistory(es: seq<Event>, book: Book, k: int)
    requires ValidRun(es, book) && 0 <= k < |es|
    ensures AllBefore(HistoryAt(es, book, k), es[k].clock) && Sane(es[k].clock)
    ensures es[k].Check? ==> es[k].slot.key in book && es[k].cost >= 1
  {
    PrefixesAreValid(es, book, k + 1);
    var prefix := es[..k + 1];
    assert prefix[..k] == es[..k] && prefix[k] == es[k] && es[k] in es;
    PastOfLast(prefix, book);
  }

  /** The two together, in the form that one check needs. */
  ghost predicate Meets(s: Store, h: seq<Admission>, book: Book, slot: Slot, cost: int, t: int, c: Clock) {
    && ProperBook(book) && slot.key in book && cost >= 1
    && Agrees(s, h, book, t) && t <= c.us && AllBefore(h, c) && Sane(c)
  }

  lemma CheckMeets(es: seq<Event>, book: Book, k: int) returns (s: Store, h: seq<Admission>, t: int)
    requires ValidRun(es, book) && 0 <= k < |es| && es[k].Check?
    ensures h == HistoryAt(es, book, k) && es[k].slot.key in book
    ensures ReplyAt(es, book, k) == CheckReply(s, book[es[k].slot.key], es[k].slot, es[k].cost, es[k].id, es[k].clock)
    ensures Meets(s, h, book, es[k].slot, es[k].cost, t, es[k].clock)
  {
    SeesHistory(es, book, k);
    t := BeforeEvent(es, book, k);
    s, h := ScriptRun(es[..k], book).0, HistoryAt(es, book, k);
  }

  /** How event k continues the history. */
  lemma NextHistory(es: seq<Event>, book: Book, k: int)
    requires ValidRun(es, book) && 0 <= k < |es|
    ensures es[k].Expiry? ==> HistoryAt(es, book, k + 1) == HistoryAt(es, book, k)
    ensures es[k].Check? ==>
              && es[k].slot.key in book
              && HistoryAt(es, book, k + 1)
                 == Admit(HistoryAt(es, book, k), book[es[k].slot.key], es[k].slot, es[k].cost, es[k].id, es[k].clock)
  {
    PrefixesAreValid(es, book, k);
    PrefixesAreValid(es, book, k + 1);
    var prefix := es[..k + 1];
    assert prefix[..k] == es[..k] && prefix[k] == es[k] && es[k] in es;
  }

  /** The window counts no more admissions than the limit. */
  predicate WindowHolds(h: seq<Admission>, argv: Argv, slot: Slot, c: Clock) {
    CountSince(h, slot, c.us - argv.windowUs) <= argv.sustained
  }

  lemma MetReply(s: Store, h: seq<Admission>, book: Book, slot: Slot, cost: int, id: string, t: int, c: Clock)
    requires Meets(s, h, book, slot, cost, t, c)
    ensures CheckReply(s, book[slot.key], slot, cost, id, c) == SpecReply(h, book[slot.key], slot, cost, id, c)
  {
    CheckReplyAgrees(s, h, book, slot, cost, id, t, c);
  }

  lemma MetCount(s: Store, h: seq<Admission>, book: Book, slot: Slot, cost: int, t: int, c: Clock)
    requires Meets(s, h, book, slot, cost, t, c)
    ensures WindowHolds(h, book[slot.key], slot, c)
  {
    CheckCounts(s, h, book, slot, cost, t, c);
  }

  lemma RepliesAt(es: seq<Event>, book: Book, k: int)
    requires ValidRun(es, book) && 0 <= k < |es| && es[k].Check?
    ensures es[k].slot.key in book
    ensures ReplyAt(es, book, k)
         == SpecReply(HistoryAt(es, book, k), book[es[k].slot.key], es[k].slot, es[k].cost, es[k].id, es[k].clock)
  {
    var s, h, t := CheckMeets(es, book, k);
    MetReply(s, h, book, es[k].slot, es[k].cost, es[k].id, t, es[k].clock);
  }

  lemma CountsAt(es: seq<Event>, book: Book, k: int)
    requires ValidRun(es, book) && 0 <= k < |es| && es[k].Check?
    ensures es[k].slot.key in book
    ensures WindowHolds(HistoryAt(es, book, k), book[es[k].slot.key], es[k].slot, es[k].clock)
  {
    var s, h, t := CheckMeets(es, book, k);
    MetCount(s, h, book, es[k].slot, es[k].cost, t, es[k].clock);
  }

  /** At every event the clock has seen the history, and a check's reply is the specification's. */
  lemma AtEvent(es: seq<Event>, book: Book, k: int)
    requires ValidRun(es, book) && 0 <= k < |es|
    ensures AllBefore(HistoryAt(es, book, k), es[k].clock) && Sane(es[k].clock)
    ensures es[k].Expiry? ==> HistoryAt(es, book, k + 1) == HistoryAt(es, book, k)
    ensures es[k].Check? ==>
              && es[k].slot.key in book && es[k].cost >= 1
              && var h, e, argv := HistoryAt(es, book, k), es[k], book[es[k].slot.key];
                 && ReplyAt(es, book, k) == SpecReply(h, argv, e.slot, e.cost, e.id, e.clock)
                 && HistoryAt(es, book, k + 1) == Admit(h, argv, e.slot, e.cost, e.id, e.clock)
                 && WindowHolds(h, argv, e.slot, e.clock)
  {
    SeesHistory(es, book, k);
    NextHistory(es, book, k);
    if es[k].Check? {
      RepliesAt(es, book, k);
      CountsAt(es, book, k);
    }
  }

  /** Between event i and event j no check of the key is allowed. */
  ghost predicate QuietBetween(es: seq<Event>, book: Book, key: string, i: int, j: int)
    requires ValidRun(es, book) && 0 <= i <= j <= |es|
  {
    forall k :: i <= k < j && es[k].Check? && es[k].slot.key == key ==> !ReplyAt(es, book, k).allowed
  }

  lemma AllowedAt(es: seq<Event>, book: Book, k: int)
    requires ValidRun(es, book) && 0 <= k < |es| && es[k].Check?
    ensures es[k].slot.key in book
    ensures ReplyAt(es, book, k).allowed
            == Allows(HistoryAt(es, book, k), book[es[k].slot.key], es[k].slot, es[k].cost, es[k].clock)
  {
    AtEvent(es, book, k);
  }

  /** One event adds at most the admission that the script allowed. */
  lemma HistoryStep(es: seq<Event>, book: Book, k: int)
    requires ValidRun(es, book) && 0 <= k < |es|
    ensures HistoryAt(es, book, k + 1) ==
            if es[k].Check? && ReplyAt(es, book, k).allowed
            then HistoryAt(es, book, k) + [Admission(es[k].slot, es[k].cost, es[k].id, es[k].clock)]
            else HistoryAt(es, book, k)
  {
    AtEvent(es, book, k);
  }

  lemma {:induction false} QuietKeepsHistory(es: seq<Event>, book: Book, slot: Slot, i: int, j: int)
    requires ValidRun(es, book) && 0 <= i <= j <= |es| && QuietBetween(es, book, slot.key, i, j)
    ensures SameForSlot(HistoryAt(es, book, i), HistoryAt(es, book, j), slot)
    decreases j
  {
    if i < j {
      QuietKeepsHistory(es, book, slot, i, j - 1);
      HistoryStep(es, book, j - 1);
      var h, e := HistoryAt(es, book, j - 1), es[j - 1];
      if HistoryAt(es, book, j) != h {
        OtherKeyChangesNothing(h, Admission(e.slot, e.cost, e.id, e.clock), slot);
      }
    }
  }

  lemma LimitsAreProper(es: seq<Event>, book: Book, k: int)
    requires ValidRun(es, book) && 0 <= k < |es| && es[k].Check?
    ensures es[k].slot.key in book && es[k].cost >= 1 && ProperArgv(book[es[k].slot.key])
  {
    assert es[k] in es;
  }

  lemma DeniedReplyCovers(h: seq<Admission>, argv: Argv, slot: Slot, cost: int, id: string, c: Clock, reply: Decision)
    requires ProperArgv(argv) && AllBefore(h, c) && WindowHolds(h, argv, slot, c)
    requires reply == SpecReply(h, argv, slot, cost, id, c) && !reply.allowed
    ensures Waits(h, argv, slot, cost, c, reply.retryAfter)
  {
    RetryCoversLayers(h, argv, slot, cost, id, c);
  }

  /** All that a check finds and replies, by name. */
  lemma AtCheck(es: seq<Event>, book: Book, k: int) returns (h: seq<Admission>, argv: Argv, reply: Decision)
    requires ValidRun(es, book) && 0 <= k < |es| && es[k].Check?
    ensures es[k].slot.key in book
    ensures h == HistoryAt(es, book, k) && argv == book[es[k].slot.key] && reply == ReplyAt(es, book, k)
    ensures ProperArgv(argv) && AllBefore(h, es[k].clock)
    ensures WindowHolds(h, argv, es[k].slot, es[k].clock)
    ensures reply == SpecReply(h, argv, es[k].slot, es[k].cost, es[k].id, es[k].clock)
  {
    SeesHistory(es, book, k);
    LimitsAreProper(es, book, k);
    RepliesAt(es, book, k);
    CountsAt(es, book, k);
    h, argv, reply := HistoryAt(es, book, k), book[es[k].slot.key], ReplyAt(es, book, k);
  }

  /** A denied reply's time covers every denying layer. */
  lemma DeniedAt(es: seq<Event>, book: Book, k: int)
    requires ValidRun(es, book) && 0 <= k < |es| && es[k].Check? && !ReplyAt(es, book, k).allowed
    ensures es[k].slot.key in book
    ensures Waits(HistoryAt(es, book, k), book[es[k].slot.key], es[k].slot, es[k].cost, es[k].clock,
                  ReplyAt(es, book, k).retryAfter)
  {
    var h, argv, reply := AtCheck(es, book, k);
    DeniedReplyCovers(h, argv, es[k].slot, es[k].cost, es[k].id, es[k].clock, reply);
  }

  lemma ClocksInOrder(es: seq<Event>, book: Book, i: int, j: int)
    requires ValidRun(es, book) && 0 <= i <= j < |es|
    ensures InOrder(HistoryAt(es, book, i), es[i].clock, es[j].clock)
  {
    TrueClocksAreOrdered(es[i].clock, es[j].clock);
    TrueClocksAreOrdered(es[i].clock, es[i].clock);
    LaterClockHasSeen(es, book, i, j);
  }

  /** After a deny with no admission of the key in between, the same check strictly later than
      the reported time is allowed by all three layers, across month ends too, exactly when its
      cost fits the bucket and the quota at all. A cost that does not fit is denied for ever. */
  lemma RetryAfterIsHonest(es: seq<Event>, book: Book, i: int, j: int)
    requires ValidRun(es, book) && 0 <= i < j < |es| && es[i].Check? && es[j].Check?
    requires es[i].slot == es[j].slot && es[i].cost == es[j].cost
    requires !ReplyAt(es, book, i).allowed && QuietBetween(es, book, es[i].slot.key, i, j)
    requires es[i].clock.us + ReplyAt(es, book, i).retryAfter * UTOK < es[j].clock.us
    ensures es[i].slot.key in book
    ensures ReplyAt(es, book, j).allowed
            <==> es[i].cost * UTOK <= book[es[i].slot.key].cap && es[i].cost <= book[es[i].slot.key].hard
  {
    AllowedAt(es, book, j);
    var argv := book[es[i].slot.key];
    if es[i].cost * UTOK <= argv.cap && es[i].cost <= argv.hard {
      QuietKeepsHistory(es, book, es[i].slot, i, j);
      DeniedAt(es, book, i);
      ClocksInOrder(es, book, i, j);
      WaitingIsEnough(HistoryAt(es, book, i), HistoryAt(es, book, j), argv, es[i].slot, es[i].cost,
                      es[i].clock, es[j].clock, ReplyAt(es, book, i).retryAfter);
    } else {
      CostThatNeverFits(es, book, j);
    }
  }

  lemma LaterClockHasSeen(es: seq<Event>, book: Book, i: int, j: int)
    requires ValidRun(es, book) && 0 <= i <= j < |es|
    ensures AllBefore(HistoryAt(es, book, i), es[j].clock)
  {
    PrefixesAreValid(es, book, i);
    var h := HistoryAt(es, book, i);
    forall m | 0 <= m < |h|
      ensures Before(h[m].clock, es[j].clock)
    {
      var k := HistoryIsOfEvents(es[..i], book, m);
      assert es[..i][k] == es[k];
      TrueClocksAreOrdered(es[k].clock, es[j].clock);
    }
  }

  lemma {:induction false} MonthSumNotNegative(h: seq<Admission>, km: KeyMonth)
    requires forall i :: 0 <= i < |h| ==> h[i].cost >= 0
    ensures MonthSum(h, km) >= 0
  {
    if h != [] {
      MonthSumNotNegative(h[..|h| - 1], km);
    }
  }

  /** A cost above the capacity or above the quota is denied at every point of every run. */
  lemma CostThatNeverFits(es: seq<Event>, book: Book, k: int)
    requires ValidRun(es, book) && 0 <= k < |es| && es[k].Check?
    requires es[k].slot.key in book
    requires es[k].cost * UTOK > book[es[k].slot.key].cap || es[k].cost > book[es[k].slot.key].hard
    ensures !ReplyAt(es, book, k).allowed
  {
    AtEvent(es, book, k);
    PrefixesAreValid(es, book, k);
    RunsAreLawful(es[..k], book);
    var h := HistoryAt(es, book, k);
    forall i | 0 <= i < |h|
      ensures h[i].cost >= 0
    {
      assert LawfulAt(h, book, i);
    }
    MonthSumNotNegative(h, KeyMonth(es[k].slot.key, es[k].clock.month));
  }
}
