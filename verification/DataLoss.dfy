/** What losing the bucket or the window of a slot costs, in doubles and on a forward clock: each
    loss at most one more burst, or one more window. */
module DataLoss {
  import opened Arith
  import opened Limits
  import opened Redis
  import opened CheckScript
  import opened History
  import opened RoundedRefill
  import opened RoundedRun
  import Refinement

  /** A visit or a vanished bucket, a window whose deadline came, or a loss before any deadline. */
  datatype Incident =
    | Happens(moment: Moment)
    | WindowVanishes(clock: Clock)
    | BucketLost(clock: Clock)
    | WindowLost(clock: Clock)
  {
    function At(): int {
      if Happens? then moment.clock.us else clock.us
    }
  }

  /** An admission, and how many losses of each key came before it. */
  datatype Mark = Mark(admission: Admission, buckets: nat, windows: nat)

  datatype Kept = Kept(bucket: Option<Bucket>, window: Option<Window>, marks: seq<Mark>, buckets: nat, windows: nat)

  const NOTHING := Kept(None, None, [], 0, 0)

  function EntriesOf(k: Kept): set<Entry> {
    if k.window.Some? then k.window.value.entries else {}
  }

  function Trimmed(p: Plan, k: Kept, now: int): set<Entry> {
    Trim(EntriesOf(k), now - ScriptArgv(p).windowUs)
  }

  /** A visit's verdict: the bucket, the window, and what else it is told. */
  predicate Grants(p: Plan, k: Kept, v: Moment)
    requires v.Visit?
  {
    BurstOk(p, k.bucket, v) && |Trimmed(p, k, v.clock.us)| + 1 <= p.sustainedLimit && v.othersAllow
  }

  function Visited(p: Plan, slot: Slot, k: Kept, v: Moment): Kept
    requires ValidPlan(p) && v.Visit?
  {
    var now, l, kept := v.clock.us, LevelOf(p, k.bucket, v), Trimmed(p, k, v.clock.us);
    if Grants(p, k, v) then
      Kept(Some(Bucket(l.tokens - v.cost * UTOK, l.ts, Some(BucketDeadline(ScriptArgv(p), now)))),
           Some(Window(kept + {Entry(now, v.id)}, Some(WindowDeadline(ScriptArgv(p), now)))),
           k.marks + [Mark(Admission(slot, v.cost, v.id, v.clock), k.buckets, k.windows)], k.buckets, k.windows)
    else
      k.(window := if kept == {} || k.window.None? then None else Some(k.window.value.(entries := kept)))
  }

  function Next(p: Plan, slot: Slot, k: Kept, e: Incident): Kept
    requires ValidPlan(p)
  {
    match e
    case BucketLost(_) => k.(bucket := None, buckets := k.buckets + 1)
    case WindowLost(_) => k.(window := None, windows := k.windows + 1)
    case WindowVanishes(c) =>
      if k.window.Some? && Overdue(k.window.value.deadline, NowMs(c.us)) then k.(window := None) else k
    case Happens(m) =>
      if m.Visit? then Visited(p, slot, k, m)
      else if k.bucket.Some? && Overdue(k.bucket.value.deadline, NowMs(m.clock.us)) then k.(bucket := None)
      else k
  }

  function Run(p: Plan, slot: Slot, es: seq<Incident>): Kept
    requires ValidPlan(p)
  {
    if es == [] then NOTHING else Next(p, slot, Run(p, slot, es[..|es| - 1]), es[|es| - 1])
  }

  /** Costs are positive, request ids are new to the window, roundings are possible. */
  predicate CanFollow(p: Plan, k: Kept, e: Incident)
    requires ValidPlan(p)
  {
    e.Happens? && e.moment.Visit? ==>
      && e.moment.cost >= 1 && Entry(e.moment.clock.us, e.moment.id) !in EntriesOf(k)
      && (k.bucket.Some? ==> Possible(e.moment.rounding, p, Max(0, e.moment.clock.us - k.bucket.value.ts)))
  }

  predicate Allowable(p: Plan, slot: Slot, es: seq<Incident>)
    requires ValidPlan(p)
  {
    es == []
    || (var n := |es| - 1;
        && Allowable(p, slot, es[..n]) && CanFollow(p, Run(p, slot, es[..n]), es[n])
        && (n > 0 ==> es[n - 1].At() <= es[n].At()))
  }

  // ----- the stored keys are in order

  predicate WindowInOrder(p: Plan, window: Option<Window>) {
    window.Some? ==> window.value.deadline.Some? && forall e :: e in window.value.entries ==> LeavesBefore(p, e, window.value.deadline.value)
  }

  /** The entry has left the window when the deadline comes. */
  predicate LeavesBefore(p: Plan, e: Entry, deadline: int) {
    e.score + ScriptArgv(p).windowUs < 1000 * deadline
  }

  predicate InOrder(p: Plan, k: Kept, t: int)
    requires ValidPlan(p)
  {
    && BucketInOrder(p, k.bucket, t) && WindowInOrder(p, k.window)
    && (forall e :: e in EntriesOf(k) ==> e.score <= t)
    && (forall i :: 0 <= i < |k.marks| ==> k.marks[i].buckets <= k.buckets && k.marks[i].windows <= k.windows)
  }

  /** What a granted visit finds in the bucket: never more than there was, nor than fits. */
  lemma VisitPays(p: Plan, bucket: Option<Bucket>, v: Moment)
    requires ValidPlan(p) && v.Visit? && BucketInOrder(p, bucket, v.clock.us)
    requires bucket.Some? ==> Possible(v.rounding, p, Max(0, v.clock.us - bucket.value.ts))
    ensures var l, r, now := LevelOf(p, bucket, v), p.burstRefillPerSec, v.clock.us;
            && 0 <= l.tokens <= Cap(p) && l.ts <= now + Ahead(p) && WorthAt(l.tokens, l.ts, r, now) <= Cap(p)
            && (bucket.Some? ==> WorthAt(l.tokens, l.ts, r, now) <= WorthAt(bucket.value.tokens, bucket.value.ts, r, now))
  {
    if bucket.Some? {
      RefillIsClose(v.rounding, p, bucket.value.tokens, bucket.value.ts, v.clock.us);
    } else {
      assert WorthAt(Cap(p), v.clock.us, p.burstRefillPerSec, v.clock.us) == Cap(p);
    }
  }

  lemma NewEntriesLeaveBefore(p: Plan, entries: set<Entry>, now: int)
    requires ValidPlan(p) && forall e :: e in entries ==> e.score <= now
    ensures forall e :: e in entries ==> LeavesBefore(p, e, WindowDeadline(ScriptArgv(p), now))
  {
    forall e | e in entries
      ensures LeavesBefore(p, e, WindowDeadline(ScriptArgv(p), now))
    {
      Refinement.WindowDeadlineOutlives(ScriptArgv(p), now, e.score);
    }
  }

  lemma VisitKeepsOrder(p: Plan, slot: Slot, k: Kept, v: Moment, t: int)
    requires ValidPlan(p) && v.Visit? && InOrder(p, k, t) && t <= v.clock.us && CanFollow(p, k, Happens(v))
    ensures InOrder(p, Visited(p, slot, k, v), v.clock.us)
  {
    if Grants(p, k, v) {
      VisitPays(p, k.bucket, v);
      DeadlineIsLater(p, LevelOf(p, k.bucket, v).ts - 1, v.clock.us);
      NewEntriesLeaveBefore(p, Trimmed(p, k, v.clock.us) + {Entry(v.clock.us, v.id)}, v.clock.us);
    }
  }

  lemma InOrderLater(p: Plan, k: Kept, t: int, now: int)
    requires ValidPlan(p) && InOrder(p, k, t) && t <= now
    ensures InOrder(p, k, now)
  {
  }

  lemma NextKeepsOrder(p: Plan, slot: Slot, k: Kept, e: Incident)
    requires ValidPlan(p) && InOrder(p, k, e.At()) && CanFollow(p, k, e)
    ensures InOrder(p, Next(p, slot, k, e), e.At())
  {
    if e.Happens? && e.moment.Visit? {
      VisitKeepsOrder(p, slot, k, e.moment, e.At());
    }
  }

  lemma NothingIsInOrder(p: Plan, t: int)
    requires ValidPlan(p)
    ensures InOrder(p, NOTHING, t)
  {
  }

  lemma {:induction false} RunsAreInOrder(p: Plan, slot: Slot, es: seq<Incident>, now: int)
    requires ValidPlan(p) && Allowable(p, slot, es) && (es != [] ==> es[|es| - 1].At() <= now)
    ensures InOrder(p, Run(p, slot, es), now)
  {
    if es == [] {
      NothingIsInOrder(p, now);
    } else {
      var n := |es| - 1;
      RunsAreInOrder(p, slot, es[..n], es[n].At());
      NextKeepsOrder(p, slot, Run(p, slot, es[..n]), es[n]);
      InOrderLater(p, Run(p, slot, es), es[n].At(), now);
    }
  }

  // ----- what the bucket pays for

  /** Cost admitted from mark i on. */
  function SpentFrom(marks: seq<Mark>, i: int): int
    requires 0 <= i <= |marks|
    decreases |marks|
  {
    if i == |marks| then 0 else SpentFrom(marks[..|marks| - 1], i) + marks[|marks| - 1].admission.cost
  }

  /** What losses and elapsed time have granted since mark i, besides one full bucket. */
  function Granted(p: Plan, losses: int, elapsed: int): int {
    losses * (Cap(p) + Ahead(p) * p.burstRefillPerSec) + p.burstRefillPerSec * elapsed
  }

  predicate BucketPays(p: Plan, k: Kept, i: int, t: int)
    requires 0 <= i < |k.marks|
  {
    var granted := Granted(p, k.buckets - k.marks[i].buckets, t - k.marks[i].admission.clock.us);
    if k.bucket.None? then SpentFrom(k.marks, i) * UTOK <= granted
    else SpentFrom(k.marks, i) * UTOK + WorthAt(k.bucket.value.tokens, k.bucket.value.ts, p.burstRefillPerSec, t) <= granted + Cap(p)
  }

  lemma GrantedLater(p: Plan, losses: int, elapsed: int, more: int)
    ensures Granted(p, losses, elapsed + more) == Granted(p, losses, elapsed) + p.burstRefillPerSec * more
    ensures Granted(p, losses + 1, elapsed) == Granted(p, losses, elapsed) + Cap(p) + Ahead(p) * p.burstRefillPerSec
  {
  }

  lemma PaysLater(p: Plan, k: Kept, i: int, t: int, now: int)
    requires ValidPlan(p) && 0 <= i < |k.marks| && BucketPays(p, k, i, t) && t <= now
    ensures BucketPays(p, k, i, now)
  {
    var r, from := p.burstRefillPerSec, k.marks[i].admission.clock.us;
    GrantedLater(p, k.buckets - k.marks[i].buckets, t - from, now - t);
    MulMonotone(r, 0, now - t);
    if k.bucket.Some? {
      WorthLater(k.bucket.value.tokens, k.bucket.value.ts, r, t, now);
    }
  }

  lemma WorthAtLeast(p: Plan, tokens: int, ts: int, t: int)
    requires ValidPlan(p) && tokens >= 0 && ts <= t + Ahead(p)
    ensures WorthAt(tokens, ts, p.burstRefillPerSec, t) >= -(Ahead(p) * p.burstRefillPerSec)
  {
    MulMonotone(p.burstRefillPerSec, -Ahead(p), t - ts);
  }

  /** A lost bucket may have been worth a little less than nothing. */
  lemma LossPays(p: Plan, k: Kept, i: int, t: int)
    requires ValidPlan(p) && 0 <= i < |k.marks| && BucketPays(p, k, i, t) && BucketInOrder(p, k.bucket, t)
    ensures BucketPays(p, k.(bucket := None, buckets := k.buckets + 1), i, t)
  {
    GrantedLater(p, k.buckets - k.marks[i].buckets, t - k.marks[i].admission.clock.us, 0);
    MulMonotone(p.burstRefillPerSec, 0, Ahead(p));
    if k.bucket.Some? {
      WorthAtLeast(p, k.bucket.value.tokens, k.bucket.value.ts, t);
    }
  }

  lemma VanishPays(p: Plan, k: Kept, i: int, t: int)
    requires ValidPlan(p) && 0 <= i < |k.marks| && BucketPays(p, k, i, t) && BucketInOrder(p, k.bucket, t)
    requires k.bucket.Some? && Overdue(k.bucket.value.deadline, NowMs(t))
    ensures BucketPays(p, k.(bucket := None), i, t)
  {
    OverdueIsWorthAll(p, k.bucket.value.tokens, k.bucket.value.ts, t);
  }

  lemma MarkedLast(marks: seq<Mark>, m: Mark, i: int)
    requires 0 <= i <= |marks|
    ensures (marks + [m])[..|marks|] == marks
    ensures SpentFrom(marks + [m], i) == SpentFrom(marks, i) + m.admission.cost
    ensures SpentFrom(marks, |marks|) == 0
  {
    assert (marks + [m])[..|marks + [m]| - 1] == marks;
  }

  lemma ChargedWorth(l: Level, r: int, now: int, charge: int)
    ensures WorthAt(l.tokens - charge, l.ts, r, now) == WorthAt(l.tokens, l.ts, r, now) - charge
  {
  }

  /** The bucket that a granted visit leaves. */
  lemma GrantedBucket(p: Plan, slot: Slot, k: Kept, v: Moment)
    requires ValidPlan(p) && v.Visit? && Grants(p, k, v)
    ensures var k', l := Visited(p, slot, k, v), LevelOf(p, k.bucket, v);
            && k'.bucket.Some? && k'.bucket.value.tokens == l.tokens - v.cost * UTOK && k'.bucket.value.ts == l.ts
            && k'.marks == k.marks + [Mark(Admission(slot, v.cost, v.id, v.clock), k.buckets, k.windows)]
            && k'.buckets == k.buckets
  {
  }

  /** A granted visit pays for itself, whether mark i is earlier or its own. */
  lemma GrantPays(p: Plan, slot: Slot, k: Kept, v: Moment, i: int)
    requires ValidPlan(p) && v.Visit? && Grants(p, k, v) && BucketInOrder(p, k.bucket, v.clock.us) && CanFollow(p, k, Happens(v))
    requires 0 <= i <= |k.marks| && (i < |k.marks| ==> BucketPays(p, k, i, v.clock.us))
    ensures BucketPays(p, Visited(p, slot, k, v), i, v.clock.us)
  {
    VisitPays(p, k.bucket, v);
    GrantedBucket(p, slot, k, v);
    ChargeIsPaid(p, k, Visited(p, slot, k, v), LevelOf(p, k.bucket, v), v.cost,
                 Mark(Admission(slot, v.cost, v.id, v.clock), k.buckets, k.windows), i, v.clock.us);
  }

  lemma ChargeIsPaid(p: Plan, k: Kept, k': Kept, l: Level, cost: int, m: Mark, i: int, now: int)
    requires 0 <= i <= |k.marks| && (i < |k.marks| ==> BucketPays(p, k, i, now))
    requires m.admission.cost == cost && m.admission.clock.us == now && m.buckets == k.buckets
    requires k'.bucket.Some? && k'.bucket.value.tokens == l.tokens - cost * UTOK && k'.bucket.value.ts == l.ts
    requires k'.marks == k.marks + [m] && k'.buckets == k.buckets
    requires var worth := WorthAt(l.tokens, l.ts, p.burstRefillPerSec, now);
             && worth <= Cap(p)
             && (k.bucket.Some? ==> worth <= WorthAt(k.bucket.value.tokens, k.bucket.value.ts, p.burstRefillPerSec, now))
    ensures BucketPays(p, k', i, now)
  {
    MarkedLast(k.marks, m, i);
    ChargedWorth(l, p.burstRefillPerSec, now, cost * UTOK);
    if i == |k.marks| {
      assert Granted(p, 0, 0) == 0;
    }
  }

  lemma NextPays(p: Plan, slot: Slot, k: Kept, e: Incident, i: int)
    requires ValidPlan(p) && CanFollow(p, k, e) && BucketInOrder(p, k.bucket, e.At())
    requires 0 <= i < |Next(p, slot, k, e).marks| && (i < |k.marks| ==> BucketPays(p, k, i, e.At()))
    ensures BucketPays(p, Next(p, slot, k, e), i, e.At())
  {
    match e
    case BucketLost(_) => LossPays(p, k, i, e.At());
    case Happens(m) =>
      if m.Visit? {
        if Grants(p, k, m) { GrantPays(p, slot, k, m, i); }
      } else if k.bucket.Some? && Overdue(k.bucket.value.deadline, NowMs(m.clock.us)) {
        VanishPays(p, k, i, e.At());
      }
    case _ =>
  }

  lemma {:induction false} RunsPay(p: Plan, slot: Slot, es: seq<Incident>, i: int)
    requires ValidPlan(p) && Allowable(p, slot, es) && 0 <= i < |Run(p, slot, es).marks|
    ensures BucketPays(p, Run(p, slot, es), i, es[|es| - 1].At())
  {
    var n := |es| - 1;
    var k, e := Run(p, slot, es[..n]), es[n];
    RunsAreInOrder(p, slot, es[..n], e.At());
    if i < |k.marks| {
      RunsPay(p, slot, es[..n], i);
      PaysLater(p, k, i, es[n - 1].At(), e.At());
    }
    NextPays(p, slot, k, e, i);
  }

  // ----- what the window pays for

  /** While mark i is still in the window: the admissions from it on are the entries that are
      left, and one full window for each loss. */
  predicate WindowPays(p: Plan, k: Kept, i: int, t: int)
    requires 0 <= i < |k.marks|
  {
    var from := k.marks[i].admission.clock.us;
    t <= from + ScriptArgv(p).windowUs ==>
      && |k.marks| - i <= (k.windows - k.marks[i].windows) * p.sustainedLimit + |Trim(EntriesOf(k), from)|
      && |Trim(EntriesOf(k), from)| <= p.sustainedLimit
  }

  lemma TrimOfTrim(entries: set<Entry>, bound: int, from: int)
    requires bound <= from
    ensures Trim(Trim(entries, bound), from) == Trim(entries, from)
    ensures |Trim(entries, from)| <= |Trim(entries, bound)|
  {
    Refinement.SubsetCard(Trim(entries, from), Trim(entries, bound));
  }

  lemma TrimWithNew(entries: set<Entry>, e: Entry, from: int)
    requires e !in entries && from <= e.score
    ensures |Trim(entries + {e}, from)| == |Trim(entries, from)| + 1
  {
    assert Trim(entries + {e}, from) == Trim(entries, from) + {e};
  }

  /** The entries from mark i on, after a visit has trimmed and, if granted, added its own. */
  lemma VisitedSince(entries: set<Entry>, kept: set<Entry>, bound: int, from: int, e: Entry, limit: int)
    requires kept == Trim(entries, bound) && bound <= from <= e.score && e !in entries
    ensures Trim(kept, from) == Trim(entries, from)
    ensures |Trim(kept + {e}, from)| == |Trim(entries, from)| + 1
    ensures |kept| + 1 <= limit ==> |Trim(kept + {e}, from)| <= limit
  {
    TrimOfTrim(entries, bound, from);
    TrimWithNew(kept, e, from);
  }

  lemma EntriesOfVisited(p: Plan, slot: Slot, k: Kept, v: Moment)
    requires ValidPlan(p) && v.Visit?
    ensures EntriesOf(Visited(p, slot, k, v))
         == if Grants(p, k, v) then Trimmed(p, k, v.clock.us) + {Entry(v.clock.us, v.id)} else Trimmed(p, k, v.clock.us)
    ensures |Visited(p, slot, k, v).marks| == if Grants(p, k, v) then |k.marks| + 1 else |k.marks|
    ensures k.marks <= Visited(p, slot, k, v).marks && Visited(p, slot, k, v).windows == k.windows
    ensures Grants(p, k, v) ==> Visited(p, slot, k, v).marks[|k.marks|] == Mark(Admission(slot, v.cost, v.id, v.clock), k.buckets, k.windows)
  {
  }

  lemma VisitWindowPays(p: Plan, slot: Slot, k: Kept, v: Moment, i: int)
    requires ValidPlan(p) && v.Visit? && CanFollow(p, k, Happens(v)) && 0 <= i < |Visited(p, slot, k, v).marks|
    requires i < |k.marks| ==> WindowPays(p, k, i, v.clock.us) && k.marks[i].admission.clock.us <= v.clock.us
    ensures WindowPays(p, Visited(p, slot, k, v), i, v.clock.us)
  {
    var now, bound := v.clock.us, v.clock.us - ScriptArgv(p).windowUs;
    var from := Visited(p, slot, k, v).marks[i].admission.clock.us;
    EntriesOfVisited(p, slot, k, v);
    if bound <= from {
      VisitedSince(EntriesOf(k), Trimmed(p, k, now), bound, from, Entry(now, v.id), p.sustainedLimit);
    }
  }

  lemma VanishedWindowPays(p: Plan, k: Kept, i: int, now: int)
    requires ValidPlan(p) && 0 <= i < |k.marks| && WindowPays(p, k, i, now) && WindowInOrder(p, k.window)
    requires k.window.Some? && Overdue(k.window.value.deadline, NowMs(now))
    ensures WindowPays(p, k.(window := None), i, now)
  {
    var from := k.marks[i].admission.clock.us;
    if now <= from + ScriptArgv(p).windowUs {
      assert forall e :: e in EntriesOf(k) ==> LeavesBefore(p, e, k.window.value.deadline.value);
      assert Trim(EntriesOf(k), from) == {};
      assert Trim(EntriesOf(k.(window := None)), from) == {};
    }
  }

  lemma LostWindowPays(p: Plan, k: Kept, i: int, now: int)
    requires ValidPlan(p) && 0 <= i < |k.marks| && WindowPays(p, k, i, now)
    ensures WindowPays(p, k.(window := None, windows := k.windows + 1), i, now)
  {
    var from, losses := k.marks[i].admission.clock.us, k.windows - k.marks[i].windows;
    assert (losses + 1) * p.sustainedLimit == losses * p.sustainedLimit + p.sustainedLimit;
    assert Trim(EntriesOf(k.(window := None, windows := k.windows + 1)), from) == {};
  }

  lemma NextWindowPays(p: Plan, slot: Slot, k: Kept, e: Incident, i: int)
    requires ValidPlan(p) && CanFollow(p, k, e) && WindowInOrder(p, k.window) && 0 <= i < |Next(p, slot, k, e).marks|
    requires i < |k.marks| ==> WindowPays(p, k, i, e.At()) && k.marks[i].admission.clock.us <= e.At()
    ensures WindowPays(p, Next(p, slot, k, e), i, e.At())
  {
    match e
    case WindowLost(_) => LostWindowPays(p, k, i, e.At());
    case WindowVanishes(c) =>
      if k.window.Some? && Overdue(k.window.value.deadline, NowMs(c.us)) {
        VanishedWindowPays(p, k, i, c.us);
      }
    case Happens(m) => if m.Visit? { VisitWindowPays(p, slot, k, m, i); }
    case _ =>
  }

  /** A mark that was made at or before t, and the window it has paid for until then. */
  predicate PaysSince(p: Plan, k: Kept, i: int, t: int) {
    0 <= i < |k.marks| && k.marks[i].admission.clock.us <= t && WindowPays(p, k, i, t)
  }

  lemma NextPaysSince(p: Plan, slot: Slot, k: Kept, e: Incident, k': Kept, i: int, t: int)
    requires ValidPlan(p) && CanFollow(p, k, e) && InOrder(p, k, e.At()) && k' == Next(p, slot, k, e)
    requires 0 <= i < |k'.marks| && (i < |k.marks| ==> t <= e.At() && PaysSince(p, k, i, t))
    ensures PaysSince(p, k', i, e.At())
  {
    NextWindowPays(p, slot, k, e, i);
  }

  lemma {:induction false} RunsWindowPay(p: Plan, slot: Slot, es: seq<Incident>, i: int)
    requires ValidPlan(p) && Allowable(p, slot, es) && 0 <= i < |Run(p, slot, es).marks|
    ensures PaysSince(p, Run(p, slot, es), i, es[|es| - 1].At())
  {
    var n := |es| - 1;
    var k, e, t := Run(p, slot, es[..n]), es[n], if n > 0 then es[n - 1].At() else 0;
    RunsAreInOrder(p, slot, es[..n], e.At());
    if i < |k.marks| {
      RunsWindowPay(p, slot, es[..n], i);
    }
    NextPaysSince(p, slot, k, e, Run(p, slot, es), i, t);
  }

  // ----- what a loss costs

  /** The two bounds between marks i and j, with the losses that came between them. */
  predicate WithinLosses(p: Plan, marks: seq<Mark>, i: int, j: int)
    requires 0 <= i <= j < |marks|
  {
    var elapsed := marks[j].admission.clock.us - marks[i].admission.clock.us;
    var buckets, windows := marks[j].buckets - marks[i].buckets, marks[j].windows - marks[i].windows;
    && SpentFrom(marks[..j + 1], i) * UTOK <= Granted(p, buckets + 1, elapsed)
    && (elapsed <= ScriptArgv(p).windowUs ==> j + 1 - i <= (windows + 1) * p.sustainedLimit)
  }

  lemma LastMarkIsWithin(p: Plan, slot: Slot, k: Kept, v: Moment, i: int)
    requires ValidPlan(p) && v.Visit? && Grants(p, k, v) && BucketInOrder(p, Visited(p, slot, k, v).bucket, v.clock.us)
    requires 0 <= i <= |k.marks| && BucketPays(p, Visited(p, slot, k, v), i, v.clock.us) && WindowPays(p, Visited(p, slot, k, v), i, v.clock.us)
    ensures WithinLosses(p, Visited(p, slot, k, v).marks, i, |k.marks|)
  {
    var k', now := Visited(p, slot, k, v), v.clock.us;
    assert k'.marks[..|k.marks| + 1] == k'.marks;
    WorthAtLeast(p, k'.bucket.value.tokens, k'.bucket.value.ts, now);
    GrantedLater(p, k'.buckets - k'.marks[i].buckets, now - k'.marks[i].admission.clock.us, 0);
    var windows := k'.windows - k'.marks[i].windows;
    assert (windows + 1) * p.sustainedLimit == windows * p.sustainedLimit + p.sustainedLimit;
  }

  /** A run whose last incident made a mark. */
  lemma MarkedByLast(p: Plan, slot: Slot, es: seq<Incident>, n: nat)
    requires ValidPlan(p) && n == |es| - 1
    ensures var k, k' := Run(p, slot, es[..n]), Run(p, slot, es);
            && k.marks <= k'.marks
            && (k'.marks != k.marks ==>
                  && es[n].Happens? && es[n].moment.Visit? && Grants(p, k, es[n].moment)
                  && k' == Visited(p, slot, k, es[n].moment) && |k'.marks| == |k.marks| + 1)
  {
  }

  /** Between any two admissions of a slot, in doubles and on a forward clock, with expiry and any
      losses: the cost admitted is at most one full bucket for the stretch and one for each lost
      bucket, plus the refill of the time between (and a microsecond's refill for each bucket if
      the capacity is above 576460); and within one window's length there are at most one full
      window and one for each lost one. */
  lemma {:induction false} LossesCostABurstAndAWindowEach(p: Plan, slot: Slot, es: seq<Incident>, i: int, j: int)
    requires ValidPlan(p) && Allowable(p, slot, es) && 0 <= i <= j < |Run(p, slot, es).marks|
    ensures WithinLosses(p, Run(p, slot, es).marks, i, j)
  {
    var n := |es| - 1;
    MarkedByLast(p, slot, es, n);
    if j < |Run(p, slot, es[..n]).marks| {
      LossesCostABurstAndAWindowEach(p, slot, es[..n], i, j);
      EarlierMarks(p, Run(p, slot, es[..n]).marks, Run(p, slot, es).marks, i, j);
    } else {
      RunsAreInOrder(p, slot, es, es[n].At());
      RunsPay(p, slot, es, i);
      RunsWindowPay(p, slot, es, i);
      LastMarkIsWithin(p, slot, Run(p, slot, es[..n]), es[n].moment, i);
    }
  }

  lemma EarlierMarks(p: Plan, marks: seq<Mark>, marks': seq<Mark>, i: int, j: int)
    requires 0 <= i <= j < |marks| && marks <= marks' && WithinLosses(p, marks, i, j)
    ensures WithinLosses(p, marks', i, j)
  {
    assert marks'[..j + 1] == marks[..j + 1];
  }
}
