/** The limiter as a specification: keep every admission forever, and recompute the bucket
    level, the in-window count and the month sum from that list at every check. */
module History {
  import opened Arith
  import opened Calendar
  import opened Limits
  import opened Redis
  import opened CheckScript

  datatype Admission = Admission(slot: Slot, cost: int, id: string, clock: Clock)

  predicate InMonth(a: Admission, km: KeyMonth) {
    a.slot.key == km.key && a.clock.month == km.month
  }

  /** Total cost admitted on a slot. */
  function SlotCost(h: seq<Admission>, slot: Slot): int {
    if h == [] then 0
    else SlotCost(h[..|h| - 1], slot) + (if h[|h| - 1].slot == slot then h[|h| - 1].cost else 0)
  }

  /** Number of admissions on a slot at or after `bound`. */
  function CountSince(h: seq<Admission>, slot: Slot, bound: int): int {
    if h == [] then 0
    else CountSince(h[..|h| - 1], slot, bound)
         + (if h[|h| - 1].slot == slot && bound <= h[|h| - 1].clock.us then 1 else 0)
  }

  /** Total cost admitted for a key in a month, over all its resources. */
  function MonthSum(h: seq<Admission>, km: KeyMonth): int {
    if h == [] then 0
    else MonthSum(h[..|h| - 1], km) + (if InMonth(h[|h| - 1], km) then h[|h| - 1].cost else 0)
  }

  /** Earliest admission on a slot at or after `bound`, if any. */
  function OldestSince(h: seq<Admission>, slot: Slot, bound: int): Option<int> {
    if h == [] then None
    else
      var rest := OldestSince(h[..|h| - 1], slot, bound);
      var a := h[|h| - 1];
      if a.slot == slot && bound <= a.clock.us then
        Some(if rest.Some? then Min(rest.value, a.clock.us) else a.clock.us)
      else rest
  }

  /** Microtokens in the bucket at `now`: full at first, charged by each admission, refilled at
      r microtokens per microsecond up to the capacity. */
  function LevelAt(h: seq<Admission>, slot: Slot, cap: int, r: int, now: int): int {
    if h == [] then cap
    else
      var a := h[|h| - 1];
      var earlier := h[..|h| - 1];
      if a.slot == slot then
        Min(cap, LevelAt(earlier, slot, cap, r, a.clock.us) - a.cost * UTOK + r * (now - a.clock.us))
      else LevelAt(earlier, slot, cap, r, now)
  }

  /** What was spent from admission i onwards, and x more, is covered by one full bucket plus
      the refill since then. */
  predicate Covered(h: seq<Admission>, slot: Slot, i: int, cap: int, r: int, now: int, x: int)
    requires 0 <= i < |h|
  {
    SlotCost(h[i..], slot) * UTOK + x <= cap + r * (now - h[i].clock.us)
  }

  /** Room for x microtokens, without any bucket: x fits the capacity, and together with what
      was spent it is covered from every past admission onwards. */
  ghost predicate BurstRoom(h: seq<Admission>, slot: Slot, cap: int, r: int, now: int, x: int) {
    && x <= cap
    && forall i :: 0 <= i < |h| && h[i].slot == slot ==> Covered(h, slot, i, cap, r, now, x)
  }

  /** One check against the history: the three layers, each judged from the admissions alone. */
  ghost predicate Allows(h: seq<Admission>, argv: Argv, slot: Slot, cost: int, c: Clock) {
    && BurstAllows(h, argv, slot, cost, c)
    && SustainedAllows(h, argv, slot, c)
    && QuotaAllows(h, argv, slot, cost, c)
  }

  ghost predicate BurstAllows(h: seq<Admission>, argv: Argv, slot: Slot, cost: int, c: Clock) {
    BurstRoom(h, slot, argv.cap, PerMicro(argv), c.us, cost * UTOK)
  }

  ghost predicate SustainedAllows(h: seq<Admission>, argv: Argv, slot: Slot, c: Clock) {
    CountSince(h, slot, c.us - argv.windowUs) < argv.sustained
  }

  ghost predicate QuotaAllows(h: seq<Admission>, argv: Argv, slot: Slot, cost: int, c: Clock) {
    MonthSum(h, KeyMonth(slot.key, c.month)) + cost <= argv.hard
  }

  ghost function Admit(h: seq<Admission>, argv: Argv, slot: Slot, cost: int, id: string, c: Clock): seq<Admission> {
    if Allows(h, argv, slot, cost, c) then h + [Admission(slot, cost, id, c)] else h
  }

  /** What a reply reports of the history after the decision. */
  datatype Usage = Usage(level: int, count: int, oldest: Option<int>, usedBefore: int, used: int)

  ghost function UsageOf(h: seq<Admission>, after: seq<Admission>, argv: Argv, slot: Slot, c: Clock): Usage {
    UsageWith(LevelAt(after, slot, argv.cap, PerMicro(argv), c.us), h, after, argv, slot, c)
  }

  function UsageWith(level: int, h: seq<Admission>, after: seq<Admission>, argv: Argv, slot: Slot, c: Clock): Usage {
    var bound := c.us - argv.windowUs;
    var km := KeyMonth(slot.key, c.month);
    Usage(level, CountSince(after, slot, bound), OldestSince(after, slot, bound), MonthSum(h, km), MonthSum(after, km))
  }

  /** The reply for given layer verdicts and usage. No value needs a clamp. */
  function SpecDecision(argv: Argv, cost: int, c: Clock, b: bool, s: bool, q: bool, u: Usage): Decision
    requires ProperArgv(argv)
  {
    var allowed := b && s && q;
    var sReset := if u.oldest.None? then 0 else CeilDiv(u.oldest.value + argv.windowUs - c.us, UTOK);
    var qReset := c.monthEndS - c.s;
    Decision(
      allowed, DenyLayer(b, s, q),
      argv.cap / UTOK, u.level / UTOK, CeilDiv(argv.cap - u.level, argv.rate),
      argv.sustained, argv.sustained - u.count, sReset,
      argv.hard, u.used, argv.hard - u.used, qReset,
      allowed && 0 < argv.soft && u.usedBefore < argv.soft <= u.used,
      c.month,
      if allowed then 0
      else Max(if b then 0 else CeilDiv(cost * UTOK - u.level, argv.rate),
               Max(if s then 0 else sReset, if q then 0 else qReset)))
  }

  /** The full reply, recomputed from the admissions alone. */
  ghost function SpecReply(h: seq<Admission>, argv: Argv, slot: Slot, cost: int, id: string, c: Clock): Decision
    requires ProperArgv(argv)
  {
    SpecDecision(argv, cost, c,
      BurstAllows(h, argv, slot, cost, c), SustainedAllows(h, argv, slot, c), QuotaAllows(h, argv, slot, cost, c),
      UsageOf(h, Admit(h, argv, slot, cost, id, c), argv, slot, c))
  }

  // ----- facts about appending one admission

  lemma Appended(h: seq<Admission>, a: Admission)
    ensures (h + [a])[..|h + [a]| - 1] == h && (h + [a])[|h + [a]| - 1] == a
  {
  }

  lemma SlotCostAppend(h: seq<Admission>, a: Admission, slot: Slot)
    ensures SlotCost(h + [a], slot) == SlotCost(h, slot) + (if a.slot == slot then a.cost else 0)
  {
    Appended(h, a);
  }

  lemma SuffixCost(h: seq<Admission>, slot: Slot, n: int, i: int)
    requires n == |h| - 1 && 0 <= i <= n
    ensures SlotCost(h[i..], slot) == SlotCost(h[..n][i..], slot) + (if h[n].slot == slot then h[n].cost else 0)
  {
    assert h[i..] == h[..n][i..] + [h[n]];
    SlotCostAppend(h[..n][i..], h[n], slot);
  }

  lemma Elapse(r: int, from: int, via: int, to: int)
    ensures r * (via - from) + r * (to - via) == r * (to - from)
  {
  }

  /** The bucket level is exactly the room that the admissions leave: the bucket refuses a cost
      if and only if some stretch of the history would exceed capacity plus refill. */
  lemma {:induction false} LevelIsRoom(h: seq<Admission>, slot: Slot, cap: int, r: int, now: int, x: int)
    ensures x <= LevelAt(h, slot, cap, r, now) <==> BurstRoom(h, slot, cap, r, now, x)
  {
    if h != [] {
      var n := |h| - 1;
      if h[n].slot == slot {
        var refill := r * (now - h[n].clock.us);
        LevelIsRoom(h[..n], slot, cap, r, h[n].clock.us, x + h[n].cost * UTOK - refill);
        RoomOfLast(h, slot, cap, r, now, x, n, refill);
      } else {
        LevelIsRoom(h[..n], slot, cap, r, now, x);
        RoomOfOther(h, slot, cap, r, now, x, n);
      }
    }
  }

  lemma RoomOfOther(h: seq<Admission>, slot: Slot, cap: int, r: int, now: int, x: int, n: int)
    requires n == |h| - 1 && n >= 0 && h[n].slot != slot
    ensures BurstRoom(h, slot, cap, r, now, x) <==> BurstRoom(h[..n], slot, cap, r, now, x)
  {
    forall i | 0 <= i < n
      ensures Covered(h, slot, i, cap, r, now, x) <==> Covered(h[..n], slot, i, cap, r, now, x)
    {
      SuffixCost(h, slot, n, i);
    }
  }

  lemma CoveredBefore(h: seq<Admission>, slot: Slot, i: int, cap: int, r: int, now: int, x: int, n: int, y: int)
    requires n == |h| - 1 && 0 <= i < n && h[n].slot == slot
    requires y == x + h[n].cost * UTOK - r * (now - h[n].clock.us)
    ensures Covered(h, slot, i, cap, r, now, x) <==> Covered(h[..n], slot, i, cap, r, h[n].clock.us, y)
  {
    SuffixCost(h, slot, n, i);
    Elapse(r, h[i].clock.us, h[n].clock.us, now);
  }

  lemma RoomOfLast(h: seq<Admission>, slot: Slot, cap: int, r: int, now: int, x: int, n: int, refill: int)
    requires n == |h| - 1 && n >= 0 && h[n].slot == slot
    requires refill == r * (now - h[n].clock.us)
    ensures BurstRoom(h, slot, cap, r, now, x) <==>
            x <= cap && BurstRoom(h[..n], slot, cap, r, h[n].clock.us, x + h[n].cost * UTOK - refill)
  {
    var y := x + h[n].cost * UTOK - refill;
    assert Covered(h, slot, n, cap, r, now, x) <==> y <= cap by {
      SuffixCost(h, slot, n, n);
    }
    forall i | 0 <= i < n
      ensures Covered(h, slot, i, cap, r, now, x) <==> Covered(h[..n], slot, i, cap, r, h[n].clock.us, y)
      ensures h[..n][i] == h[i]
    {
      CoveredBefore(h, slot, i, cap, r, now, x, n, y);
    }
  }

  /** Between admissions the level only refills, up to the capacity. */
  lemma {:induction false} LevelAdvances(h: seq<Admission>, slot: Slot, cap: int, r: int, t: int, now: int)
    requires r >= 0 && t <= now
    requires forall i :: 0 <= i < |h| && h[i].slot == slot ==> h[i].clock.us <= t
    ensures LevelAt(h, slot, cap, r, now) == Min(cap, LevelAt(h, slot, cap, r, t) + r * (now - t))
  {
    MulMonotone(r, 0, now - t);
    if h != [] {
      var a, earlier := h[|h| - 1], h[..|h| - 1];
      if a.slot == slot {
        Elapse(r, a.clock.us, t, now);
      } else {
        LevelAdvances(earlier, slot, cap, r, t, now);
      }
    }
  }
}
