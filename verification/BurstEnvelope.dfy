/** The burst bound on the stored bucket itself, for any clock: even one that jumps backwards. */
module BurstEnvelope {
  import opened Arith
  import opened Limits
  import opened Redis
  import opened CheckScript
  import opened TokenBucket

  /** One check, of any slot, at any clock reading. */
  datatype Probe = Probe(slot: Slot, cost: int, id: string, clock: Clock)

  ghost predicate Proper(ps: seq<Probe>, book: map<string, Argv>) {
    forall i :: 0 <= i < |ps| ==>
      ps[i].slot.key in book && book[ps[i].slot.key].rate > 0 && book[ps[i].slot.key].cap > 0 && ps[i].cost >= 0
  }

  function After(s: Store, ps: seq<Probe>, book: map<string, Argv>): Store
    requires Proper(ps, book)
  {
    if ps == [] then s
    else
      var p := ps[|ps| - 1];
      CheckStore(After(s, ps[..|ps| - 1], book), book[p.slot.key], p.slot, p.cost, p.id, p.clock)
  }

  ghost predicate Allowed(s: Store, p: Probe, argv: Argv)
    requires argv.rate > 0
  {
    Read(s, argv, p.slot, KeyMonth(p.slot.key, p.clock.month), p.cost, p.clock.us).Allowed()
  }

  /** Cost admitted on a slot by a sequence of checks. */
  ghost function Spent(s: Store, ps: seq<Probe>, book: map<string, Argv>, slot: Slot): int
    requires Proper(ps, book)
  {
    if ps == [] then 0
    else
      var n := |ps| - 1;
      Spent(s, ps[..n], book, slot)
      + (if ps[n].slot == slot && Allowed(After(s, ps[..n], book), ps[n], book[ps[n].slot.key]) then ps[n].cost else 0)
  }

  /** The largest clock reading seen, and at least `t`. */
  function LatestClock(ps: seq<Probe>, t: int): int {
    if ps == [] then t else Max(LatestClock(ps[..|ps| - 1], t), ps[|ps| - 1].clock.us)
  }

  ghost predicate Holds(s: Store, slot: Slot, from: Level, spent: int, rate: int, latest: int) {
    && slot in s.buckets
    && var b := s.buckets[slot];
       && b.tokens >= 0
       && from.ts <= b.ts <= latest
       && Potential(b.tokens, b.ts, rate) + spent * UTOK * UTOK <= Potential(from.tokens, from.ts, rate)
  }

  /** Any check keeps the books of any slot's bucket. */
  lemma CheckKeepsEnvelope(s: Store, slot: Slot, from: Level, spent: int, argv: Argv, latest: int, p: Probe, other: Argv)
    requires Holds(s, slot, from, spent, argv.rate, latest)
    requires argv.rate > 0 && argv.cap > 0 && other.rate > 0 && (p.slot == slot ==> other == argv) && p.cost >= 0
    ensures Holds(CheckStore(s, other, p.slot, p.cost, p.id, p.clock), slot, from,
                  spent + (if p.slot == slot && Allowed(s, p, other) then p.cost else 0), argv.rate, Max(latest, p.clock.us))
  {
    if p.slot == slot && Allowed(s, p, other) {
      var b := s.buckets[slot];
      RefillUnderCredits(b.tokens, b.ts, argv.cap, argv.rate, p.clock.us);
      var l := RefillLevel(b.tokens, b.ts, argv.cap, argv.rate, p.clock.us);
      assert CheckStore(s, other, p.slot, p.cost, p.id, p.clock).buckets[slot].tokens == l.tokens - p.cost * UTOK;
      Charge(l, p.cost, argv.rate);
    }
  }

  lemma Charge(l: Level, cost: int, rate: int)
    ensures Potential(l.tokens - cost * UTOK, l.ts, rate) + cost * UTOK * UTOK == Potential(l.tokens, l.ts, rate)
  {
  }

  lemma {:induction false} EnvelopeHolds(s: Store, ps: seq<Probe>, book: map<string, Argv>, slot: Slot, from: Level, spent: int, latest: int)
    requires Proper(ps, book) && slot.key in book && book[slot.key].rate > 0 && book[slot.key].cap > 0
    requires Holds(s, slot, from, spent, book[slot.key].rate, latest)
    ensures Holds(After(s, ps, book), slot, from, spent + Spent(s, ps, book, slot), book[slot.key].rate, LatestClock(ps, latest))
  {
    if ps != [] {
      var n := |ps| - 1;
      EnvelopeHolds(s, ps[..n], book, slot, from, spent, latest);
      CheckKeepsEnvelope(After(s, ps[..n], book), slot, from, spent + Spent(s, ps[..n], book, slot), book[slot.key],
                         LatestClock(ps[..n], latest), ps[n], book[ps[n].slot.key]);
    }
  }

  /** A slot without a bucket gets a full one at its first admission. */
  lemma FirstAdmission(s: Store, p: Probe, argv: Argv)
    requires argv.rate > 0 && p.slot !in s.buckets && Allowed(s, p, argv)
    ensures Holds(CheckStore(s, argv, p.slot, p.cost, p.id, p.clock), p.slot, Level(argv.cap, p.clock.us), p.cost, argv.rate, p.clock.us)
  {
    Charge(Level(argv.cap, p.clock.us), p.cost, argv.rate);
  }

  /** From a slot's first admission on, over any further checks at any clock readings, with no
      key lost: the admitted cost is at most one full bucket plus the refill of the stored
      clock's advance, and the stored clock never passes the largest reading seen. */
  lemma BurstNeverExceedsEnvelope(s: Store, first: Probe, ps: seq<Probe>, book: map<string, Argv>)
    requires Proper(ps, book) && first.slot.key in book && ProperArgv(book[first.slot.key])
    requires first.slot !in s.buckets && Allowed(s, first, book[first.slot.key])
    ensures var argv, slot := book[first.slot.key], first.slot;
            var s1 := CheckStore(s, argv, slot, first.cost, first.id, first.clock);
            var end := After(s1, ps, book);
            && slot in end.buckets
            && (first.cost + Spent(s1, ps, book, slot)) * UTOK
                 <= argv.cap + PerMicro(argv) * (end.buckets[slot].ts - first.clock.us)
            && first.clock.us <= end.buckets[slot].ts <= LatestClock(ps, first.clock.us)
  {
    var argv, slot := book[first.slot.key], first.slot;
    var s1 := CheckStore(s, argv, slot, first.cost, first.id, first.clock);
    FirstAdmission(s, first, argv);
    EnvelopeHolds(s1, ps, book, slot, Level(argv.cap, first.clock.us), first.cost, first.clock.us);
    var b := After(s1, ps, book).buckets[slot];
    InTokens(argv, b.tokens, b.ts, first.clock.us, first.cost + Spent(s1, ps, book, slot));
  }

  lemma InTokens(argv: Argv, tokens: int, ts: int, start: int, spent: int)
    requires ProperArgv(argv) && tokens >= 0
    requires Potential(tokens, ts, argv.rate) + spent * UTOK * UTOK <= Potential(argv.cap, start, argv.rate)
    ensures spent * UTOK <= argv.cap + PerMicro(argv) * (ts - start)
  {
    var r := PerMicro(argv);
    assert argv.rate * ts == (r * ts) * UTOK && argv.rate * start == (r * start) * UTOK;
    assert r * (ts - start) == r * ts - r * start;
  }
}
