/** N concurrent checks are N checks at one clock instant: they admit exactly what remains. */
module ExactAdmission {
  import opened Arith
  import opened Limits
  import opened Redis
  import opened CheckScript
  import opened TokenBucket

  /** The keyspace after one check per id, all of one slot and cost, at one instant. */
  function AfterBatch(s: Store, argv: Argv, slot: Slot, cost: int, ids: seq<string>, c: Clock): Store
    requires argv.rate > 0
  {
    if ids == [] then s
    else CheckStore(AfterBatch(s, argv, slot, cost, ids[..|ids| - 1], c), argv, slot, cost, ids[|ids| - 1], c)
  }

  function ReadAt(s: Store, argv: Argv, slot: Slot, cost: int, c: Clock): Reading
    requires argv.rate > 0
  {
    Read(s, argv, slot, KeyMonth(slot.key, c.month), cost, c.us)
  }

  ghost function AdmittedCount(s: Store, argv: Argv, slot: Slot, cost: int, ids: seq<string>, c: Clock): int
    requires argv.rate > 0
  {
    if ids == [] then 0
    else
      var earlier := ids[..|ids| - 1];
      AdmittedCount(s, argv, slot, cost, earlier, c)
      + (if ReadAt(AfterBatch(s, argv, slot, cost, earlier, c), argv, slot, cost, c).Allowed() then 1 else 0)
  }

  /** How many checks of this cost the three layers have left. */
  function Budget(r: Reading, argv: Argv, cost: int): int
    requires cost > 0
  {
    Min(r.level.tokens / (cost * UTOK), Min(argv.sustained - |r.entries|, (argv.hard - r.used) / cost))
  }

  lemma AllowedIsBudget(r: Reading, argv: Argv, cost: int)
    requires cost > 0
    requires r.burstOk == (r.level.tokens >= cost * UTOK) && r.sustainedOk == (|r.entries| + 1 <= argv.sustained)
    requires r.quotaOk == (r.used + cost <= argv.hard)
    ensures r.Allowed() <==> Budget(r, argv, cost) >= 1
  {
    FloorReaches(r.level.tokens, cost * UTOK, 1);
    FloorReaches(argv.hard - r.used, cost, 1);
  }

  /** Refilling again at the same instant credits nothing, whatever was charged in between. */
  lemma RefillIsStable(tokens: int, ts: int, charged: int, cap: int, rate: int, now: int)
    requires rate > 0 && cap > 0
    ensures var l := RefillLevel(tokens, ts, cap, rate, now);
            RefillLevel(charged, l.ts, cap, rate, now) == Level(charged, l.ts)
  {
    var elapsed := Max(0, now - ts);
    var add := Credit(elapsed, rate);
    CreditBounds(elapsed, rate);
    WorthBounds(add, elapsed, rate);
    var l := RefillLevel(tokens, ts, cap, rate, now);
    var rest := Max(0, now - l.ts);
    if add > 0 && l != Level(cap, now) {
      assert rest == elapsed - Worth(add, rate);
      assert rest * rate == elapsed * rate - Worth(add, rate) * rate;
    }
    assert rest * rate < UTOK;
  }

  /** The sorted set holds no entry of this instant under this id. */
  predicate Unused(s: Store, slot: Slot, c: Clock, id: string) {
    Entry(c.us, id) !in Entries(s, slot)
  }

  /** What the next check of the same instant reads. */
  lemma NextReading(s: Store, argv: Argv, slot: Slot, cost: int, id: string, c: Clock)
    requires argv.rate > 0 && argv.cap > 0 && argv.windowUs >= 0 && Unused(s, slot, c, id)
    ensures var r := ReadAt(s, argv, slot, cost, c);
            var r' := ReadAt(CheckStore(s, argv, slot, cost, id, c), argv, slot, cost, c);
            if r.Allowed() then
              && r'.level.tokens == r.level.tokens - cost * UTOK
              && |r'.entries| == |r.entries| + 1
              && r'.used == r.used + cost
            else
              r' == r
  {
    var r := ReadAt(s, argv, slot, cost, c);
    var s' := CheckStore(s, argv, slot, cost, id, c);
    if r.Allowed() {
      if slot in s.buckets {
        RefillIsStable(s.buckets[slot].tokens, s.buckets[slot].ts, r.level.tokens - cost * UTOK, argv.cap, argv.rate, c.us);
      }
      assert s'.buckets[slot].tokens == r.level.tokens - cost * UTOK;
      assert Trim(Entries(s', slot), c.us - argv.windowUs) == r.entries + {Entry(c.us, id)};
    } else {
      assert Trim(Entries(s', slot), c.us - argv.windowUs) == r.entries;
    }
  }

  lemma BudgetFalls(r: Reading, r': Reading, argv: Argv, cost: int)
    requires cost > 0
    requires r'.level.tokens == r.level.tokens - cost * UTOK && |r'.entries| == |r.entries| + 1 && r'.used == r.used + cost
    ensures Budget(r', argv, cost) == Budget(r, argv, cost) - 1
  {
    OneLess(r.level.tokens, cost * UTOK);
    OneLess(argv.hard - r.used, cost);
  }

  lemma OneLess(a: int, b: int)
    requires b > 0
    ensures (a - b) / b == a / b - 1
  {
    FloorReaches(a, b, a / b);
    FloorReaches(a, b, a / b + 1);
    FloorReaches(a - b, b, a / b - 1);
    FloorReaches(a - b, b, a / b);
    assert (a / b - 1) * b == a / b * b - b && (a / b + 1) * b == a / b * b + b;
  }

  ghost predicate FreshIds(s: Store, slot: Slot, c: Clock, ids: seq<string>) {
    && (forall i :: 0 <= i < |ids| ==> Unused(s, slot, c, ids[i]))
    && (forall i, j :: 0 <= i < j < |ids| ==> ids[i] != ids[j])
  }

  lemma {:induction false} StaysUnused(s: Store, argv: Argv, slot: Slot, cost: int, ids: seq<string>, c: Clock, id: string)
    requires argv.rate > 0 && Unused(s, slot, c, id) && id !in ids
    ensures Unused(AfterBatch(s, argv, slot, cost, ids, c), slot, c, id)
  {
    if ids != [] {
      StaysUnused(s, argv, slot, cost, ids[..|ids| - 1], c, id);
    }
  }

  /** Of checks at one instant exactly the first Budget are admitted: they form a prefix, and
      their number is the least of how many came, whole tokens, window places and quota left. */
  lemma {:induction false} ExactlyTheBudget(s: Store, argv: Argv, slot: Slot, cost: int, ids: seq<string>, c: Clock)
    requires argv.rate > 0 && argv.cap > 0 && argv.windowUs >= 0 && cost > 0 && FreshIds(s, slot, c, ids)
    ensures var budget := Budget(ReadAt(s, argv, slot, cost, c), argv, cost);
            var n := AdmittedCount(s, argv, slot, cost, ids, c);
            var left := Budget(ReadAt(AfterBatch(s, argv, slot, cost, ids, c), argv, slot, cost, c), argv, cost);
            && n == Max(0, Min(|ids|, budget))
            && left == budget - n
            && (ReadAt(AfterBatch(s, argv, slot, cost, ids, c), argv, slot, cost, c).Allowed() <==> |ids| < budget)
  {
    var after := AfterBatch(s, argv, slot, cost, ids, c);
    AllowedIsBudget(ReadAt(after, argv, slot, cost, c), argv, cost);
    if ids != [] {
      var n := |ids| - 1;
      ExactlyTheBudget(s, argv, slot, cost, ids[..n], c);
      assert ids[n] !in ids[..n];
      StaysUnused(s, argv, slot, cost, ids[..n], c, ids[n]);
      var s' := AfterBatch(s, argv, slot, cost, ids[..n], c);
      NextReading(s', argv, slot, cost, ids[n], c);
      var r, r' := ReadAt(s', argv, slot, cost, c), ReadAt(after, argv, slot, cost, c);
      if r.Allowed() {
        BudgetFalls(r, r', argv, cost);
      }
    }
  }
}
