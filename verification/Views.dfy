/** The narrower models are views of the whole ones: runs of one bucket, envelopes and losses see
    one check of the script as the script does, and the books and the lock see the rollup job's
    upserts and restores. */
module Views {
  import opened Arith
  import opened Limits
  import opened Redis
  import opened CheckScript
  import opened History
  import opened RoundedScript
  import Accounting
  import DataLoss
  import RoundedEnvelope
  import RoundedRun
  import Rollup
  import RollupLock

  function WindowOf(s: Store, slot: Slot): Option<Window> {
    if slot in s.windows then Some(s.windows[slot]) else None
  }

  /** A run of one bucket sees a check of the script as a visit: same verdict, same bucket. */
  lemma RunSeesTheScript(p: Plan, st: State, e: Step, ledger: RoundedRun.Ledger)
    requires ValidPlan(p) && e.Checks? && ledger.bucket == BucketOf(st.store, e.slot) && ledger.since == SinceOf(st, e.slot)
    ensures var r := Reads(st, p, e);
            var v := RoundedRun.Visit(e.cost, e.id, e.clock, r.sustainedOk && r.quotaOk, e.rounding);
            var ledger' := RoundedRun.Next(p, e.slot, ledger, v);
            && (r.Allowed() <==> v.othersAllow && RoundedRun.BurstOk(p, ledger.bucket, v))
            && ledger'.bucket == BucketOf(Checked(st, p, e).store, e.slot) && ledger'.since == SinceOf(Checked(st, p, e), e.slot)
            && ledger'.admitted == if r.Allowed() then ledger.admitted + [Admission(e.slot, e.cost, e.id, e.clock)] else ledger.admitted
  {
  }

  /** So does an envelope, of a bucket that is there. */
  lemma EnvelopeSeesTheScript(p: Plan, st: State, e: Step, l: Level)
    requires ValidPlan(p) && e.Checks? && e.cost >= 0 && e.slot in st.store.buckets
    requires l == Level(st.store.buckets[e.slot].tokens, st.store.buckets[e.slot].ts)
    ensures var r := Reads(st, p, e);
            var v := RoundedEnvelope.Visit(e.clock.us, e.cost, r.sustainedOk && r.quotaOk, e.rounding);
            var after := Checked(st, p, e).store;
            && (r.Allowed() <==> RoundedEnvelope.Charges(p, l, v))
            && e.slot in after.buckets
            && RoundedEnvelope.Visited(p, l, v) == Level(after.buckets[e.slot].tokens, after.buckets[e.slot].ts)
  {
  }

  /** And so does the account of losses, window included. */
  lemma LossesSeeTheScript(p: Plan, st: State, e: Step, k: DataLoss.Kept)
    requires ValidPlan(p) && e.Checks? && k.bucket == BucketOf(st.store, e.slot) && k.window == WindowOf(st.store, e.slot)
    ensures var r := Reads(st, p, e);
            var v := RoundedRun.Visit(e.cost, e.id, e.clock, r.quotaOk, e.rounding);
            var k' := DataLoss.Visited(p, e.slot, k, v);
            && (r.Allowed() <==> DataLoss.Grants(p, k, v))
            && k'.bucket == BucketOf(Checked(st, p, e).store, e.slot) && k'.window == WindowOf(Checked(st, p, e).store, e.slot)
            && |k'.marks| == |k.marks| + (if r.Allowed() then 1 else 0)
  {
    var r := Reads(st, p, e);
    assert DataLoss.Trimmed(p, k, e.clock.us) == r.entries;
  }

  /** The books' restore is the job's restore of that row, with the same deadline. */
  lemma BooksSeeTheRestore(sys: Accounting.System, a: Rollup.Account, used: int)
    requires Rollup.Restorable(a)
    requires Accounting.Enabled(sys, Accounting.Restore(Accounting.Tally(Rollup.CounterOf(a), used)))
    ensures Accounting.Next(sys, Accounting.Restore(Accounting.Tally(Rollup.CounterOf(a), used))).store
         == Rollup.RestoreRow(sys.store, a, used)
  {
  }

  /** Their upsert is the job's upsert of that row. */
  lemma BooksSeeTheUpsert(books: map<KeyMonth, int>, table: Rollup.Rollups, a: Rollup.Account, used: int, limit: int)
    requires Rollup.Restorable(a)
    requires var km := Rollup.CounterOf(a); (km in books <==> a in table) && (km in books ==> books[km] == table[a].used)
    ensures var km, books', table' := Rollup.CounterOf(a), Accounting.Upserted(books, Accounting.Tally(Rollup.CounterOf(a), used)),
                                      Rollup.Upserted(table, a, used, limit);
            km in books' && a in table' && books'[km] == table'[a].used
  {
  }

  /** What a run under the lock writes, when the row is still as it read it, is that upsert too. */
  lemma LockSeesTheUpsert(seen: map<Rollup.Account, int>, table: Rollup.Rollups, a: Rollup.Account, used: int, limit: int)
    requires RollupLock.UsedOf(seen, a) == if a in table then Some(table[a].used) else None
    ensures var seen' := RollupLock.Written(seen, RollupLock.Pending(a, used, RollupLock.UsedOf(seen, a)));
            var table' := Rollup.Upserted(table, a, used, limit);
            a in seen' && a in table' && seen'[a] == table'[a].used
  {
  }
}
