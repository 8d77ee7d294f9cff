/** The soft quota threshold is reported by exactly one check of a month, the first to reach it. */
module SoftThreshold {
  import opened Arith
  import opened Limits
  import opened Redis
  import opened CheckScript
  import opened History
  import opened Refinement
  import opened RetryAfter
  import Rollup

  predicate ChecksMonth(e: Event, km: KeyMonth) {
    e.Check? && e.slot.key == km.key && e.clock.month == km.month
  }

  ghost predicate Reports(es: seq<Event>, book: Book, km: KeyMonth, k: int)
    requires ValidRun(es, book) && 0 <= k < |es|
  {
    ChecksMonth(es[k], km) && ReplyAt(es, book, k).softCrossed
  }

  function CountTrue(flags: seq<bool>): int {
    if flags == [] then 0
    else CountTrue(flags[..|flags| - 1]) + (if flags[|flags| - 1] then 1 else 0)
  }

  /** Which events' replies say that the key crossed its soft threshold in the month. */
  ghost function Crossings(es: seq<Event>, book: Book, km: KeyMonth): seq<bool>
    requires ValidRun(es, book)
  {
    seq(|es|, k requires 0 <= k < |es| => Reports(es, book, km, k))
  }

  predicate ReachedIn(h: seq<Admission>, argv: Argv, km: KeyMonth) {
    0 < argv.soft <= MonthSum(h, km)
  }

  ghost predicate Reached(es: seq<Event>, book: Book, km: KeyMonth, n: int)
    requires ValidRun(es, book) && 0 <= n <= |es| && km.key in book
  {
    ReachedIn(HistoryAt(es, book, n), book[km.key], km)
  }

  /** One check against a history: it reports a crossing exactly when its admission is the one
      that reaches the threshold of its own key and month. */
  lemma AdmitCrosses(h: seq<Admission>, argv: Argv, slot: Slot, cost: int, id: string, c: Clock, km: KeyMonth, own: Argv)
    requires ProperArgv(argv) && cost >= 1 && (km == KeyMonth(slot.key, c.month) ==> own == argv)
    ensures km == KeyMonth(slot.key, c.month) && SpecReply(h, argv, slot, cost, id, c).softCrossed
            <==> !ReachedIn(h, own, km) && ReachedIn(Admit(h, argv, slot, cost, id, c), own, km)
    ensures ReachedIn(h, own, km) ==> ReachedIn(Admit(h, argv, slot, cost, id, c), own, km)
  {
    Appended(h, Admission(slot, cost, id, c));
  }

  /** A check reports the crossing exactly when it takes the month's total, over all resources
      of the key, from below the threshold to it or beyond. */
  lemma ReportIsTheCrossing(es: seq<Event>, book: Book, km: KeyMonth, k: int)
    requires ValidRun(es, book) && 0 <= k < |es| && km.key in book
    ensures Reports(es, book, km, k) <==> !Reached(es, book, km, k) && Reached(es, book, km, k + 1)
    ensures Reached(es, book, km, k) ==> Reached(es, book, km, k + 1)
  {
    AtEvent(es, book, k);
    var h, e := HistoryAt(es, book, k), es[k];
    if e.Check? {
      LimitsAreProper(es, book, k);
      AdmitCrosses(h, book[e.slot.key], e.slot, e.cost, e.id, e.clock, km, book[km.key]);
    }
  }

  lemma CrossedAt(reached: seq<bool>, crossed: seq<bool>, k: int)
    requires |reached| == |crossed| + 1 && 0 <= k < |crossed|
    requires forall k :: 0 <= k < |crossed| ==> (crossed[k] <==> !reached[k] && reached[k + 1])
    requires forall k :: 0 <= k < |crossed| && reached[k] ==> reached[k + 1]
    ensures crossed[k] <==> !reached[k] && reached[k + 1]
    ensures reached[k] ==> reached[k + 1]
  {
  }

  /** A threshold that is reached for good is crossed once. */
  lemma {:induction false} CrossedOnce(reached: seq<bool>, crossed: seq<bool>)
    requires |reached| == |crossed| + 1 && !reached[0]
    requires forall k :: 0 <= k < |crossed| ==> (crossed[k] <==> !reached[k] && reached[k + 1])
    requires forall k :: 0 <= k < |crossed| && reached[k] ==> reached[k + 1]
    ensures CountTrue(crossed) == if reached[|crossed|] then 1 else 0
  {
    if crossed != [] {
      var n := |crossed| - 1;
      forall k | 0 <= k < n
        ensures crossed[..n][k] <==> !reached[..n + 1][k] && reached[..n + 1][k + 1]
        ensures reached[..n + 1][k] ==> reached[..n + 1][k + 1]
      {
        CrossedAt(reached, crossed, k);
      }
      CrossedAt(reached, crossed, n);
      CrossedOnce(reached[..n + 1], crossed[..n]);
    }
  }

  lemma NothingReachedAtFirst(es: seq<Event>, book: Book, km: KeyMonth)
    requires ValidRun(es, book) && km.key in book
    ensures !Reached(es, book, km, 0)
  {
    assert es[..0] == [];
  }

  /** With the limits fixed and no key lost before its deadline, the threshold is reported once
      if the month's admitted total reaches it, and otherwise never. */
  lemma CrossedExactlyOnce(es: seq<Event>, book: Book, km: KeyMonth)
    requires ValidRun(es, book) && km.key in book
    ensures CountTrue(Crossings(es, book, km)) == if Reached(es, book, km, |es|) then 1 else 0
  {
    var reached := seq(|es| + 1, k requires 0 <= k <= |es| => Reached(es, book, km, k));
    var crossed := Crossings(es, book, km);
    forall k | 0 <= k < |es|
      ensures crossed[k] <==> !reached[k] && reached[k + 1]
      ensures reached[k] ==> reached[k + 1]
    {
      ReportIsTheCrossing(es, book, km, k);
    }
    NothingReachedAtFirst(es, book, km);
    CrossedOnce(reached, crossed);
  }

  // ----- at most one report per flag, whatever is lost

  /** A check that reports the crossing finds no flag and leaves one; no check removes a flag, and
      only a report makes one. */
  lemma ReportRaisesTheFlag(s: Store, argv: Argv, slot: Slot, cost: int, id: string, c: Clock, km: KeyMonth)
    requires argv.rate > 0
    ensures var s', reply := CheckStore(s, argv, slot, cost, id, c), CheckReply(s, argv, slot, cost, id, c);
            km in s'.flags <==> km in s.flags || (km == KeyMonth(slot.key, c.month) && reply.softCrossed)
    ensures CheckReply(s, argv, slot, cost, id, c).softCrossed ==> KeyMonth(slot.key, c.month) !in s.flags
  {
  }

  predicate ChecksFor(w: Rollup.Writing, km: KeyMonth) {
    w.Checked? && KeyMonth(w.slot.key, w.clock.month) == km
  }

  /** How many checks of a run of checks, losses and restores report the crossing of a month. */
  ghost function ReportsIn(ws: seq<Rollup.Writing>, km: KeyMonth): nat
    requires forall i :: 0 <= i < |ws| ==> Rollup.Proper(ws[i])
  {
    if ws == [] then 0
    else
      var n := |ws| - 1;
      var s, w := Rollup.AfterWritings(ws[..n]), ws[n];
      assert Rollup.Proper(w);
      ReportsIn(ws[..n], km)
      + (if ChecksFor(w, km) && CheckReply(s, w.argv, w.slot, w.cost, w.id, w.clock).softCrossed then 1 else 0)
  }

  /** Over any checks, restores and losses that spare the month's flag, counters lost and restored
      included and limits changing as they may, the crossing is reported at most once: exactly if
      the flag stands at the end. */
  lemma {:induction false} ReportedOnceWhileTheFlagStands(ws: seq<Rollup.Writing>, km: KeyMonth)
    requires forall i :: 0 <= i < |ws| ==> Rollup.Proper(ws[i])
    requires forall i :: 0 <= i < |ws| && ws[i].Lost? ==> FlagKey(km) !in ws[i].gone
    ensures ReportsIn(ws, km) == if km in Rollup.AfterWritings(ws).flags then 1 else 0
  {
    if ws != [] {
      var n := |ws| - 1;
      ReportedOnceWhileTheFlagStands(ws[..n], km);
      var s, w := Rollup.AfterWritings(ws[..n]), ws[n];
      assert Rollup.Proper(w);
      if w.Checked? {
        ReportRaisesTheFlag(s, w.argv, w.slot, w.cost, w.id, w.clock, km);
      }
    }
  }
}
