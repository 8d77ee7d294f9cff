/** The webhook outbox: one row per key, month and kind, delivered by passes over due rows. */
module Outbox {
  import opened Arith

  const KIND := "quota_soft"
  const BASE_BACKOFF_SECONDS := 30
  const MAX_BACKOFF_SECONDS := 3600
  const MAX_DOUBLINGS := 17
  const BATCH_SIZE := 50

  /** What became of one POST. */
  datatype Outcome = Replied(status: int) | Failed(error: string)

  predicate Success(o: Outcome) {
    o.Replied? && 200 <= o.status < 300
  }

  /** Times are UTC seconds. `keyId` stands for the row's foreign key. */
  datatype Row = Row(keyId: string, month: string, kind: string, payload: string,
                     attempts: nat, nextAttemptAt: real, deliveredAt: Option<real>, lastError: Option<Outcome>)

  // ----- backoff

  function Pow2(n: nat): (p: nat)
    ensures p >= 1
  {
    if n == 0 then 1 else 2 * Pow2(n - 1)
  }

  lemma {:induction false} Pow2Grows(m: nat, n: nat)
    requires m <= n
    ensures Pow2(m) <= Pow2(n)
  {
    if m < n { Pow2Grows(m, n - 1); }
  }

  lemma Pow2Of17()
    ensures Pow2(17) == 131072
  {
    assert Pow2(4) == 16;
    assert Pow2(8) == 256;
    assert Pow2(12) == 4096;
    assert Pow2(16) == 65536;
  }

  /** The delay after the n-th failed attempt, before jitter: doubling stops at 2^17. */
  function BaseDelay(attempt: nat): int
    requires attempt >= 1
  {
    Min(BASE_BACKOFF_SECONDS * Pow2(Min(attempt - 1, MAX_DOUBLINGS)), MAX_BACKOFF_SECONDS)
  }

  /** The capped doubling is the documented schedule for every attempt, which never shortens. */
  lemma BackoffIsDoublingToAnHour(n: nat)
    requires n >= 1
    ensures BaseDelay(n) == Min(30 * Pow2(n - 1), 3600)
    ensures 30 <= BaseDelay(n) <= BaseDelay(n + 1) <= 3600
    ensures BaseDelay(n) == 3600 <==> n >= 8
  {
    Pow2Of17();
    if n - 1 >= 17 { Pow2Grows(17, n - 1); }
    Pow2Grows(n - 1, n);
    assert Pow2(6) == 64 && Pow2(7) == 128;
    if n >= 8 { Pow2Grows(7, n - 1); } else { Pow2Grows(n - 1, 6); }
  }

  predicate Jitter(j: real) {
    0.8 <= j <= 1.2
  }

  function NextAttempt(now: real, attempt: nat, jitter: real): real
    requires attempt >= 1
  {
    now + BaseDelay(attempt) as real * jitter
  }

  /** A failed row is not due again for at least 24 seconds and at most 72 minutes. */
  lemma NextAttemptIsLater(now: real, attempt: nat, jitter: real)
    requires attempt >= 1 && Jitter(jitter)
    ensures now + 24.0 <= NextAttempt(now, attempt, jitter) <= now + 4320.0
  {
    BackoffIsDoublingToAnHour(attempt);
    AtLeast24(BaseDelay(attempt) as real, jitter);
    AtMost4320(BaseDelay(attempt) as real, jitter);
  }

  lemma AtLeast24(d: real, j: real)
    requires 30.0 <= d && 0.8 <= j
    ensures 24.0 <= d * j
  {
    var x := d - 30.0;
    assert x * j >= 0.0;
    SumProduct(d, 30.0, x, j);
  }

  lemma AtMost4320(d: real, j: real)
    requires 0.0 <= d <= 3600.0 && 0.0 <= j <= 1.2
    ensures d * j <= 4320.0
  {
    var x := 3600.0 - d;
    assert x * j >= 0.0;
    SumProduct(3600.0, d, x, j);
  }

  lemma SumProduct(a: real, b: real, c: real, j: real)
    requires a == b + c
    ensures a * j == b * j + c * j
  {
  }

  // ----- enqueue

  predicate Has(rows: seq<Row>, keyId: string, month: string) {
    exists i :: 0 <= i < |rows| && IsFor(rows[i], keyId, month)
  }

  predicate IsFor(r: Row, keyId: string, month: string) {
    r.keyId == keyId && r.month == month && r.kind == KIND
  }

  function NewRow(keyId: string, month: string, payload: string, now: real): Row {
    Row(keyId, month, KIND, payload, 0, now, None, None)
  }

  function Enqueued(rows: seq<Row>, keyId: string, month: string, payload: string, now: real): seq<Row> {
    if Has(rows, keyId, month) then rows else rows + [NewRow(keyId, month, payload, now)]
  }

  /** The table's unique constraint. */
  predicate Unique(rows: seq<Row>) {
    forall i, j :: 0 <= i < j < |rows| ==> !SameIdentity(rows[i], rows[j])
  }

  predicate SameIdentity(r: Row, r': Row) {
    r.keyId == r'.keyId && r.month == r'.month && r.kind == r'.kind
  }

  lemma EnqueueKeepsUnique(rows: seq<Row>, keyId: string, month: string, payload: string, now: real)
    requires Unique(rows)
    ensures Unique(Enqueued(rows, keyId, month, payload, now))
    ensures Has(Enqueued(rows, keyId, month, payload, now), keyId, month)
  {
    var rows' := Enqueued(rows, keyId, month, payload, now);
    if rows' != rows {
      assert IsFor(rows'[|rows|], keyId, month);
      forall i | 0 <= i < |rows|
        ensures !SameIdentity(rows'[i], rows'[|rows|])
      {
        assert !IsFor(rows[i], keyId, month);
      }
    }
  }

  /** An enqueue for a subject without a row adds exactly one, of the soft kind, with this payload,
      no attempts behind it and due at once; for any other subject it changes nothing. */
  lemma EnqueueAddsOneRow(rows: seq<Row>, keyId: string, month: string, payload: string, now: real)
    ensures Enqueued(rows, keyId, month, payload, now)
         == if exists i :: 0 <= i < |rows| && rows[i].keyId == keyId && rows[i].month == month && rows[i].kind == "quota_soft"
            then rows else rows + [Row(keyId, month, "quota_soft", payload, 0, now, None, None)]
  {
    if exists i :: 0 <= i < |rows| && rows[i].keyId == keyId && rows[i].month == month && rows[i].kind == "quota_soft" {
      var i :| 0 <= i < |rows| && rows[i].keyId == keyId && rows[i].month == month && rows[i].kind == "quota_soft";
      assert IsFor(rows[i], keyId, month);
    }
  }

  // ----- delivery

  /** The row after one POST. */
  function Attempted(r: Row, o: Outcome, now: real, jitter: real): Row {
    if Success(o) then r.(deliveredAt := Some(now), lastError := None)
    else r.(attempts := r.attempts + 1, lastError := Some(o), nextAttemptAt := NextAttempt(now, r.attempts + 1, jitter))
  }

  /** What a POST does to its row: any reply from 200 to 299 delivers it; anything else costs an
      attempt, is kept as the last error, and puts the next attempt off by the doubled delay, at
      most an hour, times the jitter. The row stays what it is about. */
  predicate PostedRow(r: Row, r': Row, o: Outcome, now: real, jitter: real) {
    && r'.keyId == r.keyId && r'.month == r.month && r'.kind == r.kind && r'.payload == r.payload
    && if o.Replied? && 200 <= o.status <= 299 then
         r'.deliveredAt == Some(now) && r'.lastError == None && r'.attempts == r.attempts && r'.nextAttemptAt == r.nextAttemptAt
       else
         && r'.deliveredAt == r.deliveredAt && r'.lastError == Some(o) && r'.attempts == r.attempts + 1
         && r'.nextAttemptAt == now + Min(30 * Pow2(r.attempts), 3600) as real * jitter
  }

  lemma PostResult(r: Row, o: Outcome, now: real, jitter: real)
    ensures PostedRow(r, Attempted(r, o, now, jitter), o, now, jitter)
  {
    BackoffIsDoublingToAnHour(r.attempts + 1);
  }

  predicate Due(r: Row, now: real, maxAttempts: nat) {
    r.deliveredAt.None? && r.nextAttemptAt <= now && r.attempts < maxAttempts
  }

  /** Due rows in table order. */
  function DueRows(rows: seq<Row>, now: real, maxAttempts: nat): (due: seq<nat>)
    ensures forall k :: 0 <= k < |due| ==> due[k] < |rows| && Due(rows[due[k]], now, maxAttempts)
    ensures forall k, l :: 0 <= k < l < |due| ==> due[k] < due[l]
  {
    if rows == [] then []
    else
      var n := |rows| - 1;
      DueRows(rows[..n], now, maxAttempts) + (if Due(rows[n], now, maxAttempts) then [n] else [])
  }

  lemma {:induction false} DueRowsAreAll(rows: seq<Row>, now: real, maxAttempts: nat)
    ensures forall i :: 0 <= i < |rows| && Due(rows[i], now, maxAttempts) ==> i in DueRows(rows, now, maxAttempts)
  {
    if rows != [] {
      var n := |rows| - 1;
      DueRowsAreAll(rows[..n], now, maxAttempts);
      forall i | 0 <= i < |rows| && Due(rows[i], now, maxAttempts)
        ensures i in DueRows(rows, now, maxAttempts)
      {
        assert i < n ==> rows[..n][i] == rows[i];
      }
    }
  }

  /** At most fifty due rows; all of them, if they are fewer. */
  function Batch(rows: seq<Row>, now: real, maxAttempts: nat): (batch: seq<nat>)
    ensures |batch| <= BATCH_SIZE
    ensures forall k :: 0 <= k < |batch| ==> batch[k] < |rows| && Due(rows[batch[k]], now, maxAttempts)
    ensures forall k, l :: 0 <= k < l < |batch| ==> batch[k] < batch[l]
  {
    var due := DueRows(rows, now, maxAttempts);
    if |due| <= BATCH_SIZE then due else due[..BATCH_SIZE]
  }

  /** What the world answers during one pass: per row, its key's webhook URL if there is one,
      the outcome of a POST, the clock and the jitter. */
  datatype World = World(urls: map<string, string>, outcome: nat -> Outcome, clock: nat -> real, jitter: nat -> real)

  predicate Reachable(r: Row, w: World) {
    r.keyId in w.urls && w.urls[r.keyId] != ""
  }

  /** The visit of one row: skipped without a webhook, else posted. */
  function Visited(rows: seq<Row>, i: nat, w: World): seq<Row>
    requires i < |rows|
  {
    if Reachable(rows[i], w) then rows[i := Attempted(rows[i], w.outcome(i), w.clock(i), w.jitter(i))] else rows
  }

  function PostedAt(rows: seq<Row>, i: nat, w: World): seq<nat>
    requires i < |rows|
  {
    if Reachable(rows[i], w) then [i] else []
  }

  function Delivered(rows: seq<Row>, batch: seq<nat>, w: World): (rows': seq<Row>)
    requires forall k :: 0 <= k < |batch| ==> batch[k] < |rows|
    ensures |rows'| == |rows|
  {
    if batch == [] then rows
    else Visited(Delivered(rows, batch[..|batch| - 1], w), batch[|batch| - 1], w)
  }

  function Posted(rows: seq<Row>, batch: seq<nat>, w: World): seq<nat>
    requires forall k :: 0 <= k < |batch| ==> batch[k] < |rows|
  {
    if batch == [] then []
    else
      var n := |batch| - 1;
      Posted(rows, batch[..n], w) + PostedAt(Delivered(rows, batch[..n], w), batch[n], w)
  }

  /** One more row of the batch. */
  lemma BatchNext(rows: seq<Row>, batch: seq<nat>, w: World, n: nat)
    requires (forall k :: 0 <= k < |batch| ==> batch[k] < |rows|) && n < |batch|
    ensures Delivered(rows, batch[..n + 1], w) == Visited(Delivered(rows, batch[..n], w), batch[n], w)
    ensures Posted(rows, batch[..n + 1], w) == Posted(rows, batch[..n], w) + PostedAt(Delivered(rows, batch[..n], w), batch[n], w)
  {
    assert batch[..n + 1][..n] == batch[..n];
  }

  /** A pass that has come to the end of this much of its batch. */
  ghost predicate PassSoFar(rows0: seq<Row>, posts0: seq<nat>, batch: seq<nat>, w: World, rows: seq<Row>, posts: seq<nat>, processed: nat) {
    && (forall k :: 0 <= k < |batch| ==> batch[k] < |rows0|)
    && rows == Delivered(rows0, batch, w) && posts == posts0 + Posted(rows0, batch, w) && processed == |Posted(rows0, batch, w)|
  }

  lemma PassGoesOn(rows0: seq<Row>, posts0: seq<nat>, due: seq<nat>, w: World, k: nat,
                   was: seq<Row>, done: seq<nat>, n: nat, rows: seq<Row>, posts: seq<nat>, processed: nat)
    requires k < |due| && (forall k :: 0 <= k < |due| ==> due[k] < |rows0|)
    requires PassSoFar(rows0, posts0, due[..k], w, was, done, n)
    requires due[k] < |was| && rows == Visited(was, due[k], w) && posts == done + PostedAt(was, due[k], w)
    requires processed == n + |PostedAt(was, due[k], w)|
    ensures PassSoFar(rows0, posts0, due[..k + 1], w, rows, posts, processed)
  {
    BatchNext(rows0, due, w, k);
  }

  /** The table, and the record of every POST that was made, by row. */
  class Table {
    var rows: seq<Row>
    var posts: seq<nat>

    constructor ()
      ensures rows == [] && posts == []
    {
      rows, posts := [], [];
    }

    method Enqueue(keyId: string, month: string, payload: string, now: real) returns (inserted: bool)
      modifies this`rows
      ensures rows == Enqueued(old(rows), keyId, month, payload, now)
      ensures inserted <==> !Has(old(rows), keyId, month)
    {
      var i := 0;
      while i < |rows|
        invariant 0 <= i <= |rows|
        invariant forall j :: 0 <= j < i ==> !IsFor(rows[j], keyId, month)
      {
        if rows[i].keyId == keyId && rows[i].month == month && rows[i].kind == KIND {
          assert IsFor(rows[i], keyId, month);
          return false;
        }
        i := i + 1;
      }
      rows := rows + [NewRow(keyId, month, payload, now)];
      return true;
    }

    method DeliverOne(i: nat, o: Outcome, now: real, jitter: real) returns (ok: bool)
      requires i < |rows|
      modifies this
      ensures rows == old(rows)[i := Attempted(old(rows)[i], o, now, jitter)]
      ensures PostedRow(old(rows)[i], rows[i], o, now, jitter)
      ensures posts == old(posts) + [i] && (ok <==> o.Replied? && 200 <= o.status <= 299)
    {
      posts := posts + [i];
      var row := rows[i];
      if o.Replied? && 200 <= o.status < 300 {
        row := row.(deliveredAt := Some(now), lastError := None);
        ok := true;
      } else {
        row := row.(attempts := row.attempts + 1);
        row := row.(lastError := Some(o), nextAttemptAt := NextAttempt(now, row.attempts, jitter));
        ok := false;
      }
      rows := rows[i := row];
      PostResult(old(rows)[i], o, now, jitter);
    }

    /** One row of a pass: skipped unless its key has a webhook. */
    method VisitRow(i: nat, w: World) returns (posted: bool)
      requires i < |rows|
      modifies this
      ensures rows == Visited(old(rows), i, w) && posts == old(posts) + PostedAt(old(rows), i, w)
      ensures posted <==> Reachable(old(rows)[i], w)
    {
      posted := rows[i].keyId in w.urls && w.urls[rows[i].keyId] != "";
      if posted {
        var ok := DeliverOne(i, w.outcome(i), w.clock(i), w.jitter(i));
      }
    }

    /** One delivery pass. */
    method DeliverWebhooks(now: real, maxAttempts: nat, w: World) returns (processed: nat)
      modifies this
      ensures rows == Delivered(old(rows), Batch(old(rows), now, maxAttempts), w)
      ensures posts == old(posts) + Posted(old(rows), Batch(old(rows), now, maxAttempts), w)
      ensures processed == |Posted(old(rows), Batch(old(rows), now, maxAttempts), w)|
    {
      ghost var rows0, posts0 := rows, posts;
      var due := Batch(rows, now, maxAttempts);
      processed := 0;
      var k := 0;
      while k < |due|
        invariant 0 <= k <= |due|
        invariant PassSoFar(rows0, posts0, due[..k], w, rows, posts, processed)
      {
        ghost var was, done, n := rows, posts, processed;
        var posted := VisitRow(due[k], w);
        if posted {
          processed := processed + 1;
        }
        PassGoesOn(rows0, posts0, due, w, k, was, done, n, rows, posts, processed);
        k := k + 1;
      }
      assert due[..k] == due;
    }
  }

  // ----- what delivery promises

  function Done(r: Row): nat {
    if r.deliveredAt.Some? then 1 else 0
  }

  function Left(r: Row, maxAttempts: nat): nat {
    if r.deliveredAt.Some? then 0 else Max(0, maxAttempts - r.attempts)
  }

  /** Attempts still possible, over all rows. */
  function Remaining(rows: seq<Row>, maxAttempts: nat): nat {
    if rows == [] then 0 else Remaining(rows[..|rows| - 1], maxAttempts) + Left(rows[|rows| - 1], maxAttempts)
  }

  function Budget(rows: nat, maxAttempts: nat): nat {
    rows * maxAttempts
  }

  lemma BudgetOfOneMore(rows: nat, maxAttempts: nat)
    ensures Budget(rows + 1, maxAttempts) == Budget(rows, maxAttempts) + maxAttempts
  {
  }

  predicate RowAccounted(r: Row, posts: nat, maxAttempts: nat) {
    posts == r.attempts + Done(r) <= maxAttempts
  }

  /** Every POST is on a row's books, and the POSTs made and possible are bounded. */
  predicate Accounted(rows: seq<Row>, posts: seq<nat>, maxAttempts: nat) {
    && (forall i :: i in posts ==> i < |rows|)
    && (forall i :: 0 <= i < |rows| ==> RowAccounted(rows[i], multiset(posts)[i], maxAttempts))
    && |posts| + Remaining(rows, maxAttempts) <= Budget(|rows|, maxAttempts)
  }

  lemma {:induction false} RemainingUpdate(rows: seq<Row>, i: nat, r: Row, maxAttempts: nat)
    requires i < |rows|
    ensures Remaining(rows[i := r], maxAttempts) == Remaining(rows, maxAttempts) - Left(rows[i], maxAttempts) + Left(r, maxAttempts)
  {
    var n := |rows| - 1;
    if i < n {
      RemainingUpdate(rows[..n], i, r, maxAttempts);
      assert rows[i := r][..n] == rows[..n][i := r];
    } else {
      assert rows[i := r][..n] == rows[..n];
    }
  }

  /** One POST of an unfinished row: the sum of remaining attempts strictly falls. */
  lemma PostIsAccounted(rows: seq<Row>, posts: seq<nat>, i: nat, o: Outcome, now: real, jitter: real, maxAttempts: nat)
    requires Accounted(rows, posts, maxAttempts) && i < |rows|
    requires rows[i].deliveredAt.None? && rows[i].attempts < maxAttempts
    ensures Accounted(rows[i := Attempted(rows[i], o, now, jitter)], posts + [i], maxAttempts)
    ensures Remaining(rows[i := Attempted(rows[i], o, now, jitter)], maxAttempts) < Remaining(rows, maxAttempts)
  {
    var r := Attempted(rows[i], o, now, jitter);
    RemainingUpdate(rows, i, r, maxAttempts);
    forall j | 0 <= j < |rows|
      ensures RowAccounted(rows[i := r][j], multiset(posts + [i])[j], maxAttempts)
    {
      assert RowAccounted(rows[j], multiset(posts)[j], maxAttempts);
    }
  }

  lemma EnqueueIsAccounted(rows: seq<Row>, posts: seq<nat>, keyId: string, month: string, payload: string, now: real, maxAttempts: nat)
    requires Accounted(rows, posts, maxAttempts)
    ensures Accounted(Enqueued(rows, keyId, month, payload, now), posts, maxAttempts)
  {
    var rows' := Enqueued(rows, keyId, month, payload, now);
    if rows' != rows {
      assert rows'[..|rows|] == rows && |rows| !in posts;
      BudgetOfOneMore(|rows|, maxAttempts);
      forall j | 0 <= j < |rows'|
        ensures RowAccounted(rows'[j], multiset(posts)[j], maxAttempts)
      {
        if j < |rows| {
          assert RowAccounted(rows[j], multiset(posts)[j], maxAttempts);
        }
      }
    }
  }

  /** Rows after the batch so far, where each still pending row is as it was. */
  lemma {:induction false} BatchTouchesOnce(rows: seq<Row>, batch: seq<nat>, w: World, i: nat)
    requires (forall k :: 0 <= k < |batch| ==> batch[k] < |rows|) && i < |rows| && i !in batch
    ensures Delivered(rows, batch, w)[i] == rows[i]
  {
    if batch != [] {
      var n := |batch| - 1;
      BatchTouchesOnce(rows, batch[..n], w, i);
      assert batch[n] in batch;
    }
  }

  /** A pass attempts each reachable row of its batch exactly once, and posts nothing else. */
  lemma {:induction false} PassAttemptsEachOnce(rows: seq<Row>, batch: seq<nat>, w: World, i: nat)
    requires (forall k :: 0 <= k < |batch| ==> batch[k] < |rows|) && i < |rows|
    requires forall k, l :: 0 <= k < l < |batch| ==> batch[k] < batch[l]
    ensures multiset(Posted(rows, batch, w))[i] == if i in batch && Reachable(rows[i], w) then 1 else 0
    ensures Delivered(rows, batch, w)[i]
         == if i in batch && Reachable(rows[i], w) then Attempted(rows[i], w.outcome(i), w.clock(i), w.jitter(i)) else rows[i]
  {
    if batch != [] {
      var n := |batch| - 1;
      PassAttemptsEachOnce(rows, batch[..n], w, i);
      assert i in batch <==> i in batch[..n] || i == batch[n];
      assert i == batch[n] ==> i !in batch[..n];
    }
  }

  predicate Pending(rows: seq<Row>, batch: seq<nat>, maxAttempts: nat) {
    && (forall k :: 0 <= k < |batch| ==>
          batch[k] < |rows| && rows[batch[k]].deliveredAt.None? && rows[batch[k]].attempts < maxAttempts)
    && (forall k, l :: 0 <= k < l < |batch| ==> batch[k] < batch[l])
  }

  lemma VisitIsAccounted(rows: seq<Row>, posts: seq<nat>, i: nat, w: World, maxAttempts: nat)
    requires Accounted(rows, posts, maxAttempts) && i < |rows|
    requires rows[i].deliveredAt.None? && rows[i].attempts < maxAttempts
    ensures Accounted(Visited(rows, i, w), posts + PostedAt(rows, i, w), maxAttempts)
    ensures Remaining(Visited(rows, i, w), maxAttempts) + |PostedAt(rows, i, w)| <= Remaining(rows, maxAttempts)
  {
    if Reachable(rows[i], w) {
      PostIsAccounted(rows, posts, i, w.outcome(i), w.clock(i), w.jitter(i), maxAttempts);
    } else {
      assert posts + PostedAt(rows, i, w) == posts;
    }
  }

  lemma PendingBefore(rows: seq<Row>, batch: seq<nat>, maxAttempts: nat, w: World, n: nat)
    requires Pending(rows, batch, maxAttempts) && n == |batch| - 1
    ensures Pending(rows, batch[..n], maxAttempts)
    ensures Delivered(rows, batch[..n], w)[batch[n]] == rows[batch[n]]
  {
    BatchTouchesOnce(rows, batch[..n], w, batch[n]);
  }

  lemma Regroup(posts: seq<nat>, earlier: seq<nat>, last: seq<nat>)
    ensures posts + (earlier + last) == (posts + earlier) + last
  {
  }

  /** A pass over due rows keeps the books: each row is POSTed exactly its attempts plus one if
      delivered, at most maxAttempts times, and each POST uses up remaining attempts. */
  lemma {:induction false} PassIsAccounted(rows: seq<Row>, posts: seq<nat>, batch: seq<nat>, w: World, maxAttempts: nat)
    requires Accounted(rows, posts, maxAttempts) && Pending(rows, batch, maxAttempts)
    ensures Accounted(Delivered(rows, batch, w), posts + Posted(rows, batch, w), maxAttempts)
    ensures Remaining(Delivered(rows, batch, w), maxAttempts) + |Posted(rows, batch, w)| <= Remaining(rows, maxAttempts)
  {
    if batch == [] {
      assert posts + Posted(rows, batch, w) == posts;
    } else {
      var n := |batch| - 1;
      PendingBefore(rows, batch, maxAttempts, w, n);
      PassIsAccounted(rows, posts, batch[..n], w, maxAttempts);
      var earlier := Delivered(rows, batch[..n], w);
      VisitIsAccounted(earlier, posts + Posted(rows, batch[..n], w), batch[n], w, maxAttempts);
      Regroup(posts, Posted(rows, batch[..n], w), PostedAt(earlier, batch[n], w));
    }
  }

  /** A delivered row is never touched again. */
  lemma DeliveredIsTerminal(rows: seq<Row>, now: real, maxAttempts: nat, w: World, i: nat)
    requires i < |rows| && (rows[i].deliveredAt.Some? || rows[i].attempts >= maxAttempts)
    ensures Delivered(rows, Batch(rows, now, maxAttempts), w)[i] == rows[i]
  {
    BatchTouchesOnce(rows, Batch(rows, now, maxAttempts), w, i);
  }

  /** The rows that wait for a pass at this time, with attempts left. */
  function Waiting(rows: seq<Row>, now: real, maxAttempts: nat): set<nat> {
    set i: nat | i < |rows| && rows[i].deliveredAt.None? && rows[i].nextAttemptAt <= now && rows[i].attempts < maxAttempts
  }

  function Elements(s: seq<nat>): set<nat> {
    set x | x in s
  }

  lemma ElementsOneMore(s: seq<nat>, x: nat)
    ensures Elements(s + [x]) == Elements(s) + {x}
  {
    assert forall y :: y in s + [x] <==> y in s || y == x;
  }

  lemma {:induction false} IncreasingCount(s: seq<nat>)
    requires forall k, l :: 0 <= k < l < |s| ==> s[k] < s[l]
    ensures |Elements(s)| == |s|
  {
    if s != [] {
      var n := |s| - 1;
      var x, earlier := s[n], s[..n];
      IncreasingCount(earlier);
      assert s == earlier + [x];
      ElementsOneMore(earlier, x);
      assert forall k :: 0 <= k < n ==> earlier[k] == s[k] < x;
      assert x !in Elements(earlier);
    }
  }

  lemma DueRowsAreWaiting(rows: seq<Row>, now: real, maxAttempts: nat)
    ensures |DueRows(rows, now, maxAttempts)| == |Waiting(rows, now, maxAttempts)|
    ensures forall i: nat :: i in DueRows(rows, now, maxAttempts) <==> i in Waiting(rows, now, maxAttempts)
  {
    var due := DueRows(rows, now, maxAttempts);
    DueRowsAreAll(rows, now, maxAttempts);
    IncreasingCount(due);
    assert Elements(due) == Waiting(rows, now, maxAttempts);
  }

  predicate HasWebhook(r: Row, urls: map<string, string>) {
    r.keyId in urls && urls[r.keyId] != ""
  }

  /** One pass at a time: it posts only rows that wait and have a webhook, each once, and if at
      most fifty rows wait it posts all of those; a posted row becomes what its outcome makes of
      it, and every other row stays as it was. */
  lemma PassPostsTheWaiting(rows: seq<Row>, now: real, maxAttempts: nat, w: World, i: nat)
    requires i < |rows|
    ensures var posted := multiset(Posted(rows, Batch(rows, now, maxAttempts), w))[i];
            var after := Delivered(rows, Batch(rows, now, maxAttempts), w);
            && posted <= 1
            && (posted == 1 ==> i in Waiting(rows, now, maxAttempts) && HasWebhook(rows[i], w.urls))
            && (|Waiting(rows, now, maxAttempts)| <= 50 && i in Waiting(rows, now, maxAttempts) && HasWebhook(rows[i], w.urls) ==> posted == 1)
            && (if posted == 1 then PostedRow(rows[i], after[i], w.outcome(i), w.clock(i), w.jitter(i)) else after[i] == rows[i])
  {
    DueRowsAreWaiting(rows, now, maxAttempts);
    PassAttemptsEachOnce(rows, Batch(rows, now, maxAttempts), w, i);
    PostResult(rows[i], w.outcome(i), w.clock(i), w.jitter(i));
    BatchIsOfDue(rows, now, maxAttempts, i);
  }

  lemma BatchIsOfDue(rows: seq<Row>, now: real, maxAttempts: nat, i: nat)
    requires i < |rows|
    ensures i in Batch(rows, now, maxAttempts) ==> i in DueRows(rows, now, maxAttempts)
    ensures |DueRows(rows, now, maxAttempts)| <= 50 && i in DueRows(rows, now, maxAttempts) ==> i in Batch(rows, now, maxAttempts)
  {
  }

  lemma {:induction false} PostsAreOfTheBatch(rows: seq<Row>, batch: seq<nat>, w: World)
    requires forall k :: 0 <= k < |batch| ==> batch[k] < |rows|
    ensures |Posted(rows, batch, w)| <= |batch|
  {
    if batch != [] {
      PostsAreOfTheBatch(rows, batch[..|batch| - 1], w);
    }
  }

  /** No pass makes more than fifty POSTs. */
  lemma PassIsBounded(rows: seq<Row>, now: real, maxAttempts: nat, w: World)
    ensures |Posted(rows, Batch(rows, now, maxAttempts), w)| <= 50
  {
    PostsAreOfTheBatch(rows, Batch(rows, now, maxAttempts), w);
  }

  // ----- any run of enqueues and passes

  datatype Event =
    | Enqueue(keyId: string, month: string, payload: string, at: real)
    | Pass(now: real, world: World)

  function After(es: seq<Event>, maxAttempts: nat): (seq<Row>, seq<nat>) {
    if es == [] then ([], [])
    else
      var (rows, posts) := After(es[..|es| - 1], maxAttempts);
      match es[|es| - 1]
      case Enqueue(keyId, month, payload, at) => (Enqueued(rows, keyId, month, payload, at), posts)
      case Pass(now, w) =>
        var batch := Batch(rows, now, maxAttempts);
        (Delivered(rows, batch, w), posts + Posted(rows, batch, w))
  }

  /** Over any run: a row is POSTed exactly attempts + (1 if delivered) times, never more than
      maxAttempts, and all POSTs together are at most maxAttempts per row. */
  lemma {:induction false} DeliveryIsBounded(es: seq<Event>, maxAttempts: nat)
    ensures Accounted(After(es, maxAttempts).0, After(es, maxAttempts).1, maxAttempts)
  {
    if es != [] {
      var n := |es| - 1;
      DeliveryIsBounded(es[..n], maxAttempts);
      var (rows, posts) := After(es[..n], maxAttempts);
      match es[n]
      case Enqueue(keyId, month, payload, at) => EnqueueIsAccounted(rows, posts, keyId, month, payload, at, maxAttempts);
      case Pass(now, w) => PassIsAccounted(rows, posts, Batch(rows, now, maxAttempts), w, maxAttempts);
    }
  }

  lemma LastEvent(es: seq<Event>, maxAttempts: nat)
    requires es != []
    ensures var (rows, posts) := After(es[..|es| - 1], maxAttempts);
            After(es, maxAttempts)
            == match es[|es| - 1]
               case Enqueue(keyId, month, payload, at) => (Enqueued(rows, keyId, month, payload, at), posts)
               case Pass(now, w) => (Delivered(rows, Batch(rows, now, maxAttempts), w), posts + Posted(rows, Batch(rows, now, maxAttempts), w))
  {
  }

  /** A row stays what it is about, through any enqueues and passes. */
  predicate SameText(r: Row, r': Row) {
    r'.keyId == r.keyId && r'.month == r.month && r'.kind == r.kind && r'.payload == r.payload
  }

  lemma {:induction false} RowsKeepTheirText(es: seq<Event>, maxAttempts: nat, j: nat, i: nat)
    requires j <= |es| && i < |After(es[..j], maxAttempts).0|
    ensures i < |After(es, maxAttempts).0| && SameText(After(es[..j], maxAttempts).0[i], After(es, maxAttempts).0[i])
  {
    if j == |es| {
      assert es[..j] == es;
    } else {
      var n := |es| - 1;
      assert es[..n][..j] == es[..j];
      RowsKeepTheirText(es[..n], maxAttempts, j, i);
      LastEvent(es, maxAttempts);
      if es[n].Pass? {
        PassPostsTheWaiting(After(es[..n], maxAttempts).0, es[n].now, maxAttempts, es[n].world, i);
      }
    }
  }

  /** No pass since event j has come at or after the row's next attempt. */
  predicate NotYet(es: seq<Event>, j: nat, at: real) {
    forall m :: j <= m < |es| && es[m].Pass? ==> es[m].now < at
  }

  lemma {:induction false} WaitingRowStays(es: seq<Event>, maxAttempts: nat, j: nat, i: nat)
    requires j <= |es| && i < |After(es[..j], maxAttempts).0| && NotYet(es, j, After(es[..j], maxAttempts).0[i].nextAttemptAt)
    ensures i < |After(es, maxAttempts).0| && After(es, maxAttempts).0[i] == After(es[..j], maxAttempts).0[i]
    ensures multiset(After(es, maxAttempts).1)[i] == multiset(After(es[..j], maxAttempts).1)[i]
  {
    if j == |es| {
      assert es[..j] == es;
    } else {
      var n := |es| - 1;
      assert es[..n][..j] == es[..j];
      assert NotYet(es[..n], j, After(es[..j], maxAttempts).0[i].nextAttemptAt);
      WaitingRowStays(es[..n], maxAttempts, j, i);
      LastEvent(es, maxAttempts);
      if es[n].Pass? {
        PassPostsTheWaiting(After(es[..n], maxAttempts).0, es[n].now, maxAttempts, es[n].world, i);
      }
    }
  }

  /** Nothing is starved: a row with attempts left waits unchanged until its next attempt is due,
      and the first pass from then on posts it, once, if its key has a webhook and at most fifty
      rows wait. */
  lemma FirstPassPostsIt(es: seq<Event>, maxAttempts: nat, j: nat, i: nat, now: real, w: World)
    requires j <= |es| && i < |After(es[..j], maxAttempts).0|
    requires var r := After(es[..j], maxAttempts).0[i];
             r.deliveredAt.None? && r.attempts < maxAttempts && NotYet(es, j, r.nextAttemptAt) && r.nextAttemptAt <= now && HasWebhook(r, w.urls)
    requires |Waiting(After(es, maxAttempts).0, now, maxAttempts)| <= 50
    ensures var r, end := After(es[..j], maxAttempts).0[i], After(es + [Pass(now, w)], maxAttempts);
            && multiset(end.1)[i] == multiset(After(es[..j], maxAttempts).1)[i] + 1
            && i < |end.0| && PostedRow(r, end.0[i], w.outcome(i), w.clock(i), w.jitter(i))
  {
    WaitingRowStays(es, maxAttempts, j, i);
    var all := es + [Pass(now, w)];
    assert all[..|all| - 1] == es;
    LastEvent(all, maxAttempts);
    PassPostsTheWaiting(After(es, maxAttempts).0, now, maxAttempts, w, i);
  }
}
