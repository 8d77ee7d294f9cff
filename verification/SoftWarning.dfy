/** The soft warning end to end: a flag in Redis, a hot-path enqueue that a crash can skip, and
    reconciliation passes that may race with it and with each other. */
module SoftWarning {
  import opened Arith
  import opened Naming
  import opened Outbox

  /** A key and month, as parsed from a flag's name. */
  datatype Subject = Subject(keyId: string, month: string)

  /** One reconciliation pass. `list` is what SCAN returned, once it has ended; `next` the next
      flag to look at; `looked` whether it was found to need a row. `persisting` are the flags
      present ever since the pass began, `trusted` the keys known since then, and `clean` says
      that no error has made it skip a flag. */
  datatype Pass = Pass(list: Option<seq<Subject>>, next: nat, looked: bool, clean: bool,
                       began: nat, persisting: set<Subject>, trusted: set<string>)

  /** `everSet` are the flags ever set; `crossings` the hot-path enqueues still to come. */
  datatype System = System(flags: set<Subject>, everSet: set<Subject>, known: set<string>, rows: seq<Row>,
                           crossings: multiset<Subject>, passes: map<nat, Pass>)

  const START := System({}, {}, {}, [], multiset{}, map[])

  datatype Step =
    | KeyIssued(keyId: string)
    | Cross(subject: Subject)
    | FlagGone(subject: Subject)
    | HotEnqueue(subject: Subject, payload: string, at: real)
    | HotCrash(subject: Subject)
    | PassBegin(id: nat)
    | ScanEnd(id: nat, list: seq<Subject>)
    | Look(id: nat)
    | Insert(id: nat, payload: string, at: real)
    | SkipOnError(id: nat)
    | PassAbort(id: nat)
    | Deliver(row: nat, outcome: Outcome, at: real, jitter: real)

  predicate Visiting(sys: System, id: nat) {
    id in sys.passes && sys.passes[id].list.Some? && sys.passes[id].next < |sys.passes[id].list.value|
  }

  predicate Enabled(sys: System, step: Step) {
    match step
    case KeyIssued(_) => true
    case Cross(subject) => subject !in sys.flags
    case FlagGone(_) => true
    case HotEnqueue(subject, _, _) => subject in sys.crossings
    case HotCrash(subject) => subject in sys.crossings
    case PassBegin(id) => id !in sys.passes
    case ScanEnd(id, list) =>
      // SCAN returns every flag present throughout, and only flags that were there at some time.
      && id in sys.passes && sys.passes[id].list.None?
      && (forall s :: s in sys.passes[id].persisting ==> s in list)
      && (forall s :: s in list ==> s in sys.everSet)
    case Look(id) => Visiting(sys, id) && !sys.passes[id].looked
    case Insert(id, _, _) => Visiting(sys, id) && sys.passes[id].looked
    case SkipOnError(id) => Visiting(sys, id)
    case PassAbort(id) => id in sys.passes
    case Deliver(i, _, _, _) => i < |sys.rows|
  }

  function Current(p: Pass): Subject
    requires p.list.Some? && p.next < |p.list.value|
  {
    p.list.value[p.next]
  }

  function Moved(p: Pass): Pass {
    p.(next := p.next + 1, looked := false)
  }

  function Next(sys: System, step: Step, k: nat): System
    requires Enabled(sys, step)
  {
    match step
    case KeyIssued(keyId) => sys.(known := sys.known + {keyId})
    case Cross(subject) =>
      sys.(flags := sys.flags + {subject}, everSet := sys.everSet + {subject}, crossings := sys.crossings + multiset{subject})
    case FlagGone(subject) =>
      sys.(flags := sys.flags - {subject},
           passes := map id | id in sys.passes :: sys.passes[id].(persisting := sys.passes[id].persisting - {subject}))
    case HotEnqueue(subject, payload, at) =>
      var sys := sys.(crossings := sys.crossings - multiset{subject});
      if subject.keyId in sys.known then sys.(rows := Enqueued(sys.rows, subject.keyId, subject.month, payload, at)) else sys
    case HotCrash(subject) => sys.(crossings := sys.crossings - multiset{subject})
    case PassBegin(id) => sys.(passes := sys.passes[id := Pass.Pass(None, 0, false, true, k, sys.flags, sys.known)])
    case ScanEnd(id, list) => sys.(passes := sys.passes[id := sys.passes[id].(list := Some(list))])
    case Look(id) =>
      var p := sys.passes[id];
      var subject := Current(p);
      if subject.keyId !in sys.known || Has(sys.rows, subject.keyId, subject.month) then sys.(passes := sys.passes[id := Moved(p)])
      else sys.(passes := sys.passes[id := p.(looked := true)])
    case Insert(id, payload, at) =>
      var p := sys.passes[id];
      var subject := Current(p);
      sys.(rows := Enqueued(sys.rows, subject.keyId, subject.month, payload, at), passes := sys.passes[id := Moved(p)])
    case SkipOnError(id) => sys.(passes := sys.passes[id := Moved(sys.passes[id]).(clean := false)])
    case PassAbort(id) => sys.(passes := sys.passes - {id})
    case Deliver(i, o, at, jitter) => sys.(rows := sys.rows[i := Attempted(sys.rows[i], o, at, jitter)])
  }

  ghost predicate IsRun(states: seq<System>, steps: seq<Step>) {
    && |states| == |steps| + 1 && states[0] == START
    && forall k :: 0 <= k < |steps| ==> Enabled(states[k], steps[k]) && states[k + 1] == Next(states[k], steps[k], k)
  }

  // ----- the invariant

  predicate RowWarranted(r: Row, everSet: set<Subject>) {
    Subject(r.keyId, r.month) in everSet && r.kind == KIND
  }

  /** A flag that a clean pass has gone past has a row, if its key was known all along. */
  predicate Covered(sys: System, p: Pass, i: nat)
    requires p.list.Some? && i < |p.list.value|
  {
    p.clean && p.list.value[i].keyId in p.trusted ==> Has(sys.rows, p.list.value[i].keyId, p.list.value[i].month)
  }

  predicate PassSound(sys: System, p: Pass) {
    && p.persisting <= sys.everSet && p.trusted <= sys.known
    && (p.list.None? ==> p.next == 0)
    && (p.list.Some? ==>
          && p.next <= |p.list.value|
          && (forall s :: s in p.persisting ==> s in p.list.value)
          && (forall s :: s in p.list.value ==> s in sys.everSet)
          && (forall i :: 0 <= i < p.next ==> Covered(sys, p, i)))
  }

  predicate Sound(sys: System) {
    && RowsSound(sys.rows, sys.everSet)
    && sys.flags <= sys.everSet
    && (forall s :: s in sys.crossings ==> s in sys.everSet)
    && (forall id :: id in sys.passes ==> PassSound(sys, sys.passes[id]))
  }

  /** Rows are added or updated in place, never removed or renamed. */
  predicate Keeps(rows: seq<Row>, rows': seq<Row>) {
    |rows| <= |rows'| && forall i :: 0 <= i < |rows| ==> SameIdentity(rows[i], rows'[i])
  }

  lemma KeepsHas(rows: seq<Row>, rows': seq<Row>, keyId: string, month: string)
    requires Keeps(rows, rows') && Has(rows, keyId, month)
    ensures Has(rows', keyId, month)
  {
    var i :| 0 <= i < |rows| && IsFor(rows[i], keyId, month);
    assert SameIdentity(rows[i], rows'[i]) && IsFor(rows'[i], keyId, month);
  }

  /** Rows are unique and warranted by a flag that was once set. */
  predicate RowsSound(rows: seq<Row>, everSet: set<Subject>) {
    Unique(rows) && forall i :: 0 <= i < |rows| ==> RowWarranted(rows[i], everSet)
  }

  lemma EnqueueKeepsRows(rows: seq<Row>, everSet: set<Subject>, s: Subject, payload: string, at: real)
    requires RowsSound(rows, everSet) && s in everSet
    ensures RowsSound(Enqueued(rows, s.keyId, s.month, payload, at), everSet)
    ensures Keeps(rows, Enqueued(rows, s.keyId, s.month, payload, at))
  {
    EnqueueKeepsUnique(rows, s.keyId, s.month, payload, at);
  }

  lemma DeliverKeepsRows(rows: seq<Row>, everSet: set<Subject>, i: nat, o: Outcome, at: real, jitter: real)
    requires RowsSound(rows, everSet) && i < |rows|
    ensures RowsSound(rows[i := Attempted(rows[i], o, at, jitter)], everSet)
    ensures Keeps(rows, rows[i := Attempted(rows[i], o, at, jitter)])
  {
    var rows' := rows[i := Attempted(rows[i], o, at, jitter)];
    forall j, l | 0 <= j < l < |rows|
      ensures !SameIdentity(rows'[j], rows'[l])
    {
      assert !SameIdentity(rows[j], rows[l]);
    }
    forall j | 0 <= j < |rows|
      ensures RowWarranted(rows'[j], everSet)
    {
      assert RowWarranted(rows[j], everSet);
    }
  }

  lemma CurrentIsWarranted(sys: System, id: nat)
    requires Sound(sys) && Visiting(sys, id)
    ensures Current(sys.passes[id]) in sys.everSet
  {
    assert PassSound(sys, sys.passes[id]);
  }

  lemma StepKeepsRows(sys: System, step: Step, k: nat, sys': System)
    requires Sound(sys) && Enabled(sys, step) && sys' == Next(sys, step, k)
    ensures RowsSound(sys'.rows, sys'.everSet) && Keeps(sys.rows, sys'.rows)
    ensures sys.everSet <= sys'.everSet && sys.known <= sys'.known
  {
    match step
    case HotEnqueue(s, payload, at) => EnqueueKeepsRows(sys.rows, sys.everSet, s, payload, at);
    case Insert(id, payload, at) =>
      CurrentIsWarranted(sys, id);
      EnqueueKeepsRows(sys.rows, sys.everSet, Current(sys.passes[id]), payload, at);
    case Deliver(i, o, at, jitter) => DeliverKeepsRows(sys.rows, sys.everSet, i, o, at, jitter);
    case _ =>
  }

  /** A pass that does not itself step stays sound. */
  lemma PassStays(sys: System, sys': System, p: Pass, p': Pass)
    requires PassSound(sys, p) && Keeps(sys.rows, sys'.rows) && sys.everSet <= sys'.everSet && sys.known <= sys'.known
    requires p'.persisting <= p.persisting && p'.trusted == p.trusted
    requires p'.list == p.list && p'.next == p.next && p'.clean == p.clean
    ensures PassSound(sys', p')
  {
    if p.list.Some? {
      forall i | 0 <= i < p.next
        ensures Covered(sys', p', i)
      {
        assert Covered(sys, p, i);
        var s := p.list.value[i];
        if p.clean && s.keyId in p.trusted { KeepsHas(sys.rows, sys'.rows, s.keyId, s.month); }
      }
    }
  }

  /** A pass that moves past a flag has seen to it. */
  lemma PassMoves(sys: System, sys': System, p: Pass, p': Pass)
    requires PassSound(sys, p) && Keeps(sys.rows, sys'.rows) && sys.everSet <= sys'.everSet && sys.known <= sys'.known
    requires p.list.Some? && p.next < |p.list.value| && (p' == Moved(p) || p' == Moved(p).(clean := false))
    requires p'.clean && Current(p).keyId in p.trusted ==> Has(sys'.rows, Current(p).keyId, Current(p).month)
    ensures PassSound(sys', p')
  {
    PassStays(sys, sys', p, p);
    forall i | 0 <= i < p'.next
      ensures Covered(sys', p', i)
    {
      if i < p.next { assert Covered(sys', p, i); }
    }
  }

  lemma StepKeepsPass(sys: System, step: Step, k: nat, id: nat, sys': System)
    requires Sound(sys) && Enabled(sys, step) && sys' == Next(sys, step, k) && id in sys'.passes
    requires Keeps(sys.rows, sys'.rows) && sys.everSet <= sys'.everSet && sys.known <= sys'.known
    ensures PassSound(sys', sys'.passes[id])
  {
    if id in sys.passes {
      var p, p' := sys.passes[id], sys'.passes[id];
      if step.Insert? && step.id == id {
        var s := Current(p);
        EnqueueKeepsUnique(sys.rows, s.keyId, s.month, step.payload, step.at);
        PassMoves(sys, sys', p, p');
      } else if (step.Look? || step.SkipOnError?) && step.id == id {
        if p'.next > p.next {
          PassMoves(sys, sys', p, p');
        } else {
          PassStays(sys, sys', p, p');
        }
      } else if !(step.ScanEnd? && step.id == id) {
        PassStays(sys, sys', p, p');
      }
    }
  }

  lemma StepKeepsSound(sys: System, step: Step, k: nat)
    requires Sound(sys) && Enabled(sys, step)
    ensures Sound(Next(sys, step, k))
  {
    var sys' := Next(sys, step, k);
    StepKeepsRows(sys, step, k, sys');
    forall id | id in sys'.passes
      ensures PassSound(sys', sys'.passes[id])
    {
      StepKeepsPass(sys, step, k, id, sys');
    }
  }

  /** In every run: at most one row per key, month and kind, and a row only if its flag was
      once set, whatever crashes and races. */
  lemma {:induction false} WarningsAreSound(states: seq<System>, steps: seq<Step>, k: nat)
    requires IsRun(states, steps) && k < |states|
    ensures Sound(states[k])
  {
    if k > 0 {
      WarningsAreSound(states, steps, k - 1);
      StepKeepsSound(states[k - 1], steps[k - 1], k - 1);
    }
  }

  predicate Warned(sys: System, s: Subject) {
    Has(sys.rows, s.keyId, s.month)
  }

  lemma StepKeepsWarned(sys: System, step: Step, k: nat, sys': System, s: Subject)
    requires Sound(sys) && Enabled(sys, step) && sys' == Next(sys, step, k) && Warned(sys, s)
    ensures Warned(sys', s)
  {
    StepKeepsRows(sys, step, k, sys');
    KeepsHas(sys.rows, sys'.rows, s.keyId, s.month);
  }

  lemma StepOfRun(states: seq<System>, steps: seq<Step>, k: nat)
    requires IsRun(states, steps) && k < |steps|
    ensures Enabled(states[k], steps[k]) && states[k + 1] == Next(states[k], steps[k], k)
  {
  }

  lemma RowStays(states: seq<System>, steps: seq<Step>, k: nat, s: Subject)
    requires IsRun(states, steps) && k < |steps| && Warned(states[k], s)
    ensures Warned(states[k + 1], s)
  {
    StepOfRun(states, steps, k);
    WarningsAreSound(states, steps, k);
    StepKeepsWarned(states[k], steps[k], k, states[k + 1], s);
  }

  lemma {:induction false} RowsStay(states: seq<System>, steps: seq<Step>, j: nat, k: nat, s: Subject)
    requires IsRun(states, steps) && j <= k < |states| && Warned(states[j], s)
    ensures Warned(states[k], s)
    decreases k
  {
    if j < k {
      RowsStay(states, steps, j, k - 1, s);
      RowStays(states, steps, k - 1, s);
    }
  }

  /** A crossing whose enqueue was not lost has its row from then on. */
  lemma EnqueuedCrossingIsWarned(states: seq<System>, steps: seq<Step>, j: nat, k: nat)
    requires IsRun(states, steps) && j < k < |states| && steps[j].HotEnqueue? && steps[j].subject.keyId in states[j].known
    ensures Has(states[k].rows, steps[j].subject.keyId, steps[j].subject.month)
  {
    var s := steps[j].subject;
    WarningsAreSound(states, steps, j);
    EnqueueKeepsUnique(states[j].rows, s.keyId, s.month, steps[j].payload, steps[j].at);
    RowsStay(states, steps, j + 1, k, s);
  }

  // ----- what a finished pass guarantees

  lemma {:induction false} PassesBeginEarlier(states: seq<System>, steps: seq<Step>, id: nat, k: nat)
    requires IsRun(states, steps) && k < |states| && id in states[k].passes
    ensures states[k].passes[id].began < k
  {
    if id in states[k - 1].passes {
      PassesBeginEarlier(states, steps, id, k - 1);
    }
  }

  /** What one step does to a pass's two sets. */
  lemma StepPersists(sys: System, step: Step, k: nat, id: nat, s: Subject)
    requires Enabled(sys, step) && id in Next(sys, step, k).passes
    requires s in sys.flags && s.keyId in sys.known && s in Next(sys, step, k).flags
    ensures var p' := Next(sys, step, k).passes[id];
            if id in sys.passes then
              && p'.began == sys.passes[id].began
              && (s in sys.passes[id].persisting ==> s in p'.persisting)
              && (s.keyId in sys.passes[id].trusted ==> s.keyId in p'.trusted)
            else
              s in p'.persisting && s.keyId in p'.trusted && p'.began == k
  {
  }

  ghost predicate PresentFrom(states: seq<System>, began: nat, k: nat, s: Subject)
    requires began <= k < |states|
  {
    forall i :: began <= i <= k ==> s in states[i].flags && s.keyId in states[i].known
  }

  /** A flag set in every state from the pass's beginning on is still in `persisting`, and a key
      known from then on is in `trusted`. */
  lemma {:induction false} PresentThroughout(states: seq<System>, steps: seq<Step>, id: nat, began: nat, k: nat, s: Subject)
    requires IsRun(states, steps) && began <= k < |states| && id in states[k].passes && states[k].passes[id].began == began
    requires PresentFrom(states, began, k, s)
    ensures s in states[k].passes[id].persisting && s.keyId in states[k].passes[id].trusted
  {
    PassesBeginEarlier(states, steps, id, k);
    StepPersists(states[k - 1], steps[k - 1], k - 1, id, s);
    if id in states[k - 1].passes {
      PassesBeginEarlier(states, steps, id, k - 1);
      PresentThroughout(states, steps, id, began, k - 1, s);
    }
  }

  predicate Finished(p: Pass) {
    p.clean && p.list.Some? && p.next == |p.list.value|
  }

  /** When a pass has gone through its list without an error, every flag that was set all along
      and whose key is known has its row, even if the process that crossed the threshold died
      before it could enqueue. */
  lemma FinishedPassMissesNothing(states: seq<System>, steps: seq<Step>, id: nat, began: nat, k: nat, s: Subject)
    requires IsRun(states, steps) && began <= k < |states| && id in states[k].passes
    requires states[k].passes[id].began == began && Finished(states[k].passes[id]) && PresentFrom(states, began, k, s)
    ensures Has(states[k].rows, s.keyId, s.month)
  {
    PresentThroughout(states, steps, id, began, k, s);
    WarningsAreSound(states, steps, k);
    var p := states[k].passes[id];
    assert PassSound(states[k], p) && s in p.list.value;
    var i :| 0 <= i < |p.list.value| && p.list.value[i] == s;
    assert Covered(states[k], p, i);
  }

  // ----- one undisturbed pass

  function SubjectOf(name: string, known: set<string>): Option<Subject> {
    var p := ParseFlagKey(name);
    if p.Some? && p.value.keyId in known then Some(Subject(p.value.keyId, p.value.month)) else None
  }

  function Reconciled(rows: seq<Row>, names: seq<string>, known: set<string>, payload: Subject -> string, at: real): seq<Row> {
    if names == [] then rows
    else
      var n := |names| - 1;
      var earlier := Reconciled(rows, names[..n], known, payload, at);
      var s := SubjectOf(names[n], known);
      if s.None? then earlier
      else Enqueued(earlier, s.value.keyId, s.value.month, payload(s.value), at)
  }

  /** Over the flag names that SCAN returned, in any order and with repetitions. */
  method Reconcile(table: Table, names: seq<string>, known: set<string>, payload: Subject -> string, at: real)
    returns (reconciled: nat)
    modifies table
    ensures table.rows == Reconciled(old(table.rows), names, known, payload, at) && table.posts == old(table.posts)
    ensures |table.rows| == |old(table.rows)| + reconciled
  {
    reconciled := 0;
    var i := 0;
    while i < |names|
      invariant 0 <= i <= |names|
      invariant table.rows == Reconciled(old(table.rows), names[..i], known, payload, at) && table.posts == old(table.posts)
      invariant |table.rows| == |old(table.rows)| + reconciled
    {
      assert names[..i + 1][..i] == names[..i];
      var parsed := ParseFlagKey(names[i]);
      if parsed.Some? && parsed.value.keyId in known {
        var s := Subject(parsed.value.keyId, parsed.value.month);
        var inserted := table.Enqueue(s.keyId, s.month, payload(s), at);
        if inserted {
          reconciled := reconciled + 1;
        }
      }
      i := i + 1;
    }
    assert names[..i] == names;
  }

  /** Afterwards each scanned flag of a known key has its one row, rows that were there are
      still there, and nothing else was added. */
  lemma {:induction false} ReconcileCoversTheScan(rows: seq<Row>, names: seq<string>, known: set<string>, payload: Subject -> string,
                                                  at: real, everSet: set<Subject>)
    requires RowsSound(rows, everSet)
    requires forall name :: name in names && SubjectOf(name, known).Some? ==> SubjectOf(name, known).value in everSet
    ensures var rows' := Reconciled(rows, names, known, payload, at);
            && RowsSound(rows', everSet) && Keeps(rows, rows')
            && forall name :: name in names && SubjectOf(name, known).Some? ==>
                 Has(rows', SubjectOf(name, known).value.keyId, SubjectOf(name, known).value.month)
  {
    if names != [] {
      var n := |names| - 1;
      ReconcileCoversTheScan(rows, names[..n], known, payload, at, everSet);
      var earlier, rows' := Reconciled(rows, names[..n], known, payload, at), Reconciled(rows, names, known, payload, at);
      var s := SubjectOf(names[n], known);
      assert names[n] in names;
      if s.Some? {
        EnqueueKeepsRows(earlier, everSet, s.value, payload(s.value), at);
        EnqueueKeepsUnique(earlier, s.value.keyId, s.value.month, payload(s.value), at);
      }
      forall name | name in names && SubjectOf(name, known).Some?
        ensures Has(rows', SubjectOf(name, known).value.keyId, SubjectOf(name, known).value.month)
      {
        if name in names[..n] {
          KeepsHas(earlier, rows', SubjectOf(name, known).value.keyId, SubjectOf(name, known).value.month);
        } else {
          assert name == names[n];
        }
      }
    }
  }

  // ----- the same from the flags' names

  /** A row as an enqueue makes it. */
  predicate FreshRow(r: Row, keyId: string, month: string, payload: string, at: real) {
    r == Row(keyId, month, "quota_soft", payload, 0, at, None, None)
  }

  /** A scanned name is the flag of a known key and a month. */
  predicate FlagOf(name: string, known: set<string>, keyId: string, month: string) {
    keyId in known && ':' !in keyId && ':' !in month && name == "qg:f:" + keyId + ":" + month
  }

  lemma FlagsByName(name: string, known: set<string>, keyId: string, month: string)
    ensures SubjectOf(name, known) == Some(Subject(keyId, month)) <==> FlagOf(name, known, keyId, month)
  {
    ParseIsExact(name, "f", keyId, month);
    assert FourParts("f", keyId, month) == "qg:f:" + keyId + ":" + month;
  }

  predicate HasWarning(rows: seq<Row>, keyId: string, month: string) {
    exists i :: 0 <= i < |rows| && rows[i].keyId == keyId && rows[i].month == month && rows[i].kind == "quota_soft"
  }

  lemma WarningIsRow(rows: seq<Row>, keyId: string, month: string)
    ensures HasWarning(rows, keyId, month) <==> Has(rows, keyId, month)
  {
    if Has(rows, keyId, month) {
      var i :| 0 <= i < |rows| && IsFor(rows[i], keyId, month);
    }
    if HasWarning(rows, keyId, month) {
      var i :| 0 <= i < |rows| && rows[i].keyId == keyId && rows[i].month == month && rows[i].kind == "quota_soft";
      assert IsFor(rows[i], keyId, month);
    }
  }

  /** The row was made for one of the scanned flags, with that subject's payload. */
  ghost predicate MadeForAFlag(r: Row, names: seq<string>, known: set<string>, payload: Subject -> string, at: real) {
    exists name :: name in names && FlagOf(name, known, r.keyId, r.month) && FreshRow(r, r.keyId, r.month, payload(Subject(r.keyId, r.month)), at)
  }

  lemma MadeForMore(r: Row, names: seq<string>, known: set<string>, payload: Subject -> string, at: real, name: string)
    requires MadeForAFlag(r, names, known, payload, at)
    ensures MadeForAFlag(r, names + [name], known, payload, at)
  {
    var n :| n in names && FlagOf(n, known, r.keyId, r.month) && FreshRow(r, r.keyId, r.month, payload(Subject(r.keyId, r.month)), at);
    assert n in names + [name];
  }

  /** What one more scanned name adds: the fresh row of its flag, if that has none yet. */
  lemma ReconcileOne(rows: seq<Row>, names: seq<string>, known: set<string>, payload: Subject -> string, at: real, n: nat)
    requires n == |names| - 1
    ensures var earlier, rows' := Reconciled(rows, names[..n], known, payload, at), Reconciled(rows, names, known, payload, at);
            rows' == earlier
            || (|rows'| == |earlier| + 1 && rows'[..|earlier|] == earlier
                && FlagOf(names[n], known, rows'[|earlier|].keyId, rows'[|earlier|].month)
                && !HasWarning(earlier, rows'[|earlier|].keyId, rows'[|earlier|].month)
                && FreshRow(rows'[|earlier|], rows'[|earlier|].keyId, rows'[|earlier|].month,
                            payload(Subject(rows'[|earlier|].keyId, rows'[|earlier|].month)), at))
    ensures forall keyId, month :: FlagOf(names[n], known, keyId, month) ==> HasWarning(Reconciled(rows, names, known, payload, at), keyId, month)
  {
    var earlier, rows' := Reconciled(rows, names[..n], known, payload, at), Reconciled(rows, names, known, payload, at);
    var s := SubjectOf(names[n], known);
    if s.Some? {
      FlagsByName(names[n], known, s.value.keyId, s.value.month);
      WarningIsRow(earlier, s.value.keyId, s.value.month);
      EnqueueAddsOneRow(earlier, s.value.keyId, s.value.month, payload(s.value), at);
      if rows' != earlier {
        assert rows'[|earlier|].keyId == s.value.keyId;
      }
    }
    forall keyId, month | FlagOf(names[n], known, keyId, month)
      ensures HasWarning(rows', keyId, month)
    {
      FlagsByName(names[n], known, keyId, month);
      WarningIsRow(earlier, keyId, month);
    }
  }

  /** From the names alone: a reconciliation over scanned names keeps every row, adds rows only for
      scanned flags of known keys that had none, each fresh and with its own subject's payload,
      and leaves every scanned flag of a known key with a row. */
  lemma {:induction false} ReconcileWarnsByName(rows: seq<Row>, names: seq<string>, known: set<string>, payload: Subject -> string, at: real)
    ensures var rows' := Reconciled(rows, names, known, payload, at);
            && |rows| <= |rows'| && rows'[..|rows|] == rows
            && (forall i :: |rows| <= i < |rows'| ==>
                  MadeForAFlag(rows'[i], names, known, payload, at) && !HasWarning(rows, rows'[i].keyId, rows'[i].month))
            && (forall name, keyId, month :: name in names && FlagOf(name, known, keyId, month) ==> HasWarning(rows', keyId, month))
  {
    if names != [] {
      var n := |names| - 1;
      var earlier, rows' := Reconciled(rows, names[..n], known, payload, at), Reconciled(rows, names, known, payload, at);
      ReconcileWarnsByName(rows, names[..n], known, payload, at);
      ReconcileOne(rows, names, known, payload, at, n);
      assert names == names[..n] + [names[n]];
      assert rows'[..|rows|] == earlier[..|rows|];
      forall i | |rows| <= i < |rows'|
        ensures MadeForAFlag(rows'[i], names, known, payload, at) && !HasWarning(rows, rows'[i].keyId, rows'[i].month)
      {
        if i < |earlier| {
          assert rows'[i] == earlier[i];
          MadeForMore(earlier[i], names[..n], known, payload, at, names[n]);
        } else {
          assert names[n] in names;
          WarningGrows(rows, earlier, rows'[i].keyId, rows'[i].month);
        }
      }
      forall name, keyId, month | name in names && FlagOf(name, known, keyId, month)
        ensures HasWarning(rows', keyId, month)
      {
        if name in names[..n] {
          WarningGrows(earlier, rows', keyId, month);
        }
      }
    }
  }

  lemma WarningGrows(rows: seq<Row>, rows': seq<Row>, keyId: string, month: string)
    requires |rows| <= |rows'| && rows'[..|rows|] == rows
    ensures HasWarning(rows, keyId, month) ==> HasWarning(rows', keyId, month)
  {
    if HasWarning(rows, keyId, month) {
      var i :| 0 <= i < |rows| && rows[i].keyId == keyId && rows[i].month == month && rows[i].kind == "quota_soft";
      assert rows'[i] == rows[i];
    }
  }

  /** One flag of a pass, looked at and then inserted with nothing in between, is one turn of the
      reconciliation loop. */
  lemma PassTurnIsTheLoop(sys: System, id: nat, payload: Subject -> string, at: real, k: nat)
    requires Visiting(sys, id) && !sys.passes[id].looked
    ensures var s, looked := Current(sys.passes[id]), Next(sys, Look(id), k);
            var rows' := if s.keyId in sys.known then Enqueued(sys.rows, s.keyId, s.month, payload(s), at) else sys.rows;
            && looked.passes[id].next >= sys.passes[id].next
            && (looked.passes[id].next > sys.passes[id].next ==> looked.rows == rows')
            && (looked.passes[id].next == sys.passes[id].next ==>
                  && Enabled(looked, Insert(id, payload(s), at))
                  && Next(looked, Insert(id, payload(s), at), k + 1).rows == rows'
                  && Next(looked, Insert(id, payload(s), at), k + 1).passes[id].next == sys.passes[id].next + 1)
  {
  }
}
