/** The key cache against the database, with lookups in flight across an await and admin
    mutations that commit first and invalidate later, in any interleaving. */
module CacheCoherence {
  import opened Arith
  import opened Registry
  import opened KeyCache

  /** What one database read returned, from which committed version and when. */
  datatype Loaded = Loaded(value: Option<ResolvedKey>, version: nat, at: real)

  /** A lookup past its cache miss: `begun` and `since` are the step and the newest database
      version when it began. */
  datatype Flight = Flight(digest: string, started: real, seen: nat, begun: nat, since: nat, loaded: Option<Loaded>)

  /** The database is its list of committed versions; `invalidated` are the versions whose
      mutation has also finished invalidating; `origins` says where each entry was read. */
  datatype System = System(
    versions: seq<Database>,
    committedAt: seq<real>,
    invalidated: set<nat>,
    cache: Cache,
    origins: map<string, Loaded>,
    flights: map<nat, Flight>,
    now: real)

  datatype Step =
    | Begin(id: nat, digest: string, now: real)
    | Read(id: nat, now: real)
    | Finish(id: nat, now: real)
    | Fail(id: nat, now: real)
    | Commit(mutation: Mutation, now: real)
    | Invalidate(version: nat, now: real)

  function Newest(sys: System): Database
    requires sys.versions != []
  {
    sys.versions[|sys.versions| - 1]
  }

  predicate Enabled(sys: System, step: Step) {
    && sys.now <= step.now && sys.versions != []
    && match step
       case Begin(id, _, _) => id !in sys.flights
       case Read(id, _) => id in sys.flights && sys.flights[id].loaded.None? && Linked(Newest(sys))
       case Finish(id, _) => id in sys.flights && sys.flights[id].loaded.Some?
       case Fail(id, _) => id in sys.flights
       case Commit(m, _) => Admissible(m) && Apply(Newest(sys), m).Ok?
       case Invalidate(v, _) => 0 < v < |sys.versions|
  }

  function Next(sys: System, step: Step, ttl: real, k: nat): System
    requires Enabled(sys, step)
  {
    var sys := sys.(now := step.now);
    match step
    case Begin(id, digest, now) =>
      if Hit(sys.cache, digest, now).Some? then sys
      else sys.(flights := sys.flights[id := Flight(digest, now, sys.cache.generation, k, |sys.versions| - 1, None)])
    case Read(id, now) =>
      var f := sys.flights[id];
      var loaded := Loaded(Load(Newest(sys), f.digest), |sys.versions| - 1, now);
      sys.(flights := sys.flights[id := f.(loaded := Some(loaded))])
    case Finish(id, _) =>
      var f := sys.flights[id];
      var cache := Stored(sys.cache, f.digest, f.started, f.seen, f.loaded.value.value, ttl);
      sys.(cache := cache, origins := OriginsAfter(sys, f, cache), flights := sys.flights - {id})
    case Fail(id, _) => sys.(flights := sys.flights - {id})
    case Commit(m, now) =>
      sys.(versions := sys.versions + [Apply(Newest(sys), m).value], committedAt := sys.committedAt + [now])
    case Invalidate(v, _) =>
      sys.(cache := Invalidated(sys.cache), origins := map[], invalidated := sys.invalidated + {v})
  }

  function OriginsAfter(sys: System, f: Flight, cache: Cache): map<string, Loaded>
    requires f.loaded.Some?
  {
    if cache == sys.cache then sys.origins
    else (map d | d in sys.origins && d in cache.entries :: sys.origins[d])[f.digest := f.loaded.value]
  }

  ghost predicate IsRun(states: seq<System>, steps: seq<Step>, ttl: real) {
    && |states| == |steps| + 1
    && (exists db :: Good(db) && states[0] == System([db], [states[0].now], {}, Cache(map[], 0), map[], map[], states[0].now))
    && forall k :: 0 <= k < |steps| ==> Enabled(states[k], steps[k]) && states[k + 1] == Next(states[k], steps[k], ttl, k)
  }

  // ----- the invariant

  predicate History(sys: System) {
    && sys.versions != [] && |sys.committedAt| == |sys.versions|
    && (forall v :: 0 <= v < |sys.versions| ==> Good(sys.versions[v]) && sys.committedAt[v] <= sys.now)
    && (forall v :: v in sys.invalidated ==> v < |sys.versions|)
  }

  /** A read of a digest that really happened: of its version, before any later commit. */
  predicate Genuine(sys: System, digest: string, l: Loaded)
    requires History(sys)
  {
    && l.version < |sys.versions| && l.at <= sys.now
    && l.value == Load(sys.versions[l.version], digest)
    && forall v :: l.version < v < |sys.versions| ==> l.at <= sys.committedAt[v]
  }

  /** No older than any version whose invalidation has finished. */
  predicate Current(sys: System, l: Loaded) {
    forall v :: v in sys.invalidated ==> v <= l.version
  }

  predicate EntrySound(sys: System, digest: string, ttl: real)
    requires History(sys) && digest in sys.cache.entries
  {
    && digest in sys.origins
    && var l := sys.origins[digest];
       && Genuine(sys, digest, l) && Current(sys, l)
       && sys.cache.entries[digest].value == l.value
       && sys.cache.entries[digest].expires <= l.at + ttl
  }

  predicate FlightSound(sys: System, f: Flight)
    requires History(sys)
  {
    && f.since < |sys.versions| && f.started <= sys.now && f.seen <= sys.cache.generation
    && (f.loaded.Some? ==>
          && Genuine(sys, f.digest, f.loaded.value)
          && f.started <= f.loaded.value.at && f.since <= f.loaded.value.version
          && (f.seen == sys.cache.generation ==> Current(sys, f.loaded.value)))
  }

  predicate Sound(sys: System, ttl: real) {
    && History(sys)
    && (forall d :: d in sys.cache.entries ==> EntrySound(sys, d, ttl))
    && (forall id :: id in sys.flights ==> FlightSound(sys, sys.flights[id]))
    && |sys.cache.entries| <= MAX_CACHE_ENTRIES
  }

  lemma FinishKeepsEntry(sys: System, f: Flight, ttl: real, d: string, sys': System)
    requires Sound(sys, ttl) && FlightSound(sys, f) && f.loaded.Some? && History(sys')
    requires sys'.cache == Stored(sys.cache, f.digest, f.started, f.seen, f.loaded.value.value, ttl)
    requires sys'.origins == OriginsAfter(sys, f, sys'.cache)
    requires sys'.versions == sys.versions && sys'.committedAt == sys.committedAt
    requires sys'.invalidated == sys.invalidated && sys.now <= sys'.now
    requires d in sys'.cache.entries
    ensures EntrySound(sys', d, ttl)
  {
    if sys'.cache != sys.cache && d != f.digest {
      assert d in sys.cache.entries;
      assert EntrySound(sys, d, ttl);
    } else if sys'.cache == sys.cache {
      assert EntrySound(sys, d, ttl);
    }
  }

  /** Time has passed and versions may have been committed since. */
  predicate Extends(sys: System, sys': System) {
    && History(sys) && History(sys') && sys.now <= sys'.now
    && sys.versions <= sys'.versions && sys.committedAt <= sys'.committedAt
    && (forall v :: |sys.versions| <= v < |sys'.versions| ==> sys.now <= sys'.committedAt[v])
  }

  lemma StaysGenuine(sys: System, sys': System, digest: string, l: Loaded)
    requires Extends(sys, sys') && Genuine(sys, digest, l)
    ensures Genuine(sys', digest, l)
  {
  }

  lemma EntryStays(sys: System, sys': System, d: string, ttl: real)
    requires Extends(sys, sys') && d in sys.cache.entries && EntrySound(sys, d, ttl)
    requires sys'.cache == sys.cache && sys'.origins == sys.origins && sys'.invalidated == sys.invalidated
    ensures EntrySound(sys', d, ttl)
  {
    StaysGenuine(sys, sys', d, sys.origins[d]);
  }

  /** A flight stays sound while others step: an invalidation only outdates its generation. */
  lemma FlightStays(sys: System, sys': System, f: Flight)
    requires Extends(sys, sys') && FlightSound(sys, f)
    requires sys.cache.generation < sys'.cache.generation
          || (sys.cache.generation == sys'.cache.generation && sys'.invalidated == sys.invalidated)
    ensures FlightSound(sys', f)
  {
    if f.loaded.Some? {
      StaysGenuine(sys, sys', f.digest, f.loaded.value);
    }
  }

  lemma StepKeepsHistory(sys: System, step: Step, ttl: real, k: nat)
    requires History(sys) && Enabled(sys, step)
    ensures Extends(sys, Next(sys, step, ttl, k))
  {
    if step.Commit? {
      MutationsKeepGood(Newest(sys), step.mutation);
    }
  }

  /** What each kind of step leaves alone. */
  lemma StepFrame(sys: System, step: Step, ttl: real, k: nat, sys': System)
    requires Enabled(sys, step) && sys' == Next(sys, step, ttl, k)
    ensures !step.Finish? && !step.Invalidate? ==>
              sys'.cache == sys.cache && sys'.origins == sys.origins
    ensures !step.Invalidate? ==> sys'.invalidated == sys.invalidated && sys'.cache.generation == sys.cache.generation
    ensures step.Invalidate? ==> sys.cache.generation < sys'.cache.generation && sys'.cache.entries == map[]
    ensures forall id :: id in sys.flights && id in sys'.flights && !(step.Read? && step.id == id) ==> sys'.flights[id] == sys.flights[id]
    ensures forall id :: id in sys'.flights && id !in sys.flights ==> step.Begin? && step.id == id
  {
  }

  lemma StepKeepsEntries(sys: System, step: Step, ttl: real, k: nat, d: string, sys': System)
    requires Sound(sys, ttl) && Enabled(sys, step) && sys' == Next(sys, step, ttl, k) && Extends(sys, sys')
    requires d in sys'.cache.entries
    ensures EntrySound(sys', d, ttl)
  {
    StepFrame(sys, step, ttl, k, sys');
    if step.Finish? {
      FinishKeepsEntry(sys, sys.flights[step.id], ttl, d, sys');
    } else {
      EntryStays(sys, sys', d, ttl);
    }
  }

  lemma ReadIsSound(sys: System, step: Step, ttl: real, k: nat, sys': System)
    requires Sound(sys, ttl) && Enabled(sys, step) && step.Read? && sys' == Next(sys, step, ttl, k) && Extends(sys, sys')
    ensures FlightSound(sys', sys'.flights[step.id])
  {
    assert FlightSound(sys, sys.flights[step.id]);
  }

  lemma StepKeepsFlights(sys: System, step: Step, ttl: real, k: nat, id: nat, sys': System)
    requires Sound(sys, ttl) && Enabled(sys, step) && sys' == Next(sys, step, ttl, k) && Extends(sys, sys')
    requires id in sys'.flights
    ensures FlightSound(sys', sys'.flights[id])
  {
    StepFrame(sys, step, ttl, k, sys');
    if step.Read? && step.id == id {
      ReadIsSound(sys, step, ttl, k, sys');
    } else if id in sys.flights {
      FlightStays(sys, sys', sys.flights[id]);
    }
  }

  lemma StepKeepsSize(sys: System, step: Step, ttl: real, k: nat)
    requires Sound(sys, ttl) && Enabled(sys, step)
    ensures |Next(sys, step, ttl, k).cache.entries| <= MAX_CACHE_ENTRIES
  {
    if step.Finish? {
      var f := sys.flights[step.id];
      StoredIsBounded(sys.cache, f.digest, f.started, f.seen, f.loaded.value.value, ttl);
    }
  }

  lemma StepKeepsSound(sys: System, step: Step, ttl: real, k: nat)
    requires Sound(sys, ttl) && Enabled(sys, step)
    ensures Sound(Next(sys, step, ttl, k), ttl)
  {
    var sys' := Next(sys, step, ttl, k);
    StepKeepsHistory(sys, step, ttl, k);
    forall d | d in sys'.cache.entries
      ensures EntrySound(sys', d, ttl)
    {
      StepKeepsEntries(sys, step, ttl, k, d, sys');
    }
    forall id | id in sys'.flights
      ensures FlightSound(sys', sys'.flights[id])
    {
      StepKeepsFlights(sys, step, ttl, k, id, sys');
    }
    StepKeepsSize(sys, step, ttl, k);
  }

  /** In every interleaving each entry, known misses included, was read no earlier than the
      commit of every mutation whose invalidate has finished, and the cache never holds more
      than its maximum. */
  lemma {:induction false} CacheIsCoherent(states: seq<System>, steps: seq<Step>, ttl: real, k: nat)
    requires IsRun(states, steps, ttl) && k < |states|
    ensures Sound(states[k], ttl)
  {
    if k > 0 {
      CacheIsCoherent(states, steps, ttl, k - 1);
      StepKeepsSound(states[k - 1], steps[k - 1], ttl, k - 1);
    }
  }

  // ----- what a resolve returns

  /** The answer a step gives a caller, the step at which its lookup began, and its origin. */
  datatype Answer = Answer(digest: string, value: Option<ResolvedKey>, begun: nat)

  function AnswerOf(sys: System, step: Step, k: nat): Option<Answer>
    requires Enabled(sys, step)
  {
    match step
    case Begin(_, digest, now) =>
      if Hit(sys.cache, digest, now).Some? then Some(Answer(digest, Hit(sys.cache, digest, now).value, k)) else None
    case Finish(id, _) => Some(Answer(sys.flights[id].digest, sys.flights[id].loaded.value.value, sys.flights[id].begun))
    case _ => None
  }

  lemma VersionsGrowOnce(sys: System, step: Step, ttl: real, k: nat, sys': System)
    requires Enabled(sys, step) && sys' == Next(sys, step, ttl, k)
    ensures sys.versions <= sys'.versions && sys.invalidated <= sys'.invalidated
  {
  }

  lemma VersionsGrowAt(states: seq<System>, steps: seq<Step>, ttl: real, k: nat)
    requires IsRun(states, steps, ttl) && k < |steps|
    ensures states[k].versions <= states[k + 1].versions && states[k].invalidated <= states[k + 1].invalidated
  {
    VersionsGrowOnce(states[k], steps[k], ttl, k, states[k + 1]);
  }

  lemma {:induction false} VersionsGrow(states: seq<System>, steps: seq<Step>, ttl: real, j: nat, k: nat)
    requires IsRun(states, steps, ttl) && j <= k < |states|
    ensures states[j].versions <= states[k].versions && states[j].invalidated <= states[k].invalidated
    decreases k
  {
    if j < k {
      VersionsGrow(states, steps, ttl, j, k - 1);
      VersionsGrowAt(states, steps, ttl, k - 1);
    }
  }

  /** A flight that was not there before began at this step, with the newest version. */
  lemma FlightsBegin(sys: System, step: Step, ttl: real, k: nat, id: nat)
    requires Enabled(sys, step) && id in Next(sys, step, ttl, k).flights
    ensures var f := Next(sys, step, ttl, k).flights[id];
            if id in sys.flights then f.begun == sys.flights[id].begun && f.since == sys.flights[id].since
            else f.begun == k && f.since == |sys.versions| - 1
  {
  }

  /** A flight knows the newest version of the step it began at. */
  lemma {:induction false} FlightsRemember(states: seq<System>, steps: seq<Step>, ttl: real, k: nat, id: nat)
    requires IsRun(states, steps, ttl) && k < |states| && id in states[k].flights
    ensures var f := states[k].flights[id];
            f.begun < k && f.since == |states[f.begun].versions| - 1
  {
    FlightsBegin(states[k - 1], steps[k - 1], ttl, k - 1, id);
    if id in states[k - 1].flights {
      FlightsRemember(states, steps, ttl, k - 1, id);
    }
  }

  lemma AnswersComeAfterBegin(states: seq<System>, steps: seq<Step>, ttl: real, k: nat)
    requires IsRun(states, steps, ttl) && k < |steps| && AnswerOf(states[k], steps[k], k).Some?
    ensures AnswerOf(states[k], steps[k], k).value.begun <= k
  {
    if steps[k].Finish? {
      FlightsRemember(states, steps, ttl, k, steps[k].id);
    }
  }

  /** Every answer was read from a committed version, no older than any whose invalidation had
      finished when the resolve began. */
  predicate ReadFrom(sys: System, a: Answer, w: nat) {
    w < |sys.versions| && Good(sys.versions[w]) && a.value == Load(sys.versions[w], a.digest)
  }

  lemma AnswerIsRead(states: seq<System>, steps: seq<Step>, ttl: real, k: nat) returns (w: nat)
    requires IsRun(states, steps, ttl) && k < |steps| && AnswerOf(states[k], steps[k], k).Some?
    ensures var a := AnswerOf(states[k], steps[k], k).value;
            && a.begun <= k && ReadFrom(states[k], a, w)
            && forall v :: v in states[a.begun].invalidated ==> v <= w
  {
    CacheIsCoherent(states, steps, ttl, k);
    AnswersComeAfterBegin(states, steps, ttl, k);
    var sys, step := states[k], steps[k];
    match step
    case Begin(_, digest, _) =>
      assert EntrySound(sys, digest, ttl);
      w := sys.origins[digest].version;
    case Finish(id, _) =>
      var f := sys.flights[id];
      FlightsRemember(states, steps, ttl, k, id);
      CacheIsCoherent(states, steps, ttl, f.begun);
      assert FlightSound(sys, f);
      w := f.loaded.value.version;
  }

  /** Whatever had finished invalidating when a resolve began, its answer was read from a
      version that includes it. */
  lemma AnswersAreCurrent(states: seq<System>, steps: seq<Step>, ttl: real, k: nat, begun: nat, v: nat)
    requires IsRun(states, steps, ttl) && begun <= k < |steps| && AnswerOf(states[k], steps[k], k).Some?
    requires AnswerOf(states[k], steps[k], k).value.begun == begun && v in states[begun].invalidated
    ensures var a := AnswerOf(states[k], steps[k], k).value;
            exists w: nat :: v <= w < |states[k].versions| && Linked(states[k].versions[w])
                             && a.value == Load(states[k].versions[w], a.digest)
  {
    var w := AnswerIsRead(states, steps, ttl, k);
    assert Linked(states[k].versions[w]);
  }

  predicate RevokedIn(db: Database, digest: string) {
    Linked(db) && digest in db.byHash && Load(db, digest).value.revoked
  }

  /** Versions that follow from each other by committed mutations. */
  ghost predicate Committed(versions: seq<Database>) {
    && (forall w :: 0 <= w < |versions| ==> Good(versions[w]))
    && (forall w :: 0 < w < |versions| ==> FollowsAt(versions, w))
  }

  ghost predicate FollowsAt(versions: seq<Database>, w: nat)
    requires 0 < w < |versions|
  {
    Follows(versions[w - 1], versions[w])
  }

  ghost predicate Follows(db: Database, db': Database) {
    exists m :: Admissible(m) && Apply(db, m) == Ok(db')
  }

  lemma RevokedNext(db: Database, db': Database, digest: string)
    requires Good(db) && Good(db') && Follows(db, db') && RevokedIn(db, digest)
    ensures RevokedIn(db', digest)
  {
    var m :| Admissible(m) && Apply(db, m) == Ok(db');
    RevocationIsPermanent(db, m, digest);
  }

  lemma RevokedInNext(versions: seq<Database>, digest: string, w: nat)
    requires Committed(versions) && 0 < w < |versions| && RevokedIn(versions[w - 1], digest)
    ensures RevokedIn(versions[w], digest)
  {
    assert FollowsAt(versions, w);
    RevokedNext(versions[w - 1], versions[w], digest);
  }

  lemma {:induction false} RevokedEverAfter(versions: seq<Database>, digest: string, v: nat, w: nat)
    requires Committed(versions) && v <= w < |versions| && RevokedIn(versions[v], digest)
    ensures RevokedIn(versions[w], digest)
    decreases w
  {
    if v < w {
      RevokedEverAfter(versions, digest, v, w - 1);
      RevokedInNext(versions, digest, w);
    }
  }

  lemma OneMoreVersion(versions: seq<Database>, m: Mutation)
    requires Committed(versions) && versions != [] && Admissible(m) && Apply(versions[|versions| - 1], m).Ok?
    ensures Committed(versions + [Apply(versions[|versions| - 1], m).value])
  {
    var db := versions[|versions| - 1];
    var db' := Apply(db, m).value;
    MutationsKeepGood(db, m);
    assert Follows(db, db');
    var versions' := versions + [db'];
    forall w | 0 < w < |versions'|
      ensures FollowsAt(versions', w)
    {
      if w < |versions| { assert FollowsAt(versions, w); }
    }
  }

  lemma StepCommits(sys: System, step: Step, ttl: real, k: nat)
    requires Enabled(sys, step) && Committed(sys.versions)
    ensures Committed(Next(sys, step, ttl, k).versions)
  {
    if step.Commit? {
      OneMoreVersion(sys.versions, step.mutation);
    }
  }

  /** Every version but the first was committed by a mutation of the one before. */
  lemma {:induction false} VersionsAreCommitted(states: seq<System>, steps: seq<Step>, ttl: real, k: nat)
    requires IsRun(states, steps, ttl) && k < |states|
    ensures Committed(states[k].versions)
  {
    if k > 0 {
      VersionsAreCommitted(states, steps, ttl, k - 1);
      StepCommits(states[k - 1], steps[k - 1], ttl, k - 1);
    }
  }

  /** A resolve that begins after the invalidate of a revocation never returns the key live. */
  lemma RevokedIsNeverResurrected(states: seq<System>, steps: seq<Step>, ttl: real, j: nat, k: nat, digest: string, v: nat)
    requires IsRun(states, steps, ttl) && j <= k < |steps|
    requires v in states[j].invalidated && v < |states[j].versions| && RevokedIn(states[j].versions[v], digest)
    requires AnswerOf(states[k], steps[k], k).Some? && AnswerOf(states[k], steps[k], k).value.digest == digest
    requires j <= AnswerOf(states[k], steps[k], k).value.begun
    ensures var a := AnswerOf(states[k], steps[k], k).value;
            a.value.Some? && a.value.value.revoked
  {
    var a := AnswerOf(states[k], steps[k], k).value;
    AnswersComeAfterBegin(states, steps, ttl, k);
    VersionsGrow(states, steps, ttl, j, a.begun);
    VersionsGrow(states, steps, ttl, j, k);
    AnswersAreCurrent(states, steps, ttl, k, a.begun, v);
    var w: nat :| v <= w < |states[k].versions| && Linked(states[k].versions[w])
                  && a.value == Load(states[k].versions[w], a.digest);
    VersionsAreCommitted(states, steps, ttl, k);
    RevokedEverAfter(states[k].versions, digest, v, w);
  }

  /** The state after a lookup began, and after it read the database. */
  function Begun(sys: System, id: nat, digest: string, started: real, k: nat): System {
    sys.(now := started,
         flights := sys.flights[id := Flight(digest, started, sys.cache.generation, k, Max(0, |sys.versions| - 1), None)])
  }

  lemma BeginStep(sys: System, id: nat, digest: string, started: real, ttl: real, k: nat)
    requires sys.versions != [] && id !in sys.flights && sys.now <= started && Hit(sys.cache, digest, started).None?
    ensures Enabled(sys, Begin(id, digest, started)) && Next(sys, Begin(id, digest, started), ttl, k) == Begun(sys, id, digest, started, k)
  {
  }

  /** A resolve that misses the cache and that nothing disturbs answers what the database holds, and
      leaves that answer in the cache if it caches at all. */
  lemma UndisturbedResolve(sys: System, id: nat, digest: string, started: real, read: real, finished: real, ttl: real, k: nat)
    requires History(sys) && id !in sys.flights && sys.now <= started <= read <= finished
    requires Hit(sys.cache, digest, started).None?
    ensures Enabled(sys, Begin(id, digest, started))
    ensures var begun := Next(sys, Begin(id, digest, started), ttl, k);
            && Enabled(begun, Read(id, read))
            && var loaded := Next(begun, Read(id, read), ttl, k + 1);
               && Enabled(loaded, Finish(id, finished))
               && AnswerOf(loaded, Finish(id, finished), k + 2) == Some(Answer(digest, Load(Newest(sys), digest), k))
               && Next(loaded, Finish(id, finished), ttl, k + 2).cache
                  == Stored(sys.cache, digest, started, sys.cache.generation, Load(Newest(sys), digest), ttl)
  {
    assert Linked(Newest(sys));
    BeginStep(sys, id, digest, started, ttl, k);
  }

  // ----- which key an answer names, and with what

  /** A digest's key and that key's plan, in one version. */
  predicate NamesKey(db: Database, digest: string, keyId: string, plan: string) {
    Good(db) && digest in db.byHash && db.byHash[digest] == keyId && db.keys[keyId].plan == plan
  }

  lemma NamesKeyNext(db: Database, db': Database, digest: string, keyId: string, plan: string)
    requires Follows(db, db') && Good(db') && NamesKey(db, digest, keyId, plan)
    ensures NamesKey(db', digest, keyId, plan)
  {
  }

  lemma {:induction false} NamesKeyEverAfter(versions: seq<Database>, digest: string, keyId: string, plan: string, v: nat, w: nat)
    requires Committed(versions) && v <= w < |versions| && NamesKey(versions[v], digest, keyId, plan)
    ensures NamesKey(versions[w], digest, keyId, plan)
    decreases w
  {
    if v < w {
      NamesKeyEverAfter(versions, digest, keyId, plan, v, w - 1);
      assert FollowsAt(versions, w);
      NamesKeyNext(versions[w - 1], versions[w], digest, keyId, plan);
    }
  }

  lemma {:induction false} DigestsStayApart(versions: seq<Database>, w: nat)
    requires Committed(versions) && w < |versions| && OneDigestPerKey(versions[0])
    ensures OneDigestPerKey(versions[w])
  {
    if w > 0 {
      DigestsStayApart(versions, w - 1);
      assert FollowsAt(versions, w);
      var m :| Admissible(m) && Apply(versions[w - 1], m) == Ok(versions[w]);
      MutationsKeepDigestsApart(versions[w - 1], m);
    }
  }

  predicate IndexedAs(db: Database, digest: string, keyId: string) {
    Good(db) && digest in db.byHash && db.byHash[digest] == keyId
  }

  /** The key that an answer names is still its digest's in every later version. */
  lemma AnswerNamesKey(states: seq<System>, steps: seq<Step>, ttl: real, k: nat, w: nat, later: nat)
    requires IsRun(states, steps, ttl) && k < |steps| && AnswerOf(states[k], steps[k], k).Some?
    requires AnswerOf(states[k], steps[k], k).value.value.Some? && k <= later < |states|
    requires ReadFrom(states[k], AnswerOf(states[k], steps[k], k).value, w)
    ensures states[later].versions != []
    ensures var a := AnswerOf(states[k], steps[k], k).value; IndexedAs(Newest(states[later]), a.digest, a.value.value.keyId)
  {
    var a := AnswerOf(states[k], steps[k], k).value;
    VersionsGrow(states, steps, ttl, k, later);
    VersionsAreCommitted(states, steps, ttl, later);
    var db := states[later].versions[w];
    ResolvesToTheIndexedKey(db, a.digest, a.digest);
    NamesKeyEverAfter(states[later].versions, a.digest, db.byHash[a.digest], db.keys[db.byHash[a.digest]].plan, w, |states[later].versions| - 1);
  }

  lemma NewestKeepsDigestsApart(states: seq<System>, steps: seq<Step>, ttl: real, k: nat)
    requires IsRun(states, steps, ttl) && k < |states| && states[0].versions != [] && OneDigestPerKey(states[0].versions[0])
    ensures states[k].versions != [] && OneDigestPerKey(Newest(states[k]))
  {
    VersionsGrow(states, steps, ttl, 0, k);
    VersionsAreCommitted(states, steps, ttl, k);
    DigestsStayApart(states[k].versions, |states[k].versions| - 1);
  }

  /** Two secrets never resolve to one key id, whenever and from whichever version they were
      answered: no two keys share a bucket, a window or a month. */
  lemma AnswersNeverShareAKey(states: seq<System>, steps: seq<Step>, ttl: real, j: nat, k: nat)
    requires IsRun(states, steps, ttl) && j <= k < |steps| && states[0].versions != [] && OneDigestPerKey(states[0].versions[0])
    requires AnswerOf(states[j], steps[j], j).Some? && AnswerOf(states[k], steps[k], k).Some?
    requires var a, b := AnswerOf(states[j], steps[j], j).value, AnswerOf(states[k], steps[k], k).value;
             a.value.Some? && b.value.Some? && a.value.value.keyId == b.value.value.keyId
    ensures AnswerOf(states[j], steps[j], j).value.digest == AnswerOf(states[k], steps[k], k).value.digest
  {
    var v := AnswerIsRead(states, steps, ttl, j);
    var w := AnswerIsRead(states, steps, ttl, k);
    AnswerNamesKey(states, steps, ttl, j, v, k);
    AnswerNamesKey(states, steps, ttl, k, w, k);
    NewestKeepsDigestsApart(states, steps, ttl, k);
  }

  /** Version v of a run was committed by this mutation. */
  predicate CommittedBy(sys: System, v: nat, m: Mutation) {
    0 < v < |sys.versions| && Admissible(m) && Good(sys.versions[v - 1]) && Apply(sys.versions[v - 1], m) == Ok(sys.versions[v])
  }

  /** A resolve that begins after an issue's invalidate finds the key, under its own id and on its
      plan, and with exactly its plan's limits as long as nothing else has been committed. */
  lemma IssuedKeyIsAnswered(states: seq<System>, steps: seq<Step>, ttl: real, k: nat, v: nat,
                            plan: string, name: string, keyId: string, digest: string)
    requires IsRun(states, steps, ttl) && k < |steps| && CommittedBy(states[k], v, Mutation.IssueKey(plan, name, keyId, digest))
    requires AnswerOf(states[k], steps[k], k).Some? && AnswerOf(states[k], steps[k], k).value.digest == digest
    requires AnswerOf(states[k], steps[k], k).value.begun <= k && v in states[AnswerOf(states[k], steps[k], k).value.begun].invalidated
    ensures var a, db := AnswerOf(states[k], steps[k], k).value.value, states[k].versions[v - 1];
            && a.Some? && a.value.keyId == keyId && a.value.plan == plan
            && (|states[k].versions| == v + 1 ==>
                  a.value == ResolvedKey(keyId, name, plan, false, db.plans[plan].limits, db.plans[plan].policy))
  {
    var w := AnswerIsRead(states, steps, ttl, k);
    var versions := states[k].versions;
    VersionsAreCommitted(states, steps, ttl, k);
    IssuedKeyResolves(versions[v - 1], plan, name, keyId, digest, digest);
    ResolvesToTheIndexedKey(versions[v], digest, digest);
    NamesKeyEverAfter(versions, digest, keyId, plan, v, w);
    ResolvesToTheIndexedKey(versions[w], digest, digest);
  }

  /** What a digest resolves to after a plan update, against what it resolved to before. */
  predicate PlanUpdateSeen(db: Database, slug: string, c: PlanChanges, digest: string, after: Option<ResolvedKey>) {
    && Good(db)
    && (after.Some? <==> digest in db.byHash)
    && (digest in db.byHash ==>
          if db.keys[db.byHash[digest]].plan == slug
          then SeesPlanUpdate(c, db.keys[db.byHash[digest]].overrides, Load(db, digest).value, after.value)
          else after == Load(db, digest))
  }

  lemma CommittedPlanIsSeen(db: Database, db': Database, slug: string, c: PlanChanges, digest: string)
    requires Good(db) && Good(db') && ValidPlanChanges(c) && Apply(db, Mutation.UpdatePlan(slug, c)) == Ok(db')
    ensures PlanUpdateSeen(db, slug, c, digest, Load(db', digest))
  {
    ResolvesToTheIndexedKey(db', digest, digest);
    if digest in db.byHash {
      UpdatePlanTakesEffect(db, slug, c, digest);
    }
  }

  lemma PlanUpdateReaches(sys: System, a: Answer, w: nat, v: nat, slug: string, c: PlanChanges)
    requires CommittedBy(sys, v, Mutation.UpdatePlan(slug, c)) && ReadFrom(sys, a, w) && w == v
    ensures PlanUpdateSeen(sys.versions[v - 1], slug, c, a.digest, a.value)
  {
    CommittedPlanIsSeen(sys.versions[v - 1], sys.versions[v], slug, c, a.digest);
  }

  /** A resolve that begins after a plan update's invalidate, with nothing committed since, sees
      the plan as it was given. */
  lemma PlanUpdateIsAnswered(states: seq<System>, steps: seq<Step>, ttl: real, k: nat, v: nat, slug: string, c: PlanChanges)
    requires IsRun(states, steps, ttl) && k < |steps| && CommittedBy(states[k], v, Mutation.UpdatePlan(slug, c))
    requires |states[k].versions| == v + 1 && AnswerOf(states[k], steps[k], k).Some?
    requires AnswerOf(states[k], steps[k], k).value.begun <= k && v in states[AnswerOf(states[k], steps[k], k).value.begun].invalidated
    ensures var a := AnswerOf(states[k], steps[k], k).value;
            PlanUpdateSeen(states[k].versions[v - 1], slug, c, a.digest, a.value)
  {
    var w := AnswerIsRead(states, steps, ttl, k);
    PlanUpdateReaches(states[k], AnswerOf(states[k], steps[k], k).value, w, v, slug, c);
  }

  /** Whatever was or was not invalidated, in this process or another: a hit at time t was read
      later than t - ttl, so it reflects every commit made by then. */
  lemma StalenessIsBounded(states: seq<System>, steps: seq<Step>, ttl: real, k: nat)
    requires IsRun(states, steps, ttl) && k < |steps| && steps[k].Begin?
    requires Hit(states[k].cache, steps[k].digest, steps[k].now).Some?
    ensures var sys, digest, t := states[k], steps[k].digest, steps[k].now;
            && digest in sys.origins && History(sys)
            && var l := sys.origins[digest];
               && t - ttl < l.at && Genuine(sys, digest, l)
               && Hit(sys.cache, digest, t).value == l.value
               && forall v :: 0 <= v < |sys.versions| && sys.committedAt[v] <= t - ttl ==> v <= l.version
  {
    CacheIsCoherent(states, steps, ttl, k);
    assert EntrySound(states[k], steps[k].digest, ttl);
  }

  // ----- the admin services are such steps

  /** A mutation as the admin services make it is a commit and then an invalidation here: the
      database and the cache end as the service leaves them, and the new version counts as
      invalidated. Other steps may come between the two. */
  lemma AdminCommitsThenInvalidates(sys: System, m: Mutation, failure: Option<Failure>, db': Database, c': Cache,
                                    ttl: real, k: nat, committed: real, invalidated: real)
    requires History(sys) && Admissible(m) && sys.now <= committed <= invalidated
    requires Outcome(m, Newest(sys), sys.cache, failure, db', c')
    ensures failure == None ==>
              && Enabled(sys, Commit(m, committed))
              && var mid := Next(sys, Commit(m, committed), ttl, k);
                 && Enabled(mid, Invalidate(|sys.versions|, invalidated))
                 && var end := Next(mid, Invalidate(|sys.versions|, invalidated), ttl, k + 1);
                    && Newest(end) == db' && end.cache == c' && |sys.versions| in end.invalidated
    ensures failure != None ==> !Enabled(sys, Commit(m, committed)) && db' == Newest(sys) && c' == sys.cache
  {
  }
}
