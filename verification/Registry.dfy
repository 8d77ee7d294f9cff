/** Plans and API keys in the database, and the admin mutations that commit to it. */
module Registry {
  import opened Arith
  import opened Limits

  /** A key's own limits, where set, in place of its plan's. */
  datatype Overrides = Overrides(
    burstCapacity: Option<int>,
    burstRefillPerSec: Option<int>,
    sustainedLimit: Option<int>,
    sustainedWindowSeconds: Option<int>,
    monthlyQuota: Option<int>)

  const NO_OVERRIDES := Overrides(None, None, None, None, None)

  datatype PlanRow = PlanRow(limits: Plan, webhookUrl: Option<string>, policy: string)
  datatype KeyRow = KeyRow(name: string, plan: string, overrides: Overrides, revoked: bool)

  /** `byHash` is the unique index from secret digests to key ids. */
  datatype Database = Database(plans: map<string, PlanRow>, keys: map<string, KeyRow>, byHash: map<string, string>)

  /** Everything the check path needs about a key. */
  datatype ResolvedKey = ResolvedKey(keyId: string, name: string, plan: string, revoked: bool, limits: Plan, policy: string)

  /** Python's `override or plan value`: zero counts as unset. */
  function OrPlan(override: Option<int>, planValue: int): int {
    if override.Some? && override.value != 0 then override.value else planValue
  }

  function EffectiveLimits(o: Overrides, p: Plan): Plan {
    Plan(OrPlan(o.burstCapacity, p.burstCapacity), OrPlan(o.burstRefillPerSec, p.burstRefillPerSec),
         OrPlan(o.sustainedLimit, p.sustainedLimit), OrPlan(o.sustainedWindowSeconds, p.sustainedWindowSeconds),
         OrPlan(o.monthlyQuota, p.monthlyQuota), p.quotaSoftPct)
  }

  /** An override of zero is no override. */
  lemma ZeroIsUnset(p: Plan)
    ensures EffectiveLimits(Overrides(Some(0), Some(0), Some(0), Some(0), Some(0)), p) == p == EffectiveLimits(NO_OVERRIDES, p)
  {
  }

  /** Key ids in the index have rows, and key rows have plans. */
  predicate Linked(db: Database) {
    && (forall d :: d in db.byHash ==> db.byHash[d] in db.keys)
    && (forall k :: k in db.keys ==> db.keys[k].plan in db.plans)
  }

  predicate InBounds(o: Option<int>, high: int) {
    o.Some? ==> 1 <= o.value <= high
  }

  predicate ValidOverrides(o: Overrides) {
    && InBounds(o.burstCapacity, 1_000_000)
    && InBounds(o.burstRefillPerSec, 100_000)
    && InBounds(o.sustainedLimit, 1_000_000)
    && InBounds(o.sustainedWindowSeconds, 86_400)
    && InBounds(o.monthlyQuota, 1_000_000_000_000)
  }

  /** Every stored number is within the bounds of the request schemas. */
  predicate Bounded(db: Database) {
    && (forall s :: s in db.plans ==> ValidPlan(db.plans[s].limits))
    && (forall k :: k in db.keys ==> ValidOverrides(db.keys[k].overrides))
  }

  /** The check path's read of one digest. */
  function Load(db: Database, digest: string): Option<ResolvedKey>
    requires Linked(db)
  {
    if digest !in db.byHash then None
    else
      var keyId := db.byHash[digest];
      var row := db.keys[keyId];
      var plan := db.plans[row.plan];
      Some(ResolvedKey(keyId, row.name, row.plan, row.revoked, EffectiveLimits(row.overrides, plan.limits), plan.policy))
  }

  // ----- mutations

  datatype Failure = NotFound | Conflict | Invalid
  datatype Result<T> = Ok(value: T) | Err(failure: Failure)

  /** A request field: left out, an explicit null, or a value. */
  datatype Field<T> = Unset | Null | To(value: T)

  datatype KeyChanges = KeyChanges(
    name: Field<string>, burstCapacity: Field<int>, burstRefillPerSec: Field<int>,
    sustainedLimit: Field<int>, sustainedWindowSeconds: Field<int>, monthlyQuota: Field<int>)

  datatype PlanChanges = PlanChanges(
    burstCapacity: Field<int>, burstRefillPerSec: Field<int>, sustainedLimit: Field<int>,
    sustainedWindowSeconds: Field<int>, monthlyQuota: Field<int>, quotaSoftPct: Field<int>,
    webhookUrl: Field<string>, policy: Field<string>)

  predicate FieldIn(f: Field<int>, low: int, high: int) {
    f.To? ==> low <= f.value <= high
  }

  /** What the request schemas have already checked. */
  predicate ValidKeyChanges(c: KeyChanges) {
    && FieldIn(c.burstCapacity, 1, 1_000_000) && FieldIn(c.burstRefillPerSec, 1, 100_000)
    && FieldIn(c.sustainedLimit, 1, 1_000_000) && FieldIn(c.sustainedWindowSeconds, 1, 86_400)
    && FieldIn(c.monthlyQuota, 1, 1_000_000_000_000)
  }

  predicate ValidPlanChanges(c: PlanChanges) {
    && FieldIn(c.burstCapacity, 1, 1_000_000) && FieldIn(c.burstRefillPerSec, 1, 100_000)
    && FieldIn(c.sustainedLimit, 1, 1_000_000) && FieldIn(c.sustainedWindowSeconds, 1, 86_400)
    && FieldIn(c.monthlyQuota, 1, 1_000_000_000_000) && FieldIn(c.quotaSoftPct, 0, 100)
  }

  /** setattr for a nullable column. */
  function SetOrClear<T>(f: Field<T>, old_: Option<T>): Option<T> {
    match f
    case Unset => old_
    case Null => None
    case To(v) => Some(v)
  }

  /** setattr for a column that is never null. */
  function SetTo<T>(f: Field<T>, old_: T): T {
    if f.To? then f.value else old_
  }

  datatype Mutation =
    | IssueKey(plan: string, name: string, keyId: string, digest: string)
    | UpdateKey(keyId: string, keyChanges: KeyChanges)
    | RevokeKey(keyId: string)
    | UpdatePlan(slug: string, planChanges: PlanChanges)

  predicate Admissible(m: Mutation) {
    && (m.UpdateKey? ==> ValidKeyChanges(m.keyChanges))
    && (m.UpdatePlan? ==> ValidPlanChanges(m.planChanges))
  }

  function ChangedKey(row: KeyRow, c: KeyChanges): KeyRow {
    KeyRow(
      SetTo(c.name, row.name), row.plan,
      Overrides(
        SetOrClear(c.burstCapacity, row.overrides.burstCapacity),
        SetOrClear(c.burstRefillPerSec, row.overrides.burstRefillPerSec),
        SetOrClear(c.sustainedLimit, row.overrides.sustainedLimit),
        SetOrClear(c.sustainedWindowSeconds, row.overrides.sustainedWindowSeconds),
        SetOrClear(c.monthlyQuota, row.overrides.monthlyQuota)),
      row.revoked)
  }

  function ChangedPlan(row: PlanRow, c: PlanChanges): PlanRow {
    PlanRow(
      Plan(SetTo(c.burstCapacity, row.limits.burstCapacity), SetTo(c.burstRefillPerSec, row.limits.burstRefillPerSec),
           SetTo(c.sustainedLimit, row.limits.sustainedLimit), SetTo(c.sustainedWindowSeconds, row.limits.sustainedWindowSeconds),
           SetTo(c.monthlyQuota, row.limits.monthlyQuota), SetTo(c.quotaSoftPct, row.limits.quotaSoftPct)),
      SetOrClear(c.webhookUrl, row.webhookUrl), SetTo(c.policy, row.policy))
  }

  /** An explicit null where only webhook_url may be null. */
  predicate NullsOutsideWebhook(c: PlanChanges) {
    c.burstCapacity.Null? || c.burstRefillPerSec.Null? || c.sustainedLimit.Null? || c.sustainedWindowSeconds.Null?
    || c.monthlyQuota.Null? || c.quotaSoftPct.Null? || c.policy.Null?
  }

  predicate NeedsWebhook(row: PlanRow) {
    row.limits.quotaSoftPct > 0 && (row.webhookUrl.None? || row.webhookUrl.value == "")
  }

  /** The database a mutation would commit, or why it refuses. */
  function Apply(db: Database, m: Mutation): Result<Database> {
    match m
    case IssueKey(plan, name, keyId, digest) =>
      if plan !in db.plans then Err(NotFound)
      else if keyId in db.keys || digest in db.byHash then Err(Conflict)
      else Ok(db.(keys := db.keys[keyId := KeyRow(name, plan, NO_OVERRIDES, false)], byHash := db.byHash[digest := keyId]))
    case UpdateKey(keyId, c) =>
      if keyId !in db.keys then Err(NotFound)
      else if db.keys[keyId].revoked then Err(Conflict)
      else if c == KeyChanges(Unset, Unset, Unset, Unset, Unset, Unset) || c.name.Null? then Err(Invalid)
      else Ok(db.(keys := db.keys[keyId := ChangedKey(db.keys[keyId], c)]))
    case RevokeKey(keyId) =>
      if keyId !in db.keys then Err(NotFound)
      else if db.keys[keyId].revoked then Err(Conflict)
      else Ok(db.(keys := db.keys[keyId := db.keys[keyId].(revoked := true)]))
    case UpdatePlan(slug, c) =>
      if slug !in db.plans then Err(NotFound)
      else if NullsOutsideWebhook(c) then Err(Invalid)
      else
        var changed := ChangedPlan(db.plans[slug], c);
        if NeedsWebhook(changed) then Err(Invalid)
        else Ok(db.(plans := db.plans[slug := changed]))
  }

  predicate Good(db: Database) {
    Linked(db) && Bounded(db)
  }

  /** Every key the check path resolves has limits within the schema bounds, overrides or not. */
  lemma LoadedLimitsAreValid(db: Database, digest: string)
    requires Good(db) && Load(db, digest).Some?
    ensures ValidPlan(Load(db, digest).value.limits)
  {
    var row := db.keys[db.byHash[digest]];
    assert ValidOverrides(row.overrides) && ValidPlan(db.plans[row.plan].limits);
  }

  lemma ChangedKeyIsBounded(row: KeyRow, c: KeyChanges)
    requires ValidOverrides(row.overrides) && ValidKeyChanges(c)
    ensures ValidOverrides(ChangedKey(row, c).overrides) && ChangedKey(row, c).plan == row.plan
  {
  }

  lemma ChangedPlanIsValid(row: PlanRow, c: PlanChanges)
    requires ValidPlan(row.limits) && ValidPlanChanges(c)
    ensures ValidPlan(ChangedPlan(row, c).limits)
  {
  }

  lemma StoringKeepsGood(db: Database, keyId: string, row: KeyRow)
    requires Good(db) && row.plan in db.plans && ValidOverrides(row.overrides)
    ensures Good(db.(keys := db.keys[keyId := row]))
  {
  }

  lemma StoringPlanKeepsGood(db: Database, slug: string, row: PlanRow)
    requires Good(db) && ValidPlan(row.limits)
    ensures Good(db.(plans := db.plans[slug := row]))
  {
  }

  lemma IndexingKeepsGood(db: Database, digest: string, keyId: string)
    requires Good(db) && keyId in db.keys
    ensures Good(db.(byHash := db.byHash[digest := keyId]))
  {
  }

  /** Committed mutations keep the database linked and bounded. */
  lemma MutationsKeepGood(db: Database, m: Mutation)
    requires Good(db) && Admissible(m) && Apply(db, m).Ok?
    ensures Good(Apply(db, m).value)
  {
    match m
    case IssueKey(plan, name, keyId, digest) =>
      var row := KeyRow(name, plan, NO_OVERRIDES, false);
      StoringKeepsGood(db, keyId, row);
      IndexingKeepsGood(db.(keys := db.keys[keyId := row]), digest, keyId);
    case UpdateKey(keyId, c) =>
      assert ValidOverrides(db.keys[keyId].overrides);
      ChangedKeyIsBounded(db.keys[keyId], c);
      StoringKeepsGood(db, keyId, ChangedKey(db.keys[keyId], c));
    case RevokeKey(keyId) =>
      StoringKeepsGood(db, keyId, db.keys[keyId].(revoked := true));
    case UpdatePlan(slug, c) =>
      ChangedPlanIsValid(db.plans[slug], c);
      StoringPlanKeepsGood(db, slug, ChangedPlan(db.plans[slug], c));
  }

  /** Revocation is permanent and no key is ever deleted, whatever is committed: a digest keeps
      naming its key, and a revoked key stays revoked and unchanged. */
  lemma RevocationIsPermanent(db: Database, m: Mutation, digest: string)
    requires Good(db) && Admissible(m) && Apply(db, m).Ok? && digest in db.byHash
    ensures var db' := Apply(db, m).value;
            && digest in db'.byHash && db'.byHash[digest] == db.byHash[digest]
            && Linked(db')
            && (Load(db, digest).value.revoked ==> Load(db', digest).value.revoked)
            && (Load(db, digest).value.revoked ==> db'.keys[db.byHash[digest]] == db.keys[db.byHash[digest]])
  {
    MutationsKeepGood(db, m);
  }

  /** What a changed override means for the limit in force: the new value, the plan's again, or
      what it was. */
  predicate Takes(f: Field<int>, before: int, plan: int, after: int) {
    match f
    case Unset => after == before
    case Null => after == plan
    case To(v) => after == v
  }

  lemma ChangedOverride(f: Field<int>, o: Option<int>, plan: int, high: int)
    requires FieldIn(f, 1, high)
    ensures Takes(f, OrPlan(o, plan), plan, OrPlan(SetOrClear(f, o), plan))
  {
  }

  /** An update of overrides is what the check path sees next, for that key and no other. */
  lemma UpdateKeyTakesEffect(db: Database, keyId: string, c: KeyChanges, digest: string)
    requires Good(db) && ValidKeyChanges(c) && Apply(db, UpdateKey(keyId, c)).Ok? && digest in db.byHash
    ensures var db' := Apply(db, UpdateKey(keyId, c)).value;
            && Linked(db')
            && var before, after, plan := Load(db, digest).value.limits, Load(db', digest).value.limits,
                                          db.plans[db.keys[db.byHash[digest]].plan].limits;
               if db.byHash[digest] == keyId then
                 && Takes(c.burstCapacity, before.burstCapacity, plan.burstCapacity, after.burstCapacity)
                 && Takes(c.burstRefillPerSec, before.burstRefillPerSec, plan.burstRefillPerSec, after.burstRefillPerSec)
                 && Takes(c.sustainedLimit, before.sustainedLimit, plan.sustainedLimit, after.sustainedLimit)
                 && Takes(c.sustainedWindowSeconds, before.sustainedWindowSeconds, plan.sustainedWindowSeconds, after.sustainedWindowSeconds)
                 && Takes(c.monthlyQuota, before.monthlyQuota, plan.monthlyQuota, after.monthlyQuota)
               else
                 Load(db', digest) == Load(db, digest)
  {
    MutationsKeepGood(db, UpdateKey(keyId, c));
    var o, plan := db.keys[db.byHash[digest]].overrides, db.plans[db.keys[db.byHash[digest]].plan].limits;
    ChangedOverride(c.burstCapacity, o.burstCapacity, plan.burstCapacity, 1_000_000);
    ChangedOverride(c.burstRefillPerSec, o.burstRefillPerSec, plan.burstRefillPerSec, 100_000);
    ChangedOverride(c.sustainedLimit, o.sustainedLimit, plan.sustainedLimit, 1_000_000);
    ChangedOverride(c.sustainedWindowSeconds, o.sustainedWindowSeconds, plan.sustainedWindowSeconds, 86_400);
    ChangedOverride(c.monthlyQuota, o.monthlyQuota, plan.monthlyQuota, 1_000_000_000_000);
  }

  /** Revoking flips the key to revoked for every digest that names it, once. */
  lemma RevokeRevokes(db: Database, keyId: string)
    requires Good(db) && keyId in db.keys
    ensures Apply(db, RevokeKey(keyId)).Ok? <==> !db.keys[keyId].revoked
    ensures db.keys[keyId].revoked ==> Apply(db, RevokeKey(keyId)) == Err(Conflict)
    ensures Apply(db, RevokeKey(keyId)).Ok? ==>
              var db' := Apply(db, RevokeKey(keyId)).value;
              && Linked(db')
              && (forall d :: d in db.byHash && db.byHash[d] == keyId ==> Load(db', d).value.revoked)
              && Apply(db', RevokeKey(keyId)) == Err(Conflict)
  {
    if Apply(db, RevokeKey(keyId)).Ok? {
      MutationsKeepGood(db, RevokeKey(keyId));
    }
  }

  // ----- what a resolve sees of each mutation

  /** A key's digest names the key itself: digests resolve to one id exactly when the index maps
      them to one. */
  lemma ResolvesToTheIndexedKey(db: Database, d: string, d': string)
    requires Good(db)
    ensures Load(db, d).Some? <==> d in db.byHash
    ensures d in db.byHash && d' in db.byHash ==>
              (Load(db, d).value.keyId == Load(db, d').value.keyId <==> db.byHash[d] == db.byHash[d'])
    ensures d in db.byHash ==> Load(db, d).value.keyId == db.byHash[d]
  {
  }

  /** No two digests share a key. */
  predicate OneDigestPerKey(db: Database) {
    forall d, d' :: d in db.byHash && d' in db.byHash && db.byHash[d] == db.byHash[d'] ==> d == d'
  }

  lemma MutationsKeepDigestsApart(db: Database, m: Mutation)
    requires Good(db) && OneDigestPerKey(db) && Apply(db, m).Ok?
    ensures OneDigestPerKey(Apply(db, m).value)
  {
  }

  /** An issued key resolves at once: under its own id, live, with its plan's limits, soft
      threshold and policy; every other digest resolves as before. Issuing succeeds exactly for a
      known plan and an id and digest that are both new. */
  lemma IssuedKeyResolves(db: Database, plan: string, name: string, keyId: string, digest: string, other: string)
    requires Good(db)
    ensures var m := IssueKey(plan, name, keyId, digest);
            && (Apply(db, m).Ok? <==> plan in db.plans && keyId !in db.keys && digest !in db.byHash)
            && (!Apply(db, m).Ok? ==> Apply(db, m) == Err(if plan !in db.plans then NotFound else Conflict))
            && (Apply(db, m).Ok? ==>
                  var db' := Apply(db, m).value;
                  && Good(db')
                  && Load(db', digest) == Some(ResolvedKey(keyId, name, plan, false, db.plans[plan].limits, db.plans[plan].policy))
                  && (other != digest ==> Load(db', other) == Load(db, other)))
  {
    if Apply(db, IssueKey(plan, name, keyId, digest)).Ok? {
      MutationsKeepGood(db, IssueKey(plan, name, keyId, digest));
    }
  }

  /** A field of a plan as an update leaves it. */
  function Given<T>(f: Field<T>, before: T): T {
    match f
    case To(v) => v
    case _ => before
  }

  /** What a plan's update means for one limit of a resolved key: nothing if the key has its own. */
  predicate PlanTakes(f: Field<int>, override: Option<int>, before: int, after: int) {
    after == if override.Some? then before else Given(f, before)
  }

  /** An update of a plan as seen through one of its keys: every limit that the key does not
      override, the soft percentage and the policy become what was given, and nothing else moves. */
  predicate SeesPlanUpdate(c: PlanChanges, o: Overrides, before: ResolvedKey, after: ResolvedKey) {
    && PlanTakes(c.burstCapacity, o.burstCapacity, before.limits.burstCapacity, after.limits.burstCapacity)
    && PlanTakes(c.burstRefillPerSec, o.burstRefillPerSec, before.limits.burstRefillPerSec, after.limits.burstRefillPerSec)
    && PlanTakes(c.sustainedLimit, o.sustainedLimit, before.limits.sustainedLimit, after.limits.sustainedLimit)
    && PlanTakes(c.sustainedWindowSeconds, o.sustainedWindowSeconds, before.limits.sustainedWindowSeconds, after.limits.sustainedWindowSeconds)
    && PlanTakes(c.monthlyQuota, o.monthlyQuota, before.limits.monthlyQuota, after.limits.monthlyQuota)
    && after.limits.quotaSoftPct == Given(c.quotaSoftPct, before.limits.quotaSoftPct)
    && after.policy == Given(c.policy, before.policy)
    && after.keyId == before.keyId && after.name == before.name && after.plan == before.plan && after.revoked == before.revoked
  }

  lemma UpdatePlanTakesEffect(db: Database, slug: string, c: PlanChanges, digest: string)
    requires Good(db) && ValidPlanChanges(c) && Apply(db, UpdatePlan(slug, c)).Ok? && digest in db.byHash
    ensures var db' := Apply(db, UpdatePlan(slug, c)).value;
            && Good(db')
            && (if db.keys[db.byHash[digest]].plan == slug
                then Load(db', digest).Some?
                     && SeesPlanUpdate(c, db.keys[db.byHash[digest]].overrides, Load(db, digest).value, Load(db', digest).value)
                else Load(db', digest) == Load(db, digest))
  {
    MutationsKeepGood(db, UpdatePlan(slug, c));
    assert ValidOverrides(db.keys[db.byHash[digest]].overrides);
  }

  /** Every plan with a soft threshold has somewhere to send the warning. */
  predicate CanWarn(db: Database) {
    forall s :: s in db.plans && db.plans[s].limits.quotaSoftPct > 0 ==>
      db.plans[s].webhookUrl.Some? && db.plans[s].webhookUrl.value != ""
  }

  /** Committed mutations keep it so: an update of a plan is refused exactly when the plan is
      unknown, a field other than the webhook is null, or a soft threshold would be left without
      a webhook. */
  lemma MutationsKeepWebhooks(db: Database, m: Mutation)
    requires CanWarn(db) && Apply(db, m).Ok?
    ensures CanWarn(Apply(db, m).value)
  {
  }

  lemma UpdatePlanIsRefused(db: Database, slug: string, c: PlanChanges)
    ensures slug !in db.plans <==> Apply(db, UpdatePlan(slug, c)) == Err(NotFound)
    ensures slug in db.plans ==>
              var row := db.plans[slug];
              var softened := Given(c.quotaSoftPct, row.limits.quotaSoftPct) > 0;
              var hooked := match c.webhookUrl case To(url) => url != "" case Null => false
                                               case Unset => row.webhookUrl.Some? && row.webhookUrl.value != "";
              Apply(db, UpdatePlan(slug, c)).Ok?
              <==> !(c.burstCapacity.Null? || c.burstRefillPerSec.Null? || c.sustainedLimit.Null? || c.sustainedWindowSeconds.Null?
                     || c.monthlyQuota.Null? || c.quotaSoftPct.Null? || c.policy.Null?)
                   && (softened ==> hooked)
    ensures slug in db.plans && !Apply(db, UpdatePlan(slug, c)).Ok? ==> Apply(db, UpdatePlan(slug, c)) == Err(Invalid)
    ensures Apply(db, UpdatePlan(slug, c)).Ok? ==>
              var db' := Apply(db, UpdatePlan(slug, c)).value;
              && db'.keys == db.keys && db'.byHash == db.byHash
              && (forall s :: s in db.plans <==> s in db'.plans)
              && (forall s :: s in db.plans && s != slug ==> db'.plans[s] == db.plans[s])
              && db'.plans[slug].webhookUrl
                 == match c.webhookUrl case To(url) => Some(url) case Null => None case Unset => db.plans[slug].webhookUrl
  {
  }

  /** Revoking marks the key's own digests and nothing more: the key still resolves to all it did,
      and every other key resolves as before. */
  lemma RevokeSparesOthers(db: Database, keyId: string, digest: string)
    requires Good(db) && Apply(db, RevokeKey(keyId)).Ok? && digest in db.byHash
    ensures var db' := Apply(db, RevokeKey(keyId)).value;
            && Good(db')
            && Load(db', digest)
               == if db.byHash[digest] == keyId then Some(Load(db, digest).value.(revoked := true)) else Load(db, digest)
  {
    MutationsKeepGood(db, RevokeKey(keyId));
  }

  /** An update of a key changes no more than its name and limits, and is refused exactly when
      the key is unknown or revoked, nothing is given, or the name is null. */
  lemma UpdateKeyKeepsTheRest(db: Database, keyId: string, c: KeyChanges, digest: string)
    requires Good(db) && ValidKeyChanges(c)
    ensures Apply(db, UpdateKey(keyId, c)).Ok?
        <==> keyId in db.keys && !db.keys[keyId].revoked && !c.name.Null?
             && !(c.name.Unset? && c.burstCapacity.Unset? && c.burstRefillPerSec.Unset? && c.sustainedLimit.Unset?
                  && c.sustainedWindowSeconds.Unset? && c.monthlyQuota.Unset?)
    ensures !Apply(db, UpdateKey(keyId, c)).Ok? ==>
              Apply(db, UpdateKey(keyId, c))
              == Err(if keyId !in db.keys then NotFound else if db.keys[keyId].revoked then Conflict else Invalid)
    ensures Apply(db, UpdateKey(keyId, c)).Ok? && digest in db.byHash && db.byHash[digest] == keyId ==>
              var db' := Apply(db, UpdateKey(keyId, c)).value;
              && Good(db')
              && var before, after := Load(db, digest).value, Load(db', digest).value;
                 && after.keyId == before.keyId && after.plan == before.plan && after.policy == before.policy
                 && after.revoked == before.revoked && after.limits.quotaSoftPct == before.limits.quotaSoftPct
                 && after.name == Given(c.name, before.name)
  {
    if Apply(db, UpdateKey(keyId, c)).Ok? {
      MutationsKeepGood(db, UpdateKey(keyId, c));
    }
  }
}
