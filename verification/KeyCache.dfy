/** The resolver's in-process cache: entries by digest with an expiry, known misses included,
    dropped whole by every admin mutation, with a generation that in-flight lookups compare. */
module KeyCache {
  import opened Arith
  import opened Limits
  import opened Registry

  const MAX_CACHE_ENTRIES := 10_000

  datatype Entry = Entry(expires: real, value: Option<ResolvedKey>)
  datatype Cache = Cache(entries: map<string, Entry>, generation: nat)

  /** The cached answer, if there is one that has not expired. */
  function Hit(c: Cache, digest: string, now: real): Option<Option<ResolvedKey>> {
    if digest in c.entries && c.entries[digest].expires > now then Some(c.entries[digest].value) else None
  }

  function Invalidated(c: Cache): Cache {
    Cache(map[], c.generation + 1)
  }

  /** A lookup that read the clock at `started` and saw generation `seen` stores its answer
      unless it is stale; a full cache is dropped first. */
  function Stored(c: Cache, digest: string, started: real, seen: nat, resolved: Option<ResolvedKey>, ttl: real): Cache {
    if ttl > 0.0 && seen == c.generation then
      var kept := if |c.entries| >= MAX_CACHE_ENTRIES then map[] else c.entries;
      c.(entries := kept[digest := Entry(started + ttl, resolved)])
    else c
  }

  lemma StoredIsBounded(c: Cache, digest: string, started: real, seen: nat, resolved: Option<ResolvedKey>, ttl: real)
    requires |c.entries| <= 10_000
    ensures |Stored(c, digest, started, seen, resolved, ttl).entries| <= 10_000
  {
    var kept := if |c.entries| >= MAX_CACHE_ENTRIES then map[] else c.entries;
    UpdateGrowsByOne(kept, digest, Entry(started + ttl, resolved));
  }

  /** A lookup of the current generation answers for its digest until its expiry and no longer;
      a stale one changes nothing. Other answers stay, unless the cache was full. */
  lemma StoredAnswers(c: Cache, digest: string, started: real, seen: nat, resolved: Option<ResolvedKey>, ttl: real, other: string, now: real)
    ensures var c' := Stored(c, digest, started, seen, resolved, ttl);
            && (ttl > 0.0 && seen == c.generation ==>
                  Hit(c', digest, now) == if now < started + ttl then Some(resolved) else None)
            && (ttl <= 0.0 || seen != c.generation ==> c' == c)
            && (other != digest && |c.entries| < MAX_CACHE_ENTRIES ==> Hit(c', other, now) == Hit(c, other, now))
            && (Hit(c', other, now).Some? && other != digest ==> Hit(c', other, now) == Hit(c, other, now))
  {
  }

  lemma UpdateGrowsByOne<V>(m: map<string, V>, k: string, v: V)
    ensures |m[k := v]| <= |m| + 1
  {
    assert m[k := v].Keys == m.Keys + {k};
  }

  class ResolverCache {
    var entries: map<string, Entry>
    var generation: nat

    function Contents(): Cache
      reads this
    {
      Cache(entries, generation)
    }

    constructor ()
      ensures Contents() == Cache(map[], 0)
    {
      entries, generation := map[], 0;
    }

    method Invalidate()
      modifies this
      ensures Contents() == Invalidated(old(Contents()))
    {
      generation := generation + 1;
      entries := map[];
    }

    /** The part of resolve before the database read. */
    method Begin(digest: string, now: real) returns (hit: Option<Option<ResolvedKey>>, seen: nat)
      ensures hit == Hit(Contents(), digest, now) && seen == generation
    {
      seen := generation;
      hit := None;
      if digest in entries {
        var entry := entries[digest];
        if entry.expires > now {
          hit := Some(entry.value);
        }
      }
    }

    /** The part of resolve after the database read. */
    method Finish(digest: string, started: real, seen: nat, resolved: Option<ResolvedKey>, ttl: real)
      modifies this`entries
      ensures Contents() == Stored(old(Contents()), digest, started, seen, resolved, ttl)
    {
      if ttl > 0.0 && seen == generation {
        if |entries| >= MAX_CACHE_ENTRIES {
          entries := map[];
        }
        entries := entries[digest := Entry(started + ttl, resolved)];
      }
    }
  }

  /** A mutation either commits and then invalidates, or fails and changes nothing. */
  predicate Outcome(m: Mutation, db: Database, c: Cache, failure: Option<Failure>, db': Database, c': Cache) {
    match Apply(db, m)
    case Ok(committed) => failure == None && db' == committed && c' == Invalidated(c)
    case Err(f) => failure == Some(f) && db' == db && c' == c
  }

  /** The admin services on their tables: every successful mutation commits, then invalidates. */
  class Admin {
    var plans: map<string, PlanRow>
    var keys: map<string, KeyRow>
    var byHash: map<string, string>
    const cache: ResolverCache

    constructor (cache: ResolverCache)
      ensures this.cache == cache && Contents() == Database(map[], map[], map[])
    {
      plans, keys, byHash := map[], map[], map[];
      this.cache := cache;
    }

    function Contents(): Database
      reads this
    {
      Database(plans, keys, byHash)
    }

    method IssueKey(plan: string, name: string, keyId: string, digest: string) returns (failure: Option<Failure>)
      modifies this, cache
      ensures Outcome(Mutation.IssueKey(plan, name, keyId, digest), old(Contents()), old(cache.Contents()), failure, Contents(), cache.Contents())
    {
      if plan !in plans {
        return Some(NotFound);
      }
      if keyId in keys || digest in byHash {
        return Some(Conflict);
      }
      keys := keys[keyId := KeyRow(name, plan, NO_OVERRIDES, false)];
      byHash := byHash[digest := keyId];
      cache.Invalidate();
      return None;
    }

    method UpdateKey(keyId: string, changes: KeyChanges) returns (failure: Option<Failure>)
      modifies this, cache
      ensures Outcome(Mutation.UpdateKey(keyId, changes), old(Contents()), old(cache.Contents()), failure, Contents(), cache.Contents())
    {
      if keyId !in keys {
        return Some(NotFound);
      }
      if keys[keyId].revoked {
        return Some(Conflict);
      }
      if changes == KeyChanges(Unset, Unset, Unset, Unset, Unset, Unset) || changes.name.Null? {
        return Some(Invalid);
      }
      var row := keys[keyId];
      var o := row.overrides;
      if changes.name.To? {
        row := row.(name := changes.name.value);
      }
      o := o.(burstCapacity := SetOrClear(changes.burstCapacity, o.burstCapacity));
      o := o.(burstRefillPerSec := SetOrClear(changes.burstRefillPerSec, o.burstRefillPerSec));
      o := o.(sustainedLimit := SetOrClear(changes.sustainedLimit, o.sustainedLimit));
      o := o.(sustainedWindowSeconds := SetOrClear(changes.sustainedWindowSeconds, o.sustainedWindowSeconds));
      o := o.(monthlyQuota := SetOrClear(changes.monthlyQuota, o.monthlyQuota));
      keys := keys[keyId := row.(overrides := o)];
      cache.Invalidate();
      return None;
    }

    method RevokeKey(keyId: string) returns (failure: Option<Failure>)
      modifies this, cache
      ensures Outcome(Mutation.RevokeKey(keyId), old(Contents()), old(cache.Contents()), failure, Contents(), cache.Contents())
    {
      if keyId !in keys {
        return Some(NotFound);
      }
      if keys[keyId].revoked {
        return Some(Conflict);
      }
      keys := keys[keyId := keys[keyId].(revoked := true)];
      cache.Invalidate();
      return None;
    }

    method UpdatePlan(slug: string, changes: PlanChanges) returns (failure: Option<Failure>)
      modifies this, cache
      ensures Outcome(Mutation.UpdatePlan(slug, changes), old(Contents()), old(cache.Contents()), failure, Contents(), cache.Contents())
    {
      if slug !in plans {
        return Some(NotFound);
      }
      if NullsOutsideWebhook(changes) {
        return Some(Invalid);
      }
      var row := plans[slug];
      var softPct := SetTo(changes.quotaSoftPct, row.limits.quotaSoftPct);
      var webhook := SetOrClear(changes.webhookUrl, row.webhookUrl);
      if softPct > 0 && (webhook.None? || webhook.value == "") {
        return Some(Invalid);
      }
      var limits := row.limits;
      limits := limits.(burstCapacity := SetTo(changes.burstCapacity, limits.burstCapacity));
      limits := limits.(burstRefillPerSec := SetTo(changes.burstRefillPerSec, limits.burstRefillPerSec));
      limits := limits.(sustainedLimit := SetTo(changes.sustainedLimit, limits.sustainedLimit));
      limits := limits.(sustainedWindowSeconds := SetTo(changes.sustainedWindowSeconds, limits.sustainedWindowSeconds));
      limits := limits.(monthlyQuota := SetTo(changes.monthlyQuota, limits.monthlyQuota));
      limits := limits.(quotaSoftPct := softPct);
      plans := plans[slug := PlanRow(limits, webhook, SetTo(changes.policy, row.policy))];
      cache.Invalidate();
      return None;
    }
  }
}
