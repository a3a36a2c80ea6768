/**
 The tenant cache: one entry per way a tenant is looked up, valid for five minutes from
 the moment its query returned.
 */
module TenantCache {
  import opened Options

  /** How a tenant is looked up; the API key is cached under its hash, taken as injective. */
  datatype Key = ById(id: string) | ByApiKey(apiKey: string) | BySlug(slug: string)

  type Tenant = string

  const CACHE_TTL := 5 * 60 * 1000

  datatype Entry = Entry(value: Tenant, expiry: int)

  type Cache = map<Key, Entry>

  function Hit(c: Cache, key: Key, now: int): Option<Tenant> {
    if key in c && now <= c[key].expiry then Some(c[key].value) else None
  }

  function AfterLook(c: Cache, key: Key, now: int): Cache {
    if key in c && now > c[key].expiry then c - {key} else c
  }

  function Filled(c: Cache, key: Key, found: Option<Tenant>, now: int): Cache {
    if found.Some? then c[key := Entry(found.value, now + CACHE_TTL)] else c
  }

  class TenantResolver {
    var tenantCache: Cache

    constructor ()
      ensures tenantCache == map[]
    {
      tenantCache := map[];
    }

    method GetFromCache(key: Key, now: int) returns (answer: Option<Tenant>)
      modifies this
      ensures answer == Hit(old(tenantCache), key, now) && tenantCache == AfterLook(old(tenantCache), key, now)
      ensures answer.Some? <==> key in old(tenantCache) && now <= old(tenantCache)[key].expiry
      ensures answer.Some? ==> answer.value == old(tenantCache)[key].value && tenantCache == old(tenantCache)
      ensures answer.None? ==> tenantCache == old(tenantCache) - {key}
    {
      answer := None;
      if key in tenantCache {
        var item := tenantCache[key];
        if now > item.expiry {
          tenantCache := tenantCache - {key};
        } else {
          answer := Some(item.value);
        }
      }
    }

    /** The half of a lookup after its query: a tenant that was found is cached. */
    method Remember(key: Key, found: Option<Tenant>, now: int)
      modifies this
      ensures tenantCache == Filled(old(tenantCache), key, found, now)
      ensures tenantCache == match found
                             case Some(tenant) => old(tenantCache)[key := Entry(tenant, now + 300_000)]
                             case None => old(tenantCache)
    {
      if found.Some? {
        tenantCache := tenantCache[key := Entry(found.value, now + CACHE_TTL)];
      }
    }

    method Invalidate()
      modifies this
      ensures tenantCache == map[]
    {
      tenantCache := map[];
    }
  }

  // ---------- all requests together ----------

  datatype Query = Asked(key: Key, at: int) | Answered(key: Key, at: int, found: Option<Tenant>)

  /** `began` is history: when the query behind each entry began. No step reads it. */
  datatype System = System(cache: Cache, db: map<Key, Tenant>, now: int, queries: map<nat, Query>, began: map<Key, int>)

  datatype Step =
    | Look(id: nat, key: Key)
    | Answer(id: nat)
    | Fill(id: nat)
    | Write(db: map<Key, Tenant>)
    | Invalidate
    | Advance(passed: nat)

  function Lookup(db: map<Key, Tenant>, key: Key): Option<Tenant> {
    if key in db then Some(db[key]) else None
  }

  function Next(s: System, step: Step): System {
    match step
    case Look(id, key) =>
      if id in s.queries || Hit(s.cache, key, s.now).Some? then s
      else s.(cache := AfterLook(s.cache, key, s.now), queries := s.queries[id := Asked(key, s.now)])
    case Answer(id) =>
      if id in s.queries && s.queries[id].Asked? then
        var q := s.queries[id];
        s.(queries := s.queries[id := Answered(q.key, q.at, Lookup(s.db, q.key))])
      else s
    case Fill(id) =>
      if id in s.queries && s.queries[id].Answered? then
        var q := s.queries[id];
        s.(cache := Filled(s.cache, q.key, q.found, s.now),
           queries := s.queries - {id},
           began := if q.found.Some? then s.began[q.key := q.at] else s.began)
      else s
    case Write(db) => s.(db := db)
    case Invalidate => s.(cache := map[])
    case Advance(passed) => s.(now := s.now + passed)
  }

  /** A lookup asks the database exactly when the key has no entry or its five minutes are over. */
  lemma LookAsksExactly(s: System, id: nat, key: Key)
    requires id !in s.queries
    ensures var t := Next(s, Look(id, key));
            if key in s.cache && s.now <= s.cache[key].expiry then t == s
            else t.queries == s.queries[id := Asked(key, s.now)] && t.cache == s.cache - {key} && t.db == s.db
  {
  }

  function Run(s: System, steps: seq<Step>): System {
    if steps == [] then s else Next(Run(s, steps[..|steps| - 1]), steps[|steps| - 1])
  }

  /** At some moment of the run between the two times, the database held the tenant under the key. */
  ghost predicate Held(s: System, steps: seq<Step>, key: Key, tenant: Option<Tenant>, from: int, to: int) {
    exists i :: 0 <= i <= |steps| && HeldAt(Run(s, steps[..i]), key, tenant, from, to)
  }

  predicate HeldAt(s: System, key: Key, tenant: Option<Tenant>, from: int, to: int) {
    Lookup(s.db, key) == tenant && from <= s.now <= to
  }

  lemma HeldStays(s: System, steps: seq<Step>, step: Step, key: Key, tenant: Option<Tenant>, from: int, to: int, later: int)
    requires Held(s, steps, key, tenant, from, to) && to <= later
    ensures Held(s, steps + [step], key, tenant, from, later)
  {
    var i :| 0 <= i <= |steps| && HeldAt(Run(s, steps[..i]), key, tenant, from, to);
    assert (steps + [step])[..i] == steps[..i];
    assert HeldAt(Run(s, (steps + [step])[..i]), key, tenant, from, later);
  }

  lemma HeldNow(s: System, steps: seq<Step>, key: Key, from: int)
    requires from <= Run(s, steps).now
    ensures Held(s, steps, key, Lookup(Run(s, steps).db, key), from, Run(s, steps).now)
  {
    assert steps[..|steps|] == steps;
    assert HeldAt(Run(s, steps[..|steps|]), key, Lookup(Run(s, steps).db, key), from, Run(s, steps).now);
  }

  ghost predicate QueryGrounded(s: System, steps: seq<Step>, t: System, id: nat)
    requires id in t.queries
  {
    var q := t.queries[id];
    q.at <= t.now && (q.Answered? ==> Held(s, steps, q.key, q.found, q.at, t.now))
  }

  /** An entry holds what the database held while the query behind it ran. */
  ghost predicate EntryGrounded(s: System, steps: seq<Step>, t: System, key: Key)
    requires key in t.cache
  {
    && key in t.began
    && t.cache[key].expiry - CACHE_TTL <= t.now
    && Held(s, steps, key, Some(t.cache[key].value), t.began[key], t.cache[key].expiry - CACHE_TTL)
  }

  ghost predicate Grounded(s: System, steps: seq<Step>) {
    var t := Run(s, steps);
    && (forall key :: key in t.cache ==> EntryGrounded(s, steps, t, key))
    && (forall id :: id in t.queries ==> QueryGrounded(s, steps, t, id))
  }

  lemma StepKeepsEntries(s: System, steps: seq<Step>, step: Step, key: Key)
    requires Grounded(s, steps) && key in Run(s, steps + [step]).cache
    ensures EntryGrounded(s, steps + [step], Run(s, steps + [step]), key)
  {
    hide Held, Lookup;
    var longer := steps + [step];
    assert longer[..|steps|] == steps;
    var t, u := Run(s, steps), Run(s, longer);
    assert u == Next(t, step);
    var stored := u.cache[key].expiry - CACHE_TTL;
    if step.Fill? && step.id in t.queries && t.queries[step.id].Answered? && t.queries[step.id].key == key && t.queries[step.id].found.Some? {
      assert QueryGrounded(s, steps, t, step.id);
      HeldStays(s, steps, step, key, t.queries[step.id].found, u.began[key], t.now, t.now);
    } else {
      assert EntryGrounded(s, steps, t, key);
      HeldStays(s, steps, step, key, Some(u.cache[key].value), u.began[key], stored, stored);
    }
  }

  lemma StepKeepsQueries(s: System, steps: seq<Step>, step: Step, id: nat)
    requires Grounded(s, steps) && id in Run(s, steps + [step]).queries
    ensures QueryGrounded(s, steps + [step], Run(s, steps + [step]), id)
  {
    hide Held, Lookup;
    var longer := steps + [step];
    assert longer[..|steps|] == steps;
    var t, u := Run(s, steps), Run(s, longer);
    assert u == Next(t, step);
    if id in t.queries {
      assert QueryGrounded(s, steps, t, id);
      if t.queries[id].Answered? {
        HeldStays(s, steps, step, t.queries[id].key, t.queries[id].found, t.queries[id].at, t.now, u.now);
      } else {
        HeldNow(s, longer, t.queries[id].key, t.queries[id].at);
      }
    }
  }

  lemma {:induction false} RunsStayGrounded(s: System, steps: seq<Step>)
    requires s.cache == map[] && s.queries == map[]
    ensures Grounded(s, steps)
  {
    hide QueryGrounded, EntryGrounded, Next;
    if steps != [] {
      var most, last := steps[..|steps| - 1], steps[|steps| - 1];
      RunsStayGrounded(s, most);
      assert steps == most + [last];
      forall key | key in Run(s, steps).cache
        ensures EntryGrounded(s, steps, Run(s, steps), key)
      {
        StepKeepsEntries(s, most, last, key);
      }
      forall id | id in Run(s, steps).queries
        ensures QueryGrounded(s, steps, Run(s, steps), id)
      {
        StepKeepsQueries(s, most, last, id);
      }
    }
  }

  /** A hit is a tenant the database held at most five minutes and the duration of the filling query ago. */
  lemma HitsAreRecent(s: System, steps: seq<Step>, key: Key)
    requires s.cache == map[] && s.queries == map[]
    ensures var t := Run(s, steps);
            Hit(t.cache, key, t.now).Some? ==>
              && key in t.began
              && var latency := t.cache[key].expiry - 300_000 - t.began[key];
              && 0 <= latency
              && Held(s, steps, key, Hit(t.cache, key, t.now), t.now - 300_000 - latency, t.now)
  {
    hide Held, Run;
    RunsStayGrounded(s, steps);
    var t := Run(s, steps);
    if Hit(t.cache, key, t.now).Some? {
      assert EntryGrounded(s, steps, t, key);
      var began, stored := t.began[key], t.cache[key].expiry - CACHE_TTL;
      HeldWidens(s, steps, key, Some(t.cache[key].value), began, stored, t.now - CACHE_TTL - (stored - began), t.now);
    }
  }

  lemma HeldWidens(s: System, steps: seq<Step>, key: Key, tenant: Option<Tenant>, from: int, to: int, sooner: int, later: int)
    requires Held(s, steps, key, tenant, from, to) && sooner <= from && to <= later
    ensures from <= to
    ensures Held(s, steps, key, tenant, sooner, later)
  {
    hide Run;
    var i :| 0 <= i <= |steps| && HeldAt(Run(s, steps[..i]), key, tenant, from, to);
    assert HeldAt(Run(s, steps[..i]), key, tenant, sooner, later);
  }

  /** The bound is reached: the entry lives five minutes from the end of its query, however long that took. */
  lemma SlowFillOutlivesFiveMinutes(key: Key, tenant: Tenant, latency: nat, start: int)
    ensures var s := System(map[], map[key := tenant], start, map[], map[]);
            var steps := [Look(0, key), Answer(0), Write(map[]), Advance(latency), Fill(0), Advance(CACHE_TTL)];
            var t := Run(s, steps);
            && Run(s, steps[..3]).db == map[] && Run(s, steps[..3]).now == start
            && t.now == start + 300_000 + latency
            && Hit(t.cache, key, t.now) == Some(tenant)
  {
    var s := System(map[], map[key := tenant], start, map[], map[]);
    var steps := [Look(0, key), Answer(0), Write(map[]), Advance(latency), Fill(0), Advance(CACHE_TTL)];
    forall i | 0 <= i < |steps|
      ensures Run(s, steps[..i + 1]) == Next(Run(s, steps[..i]), steps[i])
    {
      assert steps[..i + 1][..i] == steps[..i];
    }
    assert Run(s, steps[..0]) == s;
    var s2 := Next(Next(s, steps[0]), steps[1]);
    assert Run(s, steps[..1]) == Next(s, steps[0]);
    assert Run(s, steps[..2]) == s2 && s2.queries[0] == Answered(key, start, Some(tenant));
    var s3 := Run(s, steps[..3]);
    assert s3 == s2.(db := map[]);
    var s4 := Run(s, steps[..4]);
    var s5 := Run(s, steps[..5]);
    assert s5.cache[key] == Entry(tenant, s4.now + CACHE_TTL);
    assert steps[..6] == steps;
  }

  // ---------- when an invalidation takes effect ----------

  ghost predicate HeldSince(s: System, steps: seq<Step>, key: Key, tenant: Option<Tenant>) {
    exists i :: 0 <= i <= |steps| && Lookup(Run(s, steps[..i]).db, key) == tenant
  }

  ghost predicate HitIsSince(s: System, steps: seq<Step>, key: Key) {
    var t := Run(s, steps);
    Hit(t.cache, key, t.now).Some? ==> HeldSince(s, steps, key, Hit(t.cache, key, t.now))
  }

  /** However the run goes on, no hit brings back a tenant the database no longer held in this state. */
  ghost predicate OnlyCurrentHits(s: System) {
    forall steps, key :: HitIsSince(s, steps, key)
  }

  /** The query carries a tenant that was found and that the database has dropped or changed since. */
  predicate Stale(s: System, query: Query) {
    query.Answered? && query.found.Some? && query.found != Lookup(s.db, query.key)
  }

  predicate NoStaleAnswer(s: System) {
    forall id :: id in s.queries ==> !Stale(s, s.queries[id])
  }

  /** Clearing the cache settles the matter exactly when no stale answer is under way, however old its query is. */
  lemma InvalidationTakesEffectExactly(s: System)
    ensures OnlyCurrentHits(Next(s, Invalidate)) <==> NoStaleAnswer(s)
  {
    var f := Next(s, Invalidate);
    if NoStaleAnswer(s) {
      forall steps, key
        ensures HitIsSince(f, steps, key)
      {
        RunsStayCurrent(f, steps);
        CurrentEntryIsSince(f, steps, key);
      }
    } else {
      var id :| id in s.queries && Stale(s, s.queries[id]);
      StaleAnswerIsHit(f, id);
    }
  }

  lemma StaleAnswerIsHit(s: System, id: nat)
    requires id in s.queries && Stale(s, s.queries[id])
    ensures !HitIsSince(s, [Fill(id)], s.queries[id].key)
  {
    var steps := [Fill(id)];
    assert steps[..0] == [] && steps[..1] == steps;
    assert Run(s, []) == s && Run(s, steps) == Next(s, Fill(id));
    forall i | 0 <= i <= |steps|
      ensures Run(s, steps[..i]).db == s.db
    {
      assert i == 0 || i == 1;
    }
  }

  ghost predicate EntryCurrent(s: System, steps: seq<Step>, t: System, key: Key) {
    key in t.cache ==> HeldSince(s, steps, key, Some(t.cache[key].value))
  }

  ghost predicate QueryCurrent(s: System, steps: seq<Step>, query: Query) {
    query.Answered? && query.found.Some? ==> HeldSince(s, steps, query.key, query.found)
  }

  ghost predicate Current(s: System, steps: seq<Step>) {
    var t := Run(s, steps);
    && (forall key :: EntryCurrent(s, steps, t, key))
    && (forall id :: id in t.queries ==> QueryCurrent(s, steps, t.queries[id]))
  }

  lemma CurrentEntryIsSince(s: System, steps: seq<Step>, key: Key)
    requires Current(s, steps)
    ensures HitIsSince(s, steps, key)
  {
    assert EntryCurrent(s, steps, Run(s, steps), key);
  }

  lemma HeldSinceStays(s: System, steps: seq<Step>, step: Step, key: Key, tenant: Option<Tenant>)
    requires HeldSince(s, steps, key, tenant)
    ensures HeldSince(s, steps + [step], key, tenant)
  {
    var i :| 0 <= i <= |steps| && Lookup(Run(s, steps[..i]).db, key) == tenant;
    assert (steps + [step])[..i] == steps[..i];
  }

  lemma DatabaseHoldsNow(s: System, steps: seq<Step>, key: Key)
    ensures HeldSince(s, steps, key, Lookup(Run(s, steps).db, key))
  {
    assert steps[..|steps|] == steps;
    assert Lookup(Run(s, steps[..|steps|]).db, key) == Lookup(Run(s, steps).db, key);
  }

  lemma StepKeepsCurrent(s: System, steps: seq<Step>, step: Step)
    requires Current(s, steps)
    ensures Current(s, steps + [step])
  {
    hide HeldSince, Lookup;
    var longer := steps + [step];
    assert longer[..|steps|] == steps;
    var t, u := Run(s, steps), Run(s, longer);
    assert u == Next(t, step);
    forall key
      ensures EntryCurrent(s, longer, u, key)
    {
      if key in u.cache {
        if step.Fill? && step.id in t.queries {
          assert QueryCurrent(s, steps, t.queries[step.id]);
        }
        assert EntryCurrent(s, steps, t, key);
        HeldSinceStays(s, steps, step, key, Some(u.cache[key].value));
      }
    }
    forall id | id in u.queries
      ensures QueryCurrent(s, longer, u.queries[id])
    {
      var q := u.queries[id];
      if id in t.queries && t.queries[id] == q {
        assert QueryCurrent(s, steps, q);
        if q.Answered? && q.found.Some? {
          HeldSinceStays(s, steps, step, q.key, q.found);
        }
      } else {
        DatabaseHoldsNow(s, longer, q.key);
      }
    }
  }

  lemma {:induction false} RunsStayCurrent(s: System, steps: seq<Step>)
    requires s.cache == map[] && NoStaleAnswer(s)
    ensures Current(s, steps)
  {
    if steps == [] {
      forall key: Key {
        DatabaseHoldsNow(s, [], key);
      }
    } else {
      RunsStayCurrent(s, steps[..|steps| - 1]);
      StepKeepsCurrent(s, steps[..|steps| - 1], steps[|steps| - 1]);
      assert steps == steps[..|steps| - 1] + [steps[|steps| - 1]];
    }
  }
}
