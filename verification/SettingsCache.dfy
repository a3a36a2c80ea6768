/**
 The settings repository: one cached document with the time its query began, shared by
 all requests. A query is one step at the database between the two halves of its read.
 */
module SettingsCache {
  import opened Options

  type Settings = string

  const CACHE_TTL := 30 * 1000

  /** The two module variables; `None` is the null document. */
  datatype Repository = Repository(cached: Option<Settings>, stamp: int)

  predicate Fresh(r: Repository, now: int) {
    r.cached.Some? && now - r.stamp < CACHE_TTL
  }

  class SettingsRepository {
    var cachedSettings: Option<Settings>
    var cacheTimestamp: int

    constructor ()
      ensures State() == Repository(None, 0)
    {
      cachedSettings, cacheTimestamp := None, 0;
    }

    function State(): Repository
      reads this
    {
      Repository(cachedSettings, cacheTimestamp)
    }

    /** The half of `getSettings` before the query: answers from the cache, or asks for the query. */
    method Look(force: bool, now: int) returns (answer: Option<Settings>)
      ensures answer == if !force && cachedSettings.Some? && now - cacheTimestamp < 30_000 then cachedSettings else None
    {
      answer := None;
      if !force && cachedSettings.Some? && now - cacheTimestamp < CACHE_TTL {
        answer := cachedSettings;
      }
    }

    /** The half after the query, with the time read before it. */
    method Fill(found: Option<Settings>, askedAt: int) returns (answer: Option<Settings>)
      modifies this
      ensures State() == Repository(found, askedAt) && answer == found
    {
      cachedSettings := found;
      cacheTimestamp := askedAt;
      answer := cachedSettings;
    }

    /** The end of `updateSettings`, once its write is acknowledged. */
    method Forget()
      modifies this
      ensures State() == old(State()).(cached := None)
    {
      cachedSettings := None;
    }

    method InvalidateCache()
      modifies this
      ensures State() == Repository(None, 0)
    {
      cachedSettings := None;
      cacheTimestamp := 0;
    }
  }

  // ---------- all requests together ----------

  datatype Query = Asked(at: int) | Answered(at: int, found: Option<Settings>)

  datatype System = System(repo: Repository, db: Option<Settings>, now: int, queries: map<nat, Query>)

  /** `Write` is any change of the document, by this process or another. */
  datatype Step =
    | Look(id: nat, force: bool)
    | Answer(id: nat)
    | Fill(id: nat)
    | Write(document: Option<Settings>)
    | Forget
    | Invalidate
    | Advance(passed: nat)

  function Next(s: System, step: Step): System {
    match step
    case Look(id, force) =>
      if id in s.queries || (!force && Fresh(s.repo, s.now)) then s else s.(queries := s.queries[id := Asked(s.now)])
    case Answer(id) =>
      if id in s.queries && s.queries[id].Asked? then
        s.(queries := s.queries[id := Answered(s.queries[id].at, s.db)])
      else s
    case Fill(id) =>
      if id in s.queries && s.queries[id].Answered? then
        s.(repo := Repository(s.queries[id].found, s.queries[id].at), queries := s.queries - {id})
      else s
    case Write(document) => s.(db := document)
    case Forget => s.(repo := s.repo.(cached := None))
    case Invalidate => s.(repo := Repository(None, 0))
    case Advance(passed) => s.(now := s.now + passed)
  }

  /** A read asks the database exactly when it is forced or nothing younger than 30 seconds is cached. */
  lemma LookAsksExactly(s: System, id: nat, force: bool)
    requires id !in s.queries
    ensures var t := Next(s, Look(id, force));
            if !force && s.repo.cached.Some? && s.now - s.repo.stamp < 30_000 then t == s
            else t == s.(queries := s.queries[id := Asked(s.now)])
  {
  }

  function Run(s: System, steps: seq<Step>): System {
    if steps == [] then s else Next(Run(s, steps[..|steps| - 1]), steps[|steps| - 1])
  }

  /** At some moment of the run, not before `since`, the database held the document. */
  ghost predicate Held(s: System, steps: seq<Step>, document: Option<Settings>, since: int) {
    exists i :: 0 <= i <= |steps| && HeldAt(Run(s, steps[..i]), document, since)
  }

  predicate HeldAt(s: System, document: Option<Settings>, since: int) {
    s.db == document && since <= s.now
  }

  lemma HeldStays(s: System, steps: seq<Step>, step: Step, document: Option<Settings>, since: int)
    requires Held(s, steps, document, since)
    ensures Held(s, steps + [step], document, since)
  {
    var i :| 0 <= i <= |steps| && HeldAt(Run(s, steps[..i]), document, since);
    assert (steps + [step])[..i] == steps[..i];
  }

  lemma HeldNow(s: System, steps: seq<Step>, since: int)
    requires since <= Run(s, steps).now
    ensures Held(s, steps, Run(s, steps).db, since)
  {
    assert steps[..|steps|] == steps;
    assert HeldAt(Run(s, steps[..|steps|]), Run(s, steps).db, since);
  }

  /** What is cached, and what waits to be cached, was in the database after its query began. */
  ghost predicate Grounded(s: System, steps: seq<Step>) {
    var t := Run(s, steps);
    && (t.repo.cached.Some? ==> Held(s, steps, t.repo.cached, t.repo.stamp))
    && (forall id :: id in t.queries ==> QueryGrounded(s, steps, t, id))
  }

  ghost predicate QueryGrounded(s: System, steps: seq<Step>, t: System, id: nat)
    requires id in t.queries
  {
    && t.queries[id].at <= t.now
    && (t.queries[id].Answered? ==> Held(s, steps, t.queries[id].found, t.queries[id].at))
  }

  lemma StepKeepsGrounded(s: System, steps: seq<Step>, step: Step)
    requires Grounded(s, steps)
    ensures Grounded(s, steps + [step])
  {
    hide Held, HeldAt;
    var longer := steps + [step];
    assert longer[..|steps|] == steps;
    var t, u := Run(s, steps), Run(s, longer);
    assert u == Next(t, step);
    if u.repo.cached.Some? {
      HeldStays(s, steps, step, u.repo.cached, u.repo.stamp);
    }
    forall id | id in u.queries
      ensures QueryGrounded(s, longer, u, id)
    {
      if id in t.queries && t.queries[id] == u.queries[id] {
        assert QueryGrounded(s, steps, t, id);
        if t.queries[id].Answered? {
          HeldStays(s, steps, step, t.queries[id].found, t.queries[id].at);
        }
      } else if step.Answer? && step.id == id {
        assert QueryGrounded(s, steps, t, id);
        HeldNow(s, longer, u.queries[id].at);
      }
    }
  }

  lemma {:induction false} RunsStayGrounded(s: System, steps: seq<Step>)
    requires s.repo.cached.None? && s.queries == map[]
    ensures Grounded(s, steps)
  {
    if steps != [] {
      RunsStayGrounded(s, steps[..|steps| - 1]);
      StepKeepsGrounded(s, steps[..|steps| - 1], steps[|steps| - 1]);
      assert steps == steps[..|steps| - 1] + [steps[|steps| - 1]];
    }
  }

  /**
   Bounded staleness over all interleavings: a hit is a document the database held less than 30 seconds ago, and a
   miss is one it held after the read began.
   */
  lemma HitsAreRecent(s: System, steps: seq<Step>)
    requires s.repo.cached.None? && s.queries == map[]
    ensures var t := Run(s, steps);
            && (Fresh(t.repo, t.now) ==> Held(s, steps, t.repo.cached, t.now - 30_000 + 1))
            && forall id :: id in t.queries && t.queries[id].Answered? ==> Held(s, steps, t.queries[id].found, t.queries[id].at)
  {
    RunsStayGrounded(s, steps);
    var t := Run(s, steps);
    if Fresh(t.repo, t.now) {
      HeldSooner(s, steps, t.repo.cached, t.repo.stamp, t.now - 30_000 + 1);
    }
    forall id | id in t.queries && t.queries[id].Answered?
      ensures Held(s, steps, t.queries[id].found, t.queries[id].at)
    {
      assert QueryGrounded(s, steps, t, id);
    }
  }

  lemma HeldSooner(s: System, steps: seq<Step>, document: Option<Settings>, since: int, sooner: int)
    requires Held(s, steps, document, since) && sooner <= since
    ensures Held(s, steps, document, sooner)
  {
    var i :| 0 <= i <= |steps| && HeldAt(Run(s, steps[..i]), document, since);
    assert HeldAt(Run(s, steps[..i]), document, sooner);
  }

  // ---------- when an update takes effect ----------

  ghost predicate HeldSince(s: System, steps: seq<Step>, document: Option<Settings>) {
    exists i :: 0 <= i <= |steps| && Run(s, steps[..i]).db == document
  }

  ghost predicate HitIsSince(s: System, steps: seq<Step>) {
    var t := Run(s, steps);
    Fresh(t.repo, t.now) ==> HeldSince(s, steps, t.repo.cached)
  }

  /** However the run goes on, no hit brings back a document the database no longer held in this state. */
  ghost predicate OnlyCurrentHits(s: System) {
    forall steps :: HitIsSince(s, steps)
  }

  /** No query that began less than 30 seconds ago carries an answer the database has dropped since. */
  predicate NoStaleAnswer(s: System) {
    forall id :: id in s.queries ==> !Stale(s, s.queries[id])
  }

  predicate Stale(s: System, query: Query) {
    query.Answered? && query.found.Some? && query.found != s.db && s.now - query.at < 30_000
  }

  /** Dropping the cached document, as `updateSettings` and `invalidateCache` do, settles the matter exactly when no stale answer is under way. */
  lemma ForgettingTakesEffectExactly(s: System)
    ensures OnlyCurrentHits(Next(s, Forget)) <==> NoStaleAnswer(s)
    ensures OnlyCurrentHits(Next(s, Invalidate)) <==> NoStaleAnswer(s)
  {
    EmptyTakesEffectExactly(Next(s, Forget));
    EmptyTakesEffectExactly(Next(s, Invalidate));
  }

  lemma EmptyTakesEffectExactly(f: System)
    requires f.repo.cached.None?
    ensures OnlyCurrentHits(f) <==> NoStaleAnswer(f)
  {
    if NoStaleAnswer(f) {
      forall steps
        ensures HitIsSince(f, steps)
      {
        RunsStayCurrent(f, steps);
      }
    } else {
      var id :| id in f.queries && Stale(f, f.queries[id]);
      StaleAnswerIsHit(f, id);
    }
  }

  lemma StaleAnswerIsHit(s: System, id: nat)
    requires id in s.queries && Stale(s, s.queries[id])
    ensures !HitIsSince(s, [Fill(id)])
  {
    var steps := [Fill(id)];
    assert steps[..0] == [] && steps[..1] == steps;
    assert Run(s, []) == s && Run(s, steps) == Next(s, Fill(id));
    forall i | 0 <= i <= |steps|
      ensures Run(s, steps[..i]).db == s.db
    {
      assert i == 0 || i == 1;
    }
  }

  ghost predicate Current(s: System, steps: seq<Step>) {
    var t := Run(s, steps);
    && HitIsSince(s, steps)
    && (forall id :: id in t.queries ==> QueryCurrent(s, steps, t, t.queries[id]))
  }

  ghost predicate QueryCurrent(s: System, steps: seq<Step>, t: System, query: Query) {
    query.Answered? && query.found.Some? && t.now - query.at < CACHE_TTL ==> HeldSince(s, steps, query.found)
  }

  lemma HeldSinceStays(s: System, steps: seq<Step>, step: Step, document: Option<Settings>)
    requires HeldSince(s, steps, document)
    ensures HeldSince(s, steps + [step], document)
  {
    var i :| 0 <= i <= |steps| && Run(s, steps[..i]).db == document;
    assert (steps + [step])[..i] == steps[..i];
  }

  lemma StepKeepsCurrent(s: System, steps: seq<Step>, step: Step)
    requires Current(s, steps)
    ensures Current(s, steps + [step])
  {
    hide HeldSince;
    var longer := steps + [step];
    assert longer[..|steps|] == steps;
    var t, u := Run(s, steps), Run(s, longer);
    assert u == Next(t, step);
    if Fresh(u.repo, u.now) {
      if step.Fill? && step.id in t.queries {
        assert QueryCurrent(s, steps, t, t.queries[step.id]);
      }
      HeldSinceStays(s, steps, step, u.repo.cached);
    }
    forall id | id in u.queries
      ensures QueryCurrent(s, longer, u, u.queries[id])
    {
      var q := u.queries[id];
      if q.Answered? && q.found.Some? && u.now - q.at < CACHE_TTL {
        if id in t.queries && t.queries[id] == q {
          assert QueryCurrent(s, steps, t, q);
          HeldSinceStays(s, steps, step, q.found);
        } else {
          DatabaseHoldsNow(s, longer);
        }
      }
    }
  }

  lemma DatabaseHoldsNow(s: System, steps: seq<Step>)
    ensures HeldSince(s, steps, Run(s, steps).db)
  {
    assert steps[..|steps|] == steps;
    assert Run(s, steps[..|steps|]).db == Run(s, steps).db;
  }

  lemma {:induction false} RunsStayCurrent(s: System, steps: seq<Step>)
    requires s.repo.cached.None? && NoStaleAnswer(s)
    ensures Current(s, steps)
  {
    if steps == [] {
      DatabaseHoldsNow(s, []);
    } else {
      RunsStayCurrent(s, steps[..|steps| - 1]);
      StepKeepsCurrent(s, steps[..|steps| - 1], steps[|steps| - 1]);
      assert steps == steps[..|steps| - 1] + [steps[|steps| - 1]];
    }
  }
}
