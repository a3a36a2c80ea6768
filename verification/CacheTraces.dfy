/**
 Whole traces of the in-memory cache run beside the plain map with deadlines: calls
 one after another, a clock, and timers that run when due or any time later.
 */
module CacheTraces {
  import opened Options
  import opened Decimals
  import opened MemoryCache

  datatype Call =
    | GetCall(key: string)
    | SetCall(key: string, value: string, ttl: nat)
    | DelCall(key: string)
    | IncrCall(key: string)
    | ExpireCall(key: string, ttl: nat)
    | FlushCall
    | TimerRuns(key: string)
    | ClockReads(time: int)

  datatype Pair = Pair(cache: Cache, plain: Plain, now: int)

  function Do(s: Pair, call: Call): Pair {
    match call
    case GetCall(key) => s.(cache := Get(s.cache, key, s.now).0)
    case SetCall(key, value, ttl) => Pair(Set(s.cache, key, value, ttl, s.now), PlainSet(s.plain, key, value, ttl, s.now), s.now)
    case DelCall(key) => Pair(Del(s.cache, key), s.plain - {key}, s.now)
    case IncrCall(key) => Pair(Incr(s.cache, key, s.now).0, PlainIncr(s.plain, key, s.now).0, s.now)
    case ExpireCall(key, ttl) => Pair(Expire(s.cache, key, ttl, s.now), PlainExpire(s.plain, key, ttl, s.now), s.now)
    case FlushCall => Pair(EMPTY, map[], s.now)
    case TimerRuns(key) => s.(cache := Fire(s.cache, key, s.now))
    case ClockReads(time) => s.(now := time)
  }

  function Run(s: Pair, calls: seq<Call>): Pair
    decreases |calls|
  {
    if calls == [] then s else Run(Do(s, calls[0]), calls[1..])
  }

  predicate AtDeadline(m: Plain, key: string, now: int) {
    key in m && m[key].expiry == Some(now)
  }

  /** The key has no deadline, or one that is still ahead. */
  predicate NotOver(m: Plain, key: string, now: int) {
    key in m && m[key].expiry.Some? ==> now < m[key].expiry.value
  }

  /**
   What a caller can check on the plain map: no `set` without TTL over a deadline, past ones included, because its
   timer may still be waiting; no `incr` at or past a deadline, and no `expire` but one of zero seconds at it; TTLs that
   fit a timer. The clock does not go back. Timers are not restricted.
   */
  predicate Careful(m: Plain, now: int, call: Call) {
    match call
    case SetCall(key, _, ttl) => if ttl == 0 then key in m ==> m[key].expiry.None? else ttl <= 2_147_483
    case IncrCall(key) => NotOver(m, key, now)
    case ExpireCall(key, ttl) => ExpireAllowed(m, key, ttl, now)
    case ClockReads(time) => now <= time
    case _ => true
  }

  predicate CarefulTrace(s: Pair, calls: seq<Call>)
    decreases |calls|
  {
    calls == [] || (Careful(s.plain, s.now, calls[0]) && CarefulTrace(Do(s, calls[0]), calls[1..]))
  }

  /** The longest TTL in whole seconds that fits a timer. */
  const LONGEST := 2_147_483_000

  /** A timer that has not run belongs to a key with a deadline, be it ahead or past, and is not due before it. */
  ghost predicate TimersBelong(c: Cache, m: Plain) {
    forall k :: k in c.timers ==> k in m && m[k].expiry.Some? && m[k].expiry.value <= c.timers[k]
  }

  ghost predicate InReach(m: Plain, now: int) {
    forall k :: k in m && m[k].expiry.Some? ==> m[k].expiry.value <= now + LONGEST
  }

  ghost predicate Sound(s: Pair) {
    Refines(s.cache, s.plain, s.now) && TimersBelong(s.cache, s.plain) && InReach(s.plain, s.now)
  }

  // ---------- one call ----------

  lemma SetKeepsSound(s: Pair, key: string, value: string, ttl: nat)
    requires Sound(s) && Careful(s.plain, s.now, SetCall(key, value, ttl))
    ensures Sound(Do(s, SetCall(key, value, ttl)))
  {
    hide Refines;
    SetRefinesExactly(s.cache, s.plain, key, value, ttl, s.now);
  }

  lemma ExpireKeepsSound(s: Pair, key: string, ttl: nat)
    requires Sound(s) && Careful(s.plain, s.now, ExpireCall(key, ttl))
    ensures Sound(Do(s, ExpireCall(key, ttl)))
  {
    hide Refines;
    ExpireRefines(s.cache, s.plain, key, ttl, s.now);
    if key in s.cache.store {
      StoredIsPlain(s, key);
    } else if key in s.plain {
      assert AtDeadline(s.plain, key, s.now) && ttl == 0 by { AbsentIsAtDeadline(s, key, ttl); }
    }
  }

  lemma AbsentIsAtDeadline(s: Pair, key: string, ttl: nat)
    requires Sound(s) && ExpireAllowed(s.plain, key, ttl, s.now) && key in s.plain && key !in s.cache.store
    ensures AtDeadline(s.plain, key, s.now) && ttl == 0
  {
    assert !Live(s.plain, key, s.now);
  }

  lemma StoredIsPlain(s: Pair, key: string)
    requires Sound(s) && key in s.cache.store
    ensures key in s.plain && s.cache.store[key] == s.plain[key] && TimerMatches(s.cache, key, s.now)
  {
  }

  lemma IncrIsAllowed(s: Pair, key: string)
    requires Sound(s) && NotOver(s.plain, key, s.now)
    ensures IncrAllowed(s.cache, key, s.now)
  {
    assert key in s.plain ==> Live(s.plain, key, s.now);
    assert key in s.cache.store ==> TimerMatches(s.cache, key, s.now);
  }

  lemma IncrKeepsTimers(s: Pair, key: string)
    requires Sound(s) && NotOver(s.plain, key, s.now)
    ensures TimersBelong(Incr(s.cache, key, s.now).0, PlainIncr(s.plain, key, s.now).0)
    ensures InReach(PlainIncr(s.plain, key, s.now).0, s.now)
  {
    hide Decimal, Count, Refines;
    IncrIsAllowed(s, key);
    assert key in s.plain ==> key in s.cache.store && s.cache.store[key] == s.plain[key] by {
      LiveIsStored(s, key);
    }
    assert key in s.cache.store ==> key in s.plain by {
      LiveIsStored(s, key);
    }
  }

  lemma LiveIsStored(s: Pair, key: string)
    requires Sound(s) && NotOver(s.plain, key, s.now)
    ensures key in s.plain <==> key in s.cache.store
    ensures key in s.plain ==> s.cache.store[key] == s.plain[key] && TimerMatches(s.cache, key, s.now)
  {
    assert key in s.plain ==> Live(s.plain, key, s.now);
  }

  lemma IncrAgrees(s: Pair, key: string)
    requires Sound(s) && NotOver(s.plain, key, s.now)
    ensures Refines(Incr(s.cache, key, s.now).0, PlainIncr(s.plain, key, s.now).0, s.now)
    ensures Incr(s.cache, key, s.now).1 == PlainIncr(s.plain, key, s.now).1
  {
    hide Refines, Incr, PlainIncr, IncrAllowed;
    IncrIsAllowed(s, key);
    IncrRefines(s.cache, s.plain, key, s.now);
  }

  lemma EmptyIsSound(now: int)
    ensures Sound(Pair(EMPTY, map[], now))
  {
  }

  lemma CallKeepsSound(s: Pair, call: Call)
    requires Sound(s) && Careful(s.plain, s.now, call)
    ensures Sound(Do(s, call))
  {
    hide Refines, Incr, PlainIncr, PlainSet, PlainExpire, Set, Expire;
    match call {
      case GetCall(key) => GetRefines(s.cache, s.plain, key, s.now);
      case SetCall(key, value, ttl) => SetKeepsSound(s, key, value, ttl);
      case DelCall(key) => DelRefines(s.cache, s.plain, key, s.now);
      case IncrCall(key) =>
        IncrAgrees(s, key);
        IncrKeepsTimers(s, key);
      case ExpireCall(key, ttl) => ExpireKeepsSound(s, key, ttl);
      case FlushCall => EmptyIsSound(s.now);
      case TimerRuns(key) => FireRefines(s.cache, s.plain, key, s.now);
      case ClockReads(time) => TimeRefines(s.cache, s.plain, s.now, time);
    }
  }

  // ---------- whole traces ----------

  lemma {:induction false} CarefulTracesStaySound(s: Pair, calls: seq<Call>)
    requires Sound(s) && CarefulTrace(s, calls)
    ensures Sound(Run(s, calls))
    decreases |calls|
  {
    hide Sound, Careful, Do;
    if calls != [] {
      CallKeepsSound(s, calls[0]);
      CarefulTracesStaySound(Do(s, calls[0]), calls[1..]);
    }
  }

  /** The cache reads and counts a key as the plain map does, or in the instant of its deadline has dropped it. */
  predicate AnswersAsPlain(s: Pair, key: string) {
    var answer := Get(s.cache, key, s.now).1;
    if AtDeadline(s.plain, key, s.now) then answer == None || answer == Some(s.plain[key].value)
    else answer == PlainGet(s.plain, key, s.now) && Incr(s.cache, key, s.now).1 == PlainIncr(s.plain, key, s.now).1
  }

  lemma SoundAnswers(s: Pair, key: string)
    requires Sound(s)
    ensures AnswersAsPlain(s, key)
  {
    GetRefines(s.cache, s.plain, key, s.now);
    if !AtDeadline(s.plain, key, s.now) && key in s.plain && !Expired(s.plain[key], s.now) {
      assert Live(s.plain, key, s.now);
    }
  }

  /**
   After every careful trace from an empty cache, however late its timers run, no value is lost before its deadline
   and none is returned after it.
   */
  lemma CarefulTracesAnswerAsPlain(calls: seq<Call>, start: int, key: string)
    requires CarefulTrace(Pair(EMPTY, map[], start), calls)
    ensures AnswersAsPlain(Run(Pair(EMPTY, map[], start), calls), key)
  {
    hide CarefulTrace, Run, AnswersAsPlain, Sound;
    EmptyIsSound(start);
    CarefulTracesStaySound(Pair(EMPTY, map[], start), calls);
    SoundAnswers(Run(Pair(EMPTY, map[], start), calls), key);
  }

  // ---------- the condition is exact ----------

  /** Time passes and a timer runs if it is due. */
  function Later(s: Pair, time: int, key: string): Pair {
    Do(Do(s, ClockReads(time)), TimerRuns(key))
  }

  /** Whatever the timers have done so far, the cache answers as the plain map ever after, whether or not a timer runs. */
  ghost predicate AlwaysAnswers(m: Plain, now: int, call: Call) {
    forall c, time, timer, key :: Sound(Pair(c, m, now)) ==> AnswersLater(c, m, now, call, time, timer, key)
  }

  predicate AnswersLater(c: Cache, m: Plain, now: int, call: Call, time: int, timer: string, key: string) {
    var s := Do(Pair(c, m, now), call);
    s.now <= time ==> AnswersAsPlain(Later(s, time, timer), key)
  }

  function Deadline(m: Plain, key: string): int {
    if key in m && m[key].expiry.Some? then m[key].expiry.value else 0
  }

  /** The cache in which no timer has run yet. */
  function Unswept(m: Plain): Cache {
    Cache(m, map k | k in m && m[k].expiry.Some? :: Deadline(m, k))
  }

  lemma UnsweptIsSound(m: Plain, now: int)
    requires InReach(m, now)
    ensures Sound(Pair(Unswept(m), m, now))
  {
  }

  /** The cache in which the timer of one key, due at this very instant, has run. */
  lemma SweptIsSound(m: Plain, now: int, key: string)
    requires InReach(m, now) && AtDeadline(m, key, now)
    ensures Sound(Pair(Del(Unswept(m), key), m, now))
  {
    var c := Del(Unswept(m), key);
    assert forall k :: k in c.store ==> TimerMatches(c, k, now);
  }

  /**
   A call leaves every later answer right, whatever the timers have done so far and will do, exactly when it is
   careful.
   */
  lemma CarefulExactly(m: Plain, now: int, call: Call)
    requires InReach(m, now) && (call.ClockReads? ==> now <= call.time)
    ensures AlwaysAnswers(m, now, call) <==> Careful(m, now, call)
  {
    hide Sound, AnswersLater;
    if Careful(m, now, call) {
      forall c, time, timer, key | Sound(Pair(c, m, now))
        ensures AnswersLater(c, m, now, call, time, timer, key)
      {
        CarefulCallAnswersLater(c, m, now, call, time, timer, key);
      }
    } else {
      var c, time := CarelessCallMisanswers(m, now, call);
    }
  }

  lemma CarefulCallAnswersLater(c: Cache, m: Plain, now: int, call: Call, time: int, timer: string, key: string)
    requires Sound(Pair(c, m, now)) && Careful(m, now, call)
    ensures AnswersLater(c, m, now, call, time, timer, key)
  {
    hide Sound, AnswersAsPlain, Do;
    var s := Do(Pair(c, m, now), call);
    if s.now <= time {
      CallKeepsSound(Pair(c, m, now), call);
      CallKeepsSound(s, ClockReads(time));
      CallKeepsSound(Do(s, ClockReads(time)), TimerRuns(timer));
      SoundAnswers(Later(s, time, timer), key);
    }
  }

  lemma CarelessCallMisanswers(m: Plain, now: int, call: Call) returns (c: Cache, time: int)
    requires InReach(m, now) && !Careful(m, now, call) && !call.ClockReads?
    ensures Sound(Pair(c, m, now)) && !call.FlushCall? && !AnswersLater(c, m, now, call, time, call.key, call.key)
  {
    hide Sound, Decimal, Count, PlainIncr;
    c := Unswept(m);
    UnsweptIsSound(m, now);
    match call {
      case ExpireCall(key, ttl) =>
        if Deadline(m, key) < now && m[key].expiry.Some? {
          time := now;
          LateExpireRevives(m, now, key, ttl);
        } else if AtDeadline(m, key, now) {
          time, c := now, Del(c, key);
          SweptIsSound(m, now, key);
        } else {
          time := now + 1;
          LongExpireIsLost(m, now, key, ttl);
        }
      case _ => time := CarelessWriteIsLost(m, now, call);
    }
  }

  /**
   A careless `set` or `incr` loses its value: it leaves the timer of the old deadline waiting, or gets one that runs
   at once; when it runs, a live value is gone.
   */
  lemma CarelessWriteIsLost(m: Plain, now: int, call: Call) returns (time: int)
    requires InReach(m, now) && !Careful(m, now, call) && (call.SetCall? || call.IncrCall?)
    ensures now <= time
    ensures var s := Later(Do(Pair(Unswept(m), m, now), call), time, call.key);
            Live(s.plain, call.key, s.now) && Get(s.cache, call.key, s.now).1 == None
  {
    hide Decimal, Count;
    time := if call.SetCall? && call.ttl != 0 then now + 1
            else if Deadline(m, call.key) < now then now else Deadline(m, call.key);
  }

  /** An `expire` after the deadline brings the value back while its timer has not run. */
  lemma LateExpireRevives(m: Plain, now: int, key: string, ttl: nat)
    requires key in m && m[key].expiry.Some? && m[key].expiry.value < now
    ensures var s := Later(Do(Pair(Unswept(m), m, now), ExpireCall(key, ttl)), now, key);
            PlainGet(s.plain, key, s.now) == None && Get(s.cache, key, s.now).1 == Some(m[key].value)
  {
  }

  /** An `expire` whose TTL does not fit a timer loses a live value one millisecond later. */
  lemma LongExpireIsLost(m: Plain, now: int, key: string, ttl: nat)
    requires Live(m, key, now) && ttl * 1000 > MAX_DELAY
    ensures var s := Later(Do(Pair(Unswept(m), m, now), ExpireCall(key, ttl)), now + 1, key);
            Live(s.plain, key, s.now) && Get(s.cache, key, s.now).1 == None
  {
  }

  /** A counter written with a TTL, counted after its deadline but before its timer ran: the new count is lost. */
  lemma LateTimerLosesTheCount(key: string, value: string, ttl: nat, start: int)
    requires 1 <= ttl && ttl * 1000 <= MAX_DELAY
    ensures var late := start + ttl * 1000 + 1;
            var calls := [SetCall(key, value, ttl), ClockReads(late), IncrCall(key), TimerRuns(key)];
            var s := Run(Pair(EMPTY, map[], start), calls);
            PlainGet(s.plain, key, s.now) == Some("1") && Get(s.cache, key, s.now).1 == None
  {
    hide Count;
    var s0 := Pair(EMPTY, map[], start);
    var calls := [SetCall(key, value, ttl), ClockReads(start + ttl * 1000 + 1), IncrCall(key), TimerRuns(key)];
    var s2 := Do(Do(s0, calls[0]), calls[1]);
    assert Count(None) == 0 && Decimal(1) == "1" by { CountsFromNothing(); }
    assert PlainGet(s2.plain, key, s2.now) == None;
    assert Run(s0, calls) == Do(Do(s2, calls[2]), calls[3]) by { FourCalls(s0, calls); }
  }

  lemma CountsFromNothing()
    ensures Count(None) == 0 && Decimal(1) == "1"
  {
  }

  lemma FourCalls(s: Pair, calls: seq<Call>)
    requires |calls| == 4
    ensures Run(s, calls) == Do(Do(Do(Do(s, calls[0]), calls[1]), calls[2]), calls[3])
  {
    hide Do;
    var a, b, c := calls[1..], calls[2..], calls[3..];
    assert a[1..] == b && b[1..] == c && c[1..] == [];
    assert Run(s, calls) == Run(Do(s, calls[0]), a);
    var s1 := Do(s, calls[0]);
    assert Run(s1, a) == Run(Do(s1, a[0]), b);
    var s2 := Do(s1, a[0]);
    assert Run(s2, b) == Run(Do(s2, b[0]), c);
    var s3 := Do(s2, b[0]);
    assert Run(s3, c) == Run(Do(s3, c[0]), []);
  }

  // ---------- counting up ----------

  lemma RoundedUp(now: int, deadline: int)
    requires now < deadline
    ensures var ttl := (deadline - now + 999) / 1000;
            1 <= ttl && deadline <= now + ttl * 1000 < deadline + 1000 && (ttl * 1000) % 1000 == 0
  {
  }

  lemma CountOfDecimal(count: nat)
    ensures Count(Some(Decimal(count))) == count
  {
    DecimalDenotes(count);
  }

  /**
   One `incr` before the deadline: the cache answers and stores one more, with a deadline and a timer less than a
   second later, a whole number of seconds from now.
   */
  lemma IncrMovesDeadline(c: Cache, key: string, now: int, count: nat, deadline: int)
    requires key in c.store && c.store[key] == Item(Decimal(count), Some(deadline))
    requires now < deadline <= now + LONGEST
    ensures var (after, answer) := Incr(c, key, now);
            && answer == count + 1 && key in after.store
            && after.store[key].value == Decimal(count + 1) && after.store[key].expiry.Some?
            && var moved := after.store[key].expiry.value;
            && deadline <= moved < deadline + 1000 && (moved - now) % 1000 == 0
            && after.timers == c.timers[key := moved]
            && after.store - {key} == c.store - {key}
  {
    hide Decimal, Count;
    CountOfDecimal(count);
    RoundedUp(now, deadline);
  }

  /** The call counts the key up, reads it, or is about something else. */
  predicate CountsOrLeaves(call: Call, key: string) {
    match call
    case SetCall(other, _, _) => other != key
    case DelCall(other) => other != key
    case ExpireCall(other, _) => other != key
    case FlushCall => false
    case _ => true
  }

  predicate OnlyCounts(calls: seq<Call>, key: string) {
    forall i :: 0 <= i < |calls| ==> CountsOrLeaves(calls[i], key)
  }

  function Increments(calls: seq<Call>, key: string): nat {
    if calls == [] then 0 else (if calls[0] == IncrCall(key) then 1 else 0) + Increments(calls[1..], key)
  }

  /** The key holds the count with a deadline in the given range. */
  predicate Holds(m: Plain, key: string, count: nat, earliest: int, latest: int) {
    key in m && m[key].value == Decimal(count) && m[key].expiry.Some? && earliest <= m[key].expiry.value <= latest
  }

  /** The cache stores the count, its timer is due at the deadline, and the next `incr` answers one more. */
  predicate Counts(c: Cache, key: string, now: int, count: nat, earliest: int, latest: int) {
    && Holds(c.store, key, count, earliest, latest)
    && key in c.timers && c.store[key].expiry == Some(c.timers[key])
    && Get(c, key, now).1 == Some(Decimal(count)) && Incr(c, key, now).1 == count + 1
  }

  lemma SoundCounts(s: Pair, key: string, count: nat, earliest: int, latest: int)
    requires Sound(s) && Holds(s.plain, key, count, earliest, latest) && s.now < earliest
    ensures Counts(s.cache, key, s.now, count, earliest, latest)
  {
    hide Decimal, Count, Refines, TimersBelong;
    LiveIsStored(s, key);
    CountOfDecimal(count);
  }

  lemma PlainIncrMovesDeadline(m: Plain, key: string, now: int, count: nat, deadline: int)
    requires key in m && m[key] == Item(Decimal(count), Some(deadline)) && now < deadline
    ensures var after := PlainIncr(m, key, now).0;
            && after.Keys == m.Keys && after[key].value == Decimal(count + 1) && after[key].expiry.Some?
            && deadline <= after[key].expiry.value < deadline + 1000
  {
    hide Decimal, Count;
    CountOfDecimal(count);
    RoundedUp(now, deadline);
  }

  lemma CallCounts(s: Pair, call: Call, key: string, count: nat, deadline: int, latest: int)
    requires Careful(s.plain, s.now, call) && CountsOrLeaves(call, key)
    requires Holds(s.plain, key, count, deadline, latest) && s.now < deadline
    ensures var added := if call == IncrCall(key) then 1 else 0;
            Holds(Do(s, call).plain, key, count + added, deadline, latest + added * 999)
  {
    hide Decimal, Get, Incr, Set, Expire, Fire, Del, PlainIncr;
    match call {
      case IncrCall(other) =>
        if other == key {
          PlainIncrMovesDeadline(s.plain, key, s.now, count, s.plain[key].expiry.value);
        } else {
          IncrLeavesOthers(s.plain, other, s.now, key);
        }
      case _ =>
    }
  }

  lemma IncrLeavesOthers(m: Plain, key: string, now: int, other: string)
    requires other in m && other != key
    ensures other in PlainIncr(m, key, now).0 && PlainIncr(m, key, now).0[other] == m[other]
  {
  }

  lemma {:induction false} ClockOnlyAdvances(s: Pair, calls: seq<Call>)
    requires CarefulTrace(s, calls)
    ensures s.now <= Run(s, calls).now
    decreases |calls|
  {
    if calls != [] {
      ClockOnlyAdvances(Do(s, calls[0]), calls[1..]);
    }
  }

  lemma {:induction false} PlainIncrementsAddUp(s: Pair, calls: seq<Call>, key: string, count: nat, deadline: int, latest: int)
    requires CarefulTrace(s, calls) && OnlyCounts(calls, key)
    requires Holds(s.plain, key, count, deadline, latest)
    requires Run(s, calls).now < deadline
    ensures var n := Increments(calls, key);
            Holds(Run(s, calls).plain, key, count + n, deadline, latest + n * 999)
    decreases |calls|
  {
    hide Decimal, Do, Careful, Holds;
    if calls != [] {
      ClockOnlyAdvances(s, calls);
      CallCounts(s, calls[0], key, count, deadline, latest);
      var added := if calls[0] == IncrCall(key) then 1 else 0;
      PlainIncrementsAddUp(Do(s, calls[0]), calls[1..], key, count + added, deadline, latest + added * 999);
    }
  }

  /**
   While the clock stays before the deadline, n calls of `incr` add n to what the cache stores and answers, whatever is
   done to other keys and whichever timers run meanwhile; the deadline moves less than a second a call.
   */
  lemma IncrementsAddUp(s: Pair, calls: seq<Call>, key: string, count: nat, deadline: int)
    requires Sound(s) && CarefulTrace(s, calls) && OnlyCounts(calls, key)
    requires key in s.cache.store && s.cache.store[key] == Item(Decimal(count), Some(deadline))
    requires Run(s, calls).now < deadline
    ensures var t, n := Run(s, calls), Increments(calls, key);
            Counts(t.cache, key, t.now, count + n, deadline, deadline + n * 999)
  {
    hide Run, CarefulTrace, OnlyCounts, Counts, Decimal, TimersBelong, InReach;
    assert s.plain[key] == s.cache.store[key];
    CarefulTracesStaySound(s, calls);
    PlainIncrementsAddUp(s, calls, key, count, deadline, deadline);
    SoundCounts(Run(s, calls), key, count + Increments(calls, key), deadline, deadline + Increments(calls, key) * 999);
  }

  // ---------- a window that never closes ----------

  /** At every moment of the trace the last `incr` of the key was less than a second ago. */
  predicate Frequent(s: Pair, calls: seq<Call>, key: string, last: int)
    decreases |calls|
  {
    && 0 <= s.now - last < 1000
    && (calls == [] || Frequent(Do(s, calls[0]), calls[1..], key, if calls[0] == IncrCall(key) then s.now else last))
  }

  function LastCount(s: Pair, calls: seq<Call>, key: string, last: int): int
    decreases |calls|
  {
    if calls == [] then last
    else LastCount(Do(s, calls[0]), calls[1..], key, if calls[0] == IncrCall(key) then s.now else last)
  }

  lemma QuickCallKeepsTheWindow(s: Pair, call: Call, key: string, last: int, ttl: nat)
    requires CountsOrLeaves(call, key) && 0 <= s.now - last < 1000 && 1 <= ttl
    requires key in s.plain && s.plain[key].expiry == Some(last + ttl * 1000)
    ensures var after := Do(s, call).plain;
            var counted := if call == IncrCall(key) then s.now else last;
            key in after && after[key].expiry == Some(counted + ttl * 1000)
  {
    hide Decimal, Count, Get, Incr, Set, Expire, Fire, Del, PlainGet;
    assert (last + ttl * 1000 - s.now + 999) / 1000 == ttl;
  }

  lemma {:induction false} PlainWindowStaysOpen(s: Pair, calls: seq<Call>, key: string, last: int, ttl: nat)
    requires OnlyCounts(calls, key) && Frequent(s, calls, key, last) && 1 <= ttl
    requires key in s.plain && s.plain[key].expiry == Some(last + ttl * 1000)
    ensures var t, counted := Run(s, calls), LastCount(s, calls, key, last);
            && key in t.plain && t.plain[key].expiry == Some(counted + ttl * 1000)
            && 0 <= t.now - counted < 1000
    decreases |calls|
  {
    hide Do;
    if calls != [] {
      QuickCallKeepsTheWindow(s, calls[0], key, last, ttl);
      var counted := if calls[0] == IncrCall(key) then s.now else last;
      PlainWindowStaysOpen(Do(s, calls[0]), calls[1..], key, counted, ttl);
    }
  }

  /** While a counter is counted at least once a second, its deadline and its timer move on with the clock, without end. */
  lemma FrequentCountsKeepTheWindowOpen(s: Pair, calls: seq<Call>, key: string, last: int, ttl: nat)
    requires Sound(s) && CarefulTrace(s, calls)
    requires OnlyCounts(calls, key) && Frequent(s, calls, key, last) && 1 <= ttl
    requires key in s.cache.store && s.cache.store[key].expiry == Some(last + ttl * 1000)
    ensures var t, counted := Run(s, calls), LastCount(s, calls, key, last);
            && key in t.cache.store && t.cache.store[key].expiry == Some(counted + ttl * 1000)
            && key in t.cache.timers && t.cache.timers[key] == counted + ttl * 1000 > t.now
  {
    hide Run, CarefulTrace, OnlyCounts, Frequent, LastCount;
    CarefulTracesStaySound(s, calls);
    PlainWindowStaysOpen(s, calls, key, last, ttl);
    LiveIsStored(Run(s, calls), key);
  }
}
