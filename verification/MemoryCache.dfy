/**
 The in-memory fallback cache: a store whose items may carry an expiry, and one
 pending clean-up timer per key. Times are milliseconds, time-to-live values are
 seconds and 0 stands for an absent one.
 */
module MemoryCache {
  import opened Options
  import opened Decimals

  datatype Item = Item(value: string, expiry: Option<int>)

  /** `timers` holds the due times of the timers that have neither fired nor been cleared. */
  datatype Cache = Cache(store: map<string, Item>, timers: map<string, int>)

  const EMPTY := Cache(map[], map[])

  /** Node runs a timer whose delay does not fit 31 bits, or is below 1, after one millisecond. */
  const MAX_DELAY := 2_147_483_647

  function TimerDelay(ttl: nat): nat {
    if 1 <= ttl * 1000 <= MAX_DELAY then ttl * 1000 else 1
  }

  predicate Expired(item: Item, now: int) {
    item.expiry.Some? && now > item.expiry.value
  }

  function Get(c: Cache, key: string, now: int): (Cache, Option<string>) {
    if key !in c.store then (c, None)
    else if Expired(c.store[key], now) then (c.(store := c.store - {key}), None)
    else (c, Some(c.store[key].value))
  }

  function Set(c: Cache, key: string, value: string, ttl: nat, now: int): Cache {
    if ttl == 0 then c.(store := c.store[key := Item(value, None)])
    else Cache(c.store[key := Item(value, Some(now + ttl * 1000))], c.timers[key := now + TimerDelay(ttl)])
  }

  function Del(c: Cache, key: string): Cache {
    Cache(c.store - {key}, c.timers - {key})
  }

  function Expire(c: Cache, key: string, ttl: nat, now: int): Cache {
    if key in c.store then
      Cache(c.store[key := c.store[key].(expiry := Some(now + ttl * 1000))], c.timers[key := now + TimerDelay(ttl)])
    else c
  }

  /** The longest run of digits a text starts with. */
  function LeadingDigits(text: string): (digits: string)
    ensures AllDigits(digits) && digits <= text
    ensures AllDigits(text) ==> digits == text
    ensures |digits| < |text| ==> !IsDigit(text[|digits|])
  {
    if text == "" || !IsDigit(text[0]) then "" else [text[0]] + LeadingDigits(text[1..])
  }

  /** `parseInt(current) || 0` */
  function Count(current: Option<string>): nat {
    if current.None? then 0 else ValueOf(LeadingDigits(current.value))
  }

  /** The whole seconds left, rounded up, when the item still has an expiry. */
  function SecondsLeft(c: Cache, key: string, now: int): nat {
    if key in c.store && c.store[key].expiry.Some? && c.store[key].expiry.value > now
    then (c.store[key].expiry.value - now + 999) / 1000
    else 0
  }

  function Incr(c: Cache, key: string, now: int): (Cache, nat) {
    var (read, current) := Get(c, key, now);
    var counted := Count(current) + 1;
    (Set(read, key, Decimal(counted), SecondsLeft(read, key, now), now), counted)
  }

  /** A due timer runs: it deletes the key, whatever is stored there by now. */
  function Fire(c: Cache, key: string, now: int): Cache {
    if key in c.timers && c.timers[key] <= now then Cache(c.store - {key}, c.timers - {key}) else c
  }

  class Memory {
    var store: map<string, Item>
    var timers: map<string, int>

    constructor ()
      ensures State() == EMPTY
    {
      store, timers := map[], map[];
    }

    function State(): Cache
      reads this
    {
      Cache(store, timers)
    }

    method GetValue(key: string, now: int) returns (value: Option<string>)
      modifies this
      ensures (State(), value) == Get(old(State()), key, now)
    {
      value := None;
      if key in store {
        var item := store[key];
        if item.expiry.Some? && now > item.expiry.value {
          store := store - {key};
        } else {
          value := Some(item.value);
        }
      }
    }

    method SetValue(key: string, value: string, ttl: nat, now: int)
      modifies this
      ensures State() == Set(old(State()), key, value, ttl, now)
    {
      var expiry := if ttl != 0 then Some(now + ttl * 1000) else None;
      store := store[key := Item(value, expiry)];
      if ttl != 0 {
        timers := timers - {key};
        timers := timers[key := now + TimerDelay(ttl)];
      }
    }

    method Delete(key: string)
      modifies this
      ensures State() == Del(old(State()), key)
    {
      store := store - {key};
      timers := timers - {key};
    }

    method Increment(key: string, now: int) returns (counted: nat)
      modifies this
      ensures (State(), counted) == Incr(old(State()), key, now)
    {
      var current := GetValue(key, now);
      counted := Count(current) + 1;
      var ttl := SecondsLeft(State(), key, now);
      SetValue(key, Decimal(counted), ttl, now);
    }

    method ExpireIn(key: string, ttl: nat, now: int)
      modifies this
      ensures State() == Expire(old(State()), key, ttl, now)
    {
      if key in store {
        store := store[key := store[key].(expiry := Some(now + ttl * 1000))];
        timers := timers - {key};
        timers := timers[key := now + TimerDelay(ttl)];
      }
    }

    method FlushAll()
      modifies this
      ensures State() == EMPTY
    {
      store := map[];
      timers := map[];
    }

    method RunTimer(key: string, now: int)
      modifies this
      ensures State() == Fire(old(State()), key, now)
    {
      if key in timers && timers[key] <= now {
        store, timers := store - {key}, timers - {key};
      }
    }
  }

  // ---------- a plain map with deadlines ----------

  /** The specification: values with deadlines; nothing is ever cleaned up, a value is simply over after its deadline. */
  type Plain = map<string, Item>

  function PlainSet(m: Plain, key: string, value: string, ttl: nat, now: int): Plain {
    m[key := Item(value, if ttl == 0 then None else Some(now + ttl * 1000))]
  }

  function PlainExpire(m: Plain, key: string, ttl: nat, now: int): Plain {
    if key in m && (m[key].expiry.Some? ==> now <= m[key].expiry.value)
    then m[key := m[key].(expiry := Some(now + ttl * 1000))]
    else m
  }

  function PlainGet(m: Plain, key: string, now: int): Option<string> {
    if key in m && (m[key].expiry.Some? ==> now <= m[key].expiry.value) then Some(m[key].value) else None
  }

  /** Counting up keeps the deadline, moved to a whole number of seconds from now. */
  function PlainIncr(m: Plain, key: string, now: int): (Plain, nat) {
    var counted := Count(PlainGet(m, key, now)) + 1;
    var left := if key in m && m[key].expiry.Some? && m[key].expiry.value > now then (m[key].expiry.value - now + 999) / 1000 else 0;
    (PlainSet(m, key, Decimal(counted), left, now), counted)
  }

  /** The value is certainly not over yet. */
  predicate Live(m: Plain, key: string, now: int) {
    key in m && (m[key].expiry.None? || now < m[key].expiry.value)
  }

  /** The cache stores what the plain map holds and drops only what is over; each item's timer fits it. */
  ghost predicate Refines(c: Cache, m: Plain, now: int) {
    && (forall k :: k in c.store ==> k in m && c.store[k] == m[k])
    && (forall k :: Live(m, k, now) ==> k in c.store)
    && (forall k :: k in c.store ==> TimerMatches(c, k, now))
  }

  /** The timer is the item's expiry while that is ahead, never earlier, and there is none without an expiry. */
  predicate TimerMatches(c: Cache, key: string, now: int)
    requires key in c.store
  {
    match c.store[key].expiry
    case Some(expiry) => key in c.timers && expiry <= c.timers[key] && (now < expiry ==> c.timers[key] == expiry)
    case None => key !in c.timers
  }

  /** A `set` keeps the refinement exactly when an absent TTL meets no pending timer and a present one fits a timer. */
  predicate SetAllowed(c: Cache, key: string, ttl: nat) {
    if ttl == 0 then key !in c.timers else ttl * 1000 <= MAX_DELAY
  }

  lemma SetRefinesExactly(c: Cache, m: Plain, key: string, value: string, ttl: nat, now: int)
    requires Refines(c, m, now)
    ensures Refines(Set(c, key, value, ttl, now), PlainSet(m, key, value, ttl, now), now) <==> SetAllowed(c, key, ttl)
  {
    if SetAllowed(c, key, ttl) {
      AllowedSetRefines(c, m, key, value, ttl, now);
    } else {
      hide TimerDelay;
      var after := Set(c, key, value, ttl, now);
      assert key in after.store;
      assert !TimerMatches(after, key, now) by {
        if ttl != 0 {
          TimerDelayFits(ttl);
        }
      }
    }
  }

  lemma TimerDelayFits(ttl: nat)
    requires ttl != 0
    ensures TimerDelay(ttl) == ttl * 1000 <==> ttl * 1000 <= MAX_DELAY
  {
  }

  lemma AllowedSetRefines(c: Cache, m: Plain, key: string, value: string, ttl: nat, now: int)
    requires Refines(c, m, now) && SetAllowed(c, key, ttl)
    ensures Refines(Set(c, key, value, ttl, now), PlainSet(m, key, value, ttl, now), now)
  {
    hide TimerDelay;
    var after, spec := Set(c, key, value, ttl, now), PlainSet(m, key, value, ttl, now);
    if ttl != 0 {
      TimerDelayFits(ttl);
    }
    assert TimerMatches(after, key, now);
    forall k | k != key
      ensures k in after.store ==> k in spec && after.store[k] == spec[k] && TimerMatches(after, k, now)
      ensures Live(spec, k, now) ==> k in after.store
    {
      assert k in after.store <==> k in c.store;
      assert Live(spec, k, now) ==> Live(m, k, now);
      assert k in c.store ==> TimerMatches(c, k, now);
    }
  }

  /** A `set` outside that condition loses its value: once the timer runs, a live value is gone. */
  lemma ForbiddenSetLosesItsValue(c: Cache, m: Plain, key: string, value: string, ttl: nat, now: int) returns (later: int)
    requires Refines(c, m, now) && !SetAllowed(c, key, ttl)
    requires key in c.timers ==> c.timers[key] >= now
    ensures later >= now
    ensures var after, spec := Set(c, key, value, ttl, now), PlainSet(m, key, value, ttl, now);
            Live(spec, key, later) && Get(Fire(after, key, later), key, later).1 == None
  {
    later := if ttl == 0 then c.timers[key] else now + 1;
  }

  lemma DelRefines(c: Cache, m: Plain, key: string, now: int)
    requires Refines(c, m, now)
    ensures Refines(Del(c, key), m - {key}, now)
  {
    assert forall k :: Live(m - {key}, k, now) ==> Live(m, k, now);
  }

  lemma GetRefines(c: Cache, m: Plain, key: string, now: int)
    requires Refines(c, m, now)
    ensures Refines(Get(c, key, now).0, m, now)
    ensures Get(c, key, now).1.Some? ==> Get(c, key, now).1 == PlainGet(m, key, now)
    ensures Live(m, key, now) ==> Get(c, key, now).1 == Some(m[key].value)
  {
  }

  /**
   Moving a deadline that is still ahead keeps the refinement, and so does an `expire` of zero seconds up to the very
   deadline; of a key that is not there, it does nothing.
   */
  predicate ExpireAllowed(m: Plain, key: string, ttl: nat, now: int) {
    key in m ==>
      if ttl == 0 then m[key].expiry.Some? ==> now <= m[key].expiry.value
      else ttl <= 2_147_483 && (m[key].expiry.Some? ==> now < m[key].expiry.value)
  }

  lemma ExpireRefines(c: Cache, m: Plain, key: string, ttl: nat, now: int)
    requires Refines(c, m, now) && ExpireAllowed(m, key, ttl, now)
    ensures Refines(Expire(c, key, ttl, now), PlainExpire(m, key, ttl, now), now)
  {
    hide TimerDelay;
    var after, spec := Expire(c, key, ttl, now), PlainExpire(m, key, ttl, now);
    if ttl == 0 {
      assert TimerDelay(ttl) == 1 by { ZeroDelay(); }
    } else {
      TimerDelayFits(ttl);
      assert key in m ==> Live(m, key, now);
    }
    forall k | k != key
      ensures k in after.store ==> k in spec && after.store[k] == spec[k] && TimerMatches(after, k, now)
      ensures Live(spec, k, now) ==> k in after.store
    {
      assert k in after.store <==> k in c.store;
      assert Live(spec, k, now) ==> Live(m, k, now);
      assert k in c.store ==> TimerMatches(c, k, now);
    }
  }

  lemma ZeroDelay()
    ensures TimerDelay(0) == 1
  {
  }

  /** A timer that runs when due takes only values that are over. */
  lemma FireRefines(c: Cache, m: Plain, key: string, now: int)
    requires Refines(c, m, now)
    ensures Refines(Fire(c, key, now), m, now)
  {
  }

  lemma TimeRefines(c: Cache, m: Plain, now: int, later: int)
    requires Refines(c, m, now) && now <= later
    ensures Refines(c, m, later)
  {
    assert forall k :: Live(m, k, later) ==> Live(m, k, now);
  }

  /** Counting up is a read and a `set` with the seconds left, so it needs what that `set` needs. */
  predicate IncrAllowed(c: Cache, key: string, now: int) {
    if key in c.store && !Expired(c.store[key], now) && c.store[key].expiry.Some? then
      now < c.store[key].expiry.value && SecondsLeft(c, key, now) * 1000 <= MAX_DELAY
    else key !in c.timers
  }

  lemma IncrRefines(c: Cache, m: Plain, key: string, now: int)
    requires Refines(c, m, now) && IncrAllowed(c, key, now)
    requires key in m && m[key].expiry.Some? ==> m[key].expiry.value != now
    ensures Refines(Incr(c, key, now).0, PlainIncr(m, key, now).0, now)
    ensures Incr(c, key, now).1 == PlainIncr(m, key, now).1
  {
    hide Refines, Set, PlainSet, Decimal, ValueOf;
    var read := Get(c, key, now).0;
    GetRefines(c, m, key, now);
    IncrReadsSame(c, m, key, now);
    SetRefinesExactly(read, m, key, Decimal(Incr(c, key, now).1), SecondsLeft(read, key, now), now);
  }

  lemma IncrReadsSame(c: Cache, m: Plain, key: string, now: int)
    requires Refines(c, m, now) && IncrAllowed(c, key, now)
    requires key in m && m[key].expiry.Some? ==> m[key].expiry.value != now
    ensures Get(c, key, now).1 == PlainGet(m, key, now)
    ensures var read := Get(c, key, now).0;
            && SecondsLeft(read, key, now) ==
                 (if key in m && m[key].expiry.Some? && m[key].expiry.value > now then (m[key].expiry.value - now + 999) / 1000 else 0)
            && SetAllowed(read, key, SecondsLeft(read, key, now))
  {
    if Live(m, key, now) {
      assert key in c.store;
    }
  }
}
