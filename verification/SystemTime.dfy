/**
 Wall-clock dates of the system time zone as instants. Instants are integer
 milliseconds; a zone gives each instant its offset from UTC in whole seconds.
 */
module SystemTime {
  import opened Calendar

  type Zone = int -> int

  const MAX_ROUNDS := 4

  /** What a wall clock in the zone shows at the instant, on the UTC time line. */
  function Local(z: Zone, t: int): int {
    t + 1000 * z(t)
  }

  function LocalDay(z: Zone, t: int): int {
    Local(z, t) / MS_PER_DAY
  }

  /** Offsets are less than a day, as in every real zone. */
  ghost predicate Bounded(z: Zone) {
    forall t :: -86400 < z(t) < 86400
  }

  /** Years before 1 are shown by their number in the earlier era. */
  function ShownYear(year: int): (shown: nat)
    ensures shown >= 1
  {
    if year > 0 then year else 1 - year
  }

  /** Year 0 is shown as year 1 of the earlier era, and so on backwards. */
  lemma ErasMirror(year: int)
    ensures ShownYear(year) == ShownYear(1 - year)
    ensures year >= 1 ==> ShownYear(year) == year
  {
  }

  /** `Date.UTC` of the displayed parts of the instant, with the target's milliseconds. */
  function Represented(z: Zone, t: int, ms: int): int {
    var day, time := LocalDay(z, t), Local(z, t) % MS_PER_DAY / 1000;
    DateUtc(ShownYear(YearFromDay(day)), MonthFromDay(day), DateFromDay(day),
            time / 3600, time % 3600 / 60, time % 60, ms)
  }

  /** The correction loop from a given instant. */
  function Settle(z: Zone, target: int, ms: int, instant: int, rounds: nat): int
    decreases rounds
  {
    var correction := target - Represented(z, instant, ms);
    if rounds == 0 || correction == 0 then instant
    else Settle(z, target, ms, instant + correction, rounds - 1)
  }

  method ZonedDateTime(z: Zone, year: int, month: int, day: int, hour: int, minute: int, second: int, ms: int)
    returns (instant: int)
    ensures var target := DateUtc(year, month - 1, day, hour, minute, second, ms);
            instant == Settle(z, target, ms, target, MAX_ROUNDS)
  {
    hide Represented, DateUtc;
    var target := DateUtc(year, month - 1, day, hour, minute, second, ms);
    instant := target;
    var attempt := 0;
    while attempt < MAX_ROUNDS
      invariant 0 <= attempt <= MAX_ROUNDS
      invariant Settle(z, target, ms, target, MAX_ROUNDS) == Settle(z, target, ms, instant, MAX_ROUNDS - attempt)
    {
      var correction := target - Represented(z, instant, ms);
      if correction == 0 { break; }
      instant := instant + correction;
      attempt := attempt + 1;
    }
  }

  // ---------- the loop ----------

  lemma ClockParts(time: int, ms: int)
    requires 0 <= time < 86_400_000 && time % 1000 == ms
    ensures var s := time / 1000;
            TimeOfDay(s / 3600, s % 3600 / 60, s % 60, ms) == time
  {
    var s := time / 1000;
    assert s == s / 3600 * 3600 + s % 3600;
    assert s % 3600 == s % 3600 / 60 * 60 + s % 3600 % 60;
    assert s % 3600 % 60 == s % 60;
  }

  lemma LocalClock(z: Zone, t: int)
    ensures Local(z, t) == LocalDay(z, t) * MS_PER_DAY + Local(z, t) % MS_PER_DAY
    ensures Local(z, t) % MS_PER_DAY % 1000 == t % 1000
  {
    var time := Local(z, t) % MS_PER_DAY;
    assert Local(z, t) - time == 1000 * (LocalDay(z, t) * 86_400);
    assert time == t + 1000 * (z(t) - LocalDay(z, t) * 86_400);
  }

  /** From year 100 on, the parts read back as the wall time they show. */
  lemma RepresentedIsLocal(z: Zone, t: int, ms: int)
    requires t % 1000 == ms
    ensures YearFromDay(LocalDay(z, t)) >= 100 ==> Represented(z, t, ms) == Local(z, t)
  {
    hide YearFromDay, MonthFromDay, DateFromDay, MakeDay, TimeOfDay, Local, LocalDay;
    var day, time := LocalDay(z, t), Local(z, t) % MS_PER_DAY;
    DayRoundTrip(day);
    LocalClock(z, t);
    ClockParts(time, ms);
    if YearFromDay(day) >= 100 {
      assert FullYear(ShownYear(YearFromDay(day))) == YearFromDay(day);
    }
  }

  lemma FromYearHundred(n: int)
    requires n >= DayFromYear(100)
    ensures YearFromDay(n) >= 100
  {
    hide DayFromYear, YearFromDay;
    if YearFromDay(n) < 100 {
      YearsGrow(YearFromDay(n) + 1, 100);
    }
  }

  /** The instants the loop tries after the target itself: each moves the offset found at the one before. */
  function Try(z: Zone, target: int, k: nat): int {
    if k == 0 then target else target - 1000 * z(Try(z, target, k - 1))
  }

  /** At least two days into year 100: nothing the loop tries is displayed with a two-digit year. */
  predicate Modern(target: int) {
    target / MS_PER_DAY >= DayFromYear(100) + 2
  }

  lemma NearbyDay(a: int, b: int)
    requires b > a - 2 * MS_PER_DAY
    ensures b / MS_PER_DAY >= a / MS_PER_DAY - 2
  {
  }

  lemma WholeSeconds(a: int, seconds: int)
    ensures (a - 1000 * seconds) % 1000 == a % 1000
  {
  }

  lemma TryIsNear(z: Zone, target: int, k: nat)
    requires Bounded(z) && Modern(target)
    ensures YearFromDay(LocalDay(z, Try(z, target, k))) >= 100
    ensures Try(z, target, k) % 1000 == target % 1000
    ensures Represented(z, Try(z, target, k), target % 1000) == Local(z, Try(z, target, k))
  {
    hide YearFromDay, Represented, DayFromYear;
    var t := Try(z, target, k);
    if k > 0 {
      WholeSeconds(target, z(Try(z, target, k - 1)));
    }
    assert t > target - MS_PER_DAY && Local(z, t) > t - MS_PER_DAY;
    NearbyDay(target, Local(z, t));
    FromYearHundred(LocalDay(z, t));
    RepresentedIsLocal(z, t, target % 1000);
  }

  ghost predicate Hits(z: Zone, target: int, k: nat) {
    Local(z, Try(z, target, k)) == target
  }

  /** Try n is the first of tries k, ..., k + rounds that hits, or the last of them if none before it does. */
  ghost predicate FirstHit(z: Zone, target: int, k: nat, rounds: nat, n: nat) {
    && k <= n <= k + rounds
    && (forall i :: k <= i < n ==> !Hits(z, target, i))
    && (n < k + rounds ==> Hits(z, target, n))
  }

  lemma {:induction false} SettleFollowsTries(z: Zone, target: int, k: nat, rounds: nat) returns (n: nat)
    requires Bounded(z) && Modern(target)
    ensures FirstHit(z, target, k, rounds, n)
    ensures Settle(z, target, target % 1000, Try(z, target, k), rounds) == Try(z, target, n)
    decreases rounds
  {
    hide Represented, YearFromDay, Modern;
    TryIsNear(z, target, k);
    if rounds == 0 || Hits(z, target, k) {
      n := k;
    } else {
      assert Try(z, target, k + 1) == Try(z, target, k) + (target - Local(z, Try(z, target, k)));
      n := SettleFollowsTries(z, target, k + 1, rounds - 1);
    }
  }

  /**
   For any bounded zone, gaps and overlaps included: the loop returns the first
   of its tries whose wall time is the target, and if none of the first four
   hits it returns the fifth. So the result shows the target exactly if and only
   if one of the five tries does.
   */
  lemma LoopResultExactly(z: Zone, target: int)
    requires Bounded(z) && Modern(target)
    ensures var result := Settle(z, target, target % 1000, target, MAX_ROUNDS);
            && (exists n: nat :: FirstHit(z, target, 0, 4, n) && result == Try(z, target, n))
            && (Local(z, result) == target <==> exists n: nat :: n <= 4 && Hits(z, target, n))
  {
    hide Settle, Modern;
    var n := SettleFollowsTries(z, target, 0, MAX_ROUNDS);
    assert Try(z, target, 0) == target;
    assert Local(z, Try(z, target, n)) == target <==> Hits(z, target, n);
  }

  /** The zone has the same offset at the target read as UTC and at the instant that offset leads to. */
  predicate Consistent(z: Zone, target: int) {
    z(target - 1000 * z(target)) == z(target)
  }

  lemma FirstRound(z: Zone, target: int, rounds: nat)
    requires Bounded(z) && Modern(target) && rounds >= 1
    ensures var next := target - 1000 * z(target);
            Settle(z, target, target % 1000, target, rounds) ==
            if z(target) == 0 then target else Settle(z, target, target % 1000, next, rounds - 1)
  {
    hide Represented, Modern;
    TryIsNear(z, target, 0);
    assert Try(z, target, 0) == target;
  }

  lemma SecondRound(z: Zone, target: int, rounds: nat)
    requires Bounded(z) && Modern(target) && Consistent(z, target)
    ensures var next := target - 1000 * z(target);
            Settle(z, target, target % 1000, next, rounds) == next
  {
    hide Represented, Modern;
    TryIsNear(z, target, 1);
    assert Try(z, target, 1) == target - 1000 * z(Try(z, target, 0)) == target - 1000 * z(target);
  }

  /** Two rounds are enough exactly when those two offsets agree, and more rounds then change nothing. */
  lemma TwoRoundsSettleExactly(z: Zone, target: int, rounds: nat)
    requires Bounded(z) && Modern(target) && rounds >= 1
    ensures Local(z, Settle(z, target, target % 1000, target, 1)) == target <==> Consistent(z, target)
    ensures Consistent(z, target) ==>
              && Settle(z, target, target % 1000, target, rounds) == target - 1000 * z(target)
              && Local(z, target - 1000 * z(target)) == target
  {
    hide Represented, Modern;
    FirstRound(z, target, 1);
    FirstRound(z, target, rounds);
    if Consistent(z, target) {
      SecondRound(z, target, rounds - 1);
    }
  }

  /** The zone keeps one offset on the UTC days from `first` to `last` and the day before and after. */
  ghost predicate Steady(z: Zone, first: int, last: int, offset: int) {
    forall t :: (first - 1) * MS_PER_DAY < t < (last + 2) * MS_PER_DAY ==> z(t) == offset
  }
}
