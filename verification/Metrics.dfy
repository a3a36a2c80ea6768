/**
 The business metrics: three transfer counters, two login counters and the gauge
 of active transfers, which is clamped at zero.
 */
module Metrics {
  datatype Event = LoginSuccess | LoginFailure | TransferCreated | TransferCompleted | TransferCancelled | Other

  class Store {
    var activeTransfers: int
    var loginFailures: nat
    var loginSuccesses: nat
    var transfersCreated: nat
    var transfersCompleted: nat
    var transfersCancelled: nat
    ghost var seen: seq<Event>

    ghost predicate Valid()
      reads this
    {
      && activeTransfers == Gauge(seen)
      && loginFailures == Count(seen, LoginFailure) && loginSuccesses == Count(seen, LoginSuccess)
      && transfersCreated == Count(seen, TransferCreated)
      && transfersCompleted == Count(seen, TransferCompleted)
      && transfersCancelled == Count(seen, TransferCancelled)
    }

    constructor ()
      ensures Valid() && seen == []
    {
      activeTransfers, loginFailures, loginSuccesses := 0, 0, 0;
      transfersCreated, transfersCompleted, transfersCancelled := 0, 0, 0;
      seen := [];
    }

    method RecordEvent(event: Event)
      requires Valid()
      modifies this
      ensures Valid() && seen == old(seen) + [event]
    {
      hide Gauge, Count;
      OneMore(seen, event);
      match event {
        case LoginSuccess => loginSuccesses := loginSuccesses + 1;
        case LoginFailure => loginFailures := loginFailures + 1;
        case TransferCreated =>
          transfersCreated := transfersCreated + 1;
          activeTransfers := activeTransfers + 1;
        case TransferCompleted =>
          transfersCompleted := transfersCompleted + 1;
          activeTransfers := Max(0, activeTransfers - 1);
        case TransferCancelled =>
          transfersCancelled := transfersCancelled + 1;
          activeTransfers := Max(0, activeTransfers - 1);
        case Other =>
      }
      seen := seen + [event];
    }
  }

  function Max(a: int, b: int): int {
    if a < b then b else a
  }

  function Count(events: seq<Event>, event: Event): nat {
    if events == [] then 0
    else Count(events[..|events| - 1], event) + (if events[|events| - 1] == event then 1 else 0)
  }

  /** What one event does to the number of transfers that are really open. */
  function Change(event: Event): int {
    match event
    case TransferCreated => 1
    case TransferCompleted => -1
    case TransferCancelled => -1
    case _ => 0
  }

  function Net(events: seq<Event>): int {
    if events == [] then 0 else Net(events[..|events| - 1]) + Change(events[|events| - 1])
  }

  function Gauge(events: seq<Event>): int {
    if events == [] then 0 else Max(0, Gauge(events[..|events| - 1]) + Change(events[|events| - 1]))
  }

  lemma OneMore(events: seq<Event>, event: Event)
    ensures Gauge(events + [event]) == Max(0, Gauge(events) + Change(event))
    ensures forall e :: Count(events + [event], e) == Count(events, e) + (if event == e then 1 else 0)
    ensures 0 <= Gauge(events)
  {
    assert (events + [event])[..|events|] == events;
  }

  lemma {:induction false} NetIsCreatedMinusFinished(events: seq<Event>)
    ensures Net(events) == Count(events, TransferCreated) - Count(events, TransferCompleted) - Count(events, TransferCancelled)
  {
    if events != [] {
      NetIsCreatedMinusFinished(events[..|events| - 1]);
    }
  }

  /** The gauge is the largest net count over all suffixes, the empty one included. */
  lemma {:induction false} GaugeIsTheBestSuffix(events: seq<Event>) returns (start: nat)
    ensures forall i :: 0 <= i <= |events| ==> Net(events[i..]) <= Gauge(events)
    ensures start <= |events| && Net(events[start..]) == Gauge(events)
  {
    start := 0;
    if events != [] {
      var most, last := events[..|events| - 1], events[|events| - 1];
      var before := GaugeIsTheBestSuffix(most);
      assert Net([]) == 0;
      forall i | 0 <= i <= |most|
        ensures Net(events[i..]) == Net(most[i..]) + Change(last)
      {
        assert events[i..][..|events[i..]| - 1] == most[i..];
      }
      assert events[|events|..] == [];
      forall i | 0 <= i <= |events|
        ensures Net(events[i..]) <= Gauge(events)
      {
        if i <= |most| {
          assert Net(most[i..]) <= Gauge(most);
        }
      }
      start := if Gauge(most) + Change(last) >= 0 then before else |events|;
    }
  }

  lemma {:induction false} NetSplits(events: seq<Event>, i: nat)
    requires i <= |events|
    ensures Net(events) == Net(events[..i]) + Net(events[i..])
  {
    if i == |events| {
      assert events[..i] == events && events[i..] == [];
    } else {
      var most := events[..|events| - 1];
      NetSplits(most, i);
      assert most[..i] == events[..i] && most[i..] == events[i..][..|events[i..]| - 1];
    }
  }

  /** The gauge shows the true difference exactly when at no point more transfers had finished than were created. */
  lemma GaugeIsTrueExactly(events: seq<Event>)
    ensures Net(events) <= Gauge(events) && 0 <= Gauge(events)
    ensures Gauge(events) == Net(events) <==> forall i :: 0 <= i <= |events| ==> 0 <= Net(events[..i])
  {
    var start := GaugeIsTheBestSuffix(events);
    assert events[0..] == events;
    if Gauge(events) == Net(events) {
      forall i | 0 <= i <= |events|
        ensures 0 <= Net(events[..i])
      {
        NetSplits(events, i);
      }
    } else {
      NetSplits(events, start);
      assert Net(events[..start]) < 0;
    }
  }
}
