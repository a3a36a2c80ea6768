/**
 Convergence of concurrent runs: what the mirror shows once the calls that carry a
 transfer's events have been answered.
 */
module MerchantRuns {
  import opened Options
  import opened MerchantEvents
  import opened MerchantSnapshots
  import opened MerchantConvergence

  /** The events whose calls have been answered. */
  ghost function Answered(w: World): set<Event> {
    set r | r in w.replies :: r.event
  }

  ghost predicate LogAnswered(w: World) {
    forall e :: e in w.log ==> e in Answered(w)
  }

  lemma AnswersStay(w: World, a: Action)
    requires |w.log| == |w.wroteState|
    ensures Answered(w) <= Answered(MerchantSnapshots.Next(w, a))
  {
    hide Decide, Install;
    var v := MerchantSnapshots.Next(w, a);
    forall e | e in Answered(w)
      ensures e in Answered(v)
    {
      var r :| r in w.replies && r.event == e;
      assert r in v.replies;
    }
  }

  /** Every committed delivery has its answer. */
  lemma {:induction false} RunsAnswerTheirLog(acts: seq<Action>)
    ensures LogAnswered(Exec(acts))
  {
    if acts != [] {
      var w, a := Exec(acts[..|acts| - 1]), acts[|acts| - 1];
      RunsAnswerTheirLog(acts[..|acts| - 1]);
      AnswersStay(w, a);
      hide Decide, Install, Conflict;
      var v := Exec(acts);
      if v.log != w.log {
        var r := v.replies[|w.replies|];
        assert r in v.replies && v.log == w.log + [r.event];
      }
    }
  }

  /** An answered event of an unmixed transfer has been committed: a duplicate earlier, and a refusal cannot happen. */
  lemma AnsweredIsCommitted(w: World, r: Reply, tx: string)
    requires HonestLog(w) && LogAnswered(w) && r in w.replies && Linearized(w.log, r) && r.event.transactionId == tx
    requires OneEventPerId(Answered(w)) && !Mixes(Answered(w), tx)
    ensures r.event in w.log
  {
    hide Decide, Replay, Summit;
    if !r.answer.Received? {
      var seen := w.log[..r.begun];
      SeenEventsAreAnswered(w, seen);
      SubsetStaysUnmixed(w, seen, tx);
      UnmixedReachesSummit(seen, tx);
      assert r.event in Answered(w);
      if r.event.id in At(w.log, r.begun).inbox {
        var same :| same in seen && same.id == r.event.id;
        assert same in Delivered(seen) && r.event in Answered(w);
      } else {
        RefusalMixes(seen, At(w.log, r.begun), r.event, Answered(w));
        assert false;
      }
    }
  }

  lemma SeenEventsAreAnswered(w: World, seen: seq<Event>)
    requires LogAnswered(w) && seen <= w.log
    ensures Delivered(seen) <= Answered(w)
  {
    assert forall e :: e in seen ==> e in w.log;
  }

  lemma SubsetStaysUnmixed(w: World, seen: seq<Event>, tx: string)
    requires Delivered(seen) <= Answered(w) && OneEventPerId(Answered(w)) && !Mixes(Answered(w), tx)
    ensures OneEventPerId(Delivered(seen)) && !Mixes(Delivered(seen), tx)
  {
  }

  /** An event is only refused against an earlier one that contradicts it. */
  lemma RefusalMixes(seen: seq<Event>, db: Database, e: Event, es: set<Event>)
    requires Summit(seen, db, e.transactionId) && e.id !in db.inbox && Decide(db, e).Unchanged?
    requires Delivered(seen) <= es && e in es
    ensures Mixes(es, e.transactionId)
  {
    var current := db.states[e.transactionId].status;
    var top :| top in seen && top.transactionId == e.transactionId
               && Word(MerchantEvents.Next(top)) == Word(current);
    assert top in Delivered(seen);
  }

  /** In every concurrent run the events of an unmixed transfer that have been answered are exactly the committed ones. */
  lemma AnsweredAreTheCommitted(acts: seq<Action>, tx: string)
    requires OneEventPerId(Answered(Exec(acts))) && !Mixes(Answered(Exec(acts)), tx)
    ensures var w := Exec(acts);
            forall e: Event :: e.transactionId == tx ==> (e in w.log <==> e in Answered(w))
  {
    hide Exec, HonestLog, Linearized;
    var w := Exec(acts);
    ExecConsistent(acts);
    RunsAnswerTheirLog(acts);
    forall e: Event | e.transactionId == tx && e in Answered(w)
      ensures e in w.log
    {
      var r :| r in w.replies && r.event == e;
      AnsweredIsCommitted(w, r, tx);
    }
  }

  /** The mirrored status of the database, up to the cancellation word. */
  ghost function Shown(w: World, tx: string): Option<Status> {
    if tx in w.db.states then Some(Word(w.db.states[tx].status)) else None
  }

  /**
   In every concurrent run the mirror of an unmixed transfer stands at the highest status among its answered events,
   and one of them asked for it.
   */
  lemma RunsReachTheSummit(acts: seq<Action>, tx: string)
    requires OneEventPerId(Answered(Exec(acts))) && !Mixes(Answered(Exec(acts)), tx)
    ensures var w := Exec(acts);
            if tx in w.db.states then
              && (forall e :: e in Answered(w) && e.transactionId == tx ==> Height(MerchantEvents.Next(e)) <= Height(w.db.states[tx].status))
              && (exists e :: e in Answered(w) && e.transactionId == tx && Word(MerchantEvents.Next(e)) == Word(w.db.states[tx].status))
            else forall e :: e in Answered(w) ==> e.transactionId != tx
  {
    hide Exec, Replay;
    var w := Exec(acts);
    AnsweredAreTheCommitted(acts, tx);
    CommittedReachSummit(acts, tx);
    if tx in w.db.states {
      var top :| top in w.log && top.transactionId == tx && Word(MerchantEvents.Next(top)) == Word(w.db.states[tx].status);
      assert top in Answered(w);
    }
  }

  lemma CommittedReachSummit(acts: seq<Action>, tx: string)
    requires OneEventPerId(Answered(Exec(acts))) && !Mixes(Answered(Exec(acts)), tx)
    ensures var w := Exec(acts);
            w.db == Replay(EMPTY, w.log) && Summit(w.log, w.db, tx) && !Mixes(Delivered(w.log), tx)
  {
    hide Exec, Replay, Summit;
    var w := Exec(acts);
    ExecConsistent(acts);
    HonestDatabase(w);
    RunsAnswerTheirLog(acts);
    SeenEventsAreAnswered(w, w.log);
    SubsetStaysUnmixed(w, w.log, tx);
    UnmixedReachesSummit(w.log, tx);
  }

  /** Two concurrent runs that have answered the same events of an unmixed transfer show the same status, up to the cancellation word. */
  lemma ConcurrentRunsConverge(acts: seq<Action>, others: seq<Action>, tx: string)
    requires OneEventPerId(Answered(Exec(acts))) && !Mixes(Answered(Exec(acts)), tx)
    requires OneEventPerId(Answered(Exec(others))) && !Mixes(Answered(Exec(others)), tx)
    requires forall e: Event :: e.transactionId == tx ==> (e in Answered(Exec(acts)) <==> e in Answered(Exec(others)))
    ensures Shown(Exec(acts), tx) == Shown(Exec(others), tx)
  {
    hide Exec, Replay, Summit, OneEventPerId, Mixes;
    var w, v := Exec(acts), Exec(others);
    AnsweredAreTheCommitted(acts, tx);
    AnsweredAreTheCommitted(others, tx);
    CommittedReachSummit(acts, tx);
    CommittedReachSummit(others, tx);
    SummitsAgree(w.log, v.log, tx);
    assert Shown(w, tx) == Final(w.log, tx) && Shown(v, tx) == Final(v.log, tx);
  }
}
