/**
 What a delivery is answered and what it writes, said without ranks: by the words of
 the statuses, and over the events received before.
 */
module MerchantAnswers {
  import opened Options
  import opened MerchantEvents
  import opened MerchantSnapshots

  const CANCELLATIONS := {Rejected, Cancelled, Canceled, CancelledByAdmin, Failed}

  /** The status an event asks for. */
  ghost function Asked(e: Event): Status {
    match e.kind
    case TransferCreated => if e.status == Accepted || e.status == Processing then e.status else Pending
    case _ => e.status
  }

  /** The climb: pending, accepted, processing, and then any final word. */
  ghost predicate Climbs(from: Status, to: Status) {
    match from
    case Pending => to != Pending
    case Accepted => to != Pending && to != Accepted
    case Processing => to == Completed || to in CANCELLATIONS
    case _ => false
  }

  ghost predicate Opposed(a: Status, b: Status) {
    (a == Completed && b in CANCELLATIONS) || (b == Completed && a in CANCELLATIONS)
  }

  /** The delivery of an event whose id is new: refused without a trace, or one receipt and, if it climbs, one state row. */
  lemma FreshDelivery(db: Database, e: Event)
    requires e.id !in db.inbox
    ensures var tx, known, after := e.transactionId, e.transactionId in db.states, Step(db, e);
            if known && Opposed(db.states[tx].status, Asked(e)) then
              Decide(db, e).answer == TerminalStateConflict && after == db
            else
              var applied := !known || Climbs(db.states[tx].status, Asked(e));
              && Decide(db, e).answer == Received(!applied)
              && after.inbox == db.inbox[e.id := Receipt(e.bodyHash, tx, !applied)]
              && after.states == if applied
                                 then db.states[tx := Mirror(Asked(e), 1 + if known then db.states[tx].appliedCount else 0)]
                                 else db.states
  {
  }

  /** The delivery put its id into the inbox. */
  ghost predicate Receives(log: seq<Event>, i: nat)
    requires i < |log|
  {
    log[i].id !in Replay(EMPTY, log[..i]).inbox && log[i].id in Replay(EMPTY, log[..i + 1]).inbox
  }

  lemma ReceivedStays(log: seq<Event>, i: nat)
    requires i < |log| && Receives(log, i)
    ensures log[i].id in Replay(EMPTY, log).inbox && Replay(EMPTY, log).inbox[log[i].id].bodyHash == log[i].bodyHash
  {
    hide Decide, Install, Replay;
    assert log[..i + 1] + log[i + 1..] == log;
    AtGrows(log, i);
    FirstReceipt(Replay(EMPTY, log[..i]), log[i]);
    ReplayAppends(EMPTY, log[..i + 1], log[i + 1..]);
    HistoryOnlyClimbs(Replay(EMPTY, log[..i + 1]), log[i + 1..]);
  }

  lemma FirstReceipt(db: Database, e: Event)
    requires e.id !in db.inbox && e.id in Step(db, e).inbox
    ensures Step(db, e).inbox[e.id].bodyHash == e.bodyHash
  {
  }

  /**
   Exactly once: after any log, an event whose id was received is answered as a duplicate if its body is the same and as
   a conflict if it is another, and changes nothing.
   */
  lemma RedeliveryIsAnswered(log: seq<Event>, i: nat, again: Event)
    requires i < |log| && Receives(log, i) && again.id == log[i].id
    ensures Decide(Replay(EMPTY, log), again).answer ==
            if again.bodyHash == log[i].bodyHash then Duplicate else EventIdConflict
    ensures Step(Replay(EMPTY, log), again) == Replay(EMPTY, log)
  {
    hide Replay;
    ReceivedStays(log, i);
  }

  // ---------- concurrent runs ----------

  /** Among the first k commits one has this id and, as asked, the same body or another one. */
  ghost predicate Seen(log: seq<Event>, k: nat, e: Event, same: bool)
    requires k <= |log|
  {
    exists i :: 0 <= i < k && log[i].id == e.id && (log[i].bodyHash == e.bodyHash) == same
  }

  lemma {:induction false} InboxIsTheLog(w: World, k: nat, e: Event)
    requires HonestLog(w) && k <= |w.log|
    ensures e.id in At(w.log, k).inbox <==> Seen(w.log, k, e, true) || Seen(w.log, k, e, false)
    ensures e.id in At(w.log, k).inbox ==> Seen(w.log, k, e, At(w.log, k).inbox[e.id].bodyHash == e.bodyHash)
    ensures !(Seen(w.log, k, e, true) && Seen(w.log, k, e, false))
  {
    hide HonestLog, Decide, Replay, Step;
    if k == 0 {
      NothingAt(w.log);
    } else {
      InboxIsTheLog(w, k - 1, e);
      AtGrows(w.log, k - 1);
      CommitAddsReceipt(w, k - 1);
      var c := w.log[k - 1];
      assert forall same :: Seen(w.log, k, e, same) <==>
                       Seen(w.log, k - 1, e, same) || (c.id == e.id && (c.bodyHash == e.bodyHash) == same) by {
        SeenGrows(w.log, k - 1, e);
      }
    }
  }

  lemma NothingAt(log: seq<Event>)
    ensures At(log, 0) == EMPTY
  {
  }

  lemma SeenGrows(log: seq<Event>, k: nat, e: Event)
    requires k < |log|
    ensures forall same :: Seen(log, k + 1, e, same) <==>
                       Seen(log, k, e, same) || (log[k].id == e.id && (log[k].bodyHash == e.bodyHash) == same)
  {
  }

  lemma CommitAddsReceipt(w: World, k: nat)
    requires HonestLog(w) && k < |w.log|
    ensures var db, e := At(w.log, k), w.log[k];
            && e.id !in db.inbox
            && Step(db, e).inbox == db.inbox[e.id := Receipt(e.bodyHash, e.transactionId, !w.wroteState[k])]
  {
    hide Replay, At;
    assert Decide(At(w.log, k), w.log[k]).Write?;
    assert Decide(At(w.log, k), w.log[k]).mirror.Some? == w.wroteState[k];
  }

  /**
   In every concurrent run a call is answered as a duplicate exactly when a delivery of the same id and body had been
   committed when it began, and as a conflict exactly when one of the same id and another body had.
   */
  lemma RepliesAreExact(acts: seq<Action>, j: nat)
    requires j < |Exec(acts).replies|
    ensures var w, r := Exec(acts), Exec(acts).replies[j];
            && r.begun <= |w.log|
            && (r.answer == Duplicate <==> Seen(w.log, r.begun, r.event, true))
            && (r.answer == EventIdConflict <==> Seen(w.log, r.begun, r.event, false))
  {
    hide Exec, HonestLog, Decide, At, Seen;
    ExecConsistent(acts);
    var w := Exec(acts);
    var r := w.replies[j];
    assert Linearized(w.log, r);
    var k := if r.answer.Received? then r.ended - 1 else r.begun;
    KnownId(At(w.log, k), r.event);
    InboxIsTheLog(w, k, r.event);
    InboxIsTheLog(w, r.begun, r.event);
    SeenEarlier(w.log, r.begun, k, r.event);
  }

  lemma KnownId(db: Database, e: Event)
    ensures Decide(db, e).answer == Duplicate <==> e.id in db.inbox && db.inbox[e.id].bodyHash == e.bodyHash
    ensures Decide(db, e).answer == EventIdConflict <==> e.id in db.inbox && db.inbox[e.id].bodyHash != e.bodyHash
    ensures Decide(db, e).Write? ==> e.id !in db.inbox
  {
  }

  lemma SeenEarlier(log: seq<Event>, k: nat, later: nat, e: Event)
    requires k <= later <= |log|
    ensures forall same :: Seen(log, k, e, same) ==> Seen(log, later, e, same)
  {
  }

  /** A call that is not disturbed is answered, and its answer and effect are those of a serial delivery. */
  lemma UndisturbedCallIsServed(acts: seq<Action>, session: nat, e: Event)
    requires session !in Exec(acts).open
    ensures var w, v := Exec(acts), Exec(acts + [Begin(session, e), Finish(session)]);
            && v.db == Step(w.db, e)
            && |v.replies| == |w.replies| + 1 && v.replies[..|w.replies|] == w.replies
            && v.replies[|w.replies|].event == e && v.replies[|w.replies|].answer == Decide(w.db, e).answer
  {
    hide Decide, Exec;
    var w := Exec(acts);
    var begun := MerchantSnapshots.Next(w, Begin(session, e));
    OneMoreAction(acts, Begin(session, e));
    OneMoreAction(acts + [Begin(session, e)], Finish(session));
    assert acts + [Begin(session, e)] + [Finish(session)] == acts + [Begin(session, e), Finish(session)];
    assert begun.open[session] == Call(e, |w.log|, w.db);
  }

  lemma OneMoreAction(acts: seq<Action>, a: Action)
    ensures Exec(acts + [a]) == MerchantSnapshots.Next(Exec(acts), a)
  {
    assert (acts + [a])[..|acts|] == acts;
  }

  /** The commit has the event's id, or both write the state row of one transfer. */
  ghost predicate Taken(w: World, i: nat, e: Event, d: Decision)
    requires i < |w.log| == |w.wroteState| && d.Write?
  {
    || w.log[i].id == e.id
    || (d.answer == Received(false) && w.wroteState[i] && w.log[i].transactionId == e.transactionId)
  }

  /** A write is refused only if a later commit has its event id or wrote the state row it also writes, and then leaves nothing. */
  lemma RefusedExactly(acts: seq<Action>, session: nat)
    requires session in Exec(acts).open
    ensures var w, v := Exec(acts), MerchantSnapshots.Next(Exec(acts), Finish(session));
            var call := w.open[session];
            var d := Decide(call.snapshot, call.event);
            && session !in v.open
            && (v.replies == w.replies <==> d.Write? && exists i :: call.begun <= i < |w.log| && Taken(w, i, call.event, d))
            && (v.replies == w.replies ==> v.db == w.db && v.log == w.log)
  {
    hide Exec, Decide, Install;
    var w := Exec(acts);
    var call := w.open[session];
    var d := Decide(call.snapshot, call.event);
    if d.Write? {
      assert forall i :: call.begun <= i < |w.log| ==> (KeyTaken(w, i, call.event, d) <==> Taken(w, i, call.event, d)) by {
        IgnoredWritesNoState(call.snapshot, call.event);
      }
    }
  }

  lemma IgnoredWritesNoState(db: Database, e: Event)
    requires Decide(db, e).Write?
    ensures Decide(db, e).mirror.Some? <==> !Decide(db, e).answer.ignored
  {
  }
}
