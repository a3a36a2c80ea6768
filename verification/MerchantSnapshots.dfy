/**
 Concurrent deliveries. Every call runs its transaction body on a snapshot and
 commits under first-committer-wins: the commit is refused when a transaction
 that committed after the snapshot wrote one of the same unique keys.
 */
module MerchantSnapshots {
  import opened Options
  import opened MerchantEvents

  /** A transaction in progress: its snapshot holds the first `begun` commits. */
  datatype Call = Call(event: Event, begun: nat, snapshot: Database)

  /** An answered call, open while the log grew from `begun` to `ended` commits. */
  datatype Reply = Reply(event: Event, answer: Answer, begun: nat, ended: nat)

  /** `log` holds the committed deliveries and `wroteState[i]` says whether commit i wrote its state row. */
  datatype World = World(
    db: Database,
    log: seq<Event>,
    wroteState: seq<bool>,
    open: map<nat, Call>,
    replies: seq<Reply>)

  const START := World(EMPTY, [], [], map[], [])

  datatype Action = Begin(session: nat, event: Event) | Finish(session: nat) | Abort(session: nat)

  predicate KeyTaken(w: World, i: nat, e: Event, d: Decision)
    requires i < |w.log| == |w.wroteState|
    requires d.Write?
  {
    || w.log[i].id == e.id
    || (d.mirror.Some? && w.wroteState[i] && w.log[i].transactionId == e.transactionId)
  }

  /** Some later commit already wrote the inbox key or the state key of this write set. */
  predicate Conflict(w: World, call: Call, d: Decision)
    requires |w.log| == |w.wroteState| && d.Write?
  {
    exists i :: call.begun <= i < |w.log| && KeyTaken(w, i, call.event, d)
  }

  function Close(w: World, session: nat): World {
    w.(open := w.open - {session})
  }

  function Next(w: World, a: Action): World
    requires |w.log| == |w.wroteState|
  {
    match a
    case Begin(session, e) =>
      if session in w.open then w else w.(open := w.open[session := Call(e, |w.log|, w.db)])
    case Abort(session) =>
      Close(w, session)
    case Finish(session) =>
      if session !in w.open then w else
        var call := w.open[session];
        var d := Decide(call.snapshot, call.event);
        if d.Unchanged? then
          Close(w, session).(replies := w.replies + [Reply(call.event, d.answer, call.begun, |w.log|)])
        else if Conflict(w, call, d) then
          Close(w, session)
        else
          World(Install(w.db, call.event, d), w.log + [call.event], w.wroteState + [d.mirror.Some?],
                w.open - {session}, w.replies + [Reply(call.event, d.answer, call.begun, |w.log| + 1)])
  }

  /** Any interleaving of any number of calls; an action of a session that cannot take it does nothing. */
  function Exec(acts: seq<Action>): (w: World)
    ensures |w.log| == |w.wroteState|
  {
    if acts == [] then START else Next(Exec(acts[..|acts| - 1]), acts[|acts| - 1])
  }

  // ---------- serialisability ----------

  /** The database after the first k commits, applied one at a time. */
  ghost function At(log: seq<Event>, k: nat): Database
    requires k <= |log|
  {
    Replay(EMPTY, log[..k])
  }

  /** A write answers as it would at its place in the commit order, anything else as it would when it began. */
  ghost predicate Linearized(log: seq<Event>, r: Reply) {
    && r.begun <= r.ended <= |log|
    && (if r.answer.Received?
        then r.begun < r.ended && log[r.ended - 1] == r.event
             && Decide(At(log, r.ended - 1), r.event).answer == r.answer
        else Decide(At(log, r.begun), r.event) == Unchanged(r.answer))
  }

  ghost predicate HonestLog(w: World) {
    && |w.log| == |w.wroteState|
    && w.db == Replay(EMPTY, w.log)
    && forall i :: 0 <= i < |w.log| ==>
         && Decide(At(w.log, i), w.log[i]).Write?
         && Decide(At(w.log, i), w.log[i]).mirror.Some? == w.wroteState[i]
  }

  ghost predicate Consistent(w: World) {
    && HonestLog(w)
    && (forall s :: s in w.open ==> w.open[s].begun <= |w.log| && w.open[s].snapshot == At(w.log, w.open[s].begun))
    && (forall j :: 0 <= j < |w.replies| ==> Linearized(w.log, w.replies[j]))
  }

  lemma StepLeavesKeys(db: Database, f: Event, e: Event)
    requires f.id != e.id
    ensures e.id in Step(db, f).inbox <==> e.id in db.inbox
    ensures f.transactionId != e.transactionId || (Decide(db, f).Write? && Decide(db, f).mirror.None?) ==>
              && (e.transactionId in Step(db, f).states <==> e.transactionId in db.states)
              && (e.transactionId in db.states ==> Step(db, f).states[e.transactionId] == db.states[e.transactionId])
  {
  }

  /** Commits that leave a key alone leave what a later reader finds under it. */
  lemma {:induction false} UntouchedKeys(w: World, from: nat, upto: nat, e: Event, state: bool)
    requires HonestLog(w) && from <= upto <= |w.log|
    requires forall i :: from <= i < upto ==> w.log[i].id != e.id
    requires state ==> forall i :: from <= i < upto && w.wroteState[i] ==> w.log[i].transactionId != e.transactionId
    ensures e.id in At(w.log, upto).inbox <==> e.id in At(w.log, from).inbox
    ensures state ==> (e.transactionId in At(w.log, upto).states <==> e.transactionId in At(w.log, from).states)
    ensures state && e.transactionId in At(w.log, from).states ==>
              At(w.log, upto).states[e.transactionId] == At(w.log, from).states[e.transactionId]
    decreases upto
  {
    hide Decide, Step, Replay, At;
    if from < upto {
      UntouchedKeys(w, from, upto - 1, e, state);
      AtGrows(w.log, upto - 1);
      StepLeavesKeys(At(w.log, upto - 1), w.log[upto - 1], e);
      assert Decide(At(w.log, upto - 1), w.log[upto - 1]).Write?;
    }
  }

  lemma AtGrows(log: seq<Event>, k: nat)
    requires k < |log|
    ensures At(log, k + 1) == Step(At(log, k), log[k])
  {
    assert log[..k + 1][..k] == log[..k];
  }

  /** A commit that writes its state row found both keys untouched. */
  lemma StateWriteDecidesAsNow(w: World, call: Call)
    requires HonestLog(w)
    requires call.begun <= |w.log| && call.snapshot == At(w.log, call.begun)
    requires Decide(call.snapshot, call.event).Write? && Decide(call.snapshot, call.event).mirror.Some?
    requires !Conflict(w, call, Decide(call.snapshot, call.event))
    ensures Decide(At(w.log, |w.log|), call.event) == Decide(call.snapshot, call.event)
  {
    hide Decide, Replay;
    NoKeyTaken(w, call);
    UntouchedKeys(w, call.begun, |w.log|, call.event, true);
    SameKeysSameDecision(call.snapshot, At(w.log, |w.log|), call.event);
  }

  /** A commit that only adds an inbox row decided on a state that may be stale, and is right all the same. */
  lemma InboxWriteDecidesAsNow(w: World, call: Call)
    requires HonestLog(w)
    requires call.begun <= |w.log| && call.snapshot == At(w.log, call.begun)
    requires Decide(call.snapshot, call.event).Write? && Decide(call.snapshot, call.event).mirror.None?
    requires !Conflict(w, call, Decide(call.snapshot, call.event))
    ensures Decide(At(w.log, |w.log|), call.event) == Decide(call.snapshot, call.event)
  {
    hide Decide, Replay;
    NoKeyTaken(w, call);
    UntouchedKeys(w, call.begun, |w.log|, call.event, false);
    assert w.log[..call.begun] + w.log[call.begun..] == w.log == w.log[..|w.log|];
    ReplayAppends(EMPTY, w.log[..call.begun], w.log[call.begun..]);
    StaleDecisionStaysRight(call.snapshot, w.log[call.begun..], call.event);
  }

  lemma NoKeyTaken(w: World, call: Call)
    requires |w.log| == |w.wroteState|
    requires Decide(call.snapshot, call.event).Write?
    requires !Conflict(w, call, Decide(call.snapshot, call.event))
    ensures forall i :: call.begun <= i < |w.log| ==> w.log[i].id != call.event.id
    ensures Decide(call.snapshot, call.event).mirror.Some? ==>
              forall i :: call.begun <= i < |w.log| && w.wroteState[i] ==> w.log[i].transactionId != call.event.transactionId
  {
    var d := Decide(call.snapshot, call.event);
    forall i | call.begun <= i < |w.log|
      ensures w.log[i].id != call.event.id
      ensures d.mirror.Some? && w.wroteState[i] ==> w.log[i].transactionId != call.event.transactionId
    {
      assert !KeyTaken(w, i, call.event, d);
    }
  }

  lemma AtPrefix(log: seq<Event>, e: Event, k: nat)
    requires k <= |log|
    ensures At(log + [e], k) == At(log, k)
  {
    assert (log + [e])[..k] == log[..k];
  }

  lemma CommitDecidesAsNow(w: World, session: nat)
    requires HonestLog(w) && session in w.open && Commits(w, session)
    requires w.open[session].begun <= |w.log| && w.open[session].snapshot == At(w.log, w.open[session].begun)
    ensures var call := w.open[session];
            Decide(At(w.log, |w.log|), call.event) == Decide(call.snapshot, call.event)
  {
    var call := w.open[session];
    if Decide(call.snapshot, call.event).mirror.Some? {
      StateWriteDecidesAsNow(w, call);
    } else {
      InboxWriteDecidesAsNow(w, call);
    }
  }

  lemma CommitKeepsLog(w: World, after: World, e: Event, d: Decision)
    requires HonestLog(w) && d.Write? && Decide(At(w.log, |w.log|), e) == d
    requires after.log == w.log + [e] && after.wroteState == w.wroteState + [d.mirror.Some?]
    requires after.db == Install(w.db, e, d)
    ensures HonestLog(after)
    ensures forall k :: 0 <= k <= |w.log| ==> At(after.log, k) == At(w.log, k)
  {
    var n := |w.log|;
    forall k | 0 <= k <= n ensures At(after.log, k) == At(w.log, k) {
      AtPrefix(w.log, e, k);
    }
    AtGrows(after.log, n);
    assert w.log[..n] == w.log && after.log[..n + 1] == after.log;
    forall i | 0 <= i <= n
      ensures Decide(At(after.log, i), after.log[i]).Write?
      ensures Decide(At(after.log, i), after.log[i]).mirror.Some? == after.wroteState[i]
    {
      assert At(after.log, i) == At(w.log, i);
    }
  }

  predicate Commits(w: World, session: nat)
    requires |w.log| == |w.wroteState| && session in w.open
  {
    var d := Decide(w.open[session].snapshot, w.open[session].event);
    d.Write? && !Conflict(w, w.open[session], d)
  }

  lemma CommitConsistent(w: World, session: nat)
    requires Consistent(w) && session in w.open && Commits(w, session)
    ensures Consistent(Next(w, Finish(session)))
  {
    hide Decide, Install, Replay, At, Conflict;
    var call, after := w.open[session], Next(w, Finish(session));
    CommitDecidesAsNow(w, session);
    CommitKeepsLog(w, after, call.event, Decide(call.snapshot, call.event));
    forall j | 0 <= j < |w.replies| ensures Linearized(after.log, w.replies[j]) {
      LinearizedSurvives(w.log, call.event, w.replies[j]);
    }
    assert Linearized(after.log, after.replies[|w.replies|]);
  }

  lemma NextConsistent(w: World, a: Action)
    requires Consistent(w)
    ensures Consistent(Next(w, a))
  {
    hide Decide, Install, Replay;
    assert w.log[..|w.log|] == w.log;
    if a.Finish? && a.session in w.open {
      if Commits(w, a.session) {
        CommitConsistent(w, a.session);
      } else {
        var call := w.open[a.session];
        if Decide(call.snapshot, call.event).Unchanged? {
          assert Linearized(w.log, Reply(call.event, Decide(call.snapshot, call.event).answer, call.begun, |w.log|));
        }
      }
    }
  }

  lemma LinearizedSurvives(log: seq<Event>, e: Event, r: Reply)
    requires Linearized(log, r)
    ensures Linearized(log + [e], r)
  {
    AtPrefix(log, e, r.begun);
    if r.answer.Received? {
      AtPrefix(log, e, r.ended - 1);
    }
  }

  lemma {:induction false} ExecConsistent(acts: seq<Action>)
    ensures Consistent(Exec(acts))
  {
    if acts != [] {
      ExecConsistent(acts[..|acts| - 1]);
      NextConsistent(Exec(acts[..|acts| - 1]), acts[|acts| - 1]);
    }
  }

  lemma ReceiptStays(w: World, i: nat, k: nat)
    requires HonestLog(w) && i < k <= |w.log|
    ensures Decide(At(w.log, i), w.log[i]).Write?
    ensures w.log[i].id in At(w.log, k).inbox
    ensures At(w.log, k).inbox[w.log[i].id] == Decide(At(w.log, i), w.log[i]).receipt
    ensures k < |w.log| ==> w.log[i].id != w.log[k].id
  {
    hide Decide, Replay;
    AtGrows(w.log, i);
    ReceiptWritten(At(w.log, i), w.log[i]);
    assert w.log[..i + 1] + w.log[i + 1..k] == w.log[..k];
    ReplayAppends(EMPTY, w.log[..i + 1], w.log[i + 1..k]);
    HistoryOnlyClimbs(At(w.log, i + 1), w.log[i + 1..k]);
    if k < |w.log| {
      assert Decide(At(w.log, k), w.log[k]).Write?;
      KnownIdIsNotWritten(At(w.log, k), w.log[k]);
    }
  }

  lemma ReceiptWritten(db: Database, e: Event)
    requires Decide(db, e).Write?
    ensures e.id in Step(db, e).inbox && Step(db, e).inbox[e.id] == Decide(db, e).receipt
  {
  }

  lemma KnownIdIsNotWritten(db: Database, e: Event)
    ensures Decide(db, e).Write? ==> e.id !in db.inbox
  {
  }

  /** The answer is the one a serial receiver gives at some moment between the call's begin and end. */
  ghost predicate AnsweredInTime(log: seq<Event>, r: Reply) {
    exists k :: r.begun <= k <= r.ended <= |log| && Decide(At(log, k), r.event).answer == r.answer
  }

  /** Commit i wrote what the serial replay writes there, ignored flag included, and its receipt is still in the inbox. */
  ghost predicate CommittedSerially(w: World, i: nat)
    requires i < |w.log|
  {
    var d := Decide(At(w.log, i), w.log[i]);
    d.Write? && w.log[i].id in w.db.inbox && w.db.inbox[w.log[i].id] == d.receipt
  }

  lemma CommitsAreSerial(w: World, i: nat)
    requires HonestLog(w) && i < |w.log|
    ensures CommittedSerially(w, i)
    ensures forall j :: i < j < |w.log| ==> w.log[i].id != w.log[j].id
  {
    hide Decide, Replay, HonestLog;
    ReceiptStays(w, i, |w.log|);
    HonestDatabase(w);
    forall j | i < j < |w.log|
      ensures w.log[i].id != w.log[j].id
    {
      ReceiptStays(w, i, j);
    }
  }

  lemma HonestDatabase(w: World)
    requires HonestLog(w)
    ensures w.db == At(w.log, |w.log|) == Replay(EMPTY, w.log)
  {
    assert w.log[..|w.log|] == w.log;
  }

  lemma LinearizedInTime(log: seq<Event>, r: Reply)
    requires Linearized(log, r)
    ensures AnsweredInTime(log, r)
  {
    hide Decide, At;
    var k := if r.answer.Received? then r.ended - 1 else r.begun;
    assert Decide(At(log, k), r.event).answer == r.answer;
  }

  /**
   Strict serialisability under snapshot isolation. However calls interleave,
   the database is the serial replay of the committed deliveries, every commit
   wrote what the serial replay writes there (ignored flag included), and every
   answer is the serial answer at a moment while the call was open.
   */
  lemma SnapshotRunsAreSerial(acts: seq<Action>)
    ensures var w := Exec(acts);
            && w.db == Replay(EMPTY, w.log)
            && (forall i :: 0 <= i < |w.log| ==> CommittedSerially(w, i))
            && (forall i, j :: 0 <= i < j < |w.log| ==> w.log[i].id != w.log[j].id)
            && (forall j :: 0 <= j < |w.replies| ==> AnsweredInTime(w.log, w.replies[j]))
  {
    hide Exec, Decide, Replay, HonestLog, CommittedSerially, AnsweredInTime, Linearized;
    ExecConsistent(acts);
    var w := Exec(acts);
    HonestDatabase(w);
    forall i | 0 <= i < |w.log|
      ensures CommittedSerially(w, i) && forall j :: i < j < |w.log| ==> w.log[i].id != w.log[j].id
    {
      CommitsAreSerial(w, i);
    }
    forall j | 0 <= j < |w.replies|
      ensures AnsweredInTime(w.log, w.replies[j])
    {
      LinearizedInTime(w.log, w.replies[j]);
    }
  }

  lemma {:induction false} RunExtendsLog(acts: seq<Action>, more: seq<Action>)
    ensures Exec(acts).log <= Exec(acts + more).log
  {
    hide Decide, Conflict;
    if more == [] {
      assert acts + more == acts;
    } else {
      assert (acts + more)[..|acts + more| - 1] == acts + more[..|more| - 1];
      RunExtendsLog(acts, more[..|more| - 1]);
    }
  }

  /**
   What the concurrent runs keep: receipts are permanent, a transfer only climbs,
   a terminal status is never left, and the applied counter is the number of
   non-ignored inbox rows and at most four.
   */
  lemma SnapshotRunsOnlyClimb(acts: seq<Action>, more: seq<Action>)
    ensures var earlier, later := Exec(acts).db, Exec(acts + more).db;
            && Climbed(earlier, later)
            && forall tx :: tx in later.states ==> later.states[tx].appliedCount == |AppliedTo(later, tx)| <= 4
  {
    hide Decide, Replay;
    var w, v := Exec(acts), Exec(acts + more);
    ExecConsistent(acts);
    ExecConsistent(acts + more);
    RunExtendsLog(acts, more);
    assert w.log + v.log[|w.log|..] == v.log;
    ReplayAppends(EMPTY, w.log, v.log[|w.log|..]);
    HistoryOnlyClimbs(w.db, v.log[|w.log|..]);
    AppliedCountIsTheInbox(v.log);
  }
}
