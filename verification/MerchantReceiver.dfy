/**
 The receiver's `apply` as the program writes it: a retry loop around a
 transaction body that runs on a snapshot. While an attempt is open, other
 calls may commit deliveries of their own.
 */
module MerchantReceiver {
  import opened Options
  import opened MerchantEvents

  /** What other calls commit during one run of the transaction body, and whether a conflict it causes is retried inside the transaction runner or surfaces as a duplicate key. */
  datatype Round = Round(commits: seq<Event>, transient: bool)

  datatype Outcome = Replied(answer: Answer) | Fault(answer: Answer) | DuplicateKey | Busy

  const MAX_ATTEMPTS := 8

  /** Everything the other calls commit during the given rounds. */
  function AllCommits(rounds: seq<Round>): seq<Event> {
    if rounds == [] then [] else AllCommits(rounds[..|rounds| - 1]) + rounds[|rounds| - 1].commits
  }

  /** The rounds whose conflict surfaces as a duplicate key. */
  function Surfacing(rounds: seq<Round>): nat {
    if rounds == [] then 0 else Surfacing(rounds[..|rounds| - 1]) + if rounds[|rounds| - 1].transient then 0 else 1
  }

  predicate RowChanged(before: Database, after: Database, tx: string) {
    || (tx in before.states) != (tx in after.states)
    || (tx in before.states && tx in after.states && before.states[tx] != after.states[tx])
  }

  /** First-committer-wins on the two unique keys of a write set. */
  predicate LosesRace(before: Database, after: Database, e: Event, d: Decision) {
    || (e.id in before.inbox) != (e.id in after.inbox)
    || (d.Write? && d.mirror.Some? && RowChanged(before, after, e.transactionId))
  }

  lemma WinnerDecidesAsNow(before: Database, commits: seq<Event>, e: Event)
    requires Decide(before, e).Write?
    requires !LosesRace(before, Replay(before, commits), e, Decide(before, e))
    ensures Decide(Replay(before, commits), e) == Decide(before, e)
  {
    hide Decide, Replay;
    if Decide(before, e).mirror.Some? {
      SameKeysSameDecision(before, Replay(before, commits), e);
    } else {
      StaleDecisionStaysRight(before, commits, e);
    }
  }

  /** The answer is the one a serial receiver gives at the call's own place among the committed deliveries. */
  ghost predicate AnswersSerially(start: Database, history: seq<Event>, e: Event, answer: Answer) {
    if answer.Received? then
      && history != [] && history[|history| - 1] == e
      && Decide(Replay(start, history[..|history| - 1]), e).answer == answer
    else
      exists k :: 0 <= k <= |history| && Decide(Replay(start, history[..k]), e) == Unchanged(answer)
  }

  lemma ReadAnswersSerially(start: Database, before: seq<Event>, during: seq<Event>, e: Event)
    requires Decide(Replay(start, before), e).Unchanged?
    ensures AnswersSerially(start, before + during + [], e, Decide(Replay(start, before), e).answer)
  {
    hide Replay;
    var history := before + during + [];
    assert history[..|before|] == before;
    assert Decide(Replay(start, history[..|before|]), e) == Unchanged(Decide(Replay(start, before), e).answer);
  }

  lemma WriteAnswersSerially(start: Database, history: seq<Event>, e: Event)
    requires Decide(Replay(start, history), e).Write?
    ensures AnswersSerially(start, history + [e], e, Decide(Replay(start, history), e).answer)
    ensures Install(Replay(start, history), e, Decide(Replay(start, history), e)) == Replay(start, history + [e])
  {
    hide Decide, Install;
    assert (history + [e])[..|history|] == history;
  }

  lemma UnchangedAnswers(db: Database, e: Event)
    requires Decide(db, e).Unchanged?
    ensures Decide(db, e).answer in {Duplicate, EventIdConflict, TerminalStateConflict}
  {
  }

  lemma NothingCommitted(db: Database)
    ensures AllCommits([]) == [] && Replay(db, []) == db
  {
  }

  lemma NoRaceAlone(db: Database, e: Event, d: Decision)
    ensures !LosesRace(db, db, e, d)
  {
  }

  lemma AllCommitsOfOneMore(rounds: seq<Round>, round: nat)
    requires round < |rounds|
    ensures AllCommits(rounds[..round + 1]) == AllCommits(rounds[..round]) + rounds[round].commits
    ensures Surfacing(rounds[..round + 1]) == Surfacing(rounds[..round]) + if rounds[round].transient then 0 else 1
  {
    assert rounds[..round + 1][..round] == rounds[..round];
  }

  lemma KnownIdAnswer(db: Database, e: Event)
    ensures e.id in db.inbox ==>
              Decide(db, e) == Unchanged(if db.inbox[e.id].bodyHash == e.bodyHash then Duplicate else EventIdConflict)
    ensures e.id !in db.inbox ==> Decide(db, e).answer !in {Duplicate, EventIdConflict}
  {
  }

  /** The commits wrote the inbox row or, possibly, the state row of the event. */
  predicate Touch(commits: seq<Event>, e: Event) {
    exists c :: c in commits && (c.id == e.id || c.transactionId == e.transactionId)
  }

  /** A race is only lost to a commit on one of the call's own keys. */
  lemma {:induction false} LostToOwnKeys(before: Database, commits: seq<Event>, e: Event, d: Decision)
    requires LosesRace(before, Replay(before, commits), e, d)
    ensures Touch(commits, e)
  {
    if !Touch(commits, e) {
      UntouchedRows(before, commits, e);
    }
  }

  lemma {:induction false} UntouchedRows(before: Database, commits: seq<Event>, e: Event)
    requires !Touch(commits, e)
    ensures var after := Replay(before, commits);
            && (e.id in before.inbox <==> e.id in after.inbox)
            && !RowChanged(before, after, e.transactionId)
  {
    if commits != [] {
      var rest, c := commits[..|commits| - 1], commits[|commits| - 1];
      assert c in commits && forall x :: x in rest ==> x in commits;
      UntouchedRows(before, rest, e);
    }
  }

  lemma InstallsReceipt(db: Database, e: Event)
    requires Decide(db, e).Write?
    ensures var next := Install(db, e, Decide(db, e));
            && e.id !in db.inbox && e.id in next.inbox
            && next.inbox[e.id] == Receipt(e.bodyHash, e.transactionId, Decide(db, e).answer.ignored)
  {
  }

  class Receiver {
    var inbox: map<string, Receipt>
    var states: map<string, Mirror>

    constructor ()
      ensures Db() == EMPTY
    {
      inbox, states := map[], map[];
    }

    function Db(): Database
      reads this
    {
      Database(inbox, states)
    }

    /** Other calls commit their deliveries; each commit is serial (see MerchantSnapshots). */
    method OthersCommit(commits: seq<Event>)
      modifies this
      ensures Db() == Replay(old(Db()), commits)
    {
      for i := 0 to |commits|
        invariant Db() == Replay(old(Db()), commits[..i])
      {
        assert commits[..i + 1][..i] == commits[..i];
        var next := Step(Db(), commits[i]);
        inbox, states := next.inbox, next.states;
      }
      assert commits[..|commits|] == commits;
    }

    /**
     One delivery. It either leaves one receipt (and at most one state write)
     at its place in the commit order or leaves nothing, whatever the other
     calls do; the RECEIVER_BUSY exit is never taken, and a duplicate key
     escapes only when the eighth race on the call's own keys is lost to one.
     */
    method Apply(e: Event, rounds: seq<Round>) returns (outcome: Outcome, ghost used: nat)
      modifies this
      ensures used <= |rounds|
      ensures !outcome.Busy?
      ensures outcome.DuplicateKey? ==> Surfacing(rounds[..used]) == 8 && Db() == Replay(old(Db()), AllCommits(rounds[..used]))
      ensures outcome.Replied? || outcome.Fault? ==>
                var wrote := outcome.answer.Received?;
                var history := AllCommits(rounds[..used]) + if wrote then [e] else [];
                && Db() == Replay(old(Db()), history)
                && AnswersSerially(old(Db()), history, e, outcome.answer)
                && (outcome.Fault? <==> outcome.answer in {EventIdConflict, TerminalStateConflict})
      ensures e.id in old(inbox) ==>
                outcome == if old(inbox)[e.id].bodyHash == e.bodyHash then Replied(Duplicate) else Fault(EventIdConflict)
      ensures outcome == Replied(Duplicate) ==> e.id in inbox && inbox[e.id].bodyHash == e.bodyHash
      ensures outcome == Fault(EventIdConflict) ==> e.id in inbox && inbox[e.id].bodyHash != e.bodyHash
      ensures outcome.Replied? && outcome.answer.Received? ==>
                e.id in inbox && inbox[e.id] == Receipt(e.bodyHash, e.transactionId, outcome.answer.ignored)
      ensures outcome.DuplicateKey? ==> forall i :: 0 <= i < used ==> Touch(rounds[i].commits, e)
    {
      hide Decide, Install, Replay, AllCommits, LosesRace, AnswersSerially, Touch;
      used := 0;
      var attempt, round := 0, 0;
      assert rounds[..0] == [];
      NothingCommitted(Db());
      while attempt < MAX_ATTEMPTS
        invariant attempt <= round <= |rounds| && used == round && attempt <= MAX_ATTEMPTS
        invariant attempt < MAX_ATTEMPTS
        invariant Db() == Replay(old(Db()), AllCommits(rounds[..round]))
        invariant attempt == Surfacing(rounds[..round])
        invariant round > 0 ==> e.id !in old(inbox)
        invariant forall i :: 0 <= i < round ==> Touch(rounds[i].commits, e)
        decreases MAX_ATTEMPTS - attempt, |rounds| - round
      {
        var snapshot := Db();
        var transient := false;
        ghost var before := AllCommits(rounds[..round]);
        ghost var during: seq<Event> := [];
        if round < |rounds| {
          during := rounds[round].commits;
          OthersCommit(rounds[round].commits);
          transient := rounds[round].transient;
          AllCommitsOfOneMore(rounds, round);
          round, used := round + 1, used + 1;
        }
        NothingCommitted(snapshot);
        assert AllCommits(rounds[..round]) == before + during;
        ReplayAppends(old(Db()), before, during);
        var d := Decide(snapshot, e);
        KnownIdAnswer(snapshot, e);
        HistoryOnlyClimbs(old(Db()), before);
        HistoryOnlyClimbs(snapshot, during);
        if d.Unchanged? {
          ReadAnswersSerially(old(Db()), before, during, e);
          UnchangedAnswers(snapshot, e);
          assert before + during + [] == before + during;
          outcome := if d.answer == Duplicate then Replied(d.answer) else Fault(d.answer);
          return;
        }
        NoRaceAlone(snapshot, e, d);
        if LosesRace(snapshot, Db(), e, d) {
          LostToOwnKeys(snapshot, during, e, d);
          if transient {
            continue;
          }
          if attempt < MAX_ATTEMPTS - 1 {
            attempt := attempt + 1;
            continue;
          }
          outcome := DuplicateKey;
          return;
        }
        WinnerDecidesAsNow(snapshot, during, e);
        WriteAnswersSerially(old(Db()), before + during, e);
        InstallsReceipt(Db(), e);
        var next := Install(Db(), e, d);
        inbox, states := next.inbox, next.states;
        outcome := Replied(d.answer);
        return;
      }
      assert false;
      outcome := Busy;
    }
  }
}
