/** The verify handler run alone, and sequences of such runs. */
module LoginDesk {
  import opened Options
  import opened LoginOtp
  import opened LoginOtpRuns

  datatype Outcome = Completed | WrongOrExpired | TooManyAttempts | AlreadyUsed | BackToLogin

  /** What one undisturbed verify request does to the challenge, and what it answers. */
  function VerifyAlone(accepts: Verifier, c: Option<Challenge>, id: nat, otp: string, now: int): (Option<Challenge>, Outcome) {
    if Accepted(accepts, c, Request(id, otp, Arrived), now) then (None, Completed)
    else if !Holds(c, id) then (c, WrongOrExpired)
    else if c.value.attempts + 1 >= MAX_ATTEMPTS then (None, TooManyAttempts)
    else (Some(c.value.(attempts := c.value.attempts + 1)), WrongOrExpired)
  }

  class Desk {
    /** The challenge fields of the account document. */
    var challenge: Option<Challenge>
    var lastOtpDate: string
    /** The challenge id in the session, absent once the login is complete. */
    var pending: Option<nat>

    constructor (challenge: Option<Challenge>, pending: Option<nat>)
      ensures this.challenge == challenge && this.pending == pending
    {
      this.challenge, this.pending, this.lastOtpDate := challenge, pending, "";
    }

    method PostVerify(accepts: Verifier, otp: string, now: int, today: string) returns (outcome: Outcome)
      modifies this
      ensures outcome != AlreadyUsed
      ensures outcome == BackToLogin <==> old(pending).None? || otp == ""
      ensures outcome == BackToLogin ==> challenge == old(challenge)
      ensures outcome != BackToLogin ==>
                (challenge, outcome) == VerifyAlone(accepts, old(challenge), old(pending).value, otp, now)
      ensures outcome == Completed <==>
                && old(pending).Some? && otp != "" && old(challenge).Some? && old(challenge).value.id == old(pending).value
                && now <= old(challenge).value.expires && accepts(otp, old(challenge).value.code)
      ensures outcome == TooManyAttempts <==>
                && outcome != BackToLogin && outcome != Completed && old(challenge).Some?
                && old(challenge).value.id == old(pending).value && old(challenge).value.attempts >= 4
      ensures outcome == Completed ==> pending == None && lastOtpDate == today
      ensures outcome != Completed ==> pending == old(pending) && lastOtpDate == old(lastOtpDate)
    {
      if pending.None? || otp == "" {
        return BackToLogin;
      }
      var id, account := pending.value, challenge;
      if !Accepted(accepts, account, Request(id, otp, Arrived), now) {
        if Holds(challenge, id) {
          challenge := Some(challenge.value.(attempts := challenge.value.attempts + 1));
          if challenge.value.attempts >= MAX_ATTEMPTS {
            if Holds(challenge, id) {
              challenge := None;
            }
            return TooManyAttempts;
          }
        }
        return WrongOrExpired;
      }
      if !(Holds(challenge, id) && challenge.value.code == account.value.code && challenge.value.expires >= now) {
        return AlreadyUsed;
      }
      challenge, lastOtpDate, pending := None, today, None;
      outcome := Completed;
    }
  }

  // ---------- sequences of undisturbed calls ----------

  datatype SeqCall = Wait(ms: nat) | NewChallenge(code: string) | DropChallenge | Verify(id: nat, otp: string)

  /** The steps of one call; a verify request makes at most three database calls. */
  function Steps(call: SeqCall, requests: nat): seq<Action> {
    match call
    case Wait(ms) => [Tick(ms)]
    case NewChallenge(code) => [Issue(code)]
    case DropChallenge => [Drop]
    case Verify(id, otp) => [Arrive(id, otp), Proceed(requests), Proceed(requests), Proceed(requests)]
  }

  function Script(calls: seq<SeqCall>): (seq<Action>, nat) {
    if calls == [] then ([], 0) else
      var (acts, n) := Script(calls[..|calls| - 1]);
      var call := calls[|calls| - 1];
      (acts + Steps(call, n), n + if call.Verify? then 1 else 0)
  }

  /** A verify request that nobody disturbs, step by step. */
  function VerifySteps(accepts: Verifier, w: World, id: nat, otp: string): World {
    var n := |w.requests|;
    var arrived := Next(accepts, w, Arrive(id, otp));
    var read := Call(accepts, arrived, n);
    var counted := Call(accepts, read, n);
    Call(accepts, counted, n)
  }

  lemma VerifyScript(accepts: Verifier, acts: seq<Action>, id: nat, otp: string)
    ensures var w := Exec(accepts, acts);
            Exec(accepts, acts + Steps(Verify(id, otp), |w.requests|)) == VerifySteps(accepts, w, id, otp)
  {
    hide Exec, Call;
    var n := |Exec(accepts, acts).requests|;
    var a1 := acts + [Arrive(id, otp)];
    var a2 := a1 + [Proceed(n)];
    var a3 := a2 + [Proceed(n)];
    assert acts + Steps(Verify(id, otp), n) == a3 + [Proceed(n)];
    OneMore(accepts, acts, Arrive(id, otp));
    OneMore(accepts, a1, Proceed(n));
    OneMore(accepts, a2, Proceed(n));
    OneMore(accepts, a3, Proceed(n));
    CallsKeepRequests(accepts, Exec(accepts, a1), n);
    CallsKeepRequests(accepts, Exec(accepts, a2), n);
    CallsKeepRequests(accepts, Exec(accepts, a3), n);
  }

  lemma CallsKeepRequests(accepts: Verifier, w: World, i: nat)
    requires i < |w.requests|
    ensures |Call(accepts, w, i).requests| == |w.requests|
  {
  }

  /** Undisturbed, the three database calls add up to `VerifyAlone`. */
  lemma StepsAreVerifyAlone(accepts: Verifier, w: World, id: nat, otp: string)
    ensures var v := VerifySteps(accepts, w, id, otp);
            && |v.requests| == |w.requests| + 1 && v.nextId == w.nextId && v.now == w.now
            && v.account == VerifyAlone(accepts, w.account, id, otp, w.now).0
            && (v.requests[|w.requests|].stage == LoggedIn <==> VerifyAlone(accepts, w.account, id, otp, w.now).1 == Completed)
            && (v.requests[|w.requests|].stage == Refused <==> VerifyAlone(accepts, w.account, id, otp, w.now).1 != Completed)
  {
  }

  /**
   What an undisturbed verify request does, field by field: it logs in exactly when the stored challenge is its own, has
   not expired and carries a code its submission matches, whatever the attempts; otherwise it counts against its own
   challenge, clears it with the fifth wrong code, and leaves any other challenge alone.
   */
  lemma UndisturbedVerifyExactly(accepts: Verifier, w: World, id: nat, otp: string)
    ensures var v, n := VerifySteps(accepts, w, id, otp), |w.requests|;
            && |v.requests| == n + 1 && v.now == w.now && v.nextId == w.nextId
            && (v.requests[n].stage == LoggedIn <==>
                  && w.account.Some? && w.account.value.id == id
                  && w.now <= w.account.value.expires && accepts(otp, w.account.value.code))
            && v.account ==
                 if w.account.None? || w.account.value.id != id then w.account
                 else if v.requests[n].stage == LoggedIn || w.account.value.attempts >= 4 then None
                 else Some(w.account.value.(attempts := w.account.value.attempts + 1))
  {
  }

  lemma StepsCountOnce(accepts: Verifier, w: World, id: nat, otp: string, other: nat)
    ensures var v := VerifySteps(accepts, w, id, otp);
            WrongCodes(v.history, other) == WrongCodes(w.history, other)
              + if other == id && Holds(w.account, id) && !Accepted(accepts, w.account, Request(id, otp, Arrived), w.now)
                then 1 else 0
  {
    hide WrongCodes;
    var v := VerifySteps(accepts, w, id, otp);
    LoggedEvent(w.history, WrongCode(id), other);
    LoggedEvent(w.history + [WrongCode(id)], Locked(id), other);
    if Accepted(accepts, w.account, Request(id, otp, Arrived), w.now) {
      LoggedEvent(w.history, v.history[|w.history|], other);
    }
  }

  /** Between calls a live challenge has at most four wrong codes against it, and no challenge ever has more than five. */
  ghost predicate Guessed(w: World) {
    && (w.account.Some? ==>
          && w.account.value.id < w.nextId
          && w.account.value.attempts == WrongCodes(w.history, w.account.value.id) < 5)
    && (forall id :: WrongCodes(w.history, id) <= 5)
    && (forall id :: id >= w.nextId ==> WrongCodes(w.history, id) == 0)
  }

  lemma VerifyKeepsGuessed(accepts: Verifier, w: World, id: nat, otp: string)
    requires Guessed(w)
    ensures Guessed(VerifySteps(accepts, w, id, otp))
  {
    hide WrongCodes, VerifySteps;
    var v := VerifySteps(accepts, w, id, otp);
    StepsAreVerifyAlone(accepts, w, id, otp);
    forall other: nat
      ensures WrongCodes(v.history, other) == WrongCodes(w.history, other)
                + if other == id && Holds(w.account, id) && !Accepted(accepts, w.account, Request(id, otp, Arrived), w.now)
                  then 1 else 0
    {
      StepsCountOnce(accepts, w, id, otp, other);
    }
  }

  lemma OtherCallKeepsGuessed(accepts: Verifier, w: World, a: Action)
    requires Guessed(w) && (a.Tick? || a.Issue? || a.Drop?)
    ensures Guessed(Next(accepts, w, a))
  {
    hide WrongCodes;
    var v := Next(accepts, w, a);
    if |v.history| > |w.history| {
      forall id: nat ensures WrongCodes(v.history, id) == WrongCodes(w.history, id) {
        LoggedEvent(w.history, v.history[|w.history|], id);
      }
    }
  }

  lemma {:induction false} ScriptKeepsGuessed(accepts: Verifier, calls: seq<SeqCall>)
    ensures Guessed(Exec(accepts, Script(calls).0))
    ensures |Exec(accepts, Script(calls).0).requests| == Script(calls).1
  {
    hide WrongCodes, Guessed, Exec, Next, Call, VerifySteps;
    if calls == [] {
      NothingGuessed(accepts);
    } else {
      var (acts, n) := Script(calls[..|calls| - 1]);
      var call := calls[|calls| - 1];
      ScriptKeepsGuessed(accepts, calls[..|calls| - 1]);
      var w := Exec(accepts, acts);
      match call
      case Verify(id, otp) =>
        VerifyScript(accepts, acts, id, otp);
        VerifyKeepsGuessed(accepts, w, id, otp);
        StepsAreVerifyAlone(accepts, w, id, otp);
      case _ =>
        var a := Steps(call, n)[0];
        assert acts + Steps(call, n) == acts + [a];
        OneMore(accepts, acts, a);
        OtherCallKeepsGuessed(accepts, w, a);
        OtherCallAddsNoRequest(accepts, w, a);
    }
  }

  lemma OtherCallAddsNoRequest(accepts: Verifier, w: World, a: Action)
    requires a.Tick? || a.Issue? || a.Drop?
    ensures |Next(accepts, w, a).requests| == |w.requests|
  {
  }

  lemma NothingGuessed(accepts: Verifier)
    ensures Guessed(Exec(accepts, [])) && Exec(accepts, []).requests == []
  {
  }

  /** When verify requests do not overlap, at most five wrong codes are ever counted against one challenge. */
  lemma AtMostFiveWrongCodes(accepts: Verifier, calls: seq<SeqCall>, id: nat)
    ensures WrongCodes(Exec(accepts, Script(calls).0).history, id) <= 5
  {
    ScriptKeepsGuessed(accepts, calls);
  }

  // ---------- the right code ----------

  /** The world after one undisturbed call. */
  function AfterCall(accepts: Verifier, w: World, call: SeqCall): World {
    match call
    case Wait(ms) => Next(accepts, w, Tick(ms))
    case NewChallenge(code) => Next(accepts, w, Issue(code))
    case DropChallenge => Next(accepts, w, Drop)
    case Verify(id, otp) => VerifySteps(accepts, w, id, otp)
  }

  lemma ScriptOneMore(accepts: Verifier, calls: seq<SeqCall>, call: SeqCall)
    ensures Exec(accepts, Script(calls + [call]).0) == AfterCall(accepts, Exec(accepts, Script(calls).0), call)
  {
    hide Exec, Next, VerifySteps;
    assert (calls + [call])[..|calls|] == calls;
    var acts := Script(calls).0;
    ScriptKeepsGuessed(accepts, calls);
    match call {
      case Wait(ms) => OneMore(accepts, acts, Tick(ms));
      case NewChallenge(code) => OneMore(accepts, acts, Issue(code));
      case DropChallenge => OneMore(accepts, acts, Drop);
      case Verify(id, otp) => VerifyScript(accepts, acts, id, otp);
    }
  }

  /** A challenge is issued and its own session submits these codes. */
  function IssueAndTry(before: seq<SeqCall>, id: nat, code: string, tries: seq<string>): seq<SeqCall> {
    if tries == [] then before + [NewChallenge(code)]
    else IssueAndTry(before, id, code, tries[..|tries| - 1]) + [Verify(id, tries[|tries| - 1])]
  }

  lemma {:induction false} TriesAreCounted(accepts: Verifier, before: seq<SeqCall>, id: nat, code: string, tries: seq<string>)
    requires id == Exec(accepts, Script(before).0).nextId
    requires forall i :: 0 <= i < |tries| ==> !accepts(tries[i], code)
    ensures var w, v := Exec(accepts, Script(before).0), Exec(accepts, Script(IssueAndTry(before, id, code, tries)).0);
            && v.now == w.now
            && v.account == if |tries| <= 4 then Some(Challenge(id, code, w.now + 300_000, |tries|)) else None
  {
    hide Exec, Script, VerifySteps;
    if tries == [] {
      ScriptOneMore(accepts, before, NewChallenge(code));
    } else {
      var most, last := tries[..|tries| - 1], tries[|tries| - 1];
      TriesAreCounted(accepts, before, id, code, most);
      var calls := IssueAndTry(before, id, code, most);
      ScriptOneMore(accepts, calls, Verify(id, last));
      UndisturbedVerifyExactly(accepts, Exec(accepts, Script(calls).0), id, last);
    }
  }

  /**
   After an issue and any number of wrong codes, the right code logs in exactly if there were at most four of them and at
   most five minutes have passed.
   */
  lemma RightCodeLogsInExactly(accepts: Verifier, before: seq<SeqCall>, code: string, tries: seq<string>, ms: nat, right: string)
    requires forall i :: 0 <= i < |tries| ==> !accepts(tries[i], code)
    requires accepts(right, code)
    ensures var id := Exec(accepts, Script(before).0).nextId;
            var tried := IssueAndTry(before, id, code, tries) + [Wait(ms)];
            var w := Exec(accepts, Script(tried + [Verify(id, right)]).0);
            && w.requests != []
            && (w.requests[|w.requests| - 1].stage == LoggedIn <==> |tries| <= 4 && ms <= 300_000)
  {
    hide Exec, Script, VerifySteps;
    var id := Exec(accepts, Script(before).0).nextId;
    var calls := IssueAndTry(before, id, code, tries);
    TriesAreCounted(accepts, before, id, code, tries);
    ScriptOneMore(accepts, calls, Wait(ms));
    ScriptOneMore(accepts, calls + [Wait(ms)], Verify(id, right));
    UndisturbedVerifyExactly(accepts, Exec(accepts, Script(calls + [Wait(ms)]).0), id, right);
  }

  /** Once the stored challenge is dropped, no code logs in before another challenge is issued. */
  lemma DroppedChallengeIsGone(accepts: Verifier, before: seq<SeqCall>, id: nat, otp: string)
    ensures var w := Exec(accepts, Script(before + [DropChallenge] + [Verify(id, otp)]).0);
            w.account == None && w.requests != [] && w.requests[|w.requests| - 1].stage != LoggedIn
  {
    hide Exec, Script, VerifySteps;
    ScriptOneMore(accepts, before, DropChallenge);
    ScriptOneMore(accepts, before + [DropChallenge], Verify(id, otp));
    UndisturbedVerifyExactly(accepts, Exec(accepts, Script(before + [DropChallenge]).0), id, otp);
  }
}
