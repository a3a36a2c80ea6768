/** What every run of the login code protocol keeps. */
module LoginOtpRuns {
  import opened Options
  import opened LoginOtp

  lemma OneMore(accepts: Verifier, acts: seq<Action>, a: Action)
    ensures Exec(accepts, acts + [a]) == Next(accepts, Exec(accepts, acts), a)
  {
    assert (acts + [a])[..|acts|] == acts;
  }

  lemma LoggedEvent(history: seq<Event>, e: Event, id: nat)
    ensures WrongCodes(history + [e], id) == WrongCodes(history, id) + if e == WrongCode(id) then 1 else 0
  {
    assert (history + [e])[..|history|] == history;
  }

  lemma {:induction false} NeverCounted(history: seq<Event>, id: nat)
    requires forall p :: 0 <= p < |history| ==> history[p] != WrongCode(id)
    ensures WrongCodes(history, id) == 0
  {
    if history != [] {
      NeverCounted(history[..|history| - 1], id);
    }
  }

  lemma LiveAfterCount(history: seq<Event>, e: Event, c: Challenge, c': Challenge)
    requires LiveSinceIssue(history, c) && !Closes(e)
    requires c'.id == c.id && c'.code == c.code && c'.expires == c.expires
    ensures LiveSinceIssue(history + [e], c')
  {
    var r :| 0 <= r < |history| && history[r] == Issued(c.id, c.code, c.expires)
             && forall p :: r < p < |history| ==> !Closes(history[p]);
    assert (history + [e])[r] == Issued(c'.id, c'.code, c'.expires);
  }

  lemma LiveAtIssue(history: seq<Event>, c: Challenge)
    ensures LiveSinceIssue(history + [Issued(c.id, c.code, c.expires)], c)
  {
    assert (history + [Issued(c.id, c.code, c.expires)])[|history|] == Issued(c.id, c.code, c.expires);
  }

  /** Old consumptions stay honest when requests move on and events are added. */
  lemma HonestLoginsStay(accepts: Verifier, w: World, requests: seq<Request>, e: Event)
    requires forall q :: 0 <= q < |w.history| && w.history[q].Consumed? ==> HonestLogin(accepts, w.requests, w.history, q)
    requires |w.requests| <= |requests|
    requires forall i :: 0 <= i < |w.requests| && w.requests[i].stage.LoggedIn? ==> requests[i] == w.requests[i]
    ensures forall q :: 0 <= q < |w.history| && w.history[q].Consumed? ==> HonestLogin(accepts, requests, w.history, q)
    ensures forall q :: 0 <= q < |w.history| && w.history[q].Consumed? ==> HonestLogin(accepts, requests, w.history + [e], q)
  {
    hide LiveSinceIssue;
    forall q | 0 <= q < |w.history| && w.history[q].Consumed?
      ensures HonestLogin(accepts, requests, w.history, q) && HonestLogin(accepts, requests, w.history + [e], q)
    {
      assert HonestLogin(accepts, w.requests, w.history, q);
      assert (w.history + [e])[..q] == w.history[..q];
    }
  }

  ghost predicate LoginsHonest(accepts: Verifier, w: World) {
    && (forall i :: 0 <= i < |w.requests| ==> RequestSound(accepts, w, i))
    && (forall q :: 0 <= q < |w.history| && w.history[q].Consumed? ==> HonestLogin(accepts, w.requests, w.history, q))
  }

  /** A step that is not a login: nobody logs in, and requests only move. */
  lemma QuietStepKeepsLogins(accepts: Verifier, w: World, w': World, e: Event)
    requires LoginsHonest(accepts, w)
    requires w'.history == w.history || (w'.history == w.history + [e] && !e.Consumed?)
    requires |w.requests| <= |w'.requests|
    requires forall i :: 0 <= i < |w.requests| && w.requests[i].stage.LoggedIn? ==> w'.requests[i] == w.requests[i]
    requires forall i :: 0 <= i < |w'.requests| && w'.requests[i].stage.LoggedIn? ==> i < |w.requests| && w.requests[i].stage.LoggedIn?
    requires forall i :: 0 <= i < |w'.requests| && w'.requests[i].stage.Right? ==> accepts(w'.requests[i].otp, w'.requests[i].stage.code)
    ensures LoginsHonest(accepts, w')
  {
    hide LiveSinceIssue;
    HonestLoginsStay(accepts, w, w'.requests, e);
    forall i | 0 <= i < |w'.requests| ensures RequestSound(accepts, w', i) {
      if w'.requests[i].stage.LoggedIn? {
        assert RequestSound(accepts, w, i);
        var q :| 0 <= q < |w.history| && w.history[q].Consumed? && w.history[q].request == i;
        assert w'.history[q] == w.history[q];
      }
    }
  }

  lemma LoginKeepsLogins(accepts: Verifier, w: World, i: nat)
    requires Protocol(accepts, w) && i < |w.requests| && w.requests[i].stage.Right?
    requires Call(accepts, w, i).account != w.account
    ensures LoginsHonest(accepts, Call(accepts, w, i))
  {
    hide LiveSinceIssue, Counted, IssuesNumbered;
    var w' := Call(accepts, w, i);
    var r, c := w.requests[i], w.account.value;
    var e := Consumed(r.challengeId, i, c.code, c.expires, w.now);
    assert w'.history == w.history + [e] && w'.requests == w.requests[i := r.(stage := LoggedIn)];
    assert RequestSound(accepts, w, i);
    HonestLoginsStay(accepts, w, w'.requests, e);
    assert w'.history[..|w.history|] == w.history;
    SameButAttempts(w.history, c, Challenge(c.id, c.code, c.expires, 0));
    assert HonestLogin(accepts, w'.requests, w'.history, |w.history|);
    forall j | 0 <= j < |w'.requests| ensures RequestSound(accepts, w', j) {
      assert RequestSound(accepts, w, j);
      if j == i {
        assert w'.history[|w.history|].request == i;
      } else if w'.requests[j].stage.LoggedIn? {
        var q :| 0 <= q < |w.history| && w.history[q].Consumed? && w.history[q].request == j;
        assert w'.history[q] == w.history[q];
      }
    }
  }

  lemma SameButAttempts(history: seq<Event>, c: Challenge, c': Challenge)
    requires LiveSinceIssue(history, c) && c'.id == c.id && c'.code == c.code && c'.expires == c.expires
    ensures LiveSinceIssue(history, c')
  {
  }

  /** A step of request i that is not a login. */
  lemma QuietCallKeepsLogins(accepts: Verifier, w: World, i: nat)
    requires Protocol(accepts, w) && i < |w.requests|
    requires w.requests[i].stage.Right? ==> Call(accepts, w, i).account == w.account
    ensures LoginsHonest(accepts, Call(accepts, w, i))
  {
    hide LiveSinceIssue, Counted, IssuesNumbered, HonestLogin;
    var w' := Call(accepts, w, i);
    assert RequestSound(accepts, w, i);
    forall j | 0 <= j < |w'.requests| && w'.requests[j].stage.Right?
      ensures accepts(w'.requests[j].otp, w'.requests[j].stage.code)
    {
      assert RequestSound(accepts, w, j);
    }
    QuietStepKeepsLogins(accepts, w, w', if |w'.history| > |w.history| then w'.history[|w.history|] else Locked(0));
  }

  lemma WrongCodeKeepsCounts(accepts: Verifier, w: World, i: nat)
    requires IssuesNumbered(w) && Counted(w) && i < |w.requests| && w.requests[i].stage.Wrong?
    requires Holds(w.account, w.requests[i].challengeId) && LiveSinceIssue(w.history, w.account.value)
    ensures var w' := Call(accepts, w, i);
            IssuesNumbered(w') && Counted(w') && w'.account.Some? && LiveSinceIssue(w'.history, w'.account.value)
  {
    hide LiveSinceIssue, WrongCodes;
    var r, w' := w.requests[i], Call(accepts, w, i);
    LoggedEvent(w.history, WrongCode(r.challengeId), r.challengeId);
    LiveAfterCount(w.history, WrongCode(r.challengeId), w.account.value, w'.account.value);
    if w'.account.value.attempts >= MAX_ATTEMPTS {
      assert w'.requests[i].stage == Clearing && w'.requests[i].challengeId == w'.account.value.id;
    }
  }

  lemma StillClearing(w: World, w': World)
    requires Counted(w) && w'.account == w.account && w'.history == w.history && w'.nextId == w.nextId
    requires |w.requests| <= |w'.requests|
    requires forall j :: 0 <= j < |w.requests| && w.requests[j].stage == Clearing && Holds(w.account, w.requests[j].challengeId) ==>
               w'.requests[j] == w.requests[j]
    ensures Counted(w')
  {
    if w.account.Some? && w.account.value.attempts >= MAX_ATTEMPTS {
      var j :| 0 <= j < |w.requests| && w.requests[j].stage == Clearing && w.requests[j].challengeId == w.account.value.id;
      assert w'.requests[j] == w.requests[j];
    }
  }

  lemma CallKeepsCounts(accepts: Verifier, w: World, i: nat)
    requires Protocol(accepts, w) && i < |w.requests|
    ensures var w' := Call(accepts, w, i);
            IssuesNumbered(w') && Counted(w') && (w'.account.Some? ==> LiveSinceIssue(w'.history, w'.account.value))
  {
    hide LiveSinceIssue, HonestLogin, RequestSound, WrongCodes;
    var r, w' := w.requests[i], Call(accepts, w, i);
    if r.stage.Wrong? && Holds(w.account, r.challengeId) {
      WrongCodeKeepsCounts(accepts, w, i);
    } else if w'.account.Some? {
      StillClearing(w, w');
    }
  }

  lemma IssueKeepsProtocol(accepts: Verifier, w: World, code: string)
    requires Protocol(accepts, w)
    ensures Protocol(accepts, Next(accepts, w, Issue(code)))
  {
    hide LiveSinceIssue, HonestLogin, RequestSound;
    var w' := Next(accepts, w, Issue(code));
    var c := w'.account.value;
    var e := Issued(c.id, c.code, c.expires);
    LiveAtIssue(w.history, c);
    LoggedEvent(w.history, e, c.id);
    NeverCounted(w.history, c.id);
    forall i | 0 <= i < |w.requests| ensures w.requests[i].stage.Right? ==> accepts(w.requests[i].otp, w.requests[i].stage.code) {
      RightAccepts(accepts, w, i);
    }
    QuietStepKeepsLogins(accepts, w, w', e);
  }

  lemma RightAccepts(accepts: Verifier, w: World, i: nat)
    requires i < |w.requests| && RequestSound(accepts, w, i)
    ensures w.requests[i].stage.Right? ==> accepts(w.requests[i].otp, w.requests[i].stage.code)
  {
  }

  lemma OtherKeepsProtocol(accepts: Verifier, w: World, a: Action)
    requires Protocol(accepts, w) && !a.Issue? && !a.Proceed?
    ensures Protocol(accepts, Next(accepts, w, a))
  {
    hide LiveSinceIssue, HonestLogin, RequestSound;
    var w' := Next(accepts, w, a);
    forall i | 0 <= i < |w.requests| ensures w.requests[i].stage.Right? ==> accepts(w.requests[i].otp, w.requests[i].stage.code) {
      RightAccepts(accepts, w, i);
    }
    QuietStepKeepsLogins(accepts, w, w', if |w'.history| > |w.history| then w'.history[|w.history|] else Locked(0));
    if w'.account.Some? && w.account.value.attempts >= MAX_ATTEMPTS {
      var j :| 0 <= j < |w.requests| && w.requests[j].stage == Clearing && w.requests[j].challengeId == w.account.value.id;
      assert w'.requests[j] == w.requests[j];
    }
  }

  lemma {:induction false} RunsKeepProtocol(accepts: Verifier, acts: seq<Action>)
    ensures Protocol(accepts, Exec(accepts, acts))
  {
    if acts != [] {
      RunsKeepProtocol(accepts, acts[..|acts| - 1]);
      NextKeepsProtocol(accepts, Exec(accepts, acts[..|acts| - 1]), acts[|acts| - 1]);
    }
  }

  lemma NextKeepsProtocol(accepts: Verifier, w: World, a: Action)
    requires Protocol(accepts, w)
    ensures Protocol(accepts, Next(accepts, w, a))
  {
    hide LiveSinceIssue, HonestLogin, RequestSound, Counted, IssuesNumbered, Call;
    match a
    case Issue(code) => IssueKeepsProtocol(accepts, w, code);
    case Proceed(i) =>
      if i < |w.requests| {
        CallKeepsCounts(accepts, w, i);
        if w.requests[i].stage.Right? && Call(accepts, w, i).account != w.account {
          LoginKeepsLogins(accepts, w, i);
        } else {
          QuietCallKeepsLogins(accepts, w, i);
        }
      }
    case _ => OtherKeepsProtocol(accepts, w, a);
  }

  // ---------- the guarantees ----------

  lemma ConsumptionHistory(accepts: Verifier, requests: seq<Request>, history: seq<Event>, q: nat)
    requires q < |history| && history[q].Consumed? && HonestLogin(accepts, requests, history, q)
    ensures var e := history[q];
            exists p :: 0 <= p < q && history[p] == Issued(e.id, e.code, e.expires)
                        && forall x :: p < x < q ==> !Closes(history[x])
  {
    var e := history[q];
    var p :| 0 <= p < q && history[..q][p] == Issued(e.id, e.code, e.expires)
             && forall x :: p < x < q ==> !Closes(history[..q][x]);
    assert history[p] == Issued(e.id, e.code, e.expires);
    assert forall x :: p < x < q ==> history[..q][x] == history[x];
  }

  /**
   A login completes only if, at its compare-and-swap, the stored challenge was
   the session's own, unexpired, and carried a code the submission matches; and
   the challenge had been issued with that code and not closed since.
   */
  lemma LoginNeedsItsOwnLiveChallenge(accepts: Verifier, acts: seq<Action>, i: nat)
    requires i < |Exec(accepts, acts).requests| && Exec(accepts, acts).requests[i].stage.LoggedIn?
    ensures var w := Exec(accepts, acts);
            exists q :: 0 <= q < |w.history| && w.history[q].Consumed? && w.history[q].request == i
                        && LoginWasEarned(accepts, w.requests[i], w.history, q)
  {
    hide Exec, Counted, IssuesNumbered, LiveSinceIssue;
    RunsKeepProtocol(accepts, acts);
    var w := Exec(accepts, acts);
    assert RequestSound(accepts, w, i);
    var q :| 0 <= q < |w.history| && w.history[q].Consumed? && w.history[q].request == i;
    assert HonestLogin(accepts, w.requests, w.history, q);
    ConsumptionHistory(accepts, w.requests, w.history, q);
    assert LoginWasEarned(accepts, w.requests[i], w.history, q);
  }

  ghost predicate LoginWasEarned(accepts: Verifier, r: Request, history: seq<Event>, q: nat)
    requires q < |history| && history[q].Consumed?
  {
    var e := history[q];
    && e.id == r.challengeId && e.expires >= e.at && accepts(r.otp, e.code)
    && exists p :: 0 <= p < q && history[p] == Issued(e.id, e.code, e.expires)
                   && forall x :: p < x < q ==> !Closes(history[x])
  }

  /** Once a challenge is consumed or cleared, no login succeeds before another challenge is issued. */
  lemma NoLoginAfterCloseWithoutIssue(accepts: Verifier, acts: seq<Action>, p: nat, q: nat)
    requires p < q < |Exec(accepts, acts).history|
    requires Closes(Exec(accepts, acts).history[p]) && Exec(accepts, acts).history[q].Consumed?
    ensures var h := Exec(accepts, acts).history;
            exists r :: p < r < q && h[r].Issued? && h[r].id == h[q].id
  {
    hide Exec;
    RunsKeepProtocol(accepts, acts);
    var w := Exec(accepts, acts);
    assert HonestLogin(accepts, w.requests, w.history, q);
    ConsumptionHistory(accepts, w.requests, w.history, q);
  }

  /** Over all interleavings a later consumption takes a later challenge, so each challenge is consumed at most once. */
  lemma EachChallengeConsumedOnce(accepts: Verifier, acts: seq<Action>, p: nat, q: nat)
    requires p < q < |Exec(accepts, acts).history|
    requires Exec(accepts, acts).history[p].Consumed? && Exec(accepts, acts).history[q].Consumed?
    ensures Exec(accepts, acts).history[p].id < Exec(accepts, acts).history[q].id
  {
    hide Exec;
    var w := Exec(accepts, acts);
    RunsKeepProtocol(accepts, acts);
    NoLoginAfterCloseWithoutIssue(accepts, acts, p, q);
    assert HonestLogin(accepts, w.requests, w.history, p);
    ConsumptionHistory(accepts, w.requests, w.history, p);
  }

  /**
   In every run the attempts stored on a live challenge are the wrong codes
   counted against its id, and a live challenge that has reached the limit is
   about to be cleared by a request that has counted and not yet cleared.
   */
  lemma AttemptsAreTheWrongCodes(accepts: Verifier, acts: seq<Action>)
    requires Exec(accepts, acts).account.Some?
    ensures var w := Exec(accepts, acts);
            var c := w.account.value;
            && c.attempts == WrongCodes(w.history, c.id)
            && (c.attempts >= 5 ==>
                  exists i :: 0 <= i < |w.requests| && w.requests[i] == Request(c.id, w.requests[i].otp, Clearing))
  {
    hide Exec;
    RunsKeepProtocol(accepts, acts);
    var w := Exec(accepts, acts);
    if w.account.value.attempts >= MAX_ATTEMPTS {
      var i :| 0 <= i < |w.requests| && w.requests[i].stage == Clearing && w.requests[i].challengeId == w.account.value.id;
      assert w.requests[i] == Request(w.account.value.id, w.requests[i].otp, Clearing);
    }
  }
}
