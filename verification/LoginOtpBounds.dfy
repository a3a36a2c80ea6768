/** How many wrong codes overlapping verify requests can have counted against one challenge. */
module LoginOtpBounds {
  import opened Options
  import opened LoginOtp
  import opened LoginOtpRuns

  /** The requests that have counted the fifth wrong code, or a later one, and not yet cleared the challenge. */
  function ClearingCount(requests: seq<Request>, id: nat): nat {
    if requests == [] then 0
    else
      ClearingCount(requests[..|requests| - 1], id)
      + if IsClearing(requests[|requests| - 1], id) then 1 else 0
  }

  predicate IsClearing(r: Request, id: nat) {
    r.stage.Clearing? && r.challengeId == id
  }

  lemma {:induction false} ClearingAfterMove(requests: seq<Request>, i: nat, r: Request, id: nat)
    requires i < |requests|
    ensures ClearingCount(requests[i := r], id) ==
            ClearingCount(requests, id) - (if IsClearing(requests[i], id) then 1 else 0) + (if IsClearing(r, id) then 1 else 0)
  {
    var n := |requests| - 1;
    if i == n {
      assert requests[i := r][..n] == requests[..n];
    } else {
      assert requests[i := r][..n] == requests[..n][i := r];
      ClearingAfterMove(requests[..n], i, r, id);
    }
  }

  ghost predicate BoundHolds(w: World) {
    w.account.Some? ==> w.account.value.attempts <= 4 + ClearingCount(w.requests, w.account.value.id)
  }

  lemma CallKeepsBound(accepts: Verifier, w: World, i: nat)
    requires BoundHolds(w) && i < |w.requests|
    ensures BoundHolds(Call(accepts, w, i))
  {
    hide ClearingCount;
    var v := Call(accepts, w, i);
    if v.account.Some? && v.requests != w.requests {
      assert v.requests == w.requests[i := v.requests[i]];
      ClearingAfterMove(w.requests, i, v.requests[i], v.account.value.id);
    }
  }

  /**
   Over every interleaving a live challenge has at most four wrong codes against it plus one for each request that is
   about to clear it.
   */
  lemma AttemptsBoundedByClearing(accepts: Verifier, acts: seq<Action>)
    ensures var w := Exec(accepts, acts);
            w.account.Some? ==>
              && w.account.value.attempts == WrongCodes(w.history, w.account.value.id)
              && w.account.value.attempts <= 4 + ClearingCount(w.requests, w.account.value.id)
  {
    hide Exec, WrongCodes;
    RunsKeepBound(accepts, acts);
    if Exec(accepts, acts).account.Some? {
      AttemptsAreTheWrongCodes(accepts, acts);
    }
  }

  lemma {:induction false} RunsKeepBound(accepts: Verifier, acts: seq<Action>)
    ensures BoundHolds(Exec(accepts, acts))
  {
    hide Call;
    if acts != [] {
      var w, a := Exec(accepts, acts[..|acts| - 1]), acts[|acts| - 1];
      RunsKeepBound(accepts, acts[..|acts| - 1]);
      match a {
        case Proceed(i) =>
          if i < |w.requests| {
            CallKeepsBound(accepts, w, i);
          }
        case Arrive(id, otp) =>
          assert (w.requests + [Request(id, otp, Arrived)])[..|w.requests|] == w.requests;
        case _ =>
      }
    }
  }

  // ---------- overlapping requests ----------

  /** A challenge is issued, and n requests with this code arrive and read it before any of them counts. */
  function Readings(code: string, otp: string, n: nat): seq<Action> {
    if n == 0 then [Issue(code)] else Readings(code, otp, n - 1) + [Arrive(0, otp)] + [Proceed(n - 1)]
  }

  /** Then the first k of them count. */
  function Countings(code: string, otp: string, n: nat, k: nat): seq<Action> {
    if k == 0 then Readings(code, otp, n) else Countings(code, otp, n, k - 1) + [Proceed(k - 1)]
  }

  /** The challenge is live with k wrong codes counted, and the requests from the k-th on have read it and not counted. */
  ghost predicate Waiting(w: World, code: string, otp: string, n: nat, k: nat) {
    && w.account == Some(Challenge(0, code, LIFETIME, k)) && w.now == 0 && |w.requests| == n
    && (forall i :: k <= i < n ==> w.requests[i] == Request(0, otp, Wrong))
    && WrongCodes(w.history, 0) == k
  }

  lemma IssuedWaits(accepts: Verifier, code: string, otp: string)
    ensures Waiting(Exec(accepts, [Issue(code)]), code, otp, 0, 0)
  {
    OneMore(accepts, [], Issue(code));
    assert [] + [Issue(code)] == [Issue(code)];
    LoggedEvent([], Issued(0, code, LIFETIME), 0);
  }

  lemma OneMoreWaits(accepts: Verifier, w: World, code: string, otp: string, n: nat)
    requires Waiting(w, code, otp, n, 0) && !accepts(otp, code)
    ensures Waiting(Next(accepts, Next(accepts, w, Arrive(0, otp)), Proceed(n)), code, otp, n + 1, 0)
  {
    hide WrongCodes;
  }

  lemma OneCounts(accepts: Verifier, w: World, code: string, otp: string, n: nat, k: nat)
    requires Waiting(w, code, otp, n, k) && k < n
    ensures Waiting(Next(accepts, w, Proceed(k)), code, otp, n, k + 1)
  {
    hide WrongCodes;
    LoggedEvent(w.history, WrongCode(0), 0);
  }

  lemma {:induction false} ReadingsReached(accepts: Verifier, code: string, otp: string, n: nat)
    requires !accepts(otp, code)
    ensures Waiting(Exec(accepts, Readings(code, otp, n)), code, otp, n, 0)
  {
    hide Exec, Waiting, Next;
    if n == 0 {
      IssuedWaits(accepts, code, otp);
    } else {
      var acts := Readings(code, otp, n - 1);
      ReadingsReached(accepts, code, otp, n - 1);
      OneMoreWaits(accepts, Exec(accepts, acts), code, otp, n - 1);
      OneMore(accepts, acts, Arrive(0, otp));
      OneMore(accepts, acts + [Arrive(0, otp)], Proceed(n - 1));
    }
  }

  lemma {:induction false} CountingsReached(accepts: Verifier, code: string, otp: string, n: nat, k: nat)
    requires !accepts(otp, code) && k <= n
    ensures Waiting(Exec(accepts, Countings(code, otp, n, k)), code, otp, n, k)
  {
    hide Exec, Waiting, Next;
    if k == 0 {
      ReadingsReached(accepts, code, otp, n);
    } else {
      var acts := Countings(code, otp, n, k - 1);
      CountingsReached(accepts, code, otp, n, k - 1);
      OneCounts(accepts, Exec(accepts, acts), code, otp, n, k - 1);
      OneMore(accepts, acts, Proceed(k - 1));
    }
  }

  /** For every n there is a run in which n overlapping requests count n wrong codes against one live challenge. */
  lemma OverlappingRequestsHaveNoBound(accepts: Verifier, code: string, otp: string, n: nat)
    requires !accepts(otp, code)
    ensures var w := Exec(accepts, Countings(code, otp, n, n));
            && w.account.Some? && w.account.value.id == 0
            && w.account.value.attempts == n == WrongCodes(w.history, 0)
  {
    hide Exec, WrongCodes;
    CountingsReached(accepts, code, otp, n, n);
  }
}
