/** What every run of concurrent transfers keeps: conservation, exact rollback, the credit floor. */
module SagaRuns {
  import opened Ledgers
  import opened TransferNumbers
  import opened TransferSaga
  import opened SagaRequests

  // ---------- sums over the requests ----------

  /** What the requests currently hold out of a wallet. */
  ghost function Outstanding(rs: seq<Request>, wallet: string): int {
    if rs == [] then 0
    else Outstanding(rs[..|rs| - 1], wallet) + Amount(rs[|rs| - 1].legs, rs[|rs| - 1].held, wallet)
  }

  /** The part of it that has its ledger row. */
  ghost function Recorded(rs: seq<Request>, wallet: string): int {
    if rs == [] then 0
    else Recorded(rs[..|rs| - 1], wallet) + Amount(rs[|rs| - 1].legs, rs[|rs| - 1].rows, wallet)
  }

  /** The part of it that has no ledger row. */
  ghost function Unposted(rs: seq<Request>, wallet: string): int {
    if rs == [] then 0
    else Unposted(rs[..|rs| - 1], wallet)
         + Amount(rs[|rs| - 1].legs, rs[|rs| - 1].held - rs[|rs| - 1].rows, wallet)
  }

  lemma {:induction false} SumsAfterPut(rs: seq<Request>, i: nat, r: Request, wallet: string)
    requires i < |rs|
    ensures Outstanding(rs[i := r], wallet) ==
            Outstanding(rs, wallet) - Amount(rs[i].legs, rs[i].held, wallet) + Amount(r.legs, r.held, wallet)
    ensures Recorded(rs[i := r], wallet) ==
            Recorded(rs, wallet) - Amount(rs[i].legs, rs[i].rows, wallet) + Amount(r.legs, r.rows, wallet)
  {
    hide Amount;
    var n := |rs| - 1;
    if i == n {
      assert rs[i := r][..n] == rs[..n];
    } else {
      assert rs[i := r][..n] == rs[..n][i := r];
      SumsAfterPut(rs[..n], i, r, wallet);
    }
  }

  ghost predicate AllShaped(cfg: Config, rs: seq<Request>) {
    forall i :: 0 <= i < |rs| ==> Shaped(cfg, rs[i])
  }

  lemma {:induction false} UnpostedIsTheDifference(cfg: Config, rs: seq<Request>, wallet: string)
    requires AllShaped(cfg, rs)
    ensures Unposted(rs, wallet) == Outstanding(rs, wallet) - Recorded(rs, wallet)
    ensures Unposted(rs, wallet) >= 0
    ensures (forall i :: 0 <= i < |rs| ==> Amount(rs[i].legs, rs[i].held - rs[i].rows, wallet) == 0)
            <==> Unposted(rs, wallet) == 0
  {
    if rs != [] {
      var n := |rs| - 1;
      UnpostedIsTheDifference(cfg, rs[..n], wallet);
      assert Shaped(cfg, rs[n]);
      assert Amount(rs[n].legs, rs[n].held - rs[n].rows, wallet) >= 0;
      assert forall i :: 0 <= i < n ==> rs[..n][i] == rs[i];
    }
  }

  // ---------- the invariant ----------

  /** Request i carries the number printed from the i-th value drawn from the counter. */
  ghost predicate Numbered(cfg: Config, number: string, i: nat) {
    exists year, month :: CalendarMonth(year, month) && number == TransferNumber(year, month, cfg.counter + i + 1)
  }

  ghost predicate HoldsKnownWallets(cfg: Config, r: Request) {
    forall k :: k in r.held && k < |r.legs| ==> r.legs[k].wallet in cfg.opening
  }

  ghost predicate Sound(cfg: Config, db: Database, r: Request, i: nat) {
    Shaped(cfg, r) && Owns(db, r) && HoldsKnownWallets(cfg, r) && Numbered(cfg, r.number, i)
  }

  ghost predicate SumsAgree(cfg: Config, w: World) {
    && w.db.balances.Keys == cfg.opening.Keys
    && (forall wallet :: wallet in cfg.opening ==>
          w.db.balances[wallet] == cfg.opening[wallet] - Outstanding(w.requests, wallet))
    && (forall wallet :: CalculateBalance(w.db.ledger, wallet) == -Recorded(w.requests, wallet))
  }

  ghost predicate Issued(w: World, number: string) {
    exists i :: 0 <= i < |w.requests| && w.requests[i].number == number
  }

  ghost predicate NothingForeign(w: World) {
    && (forall row :: row in w.db.ledger ==> Issued(w, row.number))
    && (forall n :: n in w.db.journals || n in w.db.transactions ==> Issued(w, n))
  }

  ghost predicate Books(cfg: Config, w: World) {
    && w.counter == cfg.counter + |w.requests|
    && (forall i :: 0 <= i < |w.requests| ==> Sound(cfg, w.db, w.requests[i], i))
    && SumsAgree(cfg, w)
    && NothingForeign(w)
  }

  lemma NumbersDiffer(cfg: Config, number: string, i: nat, j: nat)
    requires Numbered(cfg, number, i) && Numbered(cfg, number, j)
    ensures i == j
  {
    hide TransferNumber;
    var year, month :| CalendarMonth(year, month) && number == TransferNumber(year, month, cfg.counter + i + 1);
    var year', month' :| CalendarMonth(year', month') && number == TransferNumber(year', month', cfg.counter + j + 1);
    TransferNumbersNeverRepeat(year, month, cfg.counter + i + 1, year', month', cfg.counter + j + 1);
  }

  lemma PutKeepsBooks(cfg: Config, w: World, i: nat, step: (Database, Request))
    requires Books(cfg, w) && i < |w.requests|
    requires GoodStep(w.db, w.requests[i], step.0, step.1)
    requires Shaped(cfg, step.1) && HoldsKnownWallets(cfg, step.1)
    ensures Books(cfg, Put(w, i, step))
  {
    hide Shaped, Owns, HoldsKnownWallets, Numbered, Outstanding, Recorded, CalculateBalance, Amount, MatchingRows;
    var after := Put(w, i, step);
    assert Sound(cfg, w.db, w.requests[i], i);
    forall j | 0 <= j < |w.requests| ensures Sound(cfg, after.db, after.requests[j], j) {
      assert Sound(cfg, w.db, w.requests[j], j);
      if j != i {
        if w.requests[j].number == w.requests[i].number {
          NumbersDiffer(cfg, w.requests[i].number, i, j);
        }
        OthersKeepTheirs(w.db, w.requests[i].number, step.0, w.requests[j]);
      }
    }
    PutKeepsSums(cfg, w, i, step);
    PutAddsNothingForeign(w, i, step);
  }

  lemma PutKeepsSums(cfg: Config, w: World, i: nat, step: (Database, Request))
    requires SumsAgree(cfg, w) && i < |w.requests|
    requires Balanced(w.db, w.requests[i], step.0, step.1)
    ensures SumsAgree(cfg, Put(w, i, step))
  {
    hide Outstanding, Recorded, CalculateBalance, Amount;
    forall wallet
      ensures Outstanding(w.requests[i := step.1], wallet) ==
              Outstanding(w.requests, wallet) - Amount(w.requests[i].legs, w.requests[i].held, wallet)
              + Amount(step.1.legs, step.1.held, wallet)
      ensures Recorded(w.requests[i := step.1], wallet) ==
              Recorded(w.requests, wallet) - Amount(w.requests[i].legs, w.requests[i].rows, wallet)
              + Amount(step.1.legs, step.1.rows, wallet)
    {
      SumsAfterPut(w.requests, i, step.1, wallet);
    }
  }

  lemma PutAddsNothingForeign(w: World, i: nat, step: (Database, Request))
    requires NothingForeign(w) && i < |w.requests|
    requires step.1.number == w.requests[i].number && OthersUntouched(w.db, w.requests[i].number, step.0)
    ensures NothingForeign(Put(w, i, step))
  {
    hide MatchingRows;
    var after := Put(w, i, step);
    forall n | Issued(w, n) || n == step.1.number ensures Issued(after, n) {
      var j :| 0 <= j < |w.requests| && w.requests[j].number == n;
      assert after.requests[j].number == n;
    }
  }

  lemma StartKeepsBooks(cfg: Config, w: World, legs: seq<Leg>, year: nat, month: nat)
    requires Books(cfg, w) && TransferLegs(legs) && CalendarMonth(year, month)
    ensures Books(cfg, Next(cfg, w, Start(legs, year, month)))
  {
    hide TransferNumber, MatchingRows, CalculateBalance;
    var number := TransferNumber(year, month, w.counter + 1);
    var after := Next(cfg, w, Start(legs, year, month));
    var n := |w.requests|;
    assert Numbered(cfg, number, n);
    forall j | 0 <= j < n ensures w.requests[j].number != number {
      assert Sound(cfg, w.db, w.requests[j], j);
      if w.requests[j].number == number {
        NumbersDiffer(cfg, number, j, n);
      }
    }
    assert !Issued(w, number);
    NewRequestIsSound(cfg, w.db, number, legs, n);
    assert forall j :: 0 <= j < n ==> after.requests[j] == w.requests[j];
    StartKeepsSums(cfg, w, Fresh(number, legs));
    forall m | Issued(w, m) ensures Issued(after, m) {
      var j :| 0 <= j < |w.requests| && w.requests[j].number == m;
      assert after.requests[j].number == m;
    }
  }

  lemma {:induction false} NoRowsUnder(ledger: seq<Row>, number: string, entity: string)
    requires forall row :: row in ledger ==> row.number != number
    ensures MatchingRows(ledger, number, entity) == []
  {
    if ledger != [] {
      NoRowsUnder(ledger[..|ledger| - 1], number, entity);
      assert ledger[|ledger| - 1] in ledger;
    }
  }

  lemma NewRequestIsSound(cfg: Config, db: Database, number: string, legs: seq<Leg>, i: nat)
    requires TransferLegs(legs) && Numbered(cfg, number, i)
    requires forall row :: row in db.ledger ==> row.number != number
    requires number !in db.journals && number !in db.transactions
    ensures Sound(cfg, db, Fresh(number, legs), i)
  {
    hide MatchingRows;
    forall k | 0 <= k < |legs| ensures MatchingRows(db.ledger, number, legs[k].wallet) == [] {
      NoRowsUnder(db.ledger, number, legs[k].wallet);
    }
  }

  lemma StartKeepsSums(cfg: Config, w: World, r: Request)
    requires SumsAgree(cfg, w) && r.held == {} && r.rows == {}
    ensures SumsAgree(cfg, w.(counter := w.counter + 1, requests := w.requests + [r]))
  {
    assert (w.requests + [r])[..|w.requests|] == w.requests;
  }

  lemma ForwardHoldsKnownWallets(cfg: Config, db: Database, r: Request)
    requires Shaped(cfg, r) && r.phase.Forward? && HoldsKnownWallets(cfg, r) && db.balances.Keys == cfg.opening.Keys
    ensures HoldsKnownWallets(cfg, Forwards(cfg, db, r).1)
  {
  }

  lemma NextKeepsBooks(cfg: Config, w: World, a: Action)
    requires Books(cfg, w)
    ensures Books(cfg, Next(cfg, w, a))
  {
    hide TransferNumber, Outstanding, Recorded, CalculateBalance, Amount, MatchingRows, Forwards, Backwards, NothingForeign;
    match a
    case Start(legs, year, month) =>
      if TransferLegs(legs) && CalendarMonth(year, month) {
        StartKeepsBooks(cfg, w, legs, year, month);
      }
    case Advance(i) =>
      if i < |w.requests| && w.requests[i].phase.Forward? {
        assert Sound(cfg, w.db, w.requests[i], i);
        ForwardKeepsShape(cfg, w.db, w.requests[i]);
        ForwardIsGood(cfg, w.db, w.requests[i]);
        ForwardHoldsKnownWallets(cfg, w.db, w.requests[i]);
        PutKeepsBooks(cfg, w, i, Forwards(cfg, w.db, w.requests[i]));
      }
    case Fail(i) =>
      if i < |w.requests| && w.requests[i].phase.Forward? {
        assert Sound(cfg, w.db, w.requests[i], i);
        PutKeepsBooks(cfg, w, i, (w.db, w.requests[i].(phase := Undoing(false))));
      }
    case Undo(i) =>
      if i < |w.requests| && w.requests[i].phase.Undoing? {
        assert Sound(cfg, w.db, w.requests[i], i);
        UndoKeepsBooks(cfg, w, i);
      }
  }

  lemma UndoKeepsBooks(cfg: Config, w: World, i: nat)
    requires Books(cfg, w) && i < |w.requests| && w.requests[i].phase.Undoing?
    ensures Books(cfg, Put(w, i, Backwards(cfg, w.db, w.requests[i])))
  {
    hide Shaped, Owns, GoodStep, SumsAgree, NothingForeign, Numbered;
    var r := w.requests[i];
    assert Sound(cfg, w.db, r, i);
    BackwardKeepsShape(cfg, w.db, r);
    HeldLegsExist(cfg, w, r);
    BackwardIsGood(cfg, w.db, r);
    assert Backwards(cfg, w.db, r).1.held <= r.held;
    PutKeepsBooks(cfg, w, i, Backwards(cfg, w.db, r));
  }

  lemma HeldLegsExist(cfg: Config, w: World, r: Request)
    requires Shaped(cfg, r) && HoldsKnownWallets(cfg, r) && SumsAgree(cfg, w)
    ensures forall k :: k in r.held ==> k < |r.legs| && r.legs[k].wallet in w.db.balances
  {
  }

  lemma {:induction false} RunsKeepBooks(cfg: Config, acts: seq<Action>)
    ensures Books(cfg, Exec(cfg, acts))
  {
    if acts != [] {
      RunsKeepBooks(cfg, acts[..|acts| - 1]);
      NextKeepsBooks(cfg, Exec(cfg, acts[..|acts| - 1]), acts[|acts| - 1]);
    }
  }

  // ---------- conservation ----------

  /**
   At every moment of every run, whatever failed and in any mode, a wallet is
   its opening balance plus the sum of its ledger rows minus the debits that
   have no ledger row.
   */
  lemma BalanceIsLedgerMinusUnposted(cfg: Config, acts: seq<Action>, wallet: string)
    requires wallet in cfg.opening
    ensures var w := Exec(cfg, acts);
            && wallet in w.db.balances
            && w.db.balances[wallet] ==
                 cfg.opening[wallet] + CalculateBalance(w.db.ledger, wallet) - Unposted(w.requests, wallet)
            && Unposted(w.requests, wallet) >= 0
  {
    hide Exec, Sound, NothingForeign, Amount;
    RunsKeepBooks(cfg, acts);
    RunShapes(cfg, acts);
    UnpostedIsTheDifference(cfg, Exec(cfg, acts).requests, wallet);
  }

  lemma RunShapes(cfg: Config, acts: seq<Action>)
    ensures AllShaped(cfg, Exec(cfg, acts).requests)
    ensures var w := Exec(cfg, acts);
            forall i :: 0 <= i < |w.requests| ==> Owns(w.db, w.requests[i])
  {
    hide Exec, Shaped, Owns, SumsAgree, NothingForeign;
    RunsKeepBooks(cfg, acts);
    var w := Exec(cfg, acts);
    forall i | 0 <= i < |w.requests| ensures Shaped(cfg, w.requests[i]) && Owns(w.db, w.requests[i]) {
      assert Sound(cfg, w.db, w.requests[i], i);
    }
  }

  ghost predicate Settled(w: World) {
    forall i :: 0 <= i < |w.requests| ==> w.requests[i].phase.Committed? || w.requests[i].phase.RolledBack?
  }

  /** A request that failed in production between a debit of the wallet and its ledger row. */
  ghost predicate LostDebit(cfg: Config, r: Request, wallet: string) {
    && cfg.production && r.phase.RolledBack?
    && r.posted < r.debited && r.posted < |r.legs| && r.legs[r.posted].wallet == wallet
  }

  lemma SettledGap(cfg: Config, r: Request, wallet: string)
    requires Shaped(cfg, r) && (r.phase.Committed? || r.phase.RolledBack?)
    ensures Amount(r.legs, r.held - r.rows, wallet) == 0 <==> !LostDebit(cfg, r, wallet)
  {
  }

  /**
   Once every request has settled, a wallet agrees with its ledger exactly when
   no request was lost between a debit of that wallet and its ledger row, which
   can only happen in production.
   */
  lemma SettledWalletAgreesWithLedger(cfg: Config, acts: seq<Action>, wallet: string)
    requires wallet in cfg.opening && Settled(Exec(cfg, acts))
    ensures wallet in Exec(cfg, acts).db.balances
    ensures var w := Exec(cfg, acts);
            w.db.balances[wallet] == cfg.opening[wallet] + CalculateBalance(w.db.ledger, wallet)
            <==> (forall i :: 0 <= i < |w.requests| ==> !LostDebit(cfg, w.requests[i], wallet))
  {
    hide Exec, Shaped, Amount, LostDebit, CalculateBalance;
    var w := Exec(cfg, acts);
    BalanceIsLedgerMinusUnposted(cfg, acts, wallet);
    RunShapes(cfg, acts);
    UnpostedIsTheDifference(cfg, w.requests, wallet);
    forall i | 0 <= i < |w.requests|
      ensures Amount(w.requests[i].legs, w.requests[i].held - w.requests[i].rows, wallet) == 0
              <==> !LostDebit(cfg, w.requests[i], wallet)
    {
      SettledGap(cfg, w.requests[i], wallet);
    }
  }

  // ---------- rollback ----------

  /** The request holds no money and no row of any collection carries its number. */
  ghost predicate NoTrace(db: Database, r: Request) {
    && r.held == {}
    && (forall row :: row in db.ledger ==> row.number != r.number)
    && r.number !in db.journals && r.number !in db.transactions
  }

  /**
   A request whose rollback has run leaves no trace, wherever it failed and
   whatever the others did meanwhile, if and only if deletions are allowed
   (not production) or it failed before its first debit.
   */
  lemma RollbackLeavesNoTraceExactly(cfg: Config, acts: seq<Action>, i: nat)
    requires i < |Exec(cfg, acts).requests| && Exec(cfg, acts).requests[i].phase.RolledBack?
    ensures var w := Exec(cfg, acts);
            NoTrace(w.db, w.requests[i]) <==> !cfg.production || w.requests[i].debited == 0
  {
    hide Exec, MatchingRows;
    RunShapes(cfg, acts);
    var w := Exec(cfg, acts);
    var r := w.requests[i];
    assert Shaped(cfg, r) && Owns(w.db, r);
    if !cfg.production || r.debited == 0 {
      assert r.held == {};
    } else {
      assert 0 in r.held;
    }
  }

  lemma OneMoreAction(cfg: Config, acts: seq<Action>, a: Action)
    ensures Exec(cfg, acts + [a]) == Next(cfg, Exec(cfg, acts), a)
  {
    assert (acts + [a])[..|acts|] == acts;
  }

  /** In production, a transfer that fails right after its debit: the money is gone and the ledger does not show it. */
  lemma LostDebitHappens(cfg: Config, leg: Leg, year: nat, month: nat)
    requires cfg.production && CalendarMonth(year, month) && leg.cost > 0
    requires CanDebit(cfg, Database(cfg.opening, [], {}, {}), leg)
    ensures var w := Exec(cfg, [Start([leg], year, month), Advance(0), Fail(0), Undo(0), Undo(0)]);
            && |w.requests| == 1 && w.requests[0].phase.RolledBack?
            && LostDebit(cfg, w.requests[0], leg.wallet) && !NoTrace(w.db, w.requests[0])
            && w.db.balances == cfg.opening[leg.wallet := cfg.opening[leg.wallet] - leg.cost]
            && w.db.ledger == []
  {
    hide TransferNumber, Exec;
    var a0: seq<Action> := [];
    var a1 := a0 + [Start([leg], year, month)];
    var a2 := a1 + [Advance(0)];
    var a3 := a2 + [Fail(0)];
    var a4 := a3 + [Undo(0)];
    assert a4 + [Undo(0)] == [Start([leg], year, month), Advance(0), Fail(0), Undo(0), Undo(0)];
    NothingYet(cfg);
    OneMoreAction(cfg, a0, Start([leg], year, month));
    OneMoreAction(cfg, a1, Advance(0));
    assert Exec(cfg, a2).requests[0].stack == [UndoLeg(0)];
    OneMoreAction(cfg, a2, Fail(0));
    OneMoreAction(cfg, a3, Undo(0));
    OneMoreAction(cfg, a4, Undo(0));
  }

  /** In production, a transfer that fails after its ledger row: balance and ledger agree, and both keep a cancelled debit. */
  lemma StuckDebitHappens(cfg: Config, leg: Leg, year: nat, month: nat)
    requires cfg.production && CalendarMonth(year, month) && leg.cost > 0
    requires CanDebit(cfg, Database(cfg.opening, [], {}, {}), leg)
    ensures var w := Exec(cfg, [Start([leg], year, month), Advance(0), Advance(0), Fail(0), Undo(0), Undo(0)]);
            && |w.requests| == 1 && w.requests[0].phase.RolledBack?
            && !LostDebit(cfg, w.requests[0], leg.wallet) && !NoTrace(w.db, w.requests[0])
            && w.db.balances == cfg.opening[leg.wallet := cfg.opening[leg.wallet] - leg.cost]
            && |w.db.ledger| == 1 && w.db.ledger[0].entity == leg.wallet && w.db.ledger[0].amount == -leg.cost
  {
    hide TransferNumber, Exec;
    var a0: seq<Action> := [];
    var a1 := a0 + [Start([leg], year, month)];
    var a2 := a1 + [Advance(0)];
    var a3 := a2 + [Advance(0)];
    var a4 := a3 + [Fail(0)];
    var a5 := a4 + [Undo(0)];
    assert a5 + [Undo(0)] == [Start([leg], year, month), Advance(0), Advance(0), Fail(0), Undo(0), Undo(0)];
    NothingYet(cfg);
    OneMoreAction(cfg, a0, Start([leg], year, month));
    OneMoreAction(cfg, a1, Advance(0));
    assert Exec(cfg, a2).requests[0].stack == [UndoLeg(0)];
    OneMoreAction(cfg, a2, Advance(0));
    OneMoreAction(cfg, a3, Fail(0));
    OneMoreAction(cfg, a4, Undo(0));
    OneMoreAction(cfg, a5, Undo(0));
  }

  /** A request that is about to debit is refused exactly when the debit would take the wallet below minus its credit limit. */
  lemma AdvanceDebitsExactly(cfg: Config, w: World, i: nat)
    requires i < |w.requests| && w.requests[i].phase.Forward?
    requires w.requests[i].posted == w.requests[i].debited < |w.requests[i].legs|
    ensures var r, v := w.requests[i], Next(cfg, w, Advance(i));
            var leg := r.legs[r.debited];
            if Affordable(cfg, w.db.balances, leg) then
              && v.db == w.db.(balances := w.db.balances[leg.wallet := w.db.balances[leg.wallet] - leg.cost])
              && v.requests[i].phase.Forward? && v.requests[i].debited == r.debited + 1
              && v.requests[i].seen == v.db.balances[leg.wallet]
            else v.db == w.db && v.requests[i].phase == Undoing(false)
  {
    GuardIsExact(cfg, w.db, w.requests[i].legs[w.requests[i].debited]);
  }

  /** A direct transfer that can be afforded and is not disturbed is committed after its three calls. */
  lemma DirectTransferCommits(cfg: Config, leg: Leg, year: nat, month: nat)
    requires CalendarMonth(year, month) && leg.cost > 0 && Affordable(cfg, cfg.opening, leg)
    ensures var w := Exec(cfg, [Start([leg], year, month), Advance(0), Advance(0), Advance(0), Advance(0)]);
            var number, after := TransferNumber(year, month, cfg.counter + 1), cfg.opening[leg.wallet] - leg.cost;
            && |w.requests| == 1 && w.requests[0].phase.Committed?
            && w.db == Database(cfg.opening[leg.wallet := after],
                                [Row(number, leg.wallet, -leg.cost, cfg.opening[leg.wallet], after)], {}, {number})
  {
    hide TransferNumber, Exec;
    var a0: seq<Action> := [];
    var a1 := a0 + [Start([leg], year, month)];
    var a2 := a1 + [Advance(0)];
    var a3 := a2 + [Advance(0)];
    var a4 := a3 + [Advance(0)];
    assert a4 + [Advance(0)] == [Start([leg], year, month), Advance(0), Advance(0), Advance(0), Advance(0)];
    NothingYet(cfg);
    OneMoreAction(cfg, a0, Start([leg], year, month));
    OneMoreAction(cfg, a1, Advance(0));
    assert Exec(cfg, a2).requests[0].stack == [UndoLeg(0)];
    OneMoreAction(cfg, a2, Advance(0));
    OneMoreAction(cfg, a3, Advance(0));
    OneMoreAction(cfg, a4, Advance(0));
  }

  /** In production no compensation gives anything back: balances, ledger and journal stay, only the transaction row goes. */
  lemma ProductionGivesNothingBack(cfg: Config, w: World, i: nat)
    requires cfg.production && i < |w.requests| && w.requests[i].phase.Undoing?
    ensures var r, v := w.requests[i], Next(cfg, w, Undo(i));
            v.db == if r.stack != [] && r.stack[|r.stack| - 1] == UndoTransaction
                    then w.db.(transactions := w.db.transactions - {r.number}) else w.db
  {
  }

  lemma NothingYet(cfg: Config)
    ensures Exec(cfg, []) == World(Database(cfg.opening, [], {}, {}), cfg.counter, [])
  {
  }

  /** What the committed requests cost a wallet. */
  ghost function CommittedCost(rs: seq<Request>, wallet: string): int {
    if rs == [] then 0 else
      var r := rs[|rs| - 1];
      CommittedCost(rs[..|rs| - 1], wallet) +
      if r.phase.Committed? then Amount(r.legs, Below(|r.legs|), wallet) else 0
  }

  lemma {:induction false} SettledHoldsCommitted(cfg: Config, rs: seq<Request>, wallet: string)
    requires !cfg.production
    requires AllShaped(cfg, rs) && forall i :: 0 <= i < |rs| ==> rs[i].phase.Committed? || rs[i].phase.RolledBack?
    ensures Outstanding(rs, wallet) == CommittedCost(rs, wallet)
  {
    if rs != [] {
      var n := |rs| - 1;
      assert forall i :: 0 <= i < n ==> rs[..n][i] == rs[i];
      SettledHoldsCommitted(cfg, rs[..n], wallet);
      assert Shaped(cfg, rs[n]);
    }
  }

  /** Outside production, failed transfers have cost nobody anything: a settled wallet has paid for the committed ones only. */
  lemma FailedTransfersCostNothing(cfg: Config, acts: seq<Action>, wallet: string)
    requires !cfg.production && wallet in cfg.opening && Settled(Exec(cfg, acts))
    ensures wallet in Exec(cfg, acts).db.balances
    ensures Exec(cfg, acts).db.balances[wallet] ==
            cfg.opening[wallet] - CommittedCost(Exec(cfg, acts).requests, wallet)
  {
    hide Exec, Shaped, Sound, NothingForeign;
    RunsKeepBooks(cfg, acts);
    RunShapes(cfg, acts);
    SettledHoldsCommitted(cfg, Exec(cfg, acts).requests, wallet);
  }

  /**
   A committed transfer keeps everything it wrote through every later rollback
   of anybody else: its debits, one ledger row per debit, its journal row if it
   is a sub-account transfer, and its transaction row.
   */
  lemma CommittedTransfersSurvive(cfg: Config, acts: seq<Action>, i: nat)
    requires i < |Exec(cfg, acts).requests| && Exec(cfg, acts).requests[i].phase.Committed?
    ensures var w := Exec(cfg, acts);
            var r := w.requests[i];
            && r.held == Below(|r.legs|)
            && (forall k :: 0 <= k < |r.legs| ==>
                  |MatchingRows(w.db.ledger, r.number, r.legs[k].wallet)| == 1
                  && MatchingRows(w.db.ledger, r.number, r.legs[k].wallet)[0].amount == -r.legs[k].cost)
            && r.number in w.db.transactions
            && (r.number in w.db.journals <==> IsSubAccount(r))
  {
    hide Exec, MatchingRows;
    RunShapes(cfg, acts);
    var w := Exec(cfg, acts);
    assert Shaped(cfg, w.requests[i]) && Owns(w.db, w.requests[i]);
  }

  // ---------- the credit floor ----------

  ghost predicate WithinCredit(cfg: Config, balances: map<string, int>, wallet: string) {
    wallet in balances && balances[wallet] >= -CreditLimit(cfg, wallet)
  }

  /** Nobody is below the floor who did not open below it, and nobody who did has been debited. */
  ghost predicate BalancesHold(cfg: Config, balances: map<string, int>) {
    && balances.Keys == cfg.opening.Keys
    && (forall wallet :: WithinCredit(cfg, cfg.opening, wallet) ==> WithinCredit(cfg, balances, wallet))
    && (forall wallet :: wallet in cfg.opening && !WithinCredit(cfg, cfg.opening, wallet) ==>
          balances[wallet] == cfg.opening[wallet])
  }

  ghost predicate FloorHolds(cfg: Config, w: World) {
    && BalancesHold(cfg, w.db.balances)
    && (forall i :: 0 <= i < |w.requests| ==> RequestHonest(cfg, w.requests[i]))
    && (forall row :: row in w.db.ledger ==> RowHonest(cfg, row))
  }

  /** The request debits wallets that opened within their credit, and reports balances within it. */
  ghost predicate RequestHonest(cfg: Config, r: Request) {
    && (forall k :: k in r.held && k < |r.legs| ==> WithinCredit(cfg, cfg.opening, r.legs[k].wallet))
    && (forall k :: 0 <= k < |r.legs| && UndoLeg(k) in r.stack ==> WithinCredit(cfg, cfg.opening, r.legs[k].wallet))
    && (r.phase.Forward? && r.posted < r.debited <= |r.legs| ==>
          r.seen >= -CreditLimit(cfg, r.legs[r.posted].wallet))
  }

  /** A ledger row states the balance before and after its own amount, never below the floor. */
  ghost predicate RowHonest(cfg: Config, row: Row) {
    row.before + row.amount == row.after && row.after >= -CreditLimit(cfg, row.entity)
  }

  lemma ForwardKeepsFloor(cfg: Config, db: Database, r: Request)
    requires BalancesHold(cfg, db.balances) && RequestHonest(cfg, r) && r.phase.Forward? && Shaped(cfg, r)
    requires forall row :: row in db.ledger ==> RowHonest(cfg, row)
    ensures var next := Forwards(cfg, db, r);
            && BalancesHold(cfg, next.0.balances) && RequestHonest(cfg, next.1)
            && forall row :: row in next.0.ledger ==> RowHonest(cfg, row)
  {
    hide CreditLimit;
    var next := Forwards(cfg, db, r);
    if r.posted < r.debited {
      assert RowHonest(cfg, LedgerRow(r, r.posted));
    } else if r.debited < |r.legs| && CanDebit(cfg, db, r.legs[r.debited]) {
      assert WithinCredit(cfg, cfg.opening, r.legs[r.debited].wallet);
    }
  }

  lemma BackwardKeepsFloor(cfg: Config, db: Database, r: Request)
    requires BalancesHold(cfg, db.balances) && RequestHonest(cfg, r) && r.phase.Undoing? && Shaped(cfg, r)
    requires forall row :: row in db.ledger ==> RowHonest(cfg, row)
    ensures var next := Backwards(cfg, db, r);
            && BalancesHold(cfg, next.0.balances) && RequestHonest(cfg, next.1)
            && forall row :: row in next.0.ledger ==> RowHonest(cfg, row)
  {
    hide RowHonest, DeleteRows, Increment, BalancesHold, RequestHonest;
    BackwardStaysHonest(cfg, db, r);
    if r.stack != [] && r.stack[|r.stack| - 1].UndoLeg? {
      var k := r.stack[|r.stack| - 1].leg;
      if k < |r.legs| {
        assert WithinCredit(cfg, cfg.opening, r.legs[k].wallet) by { DebitedWithinCredit(cfg, r, k); }
        RefundKeepsFloor(cfg, db, r.legs[k]);
        forall row ensures row in DeleteRows(db.ledger, r.number, r.legs[k].wallet) ==> row in db.ledger {
          DeletionOnlyRemoves(db.ledger, r.number, r.legs[k].wallet, row);
        }
      }
    }
  }

  lemma DebitedWithinCredit(cfg: Config, r: Request, k: nat)
    requires RequestHonest(cfg, r) && k < |r.legs| && UndoLeg(k) in r.stack
    ensures WithinCredit(cfg, cfg.opening, r.legs[k].wallet)
  {
  }

  lemma BackwardStaysHonest(cfg: Config, db: Database, r: Request)
    requires RequestHonest(cfg, r) && r.phase.Undoing?
    ensures RequestHonest(cfg, Backwards(cfg, db, r).1)
  {
    hide DeleteRows, Increment, WithinCredit;
  }

  lemma RefundKeepsFloor(cfg: Config, db: Database, leg: Leg)
    requires BalancesHold(cfg, db.balances) && leg.cost > 0
    ensures Increment(db, leg.wallet, leg.cost).ledger == db.ledger
    ensures WithinCredit(cfg, cfg.opening, leg.wallet) ==> BalancesHold(cfg, Increment(db, leg.wallet, leg.cost).balances)
  {
    hide CreditLimit;
  }

  lemma PutKeepsFloor(cfg: Config, w: World, i: nat, step: (Database, Request))
    requires FloorHolds(cfg, w) && i < |w.requests|
    requires BalancesHold(cfg, step.0.balances) && RequestHonest(cfg, step.1)
    requires forall row :: row in step.0.ledger ==> RowHonest(cfg, row)
    ensures FloorHolds(cfg, Put(w, i, step))
  {
    hide BalancesHold, RequestHonest, RowHonest;
  }

  lemma {:induction false} RunsKeepFloor(cfg: Config, acts: seq<Action>)
    ensures FloorHolds(cfg, Exec(cfg, acts))
  {
    if acts != [] {
      RunsKeepFloor(cfg, acts[..|acts| - 1]);
      RunShapes(cfg, acts[..|acts| - 1]);
      NextKeepsFloor(cfg, Exec(cfg, acts[..|acts| - 1]), acts[|acts| - 1]);
    }
  }

  lemma NextKeepsFloor(cfg: Config, w: World, a: Action)
    requires FloorHolds(cfg, w) && AllShaped(cfg, w.requests)
    ensures FloorHolds(cfg, Next(cfg, w, a))
  {
    hide Forwards, Backwards, BalancesHold, RowHonest, Shaped, TransferNumber;
    match a
    case Start(legs, year, month) =>
    case Advance(i) =>
      if i < |w.requests| && w.requests[i].phase.Forward? {
        ForwardKeepsFloor(cfg, w.db, w.requests[i]);
        PutKeepsFloor(cfg, w, i, Forwards(cfg, w.db, w.requests[i]));
      }
    case Fail(i) =>
    case Undo(i) =>
      if i < |w.requests| && w.requests[i].phase.Undoing? {
        BackwardKeepsFloor(cfg, w.db, w.requests[i]);
        PutKeepsFloor(cfg, w, i, Backwards(cfg, w.db, w.requests[i]));
      }
  }

  /**
   Over every interleaving, a wallet that opens at or above minus its credit
   limit stays there, one that opens below is never debited, and every ledger
   row states a balance at or above the floor.
   */
  lemma CreditFloor(cfg: Config, acts: seq<Action>, wallet: string)
    requires wallet in cfg.opening
    ensures var w := Exec(cfg, acts);
            && wallet in w.db.balances
            && (if cfg.opening[wallet] >= -CreditLimit(cfg, wallet)
                then w.db.balances[wallet] >= -CreditLimit(cfg, wallet)
                else w.db.balances[wallet] == cfg.opening[wallet])
            && (forall row :: row in w.db.ledger && row.entity == wallet ==>
                  row.before + row.amount == row.after && row.after >= -CreditLimit(cfg, wallet))
  {
    hide Exec, CreditLimit;
    RunsKeepFloor(cfg, acts);
    assert WithinCredit(cfg, cfg.opening, wallet) <==> cfg.opening[wallet] >= -CreditLimit(cfg, wallet);
    var w := Exec(cfg, acts);
    forall row | row in w.db.ledger && row.entity == wallet
      ensures row.before + row.amount == row.after && row.after >= -CreditLimit(cfg, wallet)
    {
      assert RowHonest(cfg, row);
    }
  }

  // ---------- what a ledger row reports ----------

  /** Action j of the run is the call of a request that took the wallet from one balance to the other. */
  ghost predicate DebitAt(cfg: Config, acts: seq<Action>, j: nat, wallet: string, before: int, after: int)
    requires j < |acts|
  {
    var w, v := Exec(cfg, acts[..j]), Exec(cfg, acts[..j + 1]);
    && acts[j].Advance?
    && wallet in w.db.balances && w.db.balances[wallet] == before
    && wallet in v.db.balances && v.db.balances[wallet] == after
  }

  ghost predicate Debited(cfg: Config, acts: seq<Action>, wallet: string, before: int, after: int) {
    exists j :: 0 <= j < |acts| && DebitAt(cfg, acts, j, wallet, before, after)
  }

  ghost predicate RowReported(cfg: Config, acts: seq<Action>, row: Row) {
    row.after == row.before + row.amount && Debited(cfg, acts, row.entity, row.before, row.after)
  }

  /** A request that has debited and not yet posted reports the balance its debit left. */
  ghost predicate SeenReported(cfg: Config, acts: seq<Action>, r: Request) {
    r.phase.Forward? && r.posted < r.debited <= |r.legs| ==>
      var leg := r.legs[r.posted];
      Debited(cfg, acts, leg.wallet, r.seen + leg.cost, r.seen)
  }

  ghost predicate Reported(cfg: Config, acts: seq<Action>) {
    var w := Exec(cfg, acts);
    && (forall row :: row in w.db.ledger ==> RowReported(cfg, acts, row))
    && (forall i :: 0 <= i < |w.requests| ==> SeenReported(cfg, acts, w.requests[i]))
  }

  lemma DebitedStays(cfg: Config, acts: seq<Action>, a: Action, wallet: string, before: int, after: int)
    requires Debited(cfg, acts, wallet, before, after)
    ensures Debited(cfg, acts + [a], wallet, before, after)
  {
    hide Exec;
    var j :| 0 <= j < |acts| && DebitAt(cfg, acts, j, wallet, before, after);
    assert (acts + [a])[..j] == acts[..j] && (acts + [a])[..j + 1] == acts[..j + 1];
    assert DebitAt(cfg, acts + [a], j, wallet, before, after);
  }

  lemma DebitNow(cfg: Config, acts: seq<Action>, i: nat)
    requires i < |Exec(cfg, acts).requests| && AllShaped(cfg, Exec(cfg, acts).requests)
    requires Exec(cfg, acts).requests[i].phase.Forward?
    requires Exec(cfg, acts).requests[i].posted == Exec(cfg, acts).requests[i].debited
    ensures SeenReported(cfg, acts + [Advance(i)], Exec(cfg, acts + [Advance(i)]).requests[i])
  {
    hide Exec;
    var longer := acts + [Advance(i)];
    var w, v := Exec(cfg, acts), Exec(cfg, longer);
    OneMoreAction(cfg, acts, Advance(i));
    assert longer[..|acts|] == acts && longer[..|acts| + 1] == longer;
    var r := w.requests[i];
    if r.debited < |r.legs| && CanDebit(cfg, w.db, r.legs[r.debited]) {
      var leg := r.legs[r.debited];
      assert DebitAt(cfg, longer, |acts|, leg.wallet, w.db.balances[leg.wallet], w.db.balances[leg.wallet] - leg.cost);
    }
  }

  lemma RowsStayReported(cfg: Config, acts: seq<Action>, a: Action, row: Row)
    requires Reported(cfg, acts) && row in Exec(cfg, acts + [a]).db.ledger
    ensures RowReported(cfg, acts + [a], row)
  {
    hide Exec, Debited, DeleteRows, TransferNumber;
    OneMoreAction(cfg, acts, a);
    var w := Exec(cfg, acts);
    if row in w.db.ledger {
      assert RowReported(cfg, acts, row);
    } else if a.Undo? {
      var r := w.requests[a.request];
      assert r.stack[|r.stack| - 1].UndoLeg?;
      DeletionOnlyRemoves(w.db.ledger, r.number, r.legs[r.stack[|r.stack| - 1].leg].wallet, row);
      assert false;
    } else {
      assert SeenReported(cfg, acts, w.requests[a.request]);
    }
    DebitedStays(cfg, acts, a, row.entity, row.before, row.after);
  }

  lemma RequestsStayReported(cfg: Config, acts: seq<Action>, a: Action, i: nat)
    requires Reported(cfg, acts) && AllShaped(cfg, Exec(cfg, acts).requests) && i < |Exec(cfg, acts + [a]).requests|
    ensures SeenReported(cfg, acts + [a], Exec(cfg, acts + [a]).requests[i])
  {
    hide Exec, Debited, DeleteRows, TransferNumber;
    OneMoreAction(cfg, acts, a);
    var w, v := Exec(cfg, acts), Exec(cfg, acts + [a]);
    if i < |w.requests| && v.requests[i] == w.requests[i] {
      assert SeenReported(cfg, acts, w.requests[i]);
      var r := w.requests[i];
      if r.phase.Forward? && r.posted < r.debited <= |r.legs| {
        DebitedStays(cfg, acts, a, r.legs[r.posted].wallet, r.seen + r.legs[r.posted].cost, r.seen);
      }
    } else if a == Advance(i) && w.requests[i].posted == w.requests[i].debited {
      DebitNow(cfg, acts, i);
    } else if a == Advance(i) {
      assert Shaped(cfg, w.requests[i]);
    }
  }

  /** In every run each ledger row reports the balances of its wallet right before and right after a debit of its amount. */
  lemma {:induction false} RowsReportTheirDebits(cfg: Config, acts: seq<Action>)
    ensures Reported(cfg, acts)
  {
    hide Exec, RowReported, SeenReported;
    if acts == [] {
      NothingYet(cfg);
    } else {
      var most, last := acts[..|acts| - 1], acts[|acts| - 1];
      assert acts == most + [last];
      RowsReportTheirDebits(cfg, most);
      RunShapes(cfg, most);
      forall row | row in Exec(cfg, acts).db.ledger {
        RowsStayReported(cfg, most, last, row);
      }
      forall i | 0 <= i < |Exec(cfg, acts).requests| {
        RequestsStayReported(cfg, most, last, i);
      }
    }
  }
}
