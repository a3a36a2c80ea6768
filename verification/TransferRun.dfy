/**
 One web transfer as the controller writes it: guarded debits, ledger rows, the
 journal and transaction rows, a stack of compensations, and the loop that
 drains it in reverse when anything fails.
 */
module TransferRun {
  import opened Ledgers
  import opened TransferNumbers
  import opened TransferSaga

  /** The row that records a leg right after its debit. */
  function RowAfterDebit(db: Database, number: string, leg: Leg): Row
    requires leg.wallet in db.balances
  {
    Row(number, leg.wallet, -leg.cost, db.balances[leg.wallet] + leg.cost, db.balances[leg.wallet])
  }

  /** What a compensation undoes; `posted` says whether a leg already has its ledger row. */
  function Apply(db: Database, number: string, legs: seq<Leg>, c: Compensation, posted: bool): Database {
    match c
    case UndoLeg(k) =>
      if k < |legs| && legs[k].wallet in db.balances then
        var debited := Increment(db, legs[k].wallet, -legs[k].cost);
        if posted then debited.(ledger := debited.ledger + [RowAfterDebit(debited, number, legs[k])]) else debited
      else db
    case UndoJournal => db.(journals := db.journals + {number})
    case UndoTransaction => db.(transactions := db.transactions + {number})
  }

  /** The database a run shows when its stack is this; only the newest leg may still lack its row. */
  function Effects(start: Database, number: string, legs: seq<Leg>, stack: seq<Compensation>, posted: bool): Database {
    if stack == [] then start
    else Apply(Effects(start, number, legs, stack[..|stack| - 1], true), number, legs, stack[|stack| - 1], posted)
  }

  lemma EffectsOfNothing(start: Database, number: string, legs: seq<Leg>)
    ensures Effects(start, number, legs, [], true) == start
  {
  }

  lemma EffectsPush(start: Database, number: string, legs: seq<Leg>, stack: seq<Compensation>, c: Compensation, posted: bool)
    ensures Effects(start, number, legs, stack + [c], posted) ==
            Apply(Effects(start, number, legs, stack, true), number, legs, c, posted)
  {
    assert (stack + [c])[..|stack|] == stack;
  }

  /** A posted leg has taken its cost and left one ledger row with the balance before and after. */
  lemma PostedLeg(db: Database, number: string, legs: seq<Leg>, k: nat)
    requires k < |legs| && legs[k].wallet in db.balances
    ensures var leg := legs[k];
            var after := db.balances[leg.wallet] - leg.cost;
            Apply(db, number, legs, UndoLeg(k), true)
            == db.(balances := db.balances[leg.wallet := after],
                   ledger := db.ledger + [Row(number, leg.wallet, -leg.cost, db.balances[leg.wallet], after)])
  {
  }

  /** The wallets of a transfer are distinct, so one debit does not change what the other may do. */
  lemma OtherGuardUnchanged(cfg: Config, db: Database, number: string, legs: seq<Leg>)
    requires TransferLegs(legs) && |legs| == 2
    ensures CanDebit(cfg, Apply(db, number, legs, UndoLeg(0), true), legs[1]) == CanDebit(cfg, db, legs[1])
  {
  }

  lemma RowsAdded(db: Database, number: string, legs: seq<Leg>)
    ensures Apply(db, number, legs, UndoJournal, true) == db.(journals := db.journals + {number})
    ensures Apply(db, number, legs, UndoTransaction, true) == db.(transactions := db.transactions + {number})
  {
  }

  /** The compensations of a whole transfer, oldest first. */
  function FullStack(legs: seq<Leg>): seq<Compensation> {
    if |legs| == 2 then [UndoLeg(0), UndoLeg(1), UndoJournal, UndoTransaction] else [UndoLeg(0), UndoTransaction]
  }

  /** Both guards let the debits through and no call before the commit fails. */
  predicate Succeeds(cfg: Config, db: Database, legs: seq<Leg>, calls: nat) {
    && (forall k :: 0 <= k < |legs| ==> CanDebit(cfg, db, legs[k]))
    && calls > if |legs| == 2 then 6 else 3
  }

  ghost predicate Unused(db: Database, number: string) {
    && (forall row :: row in db.ledger ==> row.number != number)
    && number !in db.journals && number !in db.transactions
  }

  lemma {:induction false} DeletingNothing(ledger: seq<Row>, number: string, entity: string)
    requires forall row :: row in ledger ==> !Matches(row, number, entity)
    ensures DeleteRows(ledger, number, entity) == ledger
  {
    if ledger != [] {
      DeletingNothing(ledger[..|ledger| - 1], number, entity);
      assert ledger[|ledger| - 1] in ledger;
      assert ledger == ledger[..|ledger| - 1] + [ledger[|ledger| - 1]];
    }
  }

  lemma DeletingTheNewest(ledger: seq<Row>, row: Row)
    requires forall r :: r in ledger ==> !Matches(r, row.number, row.entity)
    ensures DeleteRows(ledger + [row], row.number, row.entity) == ledger
  {
    DeletingNothing(ledger, row.number, row.entity);
    assert (ledger + [row])[..|ledger|] == ledger;
    assert ledger + [] == ledger;
  }

  /** Rows of this number only ever belong to legs on the stack; the wallets of a transfer are distinct. */
  lemma {:induction false} EffectsRows(start: Database, number: string, legs: seq<Leg>, stack: seq<Compensation>)
    requires Unused(start, number) && TransferLegs(legs)
    ensures var db := Effects(start, number, legs, stack, true);
            && db.balances.Keys == start.balances.Keys
            && (forall row :: row in db.ledger && row.number == number ==>
                  exists k: nat :: UndoLeg(k) in stack && k < |legs| && row.entity == legs[k].wallet)
            && (UndoJournal !in stack ==> number !in db.journals)
            && (UndoTransaction !in stack ==> number !in db.transactions)
  {
    if stack != [] {
      var rest, last := stack[..|stack| - 1], stack[|stack| - 1];
      EffectsRows(start, number, legs, rest);
      assert last in stack && forall c :: c in rest ==> c in stack;
      assert forall c :: c in stack ==> c in rest || c == last;
      var db := Effects(start, number, legs, stack, true);
      forall row | row in db.ledger && row.number == number
        ensures exists k: nat :: UndoLeg(k) in stack && k < |legs| && row.entity == legs[k].wallet
      {
        if row in Effects(start, number, legs, rest, true).ledger {
          var k: nat :| UndoLeg(k) in rest && k < |legs| && row.entity == legs[k].wallet;
          assert UndoLeg(k) in stack;
        }
      }
    }
  }

  /** A compensation outside production takes its effect back exactly, whether or not its row was written. */
  lemma UndoRestores(db: Database, number: string, legs: seq<Leg>, k: nat, posted: bool)
    requires k < |legs| && legs[k].wallet in db.balances
    requires forall row :: row in db.ledger ==> !Matches(row, number, legs[k].wallet)
    ensures var after := Apply(db, number, legs, UndoLeg(k), posted);
            && DeleteRows(after.ledger, number, legs[k].wallet) == db.ledger
            && Increment(after, legs[k].wallet, legs[k].cost).balances == db.balances
  {
    hide DeleteRows;
    var debited := Increment(db, legs[k].wallet, -legs[k].cost);
    DeletingNothing(db.ledger, number, legs[k].wallet);
    DeletingTheNewest(db.ledger, RowAfterDebit(debited, number, legs[k]));
  }

  lemma UndoesItsEffect(start: Database, number: string, legs: seq<Leg>, stack: seq<Compensation>, k: nat, posted: bool)
    requires Unused(start, number) && TransferLegs(legs)
    requires stack <= FullStack(legs) && stack != [] && stack[|stack| - 1] == UndoLeg(k)
    ensures var shown := Effects(start, number, legs, stack, posted);
            k < |legs| &&
            Increment(shown.(ledger := DeleteRows(shown.ledger, number, legs[k].wallet)), legs[k].wallet, legs[k].cost)
            == Effects(start, number, legs, stack[..|stack| - 1], true)
  {
    hide Unused, Apply, DeleteRows;
    var rest := stack[..|stack| - 1];
    var db := Effects(start, number, legs, rest, true);
    EffectsRows(start, number, legs, rest);
    assert rest == FullStack(legs)[..|rest|] && stack[|stack| - 1] == FullStack(legs)[|rest|];
    forall row | row in db.ledger ensures !Matches(row, number, legs[k].wallet) {
      if row.number == number {
        var j: nat :| UndoLeg(j) in rest && j < |legs| && row.entity == legs[j].wallet;
        assert j != k;
      }
    }
    EffectsPush(start, number, legs, rest, UndoLeg(k), posted);
    assert rest + [UndoLeg(k)] == stack;
    UndoLegRestores(db, number, legs, k, posted);
  }

  lemma UndoLegRestores(db: Database, number: string, legs: seq<Leg>, k: nat, posted: bool)
    requires k < |legs| && forall row :: row in db.ledger ==> !Matches(row, number, legs[k].wallet)
    ensures var shown := Apply(db, number, legs, UndoLeg(k), posted);
            Increment(shown.(ledger := DeleteRows(shown.ledger, number, legs[k].wallet)), legs[k].wallet, legs[k].cost) == db
  {
    hide DeleteRows;
    if legs[k].wallet in db.balances {
      UndoRestores(db, number, legs, k, posted);
    } else {
      DeletingNothing(db.ledger, number, legs[k].wallet);
    }
  }

  /** The first wallet of a transfer that debited it shows the debit for as long as its compensation has not run. */
  lemma {:induction false} FirstDebitShows(start: Database, number: string, legs: seq<Leg>, stack: seq<Compensation>, posted: bool)
    requires TransferLegs(legs) && stack <= FullStack(legs) && stack != [] && legs[0].wallet in start.balances
    ensures var db := Effects(start, number, legs, stack, posted);
            db.balances.Keys == start.balances.Keys
            && db.balances[legs[0].wallet] == start.balances[legs[0].wallet] - legs[0].cost
  {
    var rest := stack[..|stack| - 1];
    if rest == [] {
      assert stack[0] == UndoLeg(0);
    } else {
      FirstDebitShows(start, number, legs, rest, true);
      assert stack[|stack| - 1] == FullStack(legs)[|rest|];
    }
  }

  /** What production leaves of a failed transfer: only the transaction row can be deleted. */
  function Stuck(stack: seq<Compensation>): seq<Compensation> {
    if stack != [] && stack[|stack| - 1].UndoTransaction? then stack[..|stack| - 1] else stack
  }

  class Bank {
    const cfg: Config
    var balances: map<string, int>
    var ledger: seq<Row>
    var journals: set<string>
    var transactions: set<string>
    var counter: nat

    constructor (cfg: Config)
      ensures this.cfg == cfg && Db() == Database(cfg.opening, [], {}, {}) && counter == cfg.counter
    {
      this.cfg := cfg;
      balances, ledger, journals, transactions, counter := cfg.opening, [], {}, {}, cfg.counter;
    }

    function Db(): Database
      reads this
    {
      Database(balances, ledger, journals, transactions)
    }

    /** `findOneAndUpdate` with the balance guard; `after` is the returned document's balance. */
    method Debit(leg: Leg) returns (updated: bool, after: int)
      modifies this`balances
      ensures updated == CanDebit(cfg, old(Db()), leg) == Affordable(cfg, old(balances), leg)
      ensures updated ==> leg.wallet in balances && after == balances[leg.wallet]
      ensures Db() == if updated then Increment(old(Db()), leg.wallet, -leg.cost) else old(Db())
    {
      updated, after := false, 0;
      if leg.wallet in balances
         && balances[leg.wallet] >= MinimumBalanceForDebit(leg.cost, CreditLimit(cfg, leg.wallet)) {
        balances := balances[leg.wallet := balances[leg.wallet] - leg.cost];
        updated, after := true, balances[leg.wallet];
      }
    }

    /** One compensation; outside production it undoes its effect, in production a guarded deletion throws first. */
    method Compensate(number: string, legs: seq<Leg>, c: Compensation) returns (threw: bool)
      requires c.UndoLeg? ==> c.leg < |legs|
      modifies this`balances, this`ledger, this`journals, this`transactions
      ensures threw == (cfg.production && !c.UndoTransaction?)
      ensures threw ==> Db() == old(Db())
      ensures !threw ==>
                match c
                case UndoLeg(k) =>
                  Db() == Increment(old(Db()).(ledger := DeleteRows(old(ledger), number, legs[k].wallet)),
                                    legs[k].wallet, legs[k].cost)
                case UndoJournal => Db() == old(Db()).(journals := old(journals) - {number})
                case UndoTransaction => Db() == old(Db()).(transactions := old(transactions) - {number})
    {
      threw := false;
      match c {
        case UndoLeg(k) =>
          if cfg.production { return true; }
          ledger := DeleteRows(ledger, number, legs[k].wallet);
          if legs[k].wallet in balances {
            balances := balances[legs[k].wallet := balances[legs[k].wallet] + legs[k].cost];
          }
        case UndoJournal =>
          if cfg.production { return true; }
          journals := journals - {number};
        case UndoTransaction =>
          transactions := transactions - {number};
      }
    }

    /** Debits one leg, pushes its compensation, writes its ledger row; `calls` database calls succeed before an unrelated error. */
    method Charge(number: string, legs: seq<Leg>, k: nat, calls: nat, stack: seq<Compensation>)
      returns (failed: bool, calls': nat, stack': seq<Compensation>, ghost posted: bool)
      requires k < |legs|
      modifies this`balances, this`ledger
      ensures stack' == stack || stack' == stack + [UndoLeg(k)]
      ensures stack' == stack ==> failed && Db() == old(Db()) && posted
      ensures stack' == stack <==> calls == 0 || !CanDebit(cfg, old(Db()), legs[k])
      ensures stack' != stack ==> CanDebit(cfg, old(Db()), legs[k]) && Db() == Apply(old(Db()), number, legs, UndoLeg(k), posted)
      ensures !failed ==> posted && stack' != stack && calls' + 2 == calls
      ensures failed <==> calls < 2 || !CanDebit(cfg, old(Db()), legs[k])
    {
      failed, calls', stack', posted := true, calls, stack, true;
      if calls' == 0 { return; }
      var updated, after := Debit(legs[k]);
      if !updated { return; }
      calls', stack', posted := calls' - 1, stack' + [UndoLeg(k)], false;
      if calls' == 0 { return; }
      ledger := ledger + [Row(number, legs[k].wallet, -legs[k].cost, after + legs[k].cost, after)];
      failed, calls', posted := false, calls' - 1, true;
    }

    /** The forward part; it stops at the first refusal or error with the stack of what it has done. */
    method Forward(number: string, legs: seq<Leg>, calls: nat)
      returns (failed: bool, stack: seq<Compensation>, ghost posted: bool)
      requires TransferLegs(legs)
      modifies this`balances, this`ledger, this`journals, this`transactions
      ensures stack <= FullStack(legs)
      ensures !posted ==> stack != [] && stack[|stack| - 1].UndoLeg?
      ensures Db() == Effects(old(Db()), number, legs, stack, posted)
      ensures !failed ==> stack == FullStack(legs) && posted
      ensures stack != [] ==> legs[0].wallet in old(balances)
      ensures stack != [] <==> calls > 0 && CanDebit(cfg, old(Db()), legs[0])
      ensures !failed <==> Succeeds(cfg, old(Db()), legs, calls)
    {
      hide Effects, Apply, CanDebit;
      ghost var start := Db();
      EffectsOfNothing(start, number, legs);
      var left := calls;
      stack := [];
      failed, left, stack, posted := Charge(number, legs, 0, left, stack);
      EffectsPush(start, number, legs, [], UndoLeg(0), posted);
      assert [] + [UndoLeg(0)] == [UndoLeg(0)];
      if failed {
        assert calls < 2 || !CanDebit(cfg, start, legs[0]);
        return;
      }
      assert stack == [UndoLeg(0)] && Db() == Effects(start, number, legs, stack, true);
      if |legs| == 2 {
        OtherGuardUnchanged(cfg, start, number, legs);
        failed, left, stack, posted := Charge(number, legs, 1, left, stack);
        EffectsPush(start, number, legs, [UndoLeg(0)], UndoLeg(1), posted);
        if failed {
          assert calls < 4 || !CanDebit(cfg, start, legs[1]);
          return;
        }
        if left == 0 { failed := true; return; }
        EffectsPush(start, number, legs, stack, UndoJournal, true);
        RowsAdded(Db(), number, legs);
        journals, left, stack := journals + {number}, left - 1, stack + [UndoJournal];
      }
      if left == 0 { failed := true; return; }
      EffectsPush(start, number, legs, stack, UndoTransaction, true);
      RowsAdded(Db(), number, legs);
      transactions, left, stack := transactions + {number}, left - 1, stack + [UndoTransaction];
      // The audit entry is the last call that can still fail.
      failed := left == 0;
    }

    /** The drain loop: newest compensation first; one that throws is logged and the loop goes on. */
    method Rollback(number: string, legs: seq<Leg>, stack: seq<Compensation>, ghost start: Database, ghost posted: bool)
      requires TransferLegs(legs) && stack <= FullStack(legs) && Unused(start, number)
      requires !posted ==> stack != [] && stack[|stack| - 1].UndoLeg?
      requires Db() == Effects(start, number, legs, stack, posted)
      modifies this`balances, this`ledger, this`journals, this`transactions
      ensures !cfg.production ==> Db() == start
      ensures cfg.production ==> Db() == Effects(start, number, legs, Stuck(stack), posted)
    {
      hide Effects, DeleteRows, Unused;
      var i := |stack|;
      assert stack[..i] == stack;
      while i > 0
        invariant 0 <= i <= |stack|
        invariant !cfg.production ==> Db() == Effects(start, number, legs, stack[..i], if i == |stack| then posted else true)
        invariant cfg.production ==> Db() == Effects(start, number, legs, if i == |stack| then stack else Stuck(stack), posted)
      {
        ghost var shown := Db();
        assert stack[..|stack|] == stack;
        i := i - 1;
        assert stack[i] == FullStack(legs)[i];
        var _ := Compensate(number, legs, stack[i]);
        UndoneInTurn(start, number, legs, stack, i, if i + 1 == |stack| then posted else true);
      }
      EffectsOfNothing(start, number, legs);
      assert stack[..0] == [];
      assert stack == [] ==> Stuck(stack) == stack;
    }

    /**
     The whole handler. `calls` is how many database calls succeed before an
     unrelated error. A committed transfer has moved exactly its costs; a failed
     one has changed nothing if and only if deletions are allowed (not
     production) or it failed before its first debit, which is when no call
     succeeds or the first guard refuses.
     */
    method PostTransfer(legs: seq<Leg>, year: nat, month: nat, calls: nat)
      returns (committed: bool, number: string, debited: bool)
      requires TransferLegs(legs) && CalendarMonth(year, month)
      requires Unused(Db(), TransferNumber(year, month, counter + 1))
      modifies this
      ensures counter == old(counter) + 1 && number == TransferNumber(year, month, counter)
      ensures committed <==> (forall k :: 0 <= k < |legs| ==> Affordable(cfg, old(balances), legs[k]))
                             && calls > if |legs| == 2 then 6 else 3
      ensures committed ==> Db() == Effects(old(Db()), number, legs, FullStack(legs), true)
      ensures debited <==> calls > 0 && Affordable(cfg, old(balances), legs[0])
      ensures !committed ==> (Db() == old(Db()) <==> !cfg.production || !debited)
    {
      counter := counter + 1;
      number := TransferNumber(year, month, counter);
      ghost var start := Db();
      forall k | 0 <= k < |legs| {
        GuardIsExact(cfg, start, legs[k]);
      }
      var failed, stack, posted := Forward(number, legs, calls);
      debited := stack != [];
      committed := !failed;
      if failed {
        Rollback(number, legs, stack, start, posted);
        if cfg.production {
          if debited {
            assert stack[0] == FullStack(legs)[0];
            FirstDebitShows(start, number, legs, Stuck(stack), posted);
          } else {
            EffectsOfNothing(start, number, legs);
          }
        }
      }
    }
  }

  lemma UndoneInTurn(start: Database, number: string, legs: seq<Leg>, stack: seq<Compensation>, i: nat, posted: bool)
    requires TransferLegs(legs) && Unused(start, number) && stack <= FullStack(legs) && i < |stack|
    requires !posted ==> stack[i].UndoLeg?
    ensures var shown := Effects(start, number, legs, stack[..i + 1], posted);
            var before := Effects(start, number, legs, stack[..i], true);
            match stack[i]
            case UndoLeg(k) => k < |legs| &&
              Increment(shown.(ledger := DeleteRows(shown.ledger, number, legs[k].wallet)), legs[k].wallet, legs[k].cost) == before
            case UndoJournal => shown.(journals := shown.journals - {number}) == before
            case UndoTransaction => shown.(transactions := shown.transactions - {number}) == before
  {
    hide Unused, DeleteRows, Increment;
    assert stack[..i + 1] == stack[..i] + [stack[i]] && stack[i] == FullStack(legs)[i];
    if stack[i].UndoLeg? {
      UndoesItsEffect(start, number, legs, stack[..i + 1], stack[i].leg, posted);
      assert stack[..i + 1][..i] == stack[..i];
    } else {
      EffectsPush(start, number, legs, stack[..i], stack[i], true);
      EffectsRows(start, number, legs, stack[..i]);
      assert stack[i] !in stack[..i];
    }
  }

  /** The effects of a whole stack, one compensation after another. */
  lemma FullEffects(start: Database, number: string, legs: seq<Leg>)
    requires TransferLegs(legs)
    ensures var debited := Apply(start, number, legs, UndoLeg(0), true);
            var rest := if |legs| == 2 then Apply(Apply(debited, number, legs, UndoLeg(1), true), number, legs, UndoJournal, true) else debited;
            Effects(start, number, legs, FullStack(legs), true) == Apply(rest, number, legs, UndoTransaction, true)
  {
    hide Effects, Apply;
    var debits := [UndoLeg(0)];
    EffectsOfNothing(start, number, legs);
    EffectsPush(start, number, legs, [], UndoLeg(0), true);
    assert [] + [UndoLeg(0)] == debits;
    if |legs| == 2 {
      EffectsPush(start, number, legs, debits, UndoLeg(1), true);
      EffectsPush(start, number, legs, debits + [UndoLeg(1)], UndoJournal, true);
      EffectsPush(start, number, legs, debits + [UndoLeg(1)] + [UndoJournal], UndoTransaction, true);
      assert debits + [UndoLeg(1)] + [UndoJournal] + [UndoTransaction] == FullStack(legs);
    } else {
      EffectsPush(start, number, legs, debits, UndoTransaction, true);
      assert debits + [UndoTransaction] == FullStack(legs);
    }
  }

  /** What a committed transfer has done, spelled out. */
  lemma {:induction false} CommittedTransfer(start: Database, number: string, legs: seq<Leg>)
    requires TransferLegs(legs) && forall leg :: leg in legs ==> leg.wallet in start.balances
    ensures var db := Effects(start, number, legs, FullStack(legs), true);
            && db.balances.Keys == start.balances.Keys
            && (forall w :: w in start.balances ==>
                  db.balances[w] == start.balances[w]
                                    - (if legs[0].wallet == w then legs[0].cost else 0)
                                    - (if |legs| == 2 && legs[1].wallet == w then legs[1].cost else 0))
            && |db.ledger| == |start.ledger| + |legs| && start.ledger <= db.ledger
            && (forall k :: 0 <= k < |legs| ==>
                  var row := db.ledger[|start.ledger| + k];
                  && row.number == number && row.entity == legs[k].wallet && row.amount == -legs[k].cost
                  && row.before == start.balances[legs[k].wallet] && row.after == db.balances[legs[k].wallet])
            && db.transactions == start.transactions + {number}
            && db.journals == start.journals + if |legs| == 2 then {number} else {}
  {
    hide Effects, Apply;
    FullEffects(start, number, legs);
    PostedLeg(start, number, legs, 0);
    var db := Apply(start, number, legs, UndoLeg(0), true);
    if |legs| == 2 {
      PostedLeg(db, number, legs, 1);
      var both := Apply(db, number, legs, UndoLeg(1), true);
      RowsAdded(both, number, legs);
      RowsAdded(both.(journals := both.journals + {number}), number, legs);
    } else {
      RowsAdded(db, number, legs);
    }
  }
}
