/** What one step of one request does: to itself, to the balances and sums, and to everybody else's rows. */
module SagaRequests {
  import opened Ledgers
  import opened TransferSaga

  ghost function Below(n: nat): (s: set<nat>)
    ensures forall k: nat :: k in s <==> k < n
  {
    if n == 0 then {} else Below(n - 1) + {n - 1}
  }

  ghost predicate NoRepeats(stack: seq<Compensation>) {
    forall p, q :: 0 <= p < q < |stack| ==> stack[p] != stack[q]
  }

  /** The stack holds exactly the compensations of the effects still in place. */
  ghost predicate StackCovers(r: Request) {
    && NoRepeats(r.stack)
    && (forall k :: UndoLeg(k) in r.stack <==> k in r.held)
    && (UndoJournal in r.stack <==> r.journalled)
    && (UndoTransaction in r.stack <==> r.saved)
  }

  ghost predicate ForwardEffects(r: Request) {
    && r.held == Below(r.debited) && r.rows == Below(r.posted)
    && (r.journalled ==> IsSubAccount(r) && r.posted == |r.legs|)
  }

  /** How far a request is, and which of its effects the database therefore shows. */
  ghost predicate Shaped(cfg: Config, r: Request) {
    && TransferLegs(r.legs)
    && r.posted <= r.debited <= r.posted + 1 && r.debited <= |r.legs|
    && r.rows <= r.held <= Below(r.debited)
    && match r.phase
       case Forward =>
         && ForwardEffects(r) && StackCovers(r)
         && (r.saved ==> r.posted == |r.legs| && r.journalled == IsSubAccount(r))
       case Committed =>
         r.held == r.rows == Below(|r.legs|) && r.saved && r.journalled == IsSubAccount(r)
       case Undoing(rowsDeleted) =>
         if cfg.production then
           ForwardEffects(r) && !rowsDeleted && NoRepeats(r.stack) && (UndoTransaction in r.stack <==> r.saved)
         else
           && StackCovers(r)
           && (rowsDeleted ==> r.stack != [] && r.stack[|r.stack| - 1].UndoLeg? && r.stack[|r.stack| - 1].leg !in r.rows)
       case RolledBack =>
         !r.saved && if cfg.production then ForwardEffects(r) else r.held == {} && !r.journalled
  }

  lemma PushKeepsOrder(stack: seq<Compensation>, c: Compensation)
    requires NoRepeats(stack) && c !in stack
    ensures NoRepeats(stack + [c])
    ensures forall x :: x in stack + [c] <==> x in stack || x == c
  {
  }

  lemma PopForgetsOne(stack: seq<Compensation>)
    requires NoRepeats(stack) && stack != []
    ensures NoRepeats(stack[..|stack| - 1])
    ensures forall x :: x in stack[..|stack| - 1] <==> x in stack && x != stack[|stack| - 1]
  {
  }

  lemma ForwardKeepsShape(cfg: Config, db: Database, r: Request)
    requires Shaped(cfg, r) && r.phase.Forward?
    ensures Shaped(cfg, Forwards(cfg, db, r).1)
  {
    var next := Forwards(cfg, db, r).1;
    if r.posted < r.debited {
    } else if r.debited < |r.legs| {
      if CanDebit(cfg, db, r.legs[r.debited]) {
        PushKeepsOrder(r.stack, UndoLeg(r.debited));
      }
    } else if IsSubAccount(r) && !r.journalled {
      PushKeepsOrder(r.stack, UndoJournal);
    } else if !r.saved {
      PushKeepsOrder(r.stack, UndoTransaction);
    }
  }

  lemma BackwardKeepsShape(cfg: Config, db: Database, r: Request)
    requires Shaped(cfg, r) && r.phase.Undoing?
    ensures Shaped(cfg, Backwards(cfg, db, r).1)
  {
    if r.stack == [] {
      assert !cfg.production ==> forall k :: k in r.held ==> UndoLeg(k) in r.stack;
    } else if cfg.production {
      PopForgetsOne(r.stack);
    } else {
      UndoKeepsShape(cfg, db, r);
    }
  }

  lemma UndoKeepsShape(cfg: Config, db: Database, r: Request)
    requires Shaped(cfg, r) && r.phase.Undoing? && !cfg.production && r.stack != []
    ensures Shaped(cfg, Backwards(cfg, db, r).1)
  {
    hide StackCovers, NoRepeats, DeleteRows, Increment;
    var last := r.stack[|r.stack| - 1];
    assert last in r.stack;
    if last.UndoLeg? && !r.phase.rowsDeleted {
      assert Owed(r, last);
      SameStackCovers(r, r.(rows := r.rows - {last.leg}, phase := Undoing(true)));
    } else {
      PopCovers(r);
    }
  }

  /** The effect a compensation stands for is still in place. */
  ghost predicate Owed(r: Request, c: Compensation)
    requires StackCovers(r)
    ensures Owed(r, c) <==> c in r.stack
  {
    match c
    case UndoLeg(k) => k in r.held
    case UndoJournal => r.journalled
    case UndoTransaction => r.saved
  }

  lemma SameStackCovers(r: Request, next: Request)
    requires StackCovers(r)
    requires next.stack == r.stack && next.held == r.held && next.journalled == r.journalled && next.saved == r.saved
    ensures StackCovers(next)
  {
  }

  lemma PopCovers(r: Request)
    requires StackCovers(r) && r.stack != []
    ensures var last, next := r.stack[|r.stack| - 1], r.(stack := r.stack[..|r.stack| - 1], phase := Undoing(false));
            match last
            case UndoLeg(k) => k in r.held && StackCovers(next.(held := r.held - {k}))
            case UndoJournal => StackCovers(next.(journalled := false))
            case UndoTransaction => StackCovers(next.(saved := false))
  {
    PopForgetsOne(r.stack);
    assert r.stack[|r.stack| - 1] in r.stack;
  }

  // ---------- amounts ----------

  /** What the legs in `part` cost the wallet. */
  ghost function Share(legs: seq<Leg>, part: set<nat>, k: nat, wallet: string): int {
    if k < |legs| && k in part && legs[k].wallet == wallet then legs[k].cost else 0
  }

  ghost function Amount(legs: seq<Leg>, part: set<nat>, wallet: string): int {
    Share(legs, part, 0, wallet) + Share(legs, part, 1, wallet)
  }

  // ---------- rows ----------

  /** The ledger holds exactly one row for each posted leg of the request, and no other row under its number. */
  ghost predicate OwnRows(ledger: seq<Row>, r: Request) {
    && (forall k :: 0 <= k < |r.legs| ==>
          var rows := MatchingRows(ledger, r.number, r.legs[k].wallet);
          if k in r.rows then |rows| == 1 && rows[0].amount == -r.legs[k].cost && rows[0].entity == r.legs[k].wallet
          else rows == [])
    && (forall row :: row in ledger && row.number == r.number ==>
          exists k :: 0 <= k < |r.legs| && k in r.rows && row.entity == r.legs[k].wallet)
  }

  ghost predicate Owns(db: Database, r: Request) {
    && OwnRows(db.ledger, r)
    && (r.number in db.journals <==> r.journalled)
    && (r.number in db.transactions <==> r.saved)
  }

  /** The step moved each wallet's balance and ledger sum by exactly the change in the request's own shares. */
  ghost predicate Balanced(db: Database, r: Request, db': Database, r': Request) {
    && db'.balances.Keys == db.balances.Keys
    && (forall w :: w in db.balances ==>
          db'.balances[w] + Amount(r'.legs, r'.held, w) == db.balances[w] + Amount(r.legs, r.held, w))
    && (forall w :: CalculateBalance(db'.ledger, w) + Amount(r'.legs, r'.rows, w) ==
                    CalculateBalance(db.ledger, w) + Amount(r.legs, r.rows, w))
  }

  /** The step leaves alone every row that carries another number. */
  ghost predicate OthersUntouched(db: Database, number: string, db': Database) {
    && (forall n, w :: n != number ==> MatchingRows(db'.ledger, n, w) == MatchingRows(db.ledger, n, w))
    && (forall row: Row :: row.number != number ==> (row in db'.ledger <==> row in db.ledger))
    && (forall n :: n != number ==> (n in db'.journals <==> n in db.journals))
    && (forall n :: n != number ==> (n in db'.transactions <==> n in db.transactions))
  }

  lemma OthersKeepTheirs(db: Database, number: string, db': Database, other: Request)
    requires OthersUntouched(db, number, db') && other.number != number && Owns(db, other)
    ensures Owns(db', other)
  {
  }

  /** A step that keeps books: own effects as recorded, sums moved accordingly, strangers untouched. */
  ghost predicate GoodStep(db: Database, r: Request, db': Database, r': Request) {
    && r'.number == r.number && r'.legs == r.legs
    && Owns(db', r') && Balanced(db, r, db', r') && OthersUntouched(db, r.number, db')
  }

  lemma AddShare(legs: seq<Leg>, part: set<nat>, k: nat, w: string)
    requires k < |legs| <= 2 && k !in part
    ensures Amount(legs, part + {k}, w) == Amount(legs, part, w) + if legs[k].wallet == w then legs[k].cost else 0
  {
  }

  lemma RemoveShare(legs: seq<Leg>, part: set<nat>, k: nat, w: string)
    requires k < |legs| <= 2 && k in part
    ensures Amount(legs, part - {k}, w) == Amount(legs, part, w) - if legs[k].wallet == w then legs[k].cost else 0
  {
  }

  lemma PostOwnRows(cfg: Config, ledger: seq<Row>, r: Request)
    requires Shaped(cfg, r) && r.phase.Forward? && OwnRows(ledger, r) && r.posted < r.debited
    ensures OwnRows(ledger + [LedgerRow(r, r.posted)], r.(posted := r.posted + 1, rows := r.rows + {r.posted}))
  {
    hide MatchingRows;
    var row := LedgerRow(r, r.posted);
    forall k | 0 <= k < |r.legs|
      ensures MatchingRows(ledger + [row], r.number, r.legs[k].wallet) ==
              if k == r.posted then [row] else MatchingRows(ledger, r.number, r.legs[k].wallet)
    {
      AppendedRow(ledger, row, r.number, r.legs[k].wallet);
    }
    forall x | x in ledger + [row] && x.number == r.number
      ensures exists k :: 0 <= k < |r.legs| && k in r.rows + {r.posted} && x.entity == r.legs[k].wallet
    {
      var k :| 0 <= k < |r.legs| && (k in r.rows || k == r.posted) && x.entity == r.legs[k].wallet;
      assert k in r.rows + {r.posted};
    }
  }

  lemma PostStep(cfg: Config, db: Database, r: Request)
    requires Shaped(cfg, r) && r.phase.Forward? && Owns(db, r) && r.posted < r.debited
    ensures GoodStep(db, r, Forwards(cfg, db, r).0, Forwards(cfg, db, r).1)
  {
    hide OwnRows, MatchingRows, CalculateBalance, Amount;
    var row, next := LedgerRow(r, r.posted), Forwards(cfg, db, r);
    PostOwnRows(cfg, db.ledger, r);
    forall n, w | n != r.number ensures MatchingRows(next.0.ledger, n, w) == MatchingRows(db.ledger, n, w) {
      AppendedRow(db.ledger, row, n, w);
    }
    forall w ensures CalculateBalance(next.0.ledger, w) + Amount(r.legs, next.1.rows, w) ==
                     CalculateBalance(db.ledger, w) + Amount(r.legs, r.rows, w)
    {
      AppendedRow(db.ledger, row, r.number, w);
      AddShare(r.legs, r.rows, r.posted, w);
    }
    assert forall x :: x in next.0.ledger <==> x in db.ledger || x == row;
  }

  lemma DebitStep(cfg: Config, db: Database, r: Request)
    requires Shaped(cfg, r) && r.phase.Forward? && Owns(db, r)
    requires r.posted == r.debited < |r.legs|
    ensures GoodStep(db, r, Forwards(cfg, db, r).0, Forwards(cfg, db, r).1)
  {
    hide MatchingRows, CalculateBalance, Amount;
    forall w ensures Amount(r.legs, r.held + {r.debited}, w) ==
                     Amount(r.legs, r.held, w) + if r.legs[r.debited].wallet == w then r.legs[r.debited].cost else 0
    {
      AddShare(r.legs, r.held, r.debited, w);
    }
  }

  lemma ForwardIsGood(cfg: Config, db: Database, r: Request)
    requires Shaped(cfg, r) && r.phase.Forward? && Owns(db, r)
    ensures GoodStep(db, r, Forwards(cfg, db, r).0, Forwards(cfg, db, r).1)
  {
    if r.posted < r.debited {
      PostStep(cfg, db, r);
    } else if r.debited < |r.legs| {
      DebitStep(cfg, db, r);
    }
  }

  lemma DeleteOwnRows(cfg: Config, ledger: seq<Row>, r: Request, k: nat)
    requires TransferLegs(r.legs) && OwnRows(ledger, r) && k < |r.legs|
    ensures OwnRows(DeleteRows(ledger, r.number, r.legs[k].wallet), r.(rows := r.rows - {k}, phase := Undoing(true)))
  {
    hide MatchingRows, DeleteRows;
    var wallet := r.legs[k].wallet;
    var after := DeleteRows(ledger, r.number, wallet);
    forall j | 0 <= j < |r.legs|
      ensures MatchingRows(after, r.number, r.legs[j].wallet) ==
              if j == k then [] else MatchingRows(ledger, r.number, r.legs[j].wallet)
    {
      DeletionKeepsOtherRows(ledger, r.number, wallet, r.number, r.legs[j].wallet);
    }
    forall row | row in after && row.number == r.number
      ensures exists j :: 0 <= j < |r.legs| && j in r.rows - {k} && row.entity == r.legs[j].wallet
    {
      DeletionOnlyRemoves(ledger, r.number, wallet, row);
      var j :| 0 <= j < |r.legs| && j in r.rows && row.entity == r.legs[j].wallet;
      assert j in r.rows - {k};
    }
  }

  lemma DeleteMovesSums(cfg: Config, ledger: seq<Row>, r: Request, k: nat, w: string)
    requires TransferLegs(r.legs) && OwnRows(ledger, r) && k < |r.legs|
    ensures CalculateBalance(DeleteRows(ledger, r.number, r.legs[k].wallet), w) + Amount(r.legs, r.rows - {k}, w) ==
            CalculateBalance(ledger, w) + Amount(r.legs, r.rows, w)
  {
    hide Amount, CalculateBalance, MatchingRows, DeleteRows;
    var wallet := r.legs[k].wallet;
    var gone := MatchingRows(ledger, r.number, wallet);
    DeletionMovesOneSum(ledger, r.number, wallet, w);
    if k in r.rows {
      RemoveShare(r.legs, r.rows, k, w);
      OneRowSum(gone, wallet);
    } else {
      NoRowsSum(wallet);
      assert r.rows - {k} == r.rows;
    }
  }

  lemma DeleteStep(cfg: Config, db: Database, r: Request)
    requires Shaped(cfg, r) && r.phase == Undoing(false) && Owns(db, r) && !cfg.production
    requires r.stack != [] && r.stack[|r.stack| - 1].UndoLeg?
    ensures GoodStep(db, r, Backwards(cfg, db, r).0, Backwards(cfg, db, r).1)
  {
    hide OwnRows, MatchingRows, DeleteRows, CalculateBalance, Amount;
    var k, next := r.stack[|r.stack| - 1].leg, Backwards(cfg, db, r);
    assert UndoLeg(k) in r.stack;
    DeleteOwnRows(cfg, db.ledger, r, k);
    forall w ensures CalculateBalance(next.0.ledger, w) + Amount(r.legs, next.1.rows, w) ==
                     CalculateBalance(db.ledger, w) + Amount(r.legs, r.rows, w)
    {
      DeleteMovesSums(cfg, db.ledger, r, k, w);
    }
    forall n, w | n != r.number ensures MatchingRows(next.0.ledger, n, w) == MatchingRows(db.ledger, n, w) {
      DeletionKeepsOtherRows(db.ledger, r.number, r.legs[k].wallet, n, w);
    }
    forall row: Row | row.number != r.number ensures row in next.0.ledger <==> row in db.ledger {
      DeletionOnlyRemoves(db.ledger, r.number, r.legs[k].wallet, row);
    }
  }

  lemma RefundStep(cfg: Config, db: Database, r: Request)
    requires Shaped(cfg, r) && r.phase == Undoing(true) && Owns(db, r) && !cfg.production
    requires forall k :: k in r.held ==> r.legs[k].wallet in db.balances
    ensures GoodStep(db, r, Backwards(cfg, db, r).0, Backwards(cfg, db, r).1)
  {
    hide MatchingRows, CalculateBalance, Amount;
    var k := r.stack[|r.stack| - 1].leg;
    assert UndoLeg(k) in r.stack;
    forall w ensures Amount(r.legs, r.held - {k}, w) ==
                     Amount(r.legs, r.held, w) - if r.legs[k].wallet == w then r.legs[k].cost else 0
    {
      RemoveShare(r.legs, r.held, k, w);
    }
  }

  lemma BackwardIsGood(cfg: Config, db: Database, r: Request)
    requires Shaped(cfg, r) && r.phase.Undoing? && Owns(db, r)
    requires forall k :: k in r.held ==> r.legs[k].wallet in db.balances
    ensures GoodStep(db, r, Backwards(cfg, db, r).0, Backwards(cfg, db, r).1)
  {
    hide MatchingRows, DeleteRows, CalculateBalance, Amount, Increment;
    if r.stack != [] && r.stack[|r.stack| - 1].UndoLeg? && !cfg.production {
      if r.phase.rowsDeleted {
        RefundStep(cfg, db, r);
      } else {
        DeleteStep(cfg, db, r);
      }
    }
  }
}
