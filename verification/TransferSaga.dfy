/**
 Web transfers on a database without transactions. Every database call is one
 step; any number of requests interleave over any number of wallets. A request
 debits its wallets one by one under a balance guard, writes one ledger row per
 debit, then (for a sub-account) the agency journal row, then the transaction
 row. Each completed write pushes a compensation; a failure drains the stack.
 */
module TransferSaga {
  import opened Ledgers
  import opened TransferNumbers

  datatype Leg = Leg(wallet: string, cost: int)

  datatype Compensation = UndoLeg(leg: nat) | UndoJournal | UndoTransaction

  datatype Phase = Forward | Undoing(rowsDeleted: bool) | Committed | RolledBack

  /**
   One request. `debited` and `posted` count its forward debits and ledger
   rows; `held`, `rows`, `journalled` and `saved` record which of its effects
   the database still shows.
   */
  datatype Request = Request(
    number: string,
    legs: seq<Leg>,
    phase: Phase,
    stack: seq<Compensation>,
    debited: nat,
    posted: nat,
    seen: int,
    held: set<nat>,
    rows: set<nat>,
    journalled: bool,
    saved: bool)

  datatype Database = Database(
    balances: map<string, int>,
    ledger: seq<Row>,
    journals: set<string>,
    transactions: set<string>)

  /** In production the ledger and journal models refuse every deletion. */
  datatype Config = Config(production: bool, limits: map<string, int>, opening: map<string, int>, counter: nat)

  datatype World = World(db: Database, counter: nat, requests: seq<Request>)

  datatype Action =
    | Start(legs: seq<Leg>, year: nat, month: nat)
    | Advance(request: nat)
    | Fail(request: nat)
    | Undo(request: nat)

  /** One wallet for a direct transfer; the sub-account and then its master otherwise. */
  predicate TransferLegs(legs: seq<Leg>) {
    && 1 <= |legs| <= 2
    && (forall k :: 0 <= k < |legs| ==> legs[k].cost > 0)
    && (|legs| == 2 ==> legs[0].wallet != legs[1].wallet)
  }

  predicate IsSubAccount(r: Request) {
    |r.legs| == 2
  }

  function CreditLimit(cfg: Config, wallet: string): (limit: int)
    ensures limit >= 0
  {
    if wallet in cfg.limits && cfg.limits[wallet] > 0 then cfg.limits[wallet] else 0
  }

  function MinimumBalanceForDebit(cost: int, limit: int): int {
    cost - limit
  }

  function Fresh(number: string, legs: seq<Leg>): Request {
    Request(number, legs, Forward, [], 0, 0, 0, {}, {}, false, false)
  }

  // ---------- the database calls ----------

  predicate CanDebit(cfg: Config, db: Database, leg: Leg) {
    leg.wallet in db.balances &&
    db.balances[leg.wallet] >= MinimumBalanceForDebit(leg.cost, CreditLimit(cfg, leg.wallet))
  }

  /** The wallet exists and the debit does not take it below minus its credit limit; a limit below zero counts as none. */
  predicate Affordable(cfg: Config, balances: map<string, int>, leg: Leg) {
    && leg.wallet in balances
    && balances[leg.wallet] - leg.cost >=
         if leg.wallet in cfg.limits && cfg.limits[leg.wallet] >= 0 then -cfg.limits[leg.wallet] else 0
  }

  lemma GuardIsExact(cfg: Config, db: Database, leg: Leg)
    ensures CanDebit(cfg, db, leg) <==> Affordable(cfg, db.balances, leg)
  {
  }

  /** `$inc: { balance: amount }` on an existing wallet. */
  function Increment(db: Database, wallet: string, amount: int): Database {
    if wallet in db.balances then db.(balances := db.balances[wallet := db.balances[wallet] + amount]) else db
  }

  function LedgerRow(r: Request, k: nat): Row
    requires k < |r.legs|
  {
    Row(r.number, r.legs[k].wallet, -r.legs[k].cost, r.seen + r.legs[k].cost, r.seen)
  }

  // ---------- one request ----------

  /** The next forward call of a request, or its commit. */
  function Forwards(cfg: Config, db: Database, r: Request): (Database, Request) {
    if r.posted < r.debited <= |r.legs| then
      (db.(ledger := db.ledger + [LedgerRow(r, r.posted)]),
       r.(posted := r.posted + 1, rows := r.rows + {r.posted}))
    else if r.debited < |r.legs| then
      var leg := r.legs[r.debited];
      if CanDebit(cfg, db, leg) then
        var db' := Increment(db, leg.wallet, -leg.cost);
        (db', r.(seen := db'.balances[leg.wallet], debited := r.debited + 1,
                 held := r.held + {r.debited}, stack := r.stack + [UndoLeg(r.debited)]))
      else
        (db, r.(phase := Undoing(false)))
    else if IsSubAccount(r) && !r.journalled then
      (db.(journals := db.journals + {r.number}), r.(journalled := true, stack := r.stack + [UndoJournal]))
    else if !r.saved then
      (db.(transactions := db.transactions + {r.number}), r.(saved := true, stack := r.stack + [UndoTransaction]))
    else
      (db, r.(phase := Committed, stack := []))
  }

  /** The next call of the newest compensation; one that throws is logged and dropped. */
  function Backwards(cfg: Config, db: Database, r: Request): (Database, Request)
    requires r.phase.Undoing?
  {
    if r.stack == [] then
      (db, r.(phase := RolledBack))
    else
      var rest := r.stack[..|r.stack| - 1];
      match r.stack[|r.stack| - 1]
      case UndoLeg(k) =>
        if k >= |r.legs| || cfg.production then (db, r.(stack := rest, phase := Undoing(false)))
        else if !r.phase.rowsDeleted then
          (db.(ledger := DeleteRows(db.ledger, r.number, r.legs[k].wallet)),
           r.(rows := r.rows - {k}, phase := Undoing(true)))
        else
          (Increment(db, r.legs[k].wallet, r.legs[k].cost),
           r.(held := r.held - {k}, stack := rest, phase := Undoing(false)))
      case UndoJournal =>
        if cfg.production then (db, r.(stack := rest))
        else (db.(journals := db.journals - {r.number}), r.(journalled := false, stack := rest))
      case UndoTransaction =>
        (db.(transactions := db.transactions - {r.number}), r.(saved := false, stack := rest))
  }

  // ---------- all requests ----------

  function Put(w: World, i: nat, step: (Database, Request)): World
    requires i < |w.requests|
  {
    w.(db := step.0, requests := w.requests[i := step.1])
  }

  function Next(cfg: Config, w: World, a: Action): World {
    match a
    case Start(legs, year, month) =>
      if TransferLegs(legs) && CalendarMonth(year, month) then
        w.(counter := w.counter + 1,
           requests := w.requests + [Fresh(TransferNumber(year, month, w.counter + 1), legs)])
      else w
    case Advance(i) =>
      if i < |w.requests| && w.requests[i].phase.Forward? then Put(w, i, Forwards(cfg, w.db, w.requests[i])) else w
    case Fail(i) =>
      if i < |w.requests| && w.requests[i].phase.Forward?
      then Put(w, i, (w.db, w.requests[i].(phase := Undoing(false)))) else w
    case Undo(i) =>
      if i < |w.requests| && w.requests[i].phase.Undoing? then Put(w, i, Backwards(cfg, w.db, w.requests[i])) else w
  }

  /** Any interleaving of any number of requests; an action its request cannot take does nothing. */
  function Exec(cfg: Config, acts: seq<Action>): World {
    if acts == [] then World(Database(cfg.opening, [], {}, {}), cfg.counter, [])
    else Next(cfg, Exec(cfg, acts[..|acts| - 1]), acts[|acts| - 1])
  }
}
