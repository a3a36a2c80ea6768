/**
 The merchant webhook receiver: what one delivery does to the inbox and to the
 mirrored transfer state, and what a serial sequence of deliveries does.
 Concurrency is in MerchantSnapshots, delivery order in MerchantConvergence.
 */
module MerchantEvents {
  import opened Options

  datatype Status =
    | Pending | Accepted | Processing
    | Completed | Rejected | Cancelled | Canceled | CancelledByAdmin | Failed

  datatype Kind = TransferCreated | TransferCompleted | TransferCancelled

  datatype Event = Event(id: string, bodyHash: string, kind: Kind, transactionId: string, status: Status)

  /** A parsed JSON body; None stands for a value that is not a string. */
  datatype Body = Body(id: Option<string>, kind: string, transactionId: Option<string>, status: Option<string>)

  predicate Terminal(status: Status) {
    status in {Completed, Rejected, Cancelled, Canceled, CancelledByAdmin, Failed}
  }

  predicate Cancellation(status: Status) {
    Terminal(status) && status != Completed
  }

  function KindNamed(name: string): Option<Kind> {
    if name == "transfer.created" then Some(TransferCreated)
    else if name == "transfer.completed" then Some(TransferCompleted)
    else if name == "transfer.cancelled" then Some(TransferCancelled)
    else None
  }

  function StatusNamed(name: string): Option<Status> {
    if name == "pending" then Some(Pending)
    else if name == "accepted" then Some(Accepted)
    else if name == "processing" then Some(Processing)
    else if name == "completed" then Some(Completed)
    else if name == "rejected" then Some(Rejected)
    else if name == "cancelled" then Some(Cancelled)
    else if name == "canceled" then Some(Canceled)
    else if name == "cancelled_by_admin" then Some(CancelledByAdmin)
    else if name == "failed" then Some(Failed)
    else None
  }

  /** The words the receiver knows. */
  lemma KnownWords(name: string)
    ensures KindNamed(name).Some? <==> name in ["transfer.created", "transfer.completed", "transfer.cancelled"]
    ensures StatusNamed(name).Some? <==>
              name in ["pending", "accepted", "processing", "completed", "rejected", "cancelled", "canceled", "cancelled_by_admin", "failed"]
  {
  }

  predicate HexDigit(c: char) {
    'a' <= c <= 'f' || 'A' <= c <= 'F' || '0' <= c <= '9'
  }

  predicate ObjectId(text: string) {
    |text| == 24 && forall i :: 0 <= i < |text| ==> HexDigit(text[i])
  }

  /** The event a body describes, or None where the receiver answers INVALID_EVENT. */
  function Validate(body: Body, bodyHash: string): (event: Option<Event>)
    ensures forall e :: Describes(body, bodyHash, e) <==> event == Some(e)
  {
    if body.id.None? || |body.id.value| == 0 || |body.id.value| > 180 then None
    else if KindNamed(body.kind).None? then None
    else if body.transactionId.None? || !ObjectId(body.transactionId.value) then None
    else if body.status.None? || StatusNamed(body.status.value).None? then None
    else
      var kind, status := KindNamed(body.kind).value, StatusNamed(body.status.value).value;
      if kind == TransferCompleted && status != Completed then None
      else if kind == TransferCancelled && !Cancellation(status) then None
      else Some(Event(body.id.value, bodyHash, kind, body.transactionId.value, status))
  }

  function KindName(kind: Kind): (name: string)
    ensures KindNamed(name) == Some(kind)
  {
    match kind
    case TransferCreated => "transfer.created"
    case TransferCompleted => "transfer.completed"
    case TransferCancelled => "transfer.cancelled"
  }

  function StatusName(status: Status): (name: string)
    ensures StatusNamed(name) == Some(status)
  {
    match status
    case Pending => "pending"
    case Accepted => "accepted"
    case Processing => "processing"
    case Completed => "completed"
    case Rejected => "rejected"
    case Cancelled => "cancelled"
    case Canceled => "canceled"
    case CancelledByAdmin => "cancelled_by_admin"
    case Failed => "failed"
  }

  /** The body is the printing of the event, with an id, an object id and a status that agrees with the event type. */
  ghost predicate Describes(body: Body, bodyHash: string, e: Event) {
    && e.bodyHash == bodyHash
    && body == Body(Some(e.id), KindName(e.kind), Some(e.transactionId), Some(StatusName(e.status)))
    && 1 <= |e.id| <= 180 && ObjectId(e.transactionId) && WellFormed(e)
  }

  lemma HexDigitExactly(c: char)
    ensures HexDigit(c) <==> c in "0123456789abcdefABCDEF"
  {
    var digits := "0123456789abcdefABCDEF";
    if HexDigit(c) {
      var i := if c <= '9' then (c - '0') as int else if c <= 'F' then 16 + (c - 'A') as int else 10 + (c - 'a') as int;
      assert digits[i] == c;
    }
  }

  predicate WellFormed(e: Event) {
    && (e.kind == TransferCompleted ==> e.status == Completed)
    && (e.kind == TransferCancelled ==> Cancellation(e.status))
  }

  /** The status an event asks for: a creation never carries a terminal one. */
  function Next(e: Event): Status {
    if e.kind == TransferCreated then
      if e.status in {Pending, Accepted, Processing} then e.status else Pending
    else e.status
  }

  /** A terminal status enters the mirror only through the event type that announces it. */
  lemma TerminalNeedsItsOwnEventType(body: Body, bodyHash: string)
    requires Validate(body, bodyHash).Some?
    ensures var e := Validate(body, bodyHash).value;
            && (Next(e) == Completed <==> e.kind == TransferCompleted)
            && (Cancellation(Next(e)) <==> e.kind == TransferCancelled)
            && (!Terminal(Next(e)) <==> body.kind == "transfer.created")
  {
    assert KindNamed(body.kind).Some?;
  }

  // ---------- the two collections ----------

  datatype Receipt = Receipt(bodyHash: string, transactionId: string, ignored: bool)

  datatype Mirror = Mirror(status: Status, appliedCount: nat)

  datatype Database = Database(inbox: map<string, Receipt>, states: map<string, Mirror>)

  const EMPTY := Database(map[], map[])

  datatype Answer = Duplicate | Received(ignored: bool) | EventIdConflict | TerminalStateConflict

  /** What the transaction body does on a snapshot: only an answer, or an answer and its writes. */
  datatype Decision =
    | Unchanged(answer: Answer)
    | Write(answer: Answer, receipt: Receipt, mirror: Option<Mirror>)

  /** The receiver's ranks; statuses outside the table count as 0. */
  function TableRank(status: Status): nat {
    match status
    case Pending => 1
    case Accepted => 2
    case Processing => 3
    case _ => 0
  }

  predicate Ignores(current: Status, next: Status) {
    Terminal(current) || (!Terminal(next) && TableRank(next) <= TableRank(current))
  }

  predicate Contradicts(current: Status, next: Status) {
    && Terminal(current) && Terminal(next) && current != next
    && !(Cancellation(current) && Cancellation(next))
  }

  function Decide(db: Database, e: Event): (d: Decision)
    ensures d.Write? <==> d.answer.Received?
    ensures d.Write? ==> (d.answer.ignored <==> d.mirror.None?)
  {
    if e.id in db.inbox then
      Unchanged(if db.inbox[e.id].bodyHash != e.bodyHash then EventIdConflict else Duplicate)
    else
      var known, next := e.transactionId in db.states, Next(e);
      if known && Contradicts(db.states[e.transactionId].status, next) then
        Unchanged(TerminalStateConflict)
      else
        var ignored := known && Ignores(db.states[e.transactionId].status, next);
        var count := if known then db.states[e.transactionId].appliedCount else 0;
        Write(Received(ignored), Receipt(e.bodyHash, e.transactionId, ignored),
              if ignored then None else Some(Mirror(next, count + 1)))
  }

  function Install(db: Database, e: Event, d: Decision): Database {
    match d
    case Unchanged(_) => db
    case Write(_, receipt, mirror) =>
      Database(db.inbox[e.id := receipt],
               if mirror.Some? then db.states[e.transactionId := mirror.value] else db.states)
  }

  /** One delivery applied alone. */
  function Step(db: Database, e: Event): Database {
    Install(db, e, Decide(db, e))
  }

  /** Deliveries applied one after the other. */
  function Replay(db: Database, log: seq<Event>): Database {
    if log == [] then db else Step(Replay(db, log[..|log| - 1]), log[|log| - 1])
  }

  lemma {:induction false} ReplayAppends(db: Database, a: seq<Event>, b: seq<Event>)
    ensures Replay(db, a + b) == Replay(Replay(db, a), b)
  {
    if b == [] {
      assert a + b == a;
    } else {
      assert (a + b)[..|a + b| - 1] == a + b[..|b| - 1];
      ReplayAppends(db, a, b[..|b| - 1]);
    }
  }

  // ---------- what every serial history keeps ----------

  /** The height of a status on the climb pending < accepted < processing < terminal. */
  ghost function Height(status: Status): nat {
    if Terminal(status) then 4 else TableRank(status)
  }

  /** The later database remembers every receipt and every mirrored transfer of the earlier one, and only climbs. */
  ghost predicate Climbed(before: Database, after: Database) {
    && (forall id :: id in before.inbox ==> id in after.inbox && after.inbox[id] == before.inbox[id])
    && (forall tx :: tx in before.states ==>
          && tx in after.states
          && Height(before.states[tx].status) <= Height(after.states[tx].status)
          && before.states[tx].appliedCount <= after.states[tx].appliedCount
          && (before.states[tx].status != after.states[tx].status ==>
                Height(before.states[tx].status) < Height(after.states[tx].status))
          && (Terminal(before.states[tx].status) ==> after.states[tx] == before.states[tx]))
  }

  lemma {:induction false} HistoryOnlyClimbs(db: Database, log: seq<Event>)
    ensures Climbed(db, Replay(db, log))
  {
    if log != [] {
      HistoryOnlyClimbs(db, log[..|log| - 1]);
    }
  }

  /** The event ids that were applied to a transfer rather than ignored. */
  ghost function AppliedTo(db: Database, tx: string): set<string> {
    set id | id in db.inbox && db.inbox[id].transactionId == tx && !db.inbox[id].ignored
  }

  ghost predicate AccountedFor(db: Database, tx: string) {
    if tx in db.states then
      && 1 <= db.states[tx].appliedCount == |AppliedTo(db, tx)|
      && db.states[tx].appliedCount <= Height(db.states[tx].status)
    else AppliedTo(db, tx) == {}
  }

  ghost predicate Accounted(db: Database) {
    && (forall tx :: AccountedFor(db, tx))
    && (forall id :: id in db.inbox ==> db.inbox[id].transactionId in db.states)
  }

  lemma StepGrowsOneAppliedSet(db: Database, e: Event, tx: string)
    requires Decide(db, e).Write?
    ensures AppliedTo(Step(db, e), tx) ==
            if tx == e.transactionId && Decide(db, e).mirror.Some? then AppliedTo(db, tx) + {e.id} else AppliedTo(db, tx)
    ensures e.id !in AppliedTo(db, tx)
  {
    var inbox, after := db.inbox, Step(db, e).inbox;
    assert forall id :: id in after <==> id in inbox || id == e.id;
    assert forall id :: id in inbox ==> after[id] == inbox[id];
  }

  lemma StepAccountsFor(db: Database, e: Event, tx: string)
    requires AccountedFor(db, tx)
    ensures AccountedFor(Step(db, e), tx)
  {
    if Decide(db, e).Write? {
      StepGrowsOneAppliedSet(db, e, tx);
    }
  }

  /**
   In every history the applied counter of a transfer is the number of its
   non-ignored inbox rows, and a transfer is applied at most four times.
   */
  lemma AppliedCountIsTheInbox(log: seq<Event>)
    ensures var db := Replay(EMPTY, log);
            && (forall tx :: tx in db.states ==> db.states[tx].appliedCount == |AppliedTo(db, tx)| <= 4)
            && (forall id :: id in db.inbox ==> db.inbox[id].transactionId in db.states)
  {
    HistoryAccounts(log);
    var db := Replay(EMPTY, log);
    forall tx | tx in db.states ensures db.states[tx].appliedCount == |AppliedTo(db, tx)| <= 4 {
      assert AccountedFor(db, tx);
    }
  }

  lemma {:induction false} HistoryAccounts(log: seq<Event>)
    ensures Accounted(Replay(EMPTY, log))
  {
    if log != [] {
      HistoryAccounts(log[..|log| - 1]);
      forall tx ensures AccountedFor(Replay(EMPTY, log), tx) {
        StepAccountsFor(Replay(EMPTY, log[..|log| - 1]), log[|log| - 1], tx);
      }
    }
  }

  // ---------- decisions that outlive their snapshot ----------

  /**
   A decision that does not write the state row is still the right one after
   any further history, as long as nobody else has used the event id.
   */
  lemma StaleDecisionStaysRight(db: Database, log: seq<Event>, e: Event)
    requires Decide(db, e).Write? ==> Decide(db, e).mirror.None?
    requires e.id !in db.inbox ==> e.id !in Replay(db, log).inbox
    ensures Decide(Replay(db, log), e) == Decide(db, e)
  {
    HistoryOnlyClimbs(db, log);
  }

  lemma SameKeysSameDecision(a: Database, b: Database, e: Event)
    requires Decide(a, e).Write?
    requires e.id in a.inbox <==> e.id in b.inbox
    requires e.transactionId in a.states <==> e.transactionId in b.states
    requires e.transactionId in a.states ==> b.states[e.transactionId] == a.states[e.transactionId]
    ensures Decide(b, e) == Decide(a, e)
  {
  }
}
