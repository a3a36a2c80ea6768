/**
 The login code challenge of one account document, under concurrent verify and
 issue requests. Every database call is one step: a verify request reads the
 document, then either counts a wrong attempt (and, from the fifth on, clears
 the challenge in a second call) or consumes the challenge by compare-and-swap.
 */
module LoginOtp {
  import opened Options

  /** The five challenge fields of the document are set together and unset together. */
  datatype Challenge = Challenge(id: nat, code: string, expires: int, attempts: nat)

  datatype Stage = Arrived | Wrong | Right(code: string) | Clearing | LoggedIn | Refused

  /** A verify request: the challenge id its session carries and the code it submits. */
  datatype Request = Request(challengeId: nat, otp: string, stage: Stage)

  datatype Event =
    | Issued(id: nat, code: string, expires: int)
    | WrongCode(id: nat)
    | Locked(id: nat)
    | Dropped(id: nat)
    | Consumed(id: nat, request: nat, code: string, expires: int, at: int)

  datatype World = World(
    account: Option<Challenge>,
    nextId: nat,
    now: int,
    requests: seq<Request>,
    history: seq<Event>)

  datatype Action =
    | Tick(ms: nat)
    | Issue(code: string)
    | Drop
    | Arrive(challengeId: nat, otp: string)
    | Proceed(request: nat)

  const LIFETIME := 5 * 60 * 1000
  const MAX_ATTEMPTS := 5

  /** `accepts(otp, storedCode)` stands for the keyed-hash comparison. */
  type Verifier = (string, string) -> bool

  predicate Holds(account: Option<Challenge>, id: nat) {
    account.Some? && account.value.id == id
  }

  predicate Accepted(accepts: Verifier, account: Option<Challenge>, r: Request, now: int) {
    Holds(account, r.challengeId) && account.value.expires >= now && accepts(r.otp, account.value.code)
  }

  function Move(w: World, i: nat, stage: Stage): World
    requires i < |w.requests|
  {
    w.(requests := w.requests[i := w.requests[i].(stage := stage)])
  }

  function Log(w: World, e: Event): World {
    w.(history := w.history + [e])
  }

  /** The next database call of request i. */
  function Call(accepts: Verifier, w: World, i: nat): World
    requires i < |w.requests|
  {
    var r := w.requests[i];
    match r.stage
    case Arrived =>
      Move(w, i, if Accepted(accepts, w.account, r, w.now) then Right(w.account.value.code) else Wrong)
    case Wrong =>
      if Holds(w.account, r.challengeId) then
        var counted := w.account.value.(attempts := w.account.value.attempts + 1);
        Log(Move(w, i, if counted.attempts >= MAX_ATTEMPTS then Clearing else Refused), WrongCode(r.challengeId))
          .(account := Some(counted))
      else Move(w, i, Refused)
    case Clearing =>
      if Holds(w.account, r.challengeId) then
        Log(Move(w, i, Refused), Locked(r.challengeId)).(account := None)
      else Move(w, i, Refused)
    case Right(code) =>
      if Holds(w.account, r.challengeId) && w.account.value.code == code && w.account.value.expires >= w.now then
        Log(Move(w, i, LoggedIn), Consumed(r.challengeId, i, code, w.account.value.expires, w.now)).(account := None)
      else Move(w, i, Refused)
    case _ => w
  }

  function Next(accepts: Verifier, w: World, a: Action): World {
    match a
    case Tick(ms) => w.(now := w.now + ms)
    case Issue(code) =>
      var issued := Challenge(w.nextId, code, w.now + LIFETIME, 0);
      Log(w, Issued(issued.id, code, issued.expires)).(account := Some(issued), nextId := w.nextId + 1)
    case Drop =>
      if w.account.Some? then Log(w, Dropped(w.account.value.id)).(account := None) else w
    case Arrive(id, otp) => w.(requests := w.requests + [Request(id, otp, Arrived)])
    case Proceed(i) => if i < |w.requests| then Call(accepts, w, i) else w
  }

  const START := World(None, 0, 0, [], [])

  /** Any interleaving of requests, issues, drops and the passing of time. */
  function Exec(accepts: Verifier, acts: seq<Action>): World {
    if acts == [] then START else Next(accepts, Exec(accepts, acts[..|acts| - 1]), acts[|acts| - 1])
  }

  // ---------- the invariant ----------

  predicate Closes(e: Event) {
    e.Locked? || e.Consumed? || e.Dropped?
  }

  /** How many wrong codes were counted against a challenge. */
  function WrongCodes(history: seq<Event>, id: nat): nat {
    if history == [] then 0
    else WrongCodes(history[..|history| - 1], id) + if history[|history| - 1] == WrongCode(id) then 1 else 0
  }

  /** The live challenge was issued as it stands, and nothing has closed it since. */
  ghost predicate LiveSinceIssue(history: seq<Event>, c: Challenge) {
    exists r :: 0 <= r < |history| && history[r] == Issued(c.id, c.code, c.expires)
                && forall p :: r < p < |history| ==> !Closes(history[p])
  }

  /** Every consumption took a challenge that was live, unexpired, and held a code its request's submission matches. */
  ghost predicate HonestLogin(accepts: Verifier, requests: seq<Request>, history: seq<Event>, q: nat)
    requires q < |history| && history[q].Consumed?
  {
    var e := history[q];
    && e.request < |requests| && requests[e.request].challengeId == e.id && requests[e.request].stage == LoggedIn
    && accepts(requests[e.request].otp, e.code) && e.expires >= e.at
    && LiveSinceIssue(history[..q], Challenge(e.id, e.code, e.expires, 0))
  }

  ghost predicate RequestSound(accepts: Verifier, w: World, i: nat)
    requires i < |w.requests|
  {
    && (w.requests[i].stage.Right? ==> accepts(w.requests[i].otp, w.requests[i].stage.code))
    && (w.requests[i].stage.LoggedIn? ==> exists q :: 0 <= q < |w.history| && w.history[q].Consumed? && w.history[q].request == i)
  }

  ghost predicate IssuesNumbered(w: World) {
    && (forall p :: 0 <= p < |w.history| && w.history[p].Issued? ==> w.history[p].id < w.nextId)
    && (forall p, q :: 0 <= p < q < |w.history| && w.history[p].Issued? && w.history[q].Issued? ==>
          w.history[p].id < w.history[q].id)
    && (forall p :: 0 <= p < |w.history| && w.history[p].WrongCode? ==> w.history[p].id < w.nextId)
  }

  ghost predicate Counted(w: World) {
    w.account.Some? ==>
      && w.account.value.id < w.nextId
      && w.account.value.attempts == WrongCodes(w.history, w.account.value.id)
      && (w.account.value.attempts >= MAX_ATTEMPTS ==>
            exists i :: 0 <= i < |w.requests| && w.requests[i].stage == Clearing
                        && w.requests[i].challengeId == w.account.value.id)
  }

  ghost predicate Protocol(accepts: Verifier, w: World) {
    && IssuesNumbered(w) && Counted(w)
    && (w.account.Some? ==> LiveSinceIssue(w.history, w.account.value))
    && (forall i :: 0 <= i < |w.requests| ==> RequestSound(accepts, w, i))
    && (forall q :: 0 <= q < |w.history| && w.history[q].Consumed? ==> HonestLogin(accepts, w.requests, w.history, q))
  }
}
