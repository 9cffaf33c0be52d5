/** Just-in-time admin grants: requests, approvals, revocations, the auto-revoke worker and the queued jobs. */
module AdminGrants {
  import opened Prelude

  type Id = nat
  type Process = nat

  /** A device user as the agent last reported it. */
  datatype DeviceUser = DeviceUser(device: string, shortName: string, isAdmin: bool)

  datatype Status = Pending | Approved | Denied | Revoked

  /** A request row joined with its device user's short name, which no handler changes. */
  datatype Request = Request(
    device: string,
    username: string,
    hours: int,
    status: Status,
    decidedAt: Option<int>,
    revokeAt: Option<int>,
    revokedAt: Option<int>)

  datatype JobKind = Elevation | Revocation | RevocationAuto

  /** A queued `dseditgroup -o edit -a/-d '<username>' -t user admin` job. */
  datatype Job = Job(device: string, username: string, kind: JobKind)
  {
    predicate Adds() { kind == Elevation }
  }

  datatype HttpError = NotFound | BadRequest

  const HOUR := 3600

  /** A worker pass between its query and its commit: its clock reading and the rows the query returned. */
  datatype Pass = Pass(at: int, rows: seq<Id>)

  /**
   * All rows, and the passes under way: every server process runs its own worker. `lastTick` is
   * the latest clock reading of a finished pass (first the start-up time).
   */
  datatype Store = Store(
    now: int,
    lastTick: int,
    users: map<string, DeviceUser>,
    devices: set<string>,
    requests: map<Id, Request>,
    jobs: seq<Job>,
    passes: map<Process, Pass>)

  // ----- Specifications of the handlers -----

  function Create(s: Store, id: Id, device: string, user: string, hours: int): Result<Store, HttpError>
    requires id !in s.requests
  {
    if device !in s.devices then Err(NotFound)
    else if user !in s.users || s.users[user].device != device then Err(NotFound)
    else if s.users[user].isAdmin then Err(BadRequest)
    else if !(1 <= hours <= 72) then Err(BadRequest)
    else
      var q := Request(device, s.users[user].shortName, hours, Pending, None, None, None);
      Ok(s.(requests := s.requests[id := q]))
  }

  function Approve(s: Store, id: Id): Result<Store, HttpError> {
    if id !in s.requests then Err(NotFound)
    else if s.requests[id].status != Pending then Err(BadRequest)
    else
      var q := s.requests[id];
      var until := s.now + q.hours * HOUR;
      Ok(s.(
        requests := s.requests[id := q.(status := Approved, decidedAt := Some(s.now), revokeAt := Some(until))],
        jobs := s.jobs + [Job(q.device, q.username, Elevation)]))
  }

  function Deny(s: Store, id: Id): Result<Store, HttpError> {
    if id !in s.requests then Err(NotFound)
    else if s.requests[id].status != Pending then Err(BadRequest)
    else Ok(s.(requests := s.requests[id := s.requests[id].(status := Denied, decidedAt := Some(s.now))]))
  }

  /** Ends one grant, whatever its row holds by now: shared by the manual route and the worker. */
  function End(s: Store, id: Id, kind: JobKind, at: int): Store
    requires id in s.requests
  {
    var q := s.requests[id];
    s.(requests := s.requests[id := Ended(q, at)], jobs := s.jobs + [Job(q.device, q.username, kind)])
  }

  function Ended(q: Request, at: int): Request {
    q.(status := Revoked, revokedAt := Some(at))
  }

  function Revoke(s: Store, id: Id): Result<Store, HttpError> {
    if id !in s.requests then Err(NotFound)
    else if s.requests[id].status != Approved then Err(BadRequest)
    else Ok(End(s, id, Revocation, s.now))
  }

  predicate Expired(q: Request, at: int) {
    q.status == Approved && q.revokeAt.Some? && q.revokeAt.value <= at
  }

  predicate Distinct(rows: seq<Id>) {
    forall i, j :: 0 <= i < j < |rows| ==> rows[i] != rows[j]
  }

  /** `rows` is what the worker's query may return: every grant expired at `at` once, in any order. */
  ghost predicate IsListing(s: Store, at: int, rows: seq<Id>) {
    Distinct(rows) && forall i :: i in rows <==> i in s.requests && Expired(s.requests[i], at)
  }

  /** First half of a pass: clock reading, then the query, which locks nothing. Anything else is not an answer. */
  ghost function BeginPass(s: Store, p: Process, at: int, rows: seq<Id>): Store {
    if p !in s.passes && at <= s.now && IsListing(s, at, rows) then s.(passes := s.passes[p := Pass(at, rows)]) else s
  }

  /** The worker's treatment of one selected row; one without a username is skipped. */
  function EndNamed(s: Store, id: Id, at: int): Store
    requires id in s.requests
  {
    if s.requests[id].username == "" then s else End(s, id, RevocationAuto, at)
  }

  /** The worker's loop over the selected rows. */
  function EndAll(s: Store, rows: seq<Id>, at: int): (s': Store)
    requires forall i :: i in rows ==> i in s.requests
    ensures s'.requests.Keys == s.requests.Keys
    ensures s'.now == s.now && s'.lastTick == s.lastTick && s'.passes == s.passes
    decreases rows
  {
    if rows == [] then s else EndNamed(EndAll(s, rows[..|rows| - 1], at), rows[|rows| - 1], at)
  }

  predicate CanFinish(s: Store, p: Process) {
    p in s.passes && forall i :: i in s.passes[p].rows ==> i in s.requests
  }

  /** Second half: the listed rows are written and committed, without being read again. */
  function FinishPass(s: Store, p: Process): Store {
    if CanFinish(s, p) then
      var pass := s.passes[p];
      EndAll(s, pass.rows, pass.at)
        .(passes := s.passes - {p}, lastTick := if s.lastTick < pass.at then pass.at else s.lastTick)
    else s
  }

  // ----- The handlers and the worker as they update the rows -----

  class AdminAccess {
    var now: int
    var lastTick: int
    var users: map<string, DeviceUser>
    var devices: set<string>
    var requests: map<Id, Request>
    var jobs: seq<Job>
    var passes: map<Process, Pass>

    ghost function View(): Store
      reads this
    {
      Store(now, lastTick, users, devices, requests, jobs, passes)
    }

    method CreateRequest(id: Id, device: string, user: string, hours: int) returns (r: Result<(), HttpError>)
      requires id !in requests
      modifies this`requests
      ensures match Create(old(View()), id, device, user, hours)
        case Ok(s) => r.Ok? && View() == s
        case Err(e) => r == Err(e) && View() == old(View())
    {
      if device !in devices {
        return Err(NotFound);
      }
      if user !in users || users[user].device != device {
        return Err(NotFound);
      }
      if users[user].isAdmin {
        return Err(BadRequest);
      }
      if !(1 <= hours <= 72) {
        return Err(BadRequest);
      }
      requests := requests[id := Request(device, users[user].shortName, hours, Pending, None, None, None)];
      r := Ok(());
    }

    method ApproveRequest(id: Id) returns (r: Result<(), HttpError>)
      modifies this`requests, this`jobs
      ensures match Approve(old(View()), id)
        case Ok(s) => r.Ok? && View() == s
        case Err(e) => r == Err(e) && View() == old(View())
    {
      if id !in requests {
        return Err(NotFound);
      }
      var q := requests[id];
      if q.status != Pending {
        return Err(BadRequest);
      }
      q := q.(status := Approved, decidedAt := Some(now));
      q := q.(revokeAt := Some(now + q.hours * HOUR));
      requests := requests[id := q];
      jobs := jobs + [Job(q.device, q.username, Elevation)];
      r := Ok(());
    }

    method DenyRequest(id: Id) returns (r: Result<(), HttpError>)
      modifies this`requests
      ensures match Deny(old(View()), id)
        case Ok(s) => r.Ok? && View() == s
        case Err(e) => r == Err(e) && View() == old(View())
    {
      if id !in requests {
        return Err(NotFound);
      }
      if requests[id].status != Pending {
        return Err(BadRequest);
      }
      requests := requests[id := requests[id].(status := Denied, decidedAt := Some(now))];
      r := Ok(());
    }

    method RevokeRequest(id: Id) returns (r: Result<(), HttpError>)
      modifies this`requests, this`jobs
      ensures match Revoke(old(View()), id)
        case Ok(s) => r.Ok? && View() == s
        case Err(e) => r == Err(e) && View() == old(View())
    {
      if id !in requests {
        return Err(NotFound);
      }
      var q := requests[id];
      if q.status != Approved {
        return Err(BadRequest);
      }
      requests := requests[id := q.(status := Revoked, revokedAt := Some(now))];
      jobs := jobs + [Job(q.device, q.username, Revocation)];
      r := Ok(());
    }

    /** _run_once up to the answer `expired` of its query. */
    method ListExpired(p: Process, at: int, expired: seq<Id>)
      requires p !in passes && at <= now && IsListing(View(), at, expired)
      modifies this`passes
      ensures View() == BeginPass(old(View()), p, at, expired)
    {
      passes := passes[p := Pass(at, expired)];
    }

    /** The rest of _run_once; other requests and other processes' passes may have come in between. */
    method AutoRevoke(p: Process)
      requires CanFinish(View(), p)
      modifies this`requests, this`jobs, this`lastTick, this`passes
      ensures View() == FinishPass(old(View()), p)
    {
      var pass := passes[p];
      for i := 0 to |pass.rows|
        invariant View() == EndAll(old(View()), pass.rows[..i], pass.at)
      {
        assert pass.rows[..i + 1][..i] == pass.rows[..i];
        var q := requests[pass.rows[i]];
        if q.username != "" {
          requests := requests[pass.rows[i] := q.(status := Revoked, revokedAt := Some(pass.at))];
          jobs := jobs + [Job(q.device, q.username, RevocationAuto)];
        }
      }
      assert pass.rows[..|pass.rows|] == pass.rows;
      passes := passes - {p};
      if lastTick < pass.at {
        lastTick := pass.at;
      }
    }
  }

  // ----- Runs -----

  datatype Event =
    | CreateCall(id: Id, device: string, user: string, hours: int)
    | ApproveCall(id: Id)
    | DenyCall(id: Id)
    | RevokeCall(id: Id)
    | Begin(p: Process, at: int, rows: seq<Id>)
    | Finish(p: Process)
    | Abort(p: Process)                       // the pass failed and was rolled back
    | Elapse(seconds: nat)
    | Report(user: string, row: DeviceUser)   // an agent's user report

  function After(s: Store, r: Result<Store, HttpError>): Store {
    match r
    case Ok(s') => s'
    case Err(_) => s
  }

  ghost function Step(s: Store, e: Event): Store {
    match e
    case CreateCall(id, d, u, h) => if id in s.requests then s else After(s, Create(s, id, d, u, h))
    case ApproveCall(id) => After(s, Approve(s, id))
    case DenyCall(id) => After(s, Deny(s, id))
    case RevokeCall(id) => After(s, Revoke(s, id))
    case Begin(p, at, rows) => BeginPass(s, p, at, rows)
    case Finish(p) => FinishPass(s, p)
    case Abort(p) => s.(passes := s.passes - {p})
    case Elapse(d) => s.(now := s.now + d)
    case Report(u, row) => s.(users := s.users[u := row])
  }

  ghost function Run(s: Store, events: seq<Event>): Store
    decreases events
  {
    if events == [] then s else Run(Step(s, events[0]), events[1..])
  }

  /** `P` holds in every state of the run, first and last included. */
  ghost predicate Along(s: Store, events: seq<Event>, P: Store -> bool)
    decreases events
  {
    P(s) && (events != [] ==> Along(Step(s, events[0]), events[1..], P))
  }

  ghost predicate Initial(s: Store) {
    s.requests == map[] && s.jobs == [] && s.passes == map[] && s.lastTick == s.now
  }

  // ----- What a worker pass does -----

  lemma {:induction false} EndAllRows(s: Store, rows: seq<Id>, at: int)
    requires Distinct(rows) && forall i :: i in rows ==> i in s.requests
    ensures forall i :: i in s.requests ==>
      EndAll(s, rows, at).requests[i]
        == if i in rows && s.requests[i].username != "" then Ended(s.requests[i], at) else s.requests[i]
    decreases rows
  {
    if rows != [] {
      var n := |rows| - 1;
      EndAllRows(s, rows[..n], at);
      assert rows == rows[..n] + [rows[n]];
    }
  }

  /**
   * A pass that nothing interrupts ends exactly the approved grants whose revoke_at has come and
   * whose username is non-empty, whatever order the query returned.
   */
  lemma UninterruptedPassEndsExactlyExpired(s: Store, p: Process, at: int, rows: seq<Id>)
    requires p !in s.passes && at <= s.now && IsListing(s, at, rows)
    ensures var s' := FinishPass(BeginPass(s, p, at, rows), p);
      && s'.requests.Keys == s.requests.Keys && s'.passes == s.passes
      && forall i :: i in s.requests ==>
           s'.requests[i]
             == if s.requests[i].status == Approved && s.requests[i].username != ""
                   && s.requests[i].revokeAt.Some? && s.requests[i].revokeAt.value <= at
                then s.requests[i].(status := Revoked, revokedAt := Some(at))
                else s.requests[i]
  {
    var begun := BeginPass(s, p, at, rows);
    EndAllRows(begun, rows, at);
    assert begun.passes - {p} == s.passes;
  }

  // ----- Requests over whole runs -----

  ghost predicate RequestInv(s: Store, q: Request) {
    && 1 <= q.hours <= 72
    && (q.revokeAt.Some? <==> q.status in {Approved, Revoked})
    && (q.decidedAt.None? <==> q.status == Pending)
    && (q.revokedAt.Some? <==> q.status == Revoked)
    && (q.revokeAt.Some? ==>
          q.decidedAt.Some? && q.decidedAt.value <= s.now && q.revokeAt.value == q.decidedAt.value + q.hours * 3600)
    && (q.status == Approved && q.username != "" ==> s.lastTick < q.revokeAt.value)
  }

  /** A listed row had expired when it was listed; it may have been ended since. */
  ghost predicate Listed(s: Store, at: int, i: Id) {
    && i in s.requests && s.requests[i].status in {Approved, Revoked}
    && s.requests[i].revokeAt.Some? && s.requests[i].revokeAt.value <= at
  }

  ghost predicate PassInv(s: Store, pass: Pass) {
    && pass.at <= s.now && Distinct(pass.rows)
    && (forall i :: i in pass.rows ==> Listed(s, pass.at, i))
    && (forall i :: i in s.requests && Expired(s.requests[i], pass.at) ==> i in pass.rows)
  }

  ghost predicate Inv(s: Store) {
    && s.lastTick <= s.now
    && (forall i :: i in s.requests ==> RequestInv(s, s.requests[i]))
    && (forall p :: p in s.passes ==> PassInv(s, s.passes[p]))
  }

  lemma InvFinishes(s: Store, p: Process)
    requires Inv(s)
    ensures CanFinish(s, p) <==> p in s.passes
  {
    assert p in s.passes ==> PassInv(s, s.passes[p]);
    assert p in s.passes ==> forall i :: i in s.passes[p].rows ==> Listed(s, s.passes[p].at, i);
  }

  /** Finishing a pass of any age in a reachable state: exactly its named rows are ended. */
  lemma FinishEndsListed(s: Store, p: Process)
    requires Inv(s) && p in s.passes
    ensures var s' := FinishPass(s, p); var pass := s.passes[p];
      && s'.requests.Keys == s.requests.Keys && s'.now == s.now && s'.passes == s.passes - {p}
      && s'.lastTick >= s.lastTick && s'.lastTick >= pass.at
      && (s'.lastTick == s.lastTick || s'.lastTick == pass.at)
      && forall i :: i in s.requests ==>
           s'.requests[i]
             == if i in pass.rows && s.requests[i].username != ""
                then s.requests[i].(status := Revoked, revokedAt := Some(pass.at))
                else s.requests[i]
  {
    InvFinishes(s, p);
    assert PassInv(s, s.passes[p]);
    EndAllRows(s, s.passes[p].rows, s.passes[p].at);
  }

  lemma FinishKeepsRequest(s: Store, p: Process, i: Id)
    requires Inv(s) && p in s.passes && i in s.requests
    ensures RequestInv(FinishPass(s, p), FinishPass(s, p).requests[i])
  {
    FinishEndsListed(s, p);
    assert RequestInv(s, s.requests[i]) && PassInv(s, s.passes[p]);
    if i in s.passes[p].rows {
      assert Listed(s, s.passes[p].at, i);
    }
  }

  lemma FinishKeepsPass(s: Store, p: Process, other: Process)
    requires Inv(s) && p in s.passes && other in s.passes
    ensures PassInv(FinishPass(s, p), s.passes[other])
  {
    FinishEndsListed(s, p);
    var s', pass := FinishPass(s, p), s.passes[other];
    assert PassInv(s, pass);
    forall i | i in pass.rows ensures Listed(s', pass.at, i) {
      assert Listed(s, pass.at, i);
    }
  }

  lemma FinishKeepsInv(s: Store, p: Process)
    requires Inv(s) && p in s.passes
    ensures Inv(FinishPass(s, p))
  {
    FinishEndsListed(s, p);
    assert PassInv(s, s.passes[p]);
    var s' := FinishPass(s, p);
    forall i | i in s'.requests ensures RequestInv(s', s'.requests[i]) {
      FinishKeepsRequest(s, p, i);
    }
    forall other | other in s'.passes ensures PassInv(s', s'.passes[other]) {
      FinishKeepsPass(s, p, other);
    }
  }

  /** Any other step keeps each request row and each pass under way in order. */
  lemma StepKeepsRequest(s: Store, e: Event, i: Id)
    requires Inv(s) && !e.Finish? && i in Step(s, e).requests
    ensures RequestInv(Step(s, e), Step(s, e).requests[i])
  {
    assert i in s.requests ==> RequestInv(s, s.requests[i]);
  }

  lemma BeginMakesPass(s: Store, p: Process, at: int, rows: seq<Id>)
    requires Inv(s) && p !in s.passes && p in BeginPass(s, p, at, rows).passes
    ensures PassInv(BeginPass(s, p, at, rows), BeginPass(s, p, at, rows).passes[p])
  {
    var s' := BeginPass(s, p, at, rows);
    forall i | i in rows ensures Listed(s', at, i) {
    }
  }

  lemma StepKeepsPass(s: Store, e: Event, p: Process)
    requires Inv(s) && !e.Finish? && p in s.passes && p in Step(s, e).passes
    ensures PassInv(Step(s, e), Step(s, e).passes[p])
  {
    var s', pass := Step(s, e), s.passes[p];
    assert s'.passes[p] == pass && PassInv(s, pass);
    forall i | i in pass.rows ensures Listed(s', pass.at, i) {
      assert Listed(s, pass.at, i);
    }
    forall i | i in s'.requests && Expired(s'.requests[i], pass.at) ensures i in pass.rows {
      StepKeepsRequest(s, e, i);
      assert i in s.requests ==> RequestInv(s, s.requests[i]);
    }
  }

  lemma StepKeepsInv(s: Store, e: Event)
    requires Inv(s)
    ensures Inv(Step(s, e))
  {
    if e.Finish? {
      InvFinishes(s, e.p);
      if e.p in s.passes {
        FinishKeepsInv(s, e.p);
      }
    } else {
      var s' := Step(s, e);
      forall i | i in s'.requests ensures RequestInv(s', s'.requests[i]) {
        StepKeepsRequest(s, e, i);
      }
      forall p | p in s'.passes ensures PassInv(s', s'.passes[p]) {
        if p in s.passes {
          StepKeepsPass(s, e, p);
        } else {
          BeginMakesPass(s, p, e.at, e.rows);
        }
      }
    }
  }

  lemma {:induction false} RunKeepsInv(s: Store, events: seq<Event>)
    requires Inv(s)
    ensures Inv(Run(s, events))
    decreases events
  {
    if events != [] {
      StepKeepsInv(s, events[0]);
      RunKeepsInv(Step(s, events[0]), events[1..]);
    }
  }

  /** No pass of any process ever ends a grant early, however long ago it listed its rows. */
  lemma NoneEndedEarly(s: Store, events: seq<Event>, p: Process, i: Id)
    requires Inv(s)
    requires i in Run(s, events).requests && Run(s, events).requests[i].status == Approved
    ensures var before := Run(s, events); var after := Step(before, Finish(p));
      && i in after.requests
      && (after.requests[i].status != Approved ==>
            && after.requests[i].status == Revoked
            && before.requests[i].revokeAt.Some? && before.requests[i].revokeAt.value <= before.now)
  {
    RunKeepsInv(s, events);
    var before := Run(s, events);
    InvFinishes(before, p);
    if p in before.passes {
      FinishEndsListed(before, p);
      assert PassInv(before, before.passes[p]);
      assert i in before.passes[p].rows ==> Listed(before, before.passes[p].at, i);
    }
  }

  /** A row's status and everything but the time of its revocation. */
  predicate SameDecision(q: Request, q': Request) {
    q' == q.(revokedAt := q'.revokedAt) && (q.status == Denied ==> q' == q)
  }

  lemma StepKeepsDecision(s: Store, e: Event, id: Id)
    requires Inv(s) && id in s.requests && s.requests[id].status in {Denied, Revoked}
    ensures id in Step(s, e).requests && SameDecision(s.requests[id], Step(s, e).requests[id])
  {
    if e.Finish? {
      InvFinishes(s, e.p);
      if e.p in s.passes {
        FinishEndsListed(s, e.p);
        assert PassInv(s, s.passes[e.p]);
        assert id in s.passes[e.p].rows ==> Listed(s, s.passes[e.p].at, id);
      }
    }
  }

  /** Denied and revoked are terminal in every run; only a late pass may still move the time of a revocation. */
  lemma {:induction false} DecidedForever(s: Store, events: seq<Event>, id: Id)
    requires Inv(s) && id in s.requests && s.requests[id].status in {Denied, Revoked}
    ensures id in Run(s, events).requests && SameDecision(s.requests[id], Run(s, events).requests[id])
    decreases events
  {
    if events != [] {
      StepKeepsInv(s, events[0]);
      StepKeepsDecision(s, events[0], id);
      DecidedForever(Step(s, events[0]), events[1..], id);
    }
  }

  // ----- What each decision writes, and that it stays -----

  /** The calls an administrator can make on a request that is decided for good. */
  ghost predicate Refused(s: Store, id: Id) {
    && Approve(s, id) == Err(BadRequest) && Deny(s, id) == Err(BadRequest) && Revoke(s, id) == Err(BadRequest)
    && Step(s, ApproveCall(id)) == s && Step(s, DenyCall(id)) == s && Step(s, RevokeCall(id)) == s
  }

  lemma UnknownRequestIsNotFound(s: Store, id: Id)
    ensures id !in s.requests <==>
      Approve(s, id) == Err(NotFound) && Deny(s, id) == Err(NotFound) && Revoke(s, id) == Err(NotFound)
  {
  }

  lemma StepKeepsTerms(s: Store, e: Event, id: Id)
    requires Inv(s) && id in s.requests
    ensures id in Step(s, e).requests
    ensures var q, q' := s.requests[id], Step(s, e).requests[id];
      && q'.device == q.device && q'.username == q.username && q'.hours == q.hours
      && (q.status in {Approved, Revoked} ==>
            q'.status in {q.status, Revoked} && q'.decidedAt == q.decidedAt && q'.revokeAt == q.revokeAt)
  {
    if e.Finish? {
      InvFinishes(s, e.p);
      if e.p in s.passes {
        FinishEndsListed(s, e.p);
      }
    }
  }

  /** Who a request is for and for how long never changes, nor do the times of an approval. */
  lemma {:induction false} RunKeepsTerms(s: Store, events: seq<Event>, id: Id)
    requires Inv(s) && id in s.requests
    ensures id in Run(s, events).requests
    ensures var q, q' := s.requests[id], Run(s, events).requests[id];
      && q'.device == q.device && q'.username == q.username && q'.hours == q.hours
      && (q.status in {Approved, Revoked} ==>
            q'.status in {q.status, Revoked} && q'.decidedAt == q.decidedAt && q'.revokeAt == q.revokeAt)
    decreases events
  {
    if events != [] {
      StepKeepsInv(s, events[0]);
      StepKeepsTerms(s, events[0], id);
      RunKeepsTerms(Step(s, events[0]), events[1..], id);
    }
  }

  /**
   * A request is created exactly for a known device, a user of that device who is no admin, and 1 to
   * 72 hours; it starts pending, queues no job, and keeps device, user name and hours in every run.
   */
  lemma CreationIsFinal(s: Store, events: seq<Event>, id: Id, device: string, user: string, hours: int)
    requires Inv(s) && id !in s.requests
    ensures var known := device in s.devices && user in s.users && s.users[user].device == device;
      var s1 := Step(s, CreateCall(id, device, user, hours)); var after := Run(s1, events);
      if !known then Create(s, id, device, user, hours) == Err(NotFound) && s1 == s
      else if s.users[user].isAdmin || hours < 1 || hours > 72 then
        Create(s, id, device, user, hours) == Err(BadRequest) && s1 == s
      else
        && s1 == s.(requests := s.requests[id :=
             Request(device, s.users[user].shortName, hours, Pending, None, None, None)])
        && id in after.requests && after.requests[id].device == device && after.requests[id].hours == hours
        && after.requests[id].username == s.users[user].shortName
  {
    var s1 := Step(s, CreateCall(id, device, user, hours));
    StepKeepsInv(s, CreateCall(id, device, user, hours));
    if id in s1.requests {
      RunKeepsTerms(s1, events, id);
    }
  }

  /**
   * A denial sets the status and its time and does nothing else, queues no job, and is the last word:
   * in every later state the row is as it left it and every further decision is refused.
   */
  lemma DenialIsFinal(s: Store, events: seq<Event>, id: Id)
    requires Inv(s) && id in s.requests && s.requests[id].status == Pending
    ensures var denied := s.requests[id].(status := Denied, decidedAt := Some(s.now));
      var s1 := Step(s, DenyCall(id)); var after := Run(s1, events);
      && s1.jobs == s.jobs && s1 == s.(requests := s.requests[id := denied])
      && id in after.requests && after.requests[id] == denied && Refused(after, id)
  {
    StepKeepsInv(s, DenyCall(id));
    DecidedForever(Step(s, DenyCall(id)), events, id);
  }

  /**
   * An approval lasts the request's hours, 3600 seconds each, from now, and queues one elevation for
   * that user. No later approval or denial is accepted, and its times stay.
   */
  lemma ApprovalIsKept(s: Store, events: seq<Event>, id: Id)
    requires Inv(s) && id in s.requests && s.requests[id].status == Pending
    ensures var q := s.requests[id]; var until := s.now + 3600 * q.hours;
      var granted := q.(status := Approved, decidedAt := Some(s.now), revokeAt := Some(until));
      var s1 := Step(s, ApproveCall(id)); var after := Run(s1, events);
      && s1 == s.(requests := s.requests[id := granted], jobs := s.jobs + [Job(q.device, q.username, Elevation)])
      && id in after.requests && after.requests[id].status in {Approved, Revoked}
      && after.requests[id].decidedAt == Some(s.now) && after.requests[id].revokeAt == Some(until)
      && Approve(after, id) == Err(BadRequest) && Deny(after, id) == Err(BadRequest)
  {
    StepKeepsInv(s, ApproveCall(id));
    RunKeepsTerms(Step(s, ApproveCall(id)), events, id);
  }

  /** A manual revoke sets status and time, queues one revocation for that user, and is the last word. */
  lemma RevocationIsFinal(s: Store, events: seq<Event>, id: Id)
    requires Inv(s) && id in s.requests && s.requests[id].status == Approved
    ensures var q := s.requests[id]; var s1 := Step(s, RevokeCall(id)); var after := Run(s1, events);
      && s1 == s.(requests := s.requests[id := q.(status := Revoked, revokedAt := Some(s.now))],
                  jobs := s.jobs + [Job(q.device, q.username, Revocation)])
      && id in after.requests && after.requests[id].status == Revoked && Refused(after, id)
  {
    StepKeepsInv(s, RevokeCall(id));
    DecidedForever(Step(s, RevokeCall(id)), events, id);
  }

  /** What a pass queues: one automatic revocation for each named row it lists, in order. */
  function QueuedBy(s: Store, rows: seq<Id>): seq<Job>
    requires forall i :: i in rows ==> i in s.requests
  {
    if rows == [] then []
    else
      var n := |rows| - 1;
      var q := s.requests[rows[n]];
      QueuedBy(s, rows[..n]) + if q.username == "" then [] else [Job(q.device, q.username, RevocationAuto)]
  }

  lemma {:induction false} PassQueues(s: Store, rows: seq<Id>, at: int)
    requires Distinct(rows) && forall i :: i in rows ==> i in s.requests
    ensures EndAll(s, rows, at).jobs == s.jobs + QueuedBy(s, rows)
    decreases rows
  {
    if rows != [] {
      var n := |rows| - 1;
      PassQueues(s, rows[..n], at);
      EndAllRows(s, rows[..n], at);
      assert EndAll(s, rows[..n], at).requests[rows[n]] == s.requests[rows[n]];
    }
  }

  ghost predicate TickedWithin(s: Store, d: nat) {
    s.now <= s.lastTick + d
  }

  lemma {:induction false} AlongHoldsAtEnd(s: Store, events: seq<Event>, P: Store -> bool)
    requires Along(s, events, P)
    ensures P(Run(s, events))
    decreases events
  {
    if events != [] {
      AlongHoldsAtEnd(Step(s, events[0]), events[1..], P);
    }
  }

  /**
   * If at every moment some finished pass, of whichever process, had read the clock at most `d`
   * seconds ago, every grant still approved is less than `d` past its revoke_at, and less than
   * 72 h + d past its approval.
   */
  lemma GrantsEndInTime(s: Store, events: seq<Event>, d: nat, id: Id)
    requires Initial(s)
    requires Along(s, events, x => TickedWithin(x, d))
    requires id in Run(s, events).requests
    requires Run(s, events).requests[id].status == Approved && Run(s, events).requests[id].username != ""
    ensures var q := Run(s, events).requests[id]; var now := Run(s, events).now;
      && q.revokeAt.Some? && q.decidedAt.Some?
      && now < q.revokeAt.value + d
      && now < q.decidedAt.value + 72 * 3600 + d
  {
    RunKeepsInv(s, events);
    AlongHoldsAtEnd(s, events, x => TickedWithin(x, d));
    assert RequestInv(Run(s, events), Run(s, events).requests[id]);
  }

  lemma StepKeepsNameless(s: Store, e: Event, id: Id)
    requires Inv(s) && id in s.requests && s.requests[id].status == Approved && s.requests[id].username == ""
    requires e != RevokeCall(id)
    ensures id in Step(s, e).requests && Step(s, e).requests[id] == s.requests[id]
  {
    if e.Finish? && e.p in s.passes {
      FinishEndsListed(s, e.p);
    }
  }

  /** The username hypothesis is needed: only a manual revoke ends a grant whose username is empty. */
  lemma {:induction false} NamelessGrantSurvives(s: Store, events: seq<Event>, id: Id)
    requires Inv(s) && id in s.requests && s.requests[id].status == Approved && s.requests[id].username == ""
    requires RevokeCall(id) !in events
    ensures id in Run(s, events).requests && Run(s, events).requests[id] == s.requests[id]
    decreases events
  {
    if events != [] {
      StepKeepsInv(s, events[0]);
      StepKeepsNameless(s, events[0], id);
      NamelessGrantSurvives(Step(s, events[0]), events[1..], id);
    }
  }

  // ----- Conservation -----

  /** One user of one device, or everybody. */
  datatype Scope = User(device: string, username: string) | Everyone
  {
    predicate Covers(d: string, u: string) {
      Everyone? || (device == d && username == u)
    }
  }

  /** The covered requests with this status. */
  ghost function Holding(s: Store, scope: Scope, status: Status): set<Id> {
    set i | i in s.requests && s.requests[i].status == status
            && scope.Covers(s.requests[i].device, s.requests[i].username)
  }

  ghost function ApprovedFor(s: Store, device: string, username: string): set<Id> {
    Holding(s, User(device, username), Approved)
  }

  /** How many of the jobs add a covered user to the admin group, or remove one. */
  function Count(jobs: seq<Job>, scope: Scope, adds: bool): nat {
    if jobs == [] then 0
    else
      var last := jobs[|jobs| - 1];
      Count(jobs[..|jobs| - 1], scope, adds)
      + if scope.Covers(last.device, last.username) && last.Adds() == adds then 1 else 0
  }

  lemma CountSnoc(jobs: seq<Job>, j: Job, scope: Scope, adds: bool)
    ensures Count(jobs + [j], scope, adds)
         == Count(jobs, scope, adds) + if scope.Covers(j.device, j.username) && j.Adds() == adds then 1 else 0
  {
    assert (jobs + [j])[..|jobs|] == jobs;
  }

  /** Every elevation belongs to a covered grant that is approved or revoked, and the other way round. */
  ghost predicate ElevationsMatch(s: Store, scope: Scope) {
    Count(s.jobs, scope, true) == |Holding(s, scope, Approved)| + |Holding(s, scope, Revoked)|
  }

  /** Revocation jobs beyond one for each revoked grant. */
  ghost function Surplus(s: Store, scope: Scope): int {
    Count(s.jobs, scope, false) - |Holding(s, scope, Revoked)|
  }

  /** Elevations minus revocations queued is the number of approved grants, and revocations match revoked grants. */
  ghost predicate Balanced(s: Store, scope: Scope) {
    && Count(s.jobs, scope, true) == Count(s.jobs, scope, false) + |Holding(s, scope, Approved)|
    && Count(s.jobs, scope, false) == |Holding(s, scope, Revoked)|
  }

  /** A row a pass would end although it is approved no longer. */
  predicate IsLate(q: Request, scope: Scope) {
    q.username != "" && q.status != Approved && scope.Covers(q.device, q.username)
  }

  function LateIn(s: Store, rows: seq<Id>, scope: Scope): nat
    requires forall i :: i in rows ==> i in s.requests
  {
    if rows == [] then 0
    else
      var n := |rows| - 1;
      LateIn(s, rows[..n], scope) + if IsLate(s.requests[rows[n]], scope) then 1 else 0
  }

  lemma {:induction false} LateInZeroIff(s: Store, rows: seq<Id>, scope: Scope)
    requires forall i :: i in rows ==> i in s.requests
    ensures LateIn(s, rows, scope) == 0 <==> forall i :: i in rows ==> !IsLate(s.requests[i], scope)
  {
    if rows != [] {
      var front, last := rows[..|rows| - 1], rows[|rows| - 1];
      LateInZeroIff(s, front, scope);
      assert forall i :: i in rows <==> i in front || i == last by {
        assert rows == front + [last];
      }
    }
  }

  function LateEndings(s: Store, e: Event, scope: Scope): nat {
    if e.Finish? && CanFinish(s, e.p) then LateIn(s, s.passes[e.p].rows, scope) else 0
  }

  /** How often, over the whole run, a pass ended a row that another pass or a manual revoke had ended before. */
  ghost function LateAlong(s: Store, events: seq<Event>, scope: Scope): nat
    decreases events
  {
    if events == [] then 0
    else LateEndings(s, events[0], scope) + LateAlong(Step(s, events[0]), events[1..], scope)
  }

  lemma ApproveCounts(s: Store, id: Id, scope: Scope)
    requires Approve(s, id).Ok? && ElevationsMatch(s, scope)
    ensures ElevationsMatch(Approve(s, id).value, scope)
    ensures Surplus(Approve(s, id).value, scope) == Surplus(s, scope)
  {
    var s' := Approve(s, id).value;
    var q := s.requests[id];
    CountSnoc(s.jobs, Job(q.device, q.username, Elevation), scope, true);
    CountSnoc(s.jobs, Job(q.device, q.username, Elevation), scope, false);
    assert Holding(s', scope, Approved) ==
      Holding(s, scope, Approved) + if scope.Covers(q.device, q.username) then {id} else {};
    assert Holding(s', scope, Revoked) == Holding(s, scope, Revoked);
  }

  lemma EndHolding(s: Store, id: Id, kind: JobKind, at: int, scope: Scope)
    requires id in s.requests
    ensures var q := s.requests[id]; var mine := if scope.Covers(q.device, q.username) then {id} else {};
      && Holding(End(s, id, kind, at), scope, Approved) == Holding(s, scope, Approved) - mine
      && Holding(End(s, id, kind, at), scope, Revoked) == Holding(s, scope, Revoked) + mine
  {
  }

  /** Ending a row adds one revocation; the row itself counts only the first time. */
  lemma EndCounts(s: Store, id: Id, kind: JobKind, at: int, scope: Scope)
    requires id in s.requests && s.requests[id].status in {Approved, Revoked} && kind != Elevation
    requires ElevationsMatch(s, scope)
    ensures var s' := End(s, id, kind, at); var q := s.requests[id];
      && ElevationsMatch(s', scope)
      && Surplus(s', scope)
           == Surplus(s, scope) + if q.status != Approved && scope.Covers(q.device, q.username) then 1 else 0
  {
    var q := s.requests[id];
    CountSnoc(s.jobs, Job(q.device, q.username, kind), scope, true);
    CountSnoc(s.jobs, Job(q.device, q.username, kind), scope, false);
    EndHolding(s, id, kind, at, scope);
    if scope.Covers(q.device, q.username) {
      if q.status == Approved {
        assert id in Holding(s, scope, Approved) && id !in Holding(s, scope, Revoked);
      } else {
        assert id in Holding(s, scope, Revoked) && id !in Holding(s, scope, Approved);
        assert Holding(s, scope, Approved) - {id} == Holding(s, scope, Approved);
        assert Holding(s, scope, Revoked) + {id} == Holding(s, scope, Revoked);
      }
    }
  }

  lemma EndNamedCounts(s: Store, id: Id, at: int, scope: Scope)
    requires id in s.requests && s.requests[id].status in {Approved, Revoked} && ElevationsMatch(s, scope)
    ensures ElevationsMatch(EndNamed(s, id, at), scope)
    ensures Surplus(EndNamed(s, id, at), scope)
         == Surplus(s, scope) + if IsLate(s.requests[id], scope) then 1 else 0
  {
    if s.requests[id].username != "" {
      EndCounts(s, id, RevocationAuto, at, scope);
    }
  }

  lemma {:induction false} EndAllCounts(s: Store, rows: seq<Id>, at: int, scope: Scope)
    requires Distinct(rows) && ElevationsMatch(s, scope)
    requires forall i :: i in rows ==> i in s.requests && s.requests[i].status in {Approved, Revoked}
    ensures ElevationsMatch(EndAll(s, rows, at), scope)
    ensures Surplus(EndAll(s, rows, at), scope) == Surplus(s, scope) + LateIn(s, rows, scope)
    decreases rows
  {
    if rows != [] {
      var n := |rows| - 1;
      EndAllCounts(s, rows[..n], at, scope);
      var before := EndAll(s, rows[..n], at);
      assert rows[n] in rows && before.requests[rows[n]] == s.requests[rows[n]] by { EndAllRows(s, rows[..n], at); }
      EndNamedCounts(before, rows[n], at, scope);
    }
  }

  lemma SameRowsCount(s: Store, s': Store, scope: Scope)
    requires s'.jobs == s.jobs
    requires forall st :: st in {Approved, Revoked} ==> Holding(s', scope, st) == Holding(s, scope, st)
    ensures ElevationsMatch(s', scope) <==> ElevationsMatch(s, scope)
    ensures Surplus(s', scope) == Surplus(s, scope)
  {
  }

  lemma FinishCounts(s: Store, p: Process, scope: Scope)
    requires Inv(s) && p in s.passes && ElevationsMatch(s, scope)
    ensures CanFinish(s, p) && ElevationsMatch(FinishPass(s, p), scope)
    ensures Surplus(FinishPass(s, p), scope) == Surplus(s, scope) + LateIn(s, s.passes[p].rows, scope)
  {
    InvFinishes(s, p);
    var pass := s.passes[p];
    assert PassInv(s, pass);
    assert forall i :: i in pass.rows ==> Listed(s, pass.at, i);
    EndAllCounts(s, pass.rows, pass.at, scope);
    SameRowsCount(EndAll(s, pass.rows, pass.at), FinishPass(s, p), scope);
  }

  /** The steps that neither approve nor end a grant. */
  lemma OtherStepsKeepHolding(s: Store, e: Event, scope: Scope)
    requires !(e.ApproveCall? && Approve(s, e.id).Ok?) && !(e.RevokeCall? && Revoke(s, e.id).Ok?)
    requires !(e.Finish? && CanFinish(s, e.p))
    ensures Step(s, e).jobs == s.jobs
    ensures Holding(Step(s, e), scope, Approved) == Holding(s, scope, Approved)
    ensures Holding(Step(s, e), scope, Revoked) == Holding(s, scope, Revoked)
  {
  }

  lemma StepCounts(s: Store, e: Event, scope: Scope)
    requires Inv(s) && ElevationsMatch(s, scope)
    ensures ElevationsMatch(Step(s, e), scope)
    ensures Surplus(Step(s, e), scope) == Surplus(s, scope) + LateEndings(s, e, scope)
  {
    if e.ApproveCall? && Approve(s, e.id).Ok? {
      ApproveCounts(s, e.id, scope);
    } else if e.RevokeCall? && Revoke(s, e.id).Ok? {
      EndCounts(s, e.id, Revocation, s.now, scope);
    } else if e.Finish? && CanFinish(s, e.p) {
      FinishCounts(s, e.p, scope);
    } else {
      OtherStepsKeepHolding(s, e, scope);
      SameRowsCount(s, Step(s, e), scope);
    }
  }

  /**
   * Conservation over every run, with any number of worker processes: elevations always match the
   * approved and revoked grants, and each late ending leaves exactly one revocation too many.
   */
  lemma {:induction false} SurplusIsLate(s: Store, events: seq<Event>, scope: Scope)
    requires Inv(s) && ElevationsMatch(s, scope)
    ensures ElevationsMatch(Run(s, events), scope)
    ensures Surplus(Run(s, events), scope) == Surplus(s, scope) + LateAlong(s, events, scope)
    decreases events
  {
    if events != [] {
      StepKeepsInv(s, events[0]);
      StepCounts(s, events[0], scope);
      SurplusIsLate(Step(s, events[0]), events[1..], scope);
    }
  }

  /**
   * From the start: jobs and grants balance, for each user and in total, exactly when no pass ever
   * ended a covered grant that was approved no longer.
   */
  lemma GrantsConserved(s: Store, events: seq<Event>, scope: Scope)
    requires Initial(s)
    ensures ElevationsMatch(Run(s, events), scope)
    ensures Balanced(Run(s, events), scope) <==> LateAlong(s, events, scope) == 0
    ensures Count(Run(s, events).jobs, scope, false)
         == |Holding(Run(s, events), scope, Revoked)| + LateAlong(s, events, scope)
  {
    assert Holding(s, scope, Approved) == {} && Holding(s, scope, Revoked) == {};
    SurplusIsLate(s, events, scope);
  }

  /** One finish of a pass keeps the balance exactly when every named row it ends is still approved. */
  lemma FinishKeepsBalanceIff(s: Store, p: Process, scope: Scope)
    requires Inv(s) && p in s.passes && Balanced(s, scope)
    ensures Balanced(FinishPass(s, p), scope)
       <==> forall i :: i in s.passes[p].rows && i in s.requests ==> !IsLate(s.requests[i], scope)
  {
    FinishCounts(s, p, scope);
    LateInZeroIff(s, s.passes[p].rows, scope);
  }

  // ----- Two passes at once -----

  /** One grant, and two processes that both list it before either commits. */
  function TwoPasses(t: int, device: string): seq<Event> {
    [CreateCall(0, device, "u", 1), ApproveCall(0), Elapse(HOUR),
     Begin(0, t + HOUR, [0]), Begin(1, t + HOUR, [0]), Finish(0), Finish(1)]
  }

  function OneUser(t: int, device: string, username: string): Store {
    Store(t, t, map["u" := DeviceUser(device, username, false)], {device}, map[], [], map[])
  }

  function OneGrant(t: int, device: string, username: string): Request {
    Request(device, username, 1, Approved, Some(t), Some(t + HOUR), None)
  }

  /** After both have listed the grant. */
  function BothListed(t: int, device: string, username: string): Store {
    OneUser(t, device, username).(
      now := t + HOUR,
      requests := map[0 := OneGrant(t, device, username)],
      jobs := [Job(device, username, Elevation)],
      passes := map[0 := Pass(t + HOUR, [0]), 1 := Pass(t + HOUR, [0])])
  }

  lemma GrantExpires(t: int, device: string, username: string)
    ensures var s := OneUser(t, device, username); var es := TwoPasses(t, device);
      Step(Step(Step(s, es[0]), es[1]), es[2])
        == BothListed(t, device, username).(passes := map[])
  {
    var s, es := OneUser(t, device, username), TwoPasses(t, device);
    var s1 := Step(s, es[0]);
    assert s1 == s.(requests := map[0 := Request(device, username, 1, Pending, None, None, None)]);
    assert Step(s1, es[1]) == s.(
      requests := map[0 := OneGrant(t, device, username)], jobs := [Job(device, username, Elevation)]);
  }

  lemma BothList(t: int, device: string, username: string)
    ensures var s := BothListed(t, device, username).(passes := map[]); var es := TwoPasses(t, device);
      Step(Step(s, es[3]), es[4]) == BothListed(t, device, username)
  {
    var s := BothListed(t, device, username).(passes := map[]);
    assert IsListing(s, t + HOUR, [0]);
    var s1 := Step(s, TwoPasses(t, device)[3]);
    assert s1 == s.(passes := map[0 := Pass(t + HOUR, [0])]);
    assert IsListing(s1, t + HOUR, [0]);
  }

  lemma EndAllOne(s: Store, id: Id, at: int)
    requires id in s.requests
    ensures EndAll(s, [id], at) == EndNamed(s, id, at)
  {
    assert EndAll(s, [], at) == s && [id][..0] == [];
  }

  /** Both finish: the grant is revoked once, the user removed twice. */
  lemma BothFinish(t: int, device: string, username: string)
    requires username != ""
    ensures var s := BothListed(t, device, username);
      Step(Step(s, Finish(0)), Finish(1)) == s.(
        lastTick := t + HOUR,
        requests := map[0 := Ended(OneGrant(t, device, username), t + HOUR)],
        jobs := [Job(device, username, Elevation), Job(device, username, RevocationAuto),
                 Job(device, username, RevocationAuto)],
        passes := map[])
  {
    var s := BothListed(t, device, username);
    EndAllOne(s, 0, t + HOUR);
    var s1 := Step(s, Finish(0));
    assert s1 == s.(
      lastTick := t + HOUR, requests := map[0 := Ended(OneGrant(t, device, username), t + HOUR)],
      jobs := [Job(device, username, Elevation), Job(device, username, RevocationAuto)],
      passes := map[1 := Pass(t + HOUR, [0])]);
    EndAllOne(s1, 0, t + HOUR);
  }

  lemma {:induction false} RunAppend(s: Store, a: seq<Event>, b: seq<Event>)
    ensures Run(s, a + b) == Run(Run(s, a), b)
    decreases a
  {
    if a == [] {
      assert a + b == b;
    } else {
      assert (a + b)[1..] == a[1..] + b;
      RunAppend(Step(s, a[0]), a[1..], b);
    }
  }

  lemma RunTwo(s: Store, a: Event, b: Event)
    ensures Run(s, [a, b]) == Step(Step(s, a), b)
  {
    assert Run(s, [a, b]) == Run(Step(s, a), [b]) by { assert [a, b][1..] == [b]; }
    assert Run(Step(s, a), [b]) == Run(Step(Step(s, a), b), []) by { assert [b][1..] == []; }
  }

  lemma RunFive(s: Store, es: seq<Event>)
    requires |es| == 5
    ensures Run(s, es) == Step(Step(Step(Step(Step(s, es[0]), es[1]), es[2]), es[3]), es[4])
  {
    RunAppend(s, es[..2], es[2..]);
    assert es == es[..2] + es[2..] && es[..2] == [es[0], es[1]];
    RunTwo(s, es[0], es[1]);
    var s2 := Run(s, es[..2]);
    assert es[2..][1..] == [es[3], es[4]];
    RunTwo(Step(s2, es[2]), es[3], es[4]);
  }

  lemma BothListedIsReached(t: int, device: string, username: string)
    ensures Run(OneUser(t, device, username), TwoPasses(t, device)[..5]) == BothListed(t, device, username)
  {
    GrantExpires(t, device, username);
    BothList(t, device, username);
    RunFive(OneUser(t, device, username), TwoPasses(t, device)[..5]);
  }

  /** Two workers that tick together break the balance from the initial state: one grant, two revocations. */
  lemma TwoPassesBreakBalance(t: int, device: string, username: string)
    requires username != ""
    ensures var s := OneUser(t, device, username); var after := Run(s, TwoPasses(t, device));
      && Initial(s)
      && Count(after.jobs, Everyone, true) == 1 && Count(after.jobs, Everyone, false) == 2
      && !Balanced(after, Everyone) && !Balanced(after, User(device, username))
  {
    var s, es := OneUser(t, device, username), TwoPasses(t, device);
    BothListedIsReached(t, device, username);
    assert es == es[..5] + [Finish(0), Finish(1)];
    RunAppend(s, es[..5], [Finish(0), Finish(1)]);
    RunTwo(BothListed(t, device, username), Finish(0), Finish(1));
    BothFinish(t, device, username);
    var add, drop := Job(device, username, Elevation), Job(device, username, RevocationAuto);
    forall scope, adds | scope in {Everyone, User(device, username)}
      ensures Count([add, drop, drop], scope, adds) == if adds then 1 else 2
    {
      assert [add, drop, drop] == [add] + [drop] + [drop] && [add] == [] + [add];
      CountSnoc([], add, scope, adds);
      CountSnoc([add], drop, scope, adds);
      CountSnoc([add] + [drop], drop, scope, adds);
    }
  }
}
