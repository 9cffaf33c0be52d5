/** Replaying the queued dseditgroup jobs on the devices, against the grants on the server. */
module GrantReplay {
  import opened Prelude
  import opened AdminGrants

  /** A (device, username) pair whose user is in the device's admin group. */
  type Admins = set<(string, string)>

  function Execute(admins: Admins, job: Job): Admins {
    if job.Adds() then admins + {(job.device, job.username)} else admins - {(job.device, job.username)}
  }

  /** The admin groups after `jobs` ran in that order. */
  function Replay(admins: Admins, jobs: seq<Job>): Admins {
    if jobs == [] then admins else Execute(Replay(admins, jobs[..|jobs| - 1]), jobs[|jobs| - 1])
  }

  lemma ReplaySnoc(admins: Admins, jobs: seq<Job>, job: Job)
    ensures Replay(admins, jobs + [job]) == Execute(Replay(admins, jobs), job)
  {
    assert (jobs + [job])[..|jobs|] == jobs;
  }

  /** The user is an admin on the device exactly when an approved grant says so. */
  ghost predicate Agrees(s: Store, device: string, username: string) {
    (device, username) in Replay({}, s.jobs) <==> ApprovedFor(s, device, username) != {}
  }

  ghost predicate AllAgree(s: Store) {
    forall d, u :: Agrees(s, d, u)
  }

  // ----- One step -----

  /** The user's rows that a pass over `rows` writes. */
  function NamedRows(s: Store, rows: seq<Id>, device: string, username: string): set<Id>
    requires forall i :: i in rows ==> i in s.requests
  {
    set i | i in rows && s.requests[i].username != ""
            && s.requests[i].device == device && s.requests[i].username == username
  }

  /** The rows of the user that the event ends, approved still or not. */
  function Ends(s: Store, e: Event, device: string, username: string): set<Id> {
    match e
    case RevokeCall(id) =>
      if Revoke(s, id).Ok? && s.requests[id].device == device && s.requests[id].username == username then {id} else {}
    case Finish(p) => if CanFinish(s, p) then NamedRows(s, s.passes[p].rows, device, username) else {}
    case _ => {}
  }

  /** The event approves a request of the user. */
  predicate Grants(s: Store, e: Event, device: string, username: string) {
    && e.ApproveCall? && Approve(s, e.id).Ok?
    && s.requests[e.id].device == device && s.requests[e.id].username == username
  }

  /**
   * Ending a row, approved or ended before, leaves a user's admin group and grants in agreement
   * exactly when no other approved grant of that user is left.
   */
  lemma EndAgreesIff(s: Store, id: Id, kind: JobKind, at: int)
    requires id in s.requests && kind != Elevation
    ensures var q := s.requests[id];
      Agrees(End(s, id, kind, at), q.device, q.username) <==> ApprovedFor(s, q.device, q.username) <= {id}
  {
    var q := s.requests[id];
    ReplaySnoc({}, s.jobs, Job(q.device, q.username, kind));
    EndHolding(s, id, kind, at, User(q.device, q.username));
    var held := ApprovedFor(s, q.device, q.username);
    MinusIsEmptyIff(held, {id});
  }

  lemma EndLeavesOthers(s: Store, id: Id, kind: JobKind, at: int, device: string, username: string)
    requires id in s.requests && kind != Elevation
    requires (s.requests[id].device, s.requests[id].username) != (device, username)
    ensures var s' := End(s, id, kind, at);
      && ((device, username) in Replay({}, s'.jobs) <==> (device, username) in Replay({}, s.jobs))
      && ApprovedFor(s', device, username) == ApprovedFor(s, device, username)
  {
    ReplaySnoc({}, s.jobs, Job(s.requests[id].device, s.requests[id].username, kind));
    EndHolding(s, id, kind, at, User(device, username));
  }

  lemma MinusIsEmptyIff(a: set<Id>, b: set<Id>)
    ensures a - b == {} <==> a <= b
  {
    if a - b == {} {
      forall x | x in a ensures x in b {
        assert x in a - b <==> x !in b;
      }
    }
  }

  lemma MinusUnion(a: set<Id>, b: set<Id>, c: set<Id>)
    ensures a - b - c == a - (b + c)
    ensures b + c == {} <==> b == {} && c == {}
  {
    assert b <= b + c && c <= b + c;
  }

  lemma NamedRowsSnoc(s: Store, before: Store, front: seq<Id>, id: Id, device: string, username: string)
    requires id in s.requests && forall i :: i in front ==> i in s.requests
    requires id in before.requests && before.requests[id] == s.requests[id]
    ensures NamedRows(s, front + [id], device, username)
         == NamedRows(s, front, device, username) + NamedRows(before, [id], device, username)
  {
    assert forall i :: i in front + [id] <==> i in front || i == id;
  }

  /** A pass takes the users of its named rows out of the group, and exactly those rows off their grants. */
  lemma {:induction false} EndAllReplays(s: Store, rows: seq<Id>, at: int, device: string, username: string)
    requires Distinct(rows) && forall i :: i in rows ==> i in s.requests
    ensures var s' := EndAll(s, rows, at); var ended := NamedRows(s, rows, device, username);
      && ((device, username) in Replay({}, s'.jobs) <==> ended == {} && (device, username) in Replay({}, s.jobs))
      && ApprovedFor(s', device, username) == ApprovedFor(s, device, username) - ended
    decreases rows
  {
    if rows != [] {
      var front, id := rows[..|rows| - 1], rows[|rows| - 1];
      var before := EndAll(s, front, at);
      assert rows == front + [id] && id in rows;
      EndAllReplays(s, front, at, device, username);
      assert before.requests[id] == s.requests[id] by { EndAllRows(s, front, at); }
      EndNamedReplays(before, id, at, device, username);
      NamedRowsSnoc(s, before, front, id, device, username);
      var first, second := NamedRows(s, front, device, username), NamedRows(before, [id], device, username);
      MinusUnion(ApprovedFor(s, device, username), first, second);
    }
  }

  lemma EndNamedReplays(s: Store, id: Id, at: int, device: string, username: string)
    requires id in s.requests
    ensures var s' := EndNamed(s, id, at); var ended := NamedRows(s, [id], device, username);
      && ((device, username) in Replay({}, s'.jobs) <==> ended == {} && (device, username) in Replay({}, s.jobs))
      && ApprovedFor(s', device, username) == ApprovedFor(s, device, username) - ended
  {
    var q := s.requests[id];
    if q.username != "" {
      if (q.device, q.username) == (device, username) {
        assert NamedRows(s, [id], device, username) == {id};
        ReplaySnoc({}, s.jobs, Job(device, username, RevocationAuto));
        EndHolding(s, id, RevocationAuto, at, User(device, username));
      } else {
        assert NamedRows(s, [id], device, username) == {};
        EndLeavesOthers(s, id, RevocationAuto, at, device, username);
      }
    } else {
      assert NamedRows(s, [id], device, username) == {};
    }
  }

  lemma FinishAgreesIff(s: Store, p: Process, device: string, username: string)
    requires Inv(s) && p in s.passes
    ensures CanFinish(s, p)
    ensures var ended := NamedRows(s, s.passes[p].rows, device, username);
      Agrees(FinishPass(s, p), device, username) <==>
        if ended == {} then Agrees(s, device, username) else ApprovedFor(s, device, username) <= ended
  {
    InvFinishes(s, p);
    assert PassInv(s, s.passes[p]);
    var pass := s.passes[p];
    var ended := NamedRows(s, pass.rows, device, username);
    EndAllReplays(s, pass.rows, pass.at, device, username);
    assert FinishPass(s, p).jobs == EndAll(s, pass.rows, pass.at).jobs;
    assert ApprovedFor(FinishPass(s, p), device, username) == ApprovedFor(s, device, username) - ended;
    MinusIsEmptyIff(ApprovedFor(s, device, username), ended);
  }

  lemma ApproveAgrees(s: Store, id: Id, device: string, username: string)
    requires Approve(s, id).Ok?
    ensures var mine := s.requests[id].device == device && s.requests[id].username == username;
      Agrees(Approve(s, id).value, device, username) <==> mine || Agrees(s, device, username)
  {
    var q := s.requests[id];
    var s' := Approve(s, id).value;
    ReplaySnoc({}, s.jobs, Job(q.device, q.username, Elevation));
    if q.device == device && q.username == username {
      assert id in ApprovedFor(s', device, username);
    } else {
      assert ApprovedFor(s', device, username) == ApprovedFor(s, device, username);
    }
  }

  lemma RevokeAgreesIff(s: Store, id: Id, device: string, username: string)
    requires Revoke(s, id).Ok?
    ensures var ended := Ends(s, RevokeCall(id), device, username);
      Agrees(Revoke(s, id).value, device, username) <==>
        if ended == {} then Agrees(s, device, username) else ApprovedFor(s, device, username) <= ended
  {
    if s.requests[id].device == device && s.requests[id].username == username {
      EndAgreesIff(s, id, Revocation, s.now);
    } else {
      EndLeavesOthers(s, id, Revocation, s.now, device, username);
    }
  }

  /**
   * Exactly when one event leaves a user's group and grants in agreement: an approval always does,
   * an ending when it leaves the user no approved grant, anything else when they agreed before.
   */
  lemma StepAgreesIff(s: Store, e: Event, device: string, username: string)
    requires Inv(s)
    ensures var ended := Ends(s, e, device, username);
      Agrees(Step(s, e), device, username) <==>
        if ended != {} then ApprovedFor(s, device, username) <= ended
        else Grants(s, e, device, username) || Agrees(s, device, username)
  {
    if e.ApproveCall? && Approve(s, e.id).Ok? {
      ApproveAgrees(s, e.id, device, username);
    } else if e.RevokeCall? && Revoke(s, e.id).Ok? {
      RevokeAgreesIff(s, e.id, device, username);
    } else if e.Finish? && CanFinish(s, e.p) {
      FinishAgreesIff(s, e.p, device, username);
    } else {
      OtherStepsKeepHolding(s, e, User(device, username));
    }
  }

  // ----- Whole runs -----

  /**
   * What the run's last approval or ending for the user did: true for an approval, and for an
   * ending when no approved grant of the user was left. `otherwise` if there was none.
   */
  ghost predicate LastDecisionSettles(s: Store, events: seq<Event>, device: string, username: string, otherwise: bool)
    decreases events
  {
    if events == [] then otherwise
    else
      var ended := Ends(s, events[0], device, username);
      var settled :=
        if ended != {} then ApprovedFor(s, device, username) <= ended
        else Grants(s, events[0], device, username) || otherwise;
      LastDecisionSettles(Step(s, events[0]), events[1..], device, username, settled)
  }

  /**
   * For every run, overlapping grants and late passes included: the jobs in queue order leave the
   * user in the admin group exactly when an approved grant exists, if and only if the last ending
   * or approval for that user was not an ending that left another approved grant behind.
   */
  lemma {:induction false} AgreesAfterRunIff(s: Store, events: seq<Event>, device: string, username: string)
    requires Inv(s)
    ensures Agrees(Run(s, events), device, username)
       <==> LastDecisionSettles(s, events, device, username, Agrees(s, device, username))
    decreases events
  {
    if events != [] {
      StepKeepsInv(s, events[0]);
      StepAgreesIff(s, events[0], device, username);
      AgreesAfterRunIff(Step(s, events[0]), events[1..], device, username);
    }
  }

  // ----- Runs without overlap and without late endings -----

  predicate BothApproved(p: AdminGrants.Request, q: AdminGrants.Request) {
    p.status == Approved && q.status == Approved && p.device == q.device && p.username == q.username
  }

  /** No user of a device holds two approved grants. */
  ghost predicate NoOverlap(s: Store) {
    forall i, j | i in s.requests && j in s.requests && i != j :: !BothApproved(s.requests[i], s.requests[j])
  }

  /** Each pass ends only rows that are approved still. */
  ghost predicate NoneLate(s: Store, events: seq<Event>) {
    LateAlong(s, events, Everyone) == 0
  }

  lemma OnTimeStepAgrees(s: Store, e: Event, device: string, username: string)
    requires Inv(s) && NoOverlap(s) && LateEndings(s, e, Everyone) == 0 && Agrees(s, device, username)
    ensures Agrees(Step(s, e), device, username)
  {
    StepAgreesIff(s, e, device, username);
    var ended := Ends(s, e, device, username);
    if ended != {} {
      var i :| i in ended;
      if e.Finish? {
        LateInZeroIff(s, s.passes[e.p].rows, Everyone);
      }
      assert s.requests[i].status == Approved;
      forall j | j in ApprovedFor(s, device, username) ensures j in ended {
        assert i != j ==> !BothApproved(s.requests[i], s.requests[j]);
      }
    }
  }

  /**
   * If no user ever holds two approved grants at once, no pass ends a row late, and nobody starts
   * as admin, then after any run the jobs, executed in queue order, leave a user in the admin group
   * exactly when that user holds an approved grant.
   */
  lemma {:induction false} ReplayMatchesGrants(s: Store, events: seq<Event>)
    requires Inv(s) && AllAgree(s) && Along(s, events, NoOverlap) && NoneLate(s, events)
    ensures AllAgree(Run(s, events))
    decreases events
  {
    if events != [] {
      StepKeepsInv(s, events[0]);
      forall d, u ensures Agrees(Step(s, events[0]), d, u) {
        assert Agrees(s, d, u);
        OnTimeStepAgrees(s, events[0], d, u);
      }
      ReplayMatchesGrants(Step(s, events[0]), events[1..]);
    }
  }

  lemma InitialAgrees(s: Store)
    requires Initial(s)
    ensures Inv(s) && AllAgree(s) && NoOverlap(s)
  {
    forall d, u ensures Agrees(s, d, u) {
      assert ApprovedFor(s, d, u) == {};
    }
  }

  // ----- What goes wrong otherwise -----

  /** What create_request lets happen: two grants for one user, one revoked, the other now without effect. */
  lemma OverlapBreaksAgreement(t: int, device: string, username: string)
    ensures var s := OneUser(t, device, username);
      var run := [CreateCall(0, device, "u", 1), CreateCall(1, device, "u", 1),
                  ApproveCall(0), ApproveCall(1), RevokeCall(0)];
      Initial(s) && !Agrees(Run(s, run), device, username) && ApprovedFor(Run(s, run), device, username) == {1}
  {
    var s := OneUser(t, device, username);
    var run := [CreateCall(0, device, "u", 1), CreateCall(1, device, "u", 1),
                ApproveCall(0), ApproveCall(1), RevokeCall(0)];
    var s2 := Step(Step(s, run[0]), run[1]);
    var waiting := AdminGrants.Request(device, username, 1, Pending, None, None, None);
    assert s2 == s.(requests := map[0 := waiting, 1 := waiting]);
    var granted := OneGrant(t, device, username);
    var add := Job(device, username, Elevation);
    var s3 := Step(s2, run[2]);
    assert s3 == s2.(requests := map[0 := granted, 1 := waiting], jobs := [add]);
    var s4 := Step(s3, run[3]);
    assert s4 == s2.(requests := map[0 := granted, 1 := granted], jobs := [add, add]);
    assert Run(s, run) == End(s4, 0, Revocation, t) by { RunFive(s, run); }
    TwoHeldThenOne(s4, device, username);
  }

  lemma TwoHeldThenOne(s: Store, device: string, username: string)
    requires s.requests.Keys == {0, 1}
    requires forall i :: i in {0, 1} ==>
      s.requests[i].status == Approved && s.requests[i].device == device && s.requests[i].username == username
    ensures !Agrees(End(s, 0, Revocation, s.now), device, username)
    ensures ApprovedFor(End(s, 0, Revocation, s.now), device, username) == {1}
  {
    assert ApprovedFor(s, device, username) == {0, 1};
    assert 1 !in {0};
    EndAgreesIff(s, 0, Revocation, s.now);
    EndHolding(s, 0, Revocation, s.now, User(device, username));
  }

  /** The two passes of TwoPasses, with a new request granted before the second one commits. */
  function LateFinish(t: int, device: string): seq<Event> {
    [Finish(0), CreateCall(1, device, "u", 1), ApproveCall(1), Finish(1)]
  }

  /** What the first pass leaves, and the new grant after it. */
  function Regranted(t: int, device: string, username: string): Store {
    BothListed(t, device, username).(
      lastTick := t + HOUR,
      requests := map[0 := Ended(OneGrant(t, device, username), t + HOUR), 1 := OneGrant(t + HOUR, device, username)],
      jobs := [Job(device, username, Elevation), Job(device, username, RevocationAuto),
               Job(device, username, Elevation)],
      passes := map[1 := Pass(t + HOUR, [0])])
  }

  lemma RegrantedIsReached(t: int, device: string, username: string)
    requires username != ""
    ensures var s := BothListed(t, device, username); var es := LateFinish(t, device);
      && Step(Step(Step(s, es[0]), es[1]), es[2]) == Regranted(t, device, username)
      && NoOverlap(s) && NoOverlap(Step(s, es[0])) && NoOverlap(Step(Step(s, es[0]), es[1]))
  {
    var s, es := BothListed(t, device, username), LateFinish(t, device);
    var ended := Ended(OneGrant(t, device, username), t + HOUR);
    var add, drop := Job(device, username, Elevation), Job(device, username, RevocationAuto);
    EndAllOne(s, 0, t + HOUR);
    var s1 := Step(s, es[0]);
    assert s1 == s.(lastTick := t + HOUR, requests := map[0 := ended], jobs := [add, drop],
                    passes := map[1 := Pass(t + HOUR, [0])]);
    var s2 := Step(s1, es[1]);
    var waiting := AdminGrants.Request(device, username, 1, Pending, None, None, None);
    assert s2 == s1.(requests := map[0 := ended, 1 := waiting]);
  }

  lemma RegrantedKeepsApart(t: int, device: string, username: string)
    requires username != ""
    ensures NoOverlap(Regranted(t, device, username))
    ensures NoOverlap(Step(Regranted(t, device, username), Finish(1)))
  {
    var s := Regranted(t, device, username);
    EndAllOne(s, 0, t + HOUR);
    assert Step(s, Finish(1)).requests[0].status == Revoked;
  }

  /** The second pass commits: the new grant stays approved, its user is taken out of the group. */
  lemma RegrantedIsLost(t: int, device: string, username: string)
    requires username != ""
    ensures var after := Step(Regranted(t, device, username), Finish(1));
      ApprovedFor(after, device, username) == {1} && !Agrees(after, device, username)
  {
    var s, after := Regranted(t, device, username), Step(Regranted(t, device, username), Finish(1));
    var ended := EndAll(s, [0], t + HOUR);
    EndAllReplays(s, [0], t + HOUR, device, username);
    assert NamedRows(s, [0], device, username) == {0} && ApprovedFor(s, device, username) == {1};
    assert after.jobs == ended.jobs && after.requests == ended.requests;
    assert ApprovedFor(after, device, username) == ApprovedFor(ended, device, username) == {1};
  }

  lemma {:induction false} AlongAppend(s: Store, a: seq<Event>, b: seq<Event>)
    requires Along(s, a, NoOverlap) && Along(Run(s, a), b, NoOverlap)
    ensures Along(s, a + b, NoOverlap)
    decreases a
  {
    if a == [] {
      assert a + b == b;
    } else {
      assert (a + b)[1..] == a[1..] + b && (a + b)[0] == a[0];
      AlongAppend(Step(s, a[0]), a[1..], b);
    }
  }

  /** With one request there is nothing to overlap. */
  lemma {:induction false} OneRequestAlong(s: Store, events: seq<Event>)
    requires s.requests.Keys <= {0} && forall e :: e in events && e.CreateCall? ==> e.id == 0
    ensures Along(s, events, NoOverlap)
    decreases events
  {
    if events != [] {
      assert events[0] in events && forall e :: e in events[1..] ==> e in events;
      assert Step(s, events[0]).requests.Keys <= {0};
      OneRequestAlong(Step(s, events[0]), events[1..]);
    }
  }

  lemma FourSteps(s: Store, es: seq<Event>)
    requires |es| == 4
    requires var s1 := Step(s, es[0]); var s2 := Step(s1, es[1]); var s3 := Step(s2, es[2]);
      NoOverlap(s) && NoOverlap(s1) && NoOverlap(s2) && NoOverlap(s3) && NoOverlap(Step(s3, es[3]))
    ensures Along(s, es, NoOverlap)
    ensures Run(s, es) == Step(Step(Step(Step(s, es[0]), es[1]), es[2]), es[3])
  {
    var s2 := Step(Step(s, es[0]), es[1]);
    assert es == [es[0], es[1]] + [es[2], es[3]];
    TwoSteps(s, es[0], es[1]);
    TwoSteps(s2, es[2], es[3]);
    AlongAppend(s, [es[0], es[1]], [es[2], es[3]]);
    RunAppend(s, [es[0], es[1]], [es[2], es[3]]);
  }

  lemma TwoSteps(s: Store, a: Event, b: Event)
    requires NoOverlap(s) && NoOverlap(Step(s, a)) && NoOverlap(Step(Step(s, a), b))
    ensures Along(s, [a, b], NoOverlap) && Run(s, [a, b]) == Step(Step(s, a), b)
  {
    RunTwo(s, a, b);
    var s1 := Step(s, a);
    assert Along(Step(s1, b), [], NoOverlap);
    assert Along(s1, [b], NoOverlap) by { assert [b][1..] == []; }
    assert [a, b][1..] == [b];
  }

  lemma LateFinishRun(t: int, device: string, username: string)
    requires username != ""
    ensures var s := BothListed(t, device, username); var es := LateFinish(t, device);
      Along(s, es, NoOverlap) && Run(s, es) == Step(Regranted(t, device, username), Finish(1))
  {
    RegrantedIsReached(t, device, username);
    RegrantedKeepsApart(t, device, username);
    FourSteps(BothListed(t, device, username), LateFinish(t, device));
  }

  lemma FirstPassRun(t: int, device: string, username: string)
    ensures var s := OneUser(t, device, username); var es := TwoPasses(t, device)[..5];
      Along(s, es, NoOverlap) && Run(s, es) == BothListed(t, device, username)
  {
    BothListedIsReached(t, device, username);
    OneRequestAlong(OneUser(t, device, username), TwoPasses(t, device)[..5]);
  }

  /** A late pass takes a newly granted user out of the group, though no two grants ever overlapped. */
  lemma LatePassBreaksAgreement(t: int, device: string, username: string)
    requires username != ""
    ensures var start := OneUser(t, device, username); var run := TwoPasses(t, device)[..5] + LateFinish(t, device);
      && Initial(start) && Along(start, run, NoOverlap)
      && ApprovedFor(Run(start, run), device, username) == {1} && !Agrees(Run(start, run), device, username)
  {
    FirstPassRun(t, device, username);
    LateFinishRun(t, device, username);
    RegrantedIsLost(t, device, username);
    AlongAppend(OneUser(t, device, username), TwoPasses(t, device)[..5], LateFinish(t, device));
    RunAppend(OneUser(t, device, username), TwoPasses(t, device)[..5], LateFinish(t, device));
  }
}
