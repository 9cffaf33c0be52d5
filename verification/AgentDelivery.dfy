/** Grants, their queued jobs and the agent's polls put together. */
module AgentDelivery {
  import opened Prelude
  import opened AdminGrants
  import opened GrantReplay
  import ScriptJobs

  /** The script-job rows of the queued dseditgroup jobs, none handed out yet. */
  function Rows(jobs: seq<Job>): seq<ScriptJobs.Job> {
    seq(|jobs|, i requires 0 <= i < |jobs| => ScriptJobs.Queued(jobs[i].device))
  }

  predicate InRange(ids: seq<nat>, n: nat) {
    forall k :: 0 <= k < |ids| ==> ids[k] < n
  }

  /** The jobs with these ids, in this order. */
  function Picked(jobs: seq<Job>, ids: seq<nat>): seq<Job>
    requires InRange(ids, |jobs|)
  {
    seq(|ids|, k requires 0 <= k < |ids| => jobs[ids[k]])
  }

  /** The device's own jobs, oldest first. */
  function OwnJobs(jobs: seq<Job>, device: string): seq<Job> {
    if jobs == [] then []
    else OwnJobs(jobs[..|jobs| - 1], device) + if jobs[|jobs| - 1].device == device then [jobs[|jobs| - 1]] else []
  }

  // ----- The last job decides -----

  predicate IsFor(job: Job, device: string, username: string) {
    job.device == device && job.username == username
  }

  /** The last of the jobs that concerns the user. */
  function LastFor(jobs: seq<Job>, device: string, username: string): Option<Job> {
    if jobs == [] then None
    else if IsFor(jobs[|jobs| - 1], device, username) then Some(jobs[|jobs| - 1])
    else LastFor(jobs[..|jobs| - 1], device, username)
  }

  predicate LastAdds(jobs: seq<Job>, device: string, username: string) {
    LastFor(jobs, device, username).Some? && LastFor(jobs, device, username).value.Adds()
  }

  lemma ExecuteDecides(admins: Admins, job: Job, device: string, username: string)
    ensures (device, username) in Execute(admins, job) <==>
      if IsFor(job, device, username) then job.Adds() else (device, username) in admins
  {
  }

  /** Whatever ran before, a user is an admin exactly when the last job for that user added it. */
  lemma {:induction false} LastJobDecides(jobs: seq<Job>, device: string, username: string)
    ensures (device, username) in Replay({}, jobs) <==> LastAdds(jobs, device, username)
  {
    if jobs != [] {
      var front, last := jobs[..|jobs| - 1], jobs[|jobs| - 1];
      LastJobDecides(front, device, username);
      ExecuteDecides(Replay({}, front), last, device, username);
    }
  }

  lemma {:induction false} LastForSomeIff(jobs: seq<Job>, device: string, username: string)
    ensures LastFor(jobs, device, username).Some? <==> exists k :: 0 <= k < |jobs| && IsFor(jobs[k], device, username)
  {
    if jobs != [] {
      LastForSomeIff(jobs[..|jobs| - 1], device, username);
    }
  }

  /** A device's own jobs, in order, decide its admin group; other devices' jobs do not. */
  lemma {:induction false} OwnJobsSuffice(jobs: seq<Job>, device: string, username: string)
    ensures (device, username) in Replay({}, OwnJobs(jobs, device)) <==> (device, username) in Replay({}, jobs)
  {
    if jobs != [] {
      var front, last := jobs[..|jobs| - 1], jobs[|jobs| - 1];
      var own := OwnJobs(front, device);
      OwnJobsSuffice(front, device, username);
      ExecuteDecides(Replay({}, front), last, device, username);
      if last.device == device {
        ReplaySnoc({}, own, last);
        ExecuteDecides(Replay({}, own), last, device, username);
      } else {
        assert OwnJobs(jobs, device) == own;
      }
    }
  }

  /** They are the jobs of the device's pending rows. */
  lemma {:induction false} OwnJobsArePending(jobs: seq<Job>, device: string)
    ensures var ids := ScriptJobs.PendingList(Rows(jobs), device);
      InRange(ids, |jobs|) && Picked(jobs, ids) == OwnJobs(jobs, device)
  {
    if jobs != [] {
      var n := |jobs| - 1;
      OwnJobsArePending(jobs[..n], device);
      var front := ScriptJobs.PendingList(Rows(jobs[..n]), device);
      var ids := ScriptJobs.PendingList(Rows(jobs), device);
      var mask := ScriptJobs.PendingMask(Rows(jobs), device);
      assert mask[..n] == ScriptJobs.PendingMask(Rows(jobs[..n]), device);
      assert ids == front + if jobs[n].device == device then [n] else [];
      assert Picked(jobs, front) == Picked(jobs[..n], front);
      assert Picked(jobs, ids) == Picked(jobs, front) + if jobs[n].device == device then [jobs[n]] else [];
    }
  }

  // ----- Grants and polls of one device, interleaved -----

  /** `rows` are the script-job rows of the store's jobs, `handed` the ids the device was given, in order. */
  datatype World = World(store: Store, rows: seq<ScriptJobs.Job>, handed: seq<nat>)

  datatype Happening =
    | Server(event: AdminGrants.Event)
    | Poll(picked: seq<nat>)

  function Newer(jobs: seq<Job>, known: nat): seq<Job> {
    if known <= |jobs| then jobs[known..] else []
  }

  ghost function Next(w: World, device: string, h: Happening): World {
    match h
    case Server(e) =>
      var store := AdminGrants.Step(w.store, e);
      w.(store := store, rows := w.rows + Rows(Newer(store.jobs, |w.rows|)))
    case Poll(picked) =>
      if ScriptJobs.MayLock(w.rows, device, {}, picked)
      then w.(rows := ScriptJobs.MarkRunning(w.rows, picked), handed := w.handed + picked) else w
  }

  ghost function Course(w: World, device: string, hs: seq<Happening>): World
    decreases hs
  {
    if hs == [] then w else Course(Next(w, device, hs[0]), device, hs[1..])
  }

  /** What the server did in the meantime. */
  function ServerEvents(hs: seq<Happening>): seq<AdminGrants.Event> {
    if hs == [] then []
    else (if hs[0].Server? then [hs[0].event] else []) + ServerEvents(hs[1..])
  }

  function Outset(s: Store): World {
    World(s, Rows(s.jobs), [])
  }

  lemma {:induction false} CourseRunsServer(w: World, device: string, hs: seq<Happening>)
    ensures Course(w, device, hs).store == Run(w.store, ServerEvents(hs))
    decreases hs
  {
    if hs != [] {
      CourseRunsServer(Next(w, device, hs[0]), device, hs[1..]);
      var later := ServerEvents(hs[1..]);
      if hs[0].Server? {
        assert ServerEvents(hs)[1..] == later;
      } else {
        assert ServerEvents(hs) == later;
      }
    }
  }

  lemma {:induction false} EndAllAppends(s: Store, rows: seq<Id>, at: int)
    requires forall i :: i in rows ==> i in s.requests
    ensures s.jobs <= EndAll(s, rows, at).jobs
    decreases rows
  {
    if rows != [] {
      EndAllAppends(s, rows[..|rows| - 1], at);
    }
  }

  lemma JobsAreAppended(s: Store, e: AdminGrants.Event)
    ensures s.jobs <= AdminGrants.Step(s, e).jobs
  {
    if e.Finish? && CanFinish(s, e.p) {
      EndAllAppends(s, s.passes[e.p].rows, s.passes[e.p].at);
    }
  }

  /** One row for each job; the device was handed each of its rows that is pending no longer, once. */
  ghost predicate Tracks(w: World, device: string) {
    && |w.rows| == |w.store.jobs|
    && (forall i :: 0 <= i < |w.rows| ==> w.rows[i].device == w.store.jobs[i].device)
    && ScriptJobs.Distinct(w.handed)
    && forall i: nat ::
         i in w.handed <==> i < |w.rows| && w.rows[i].device == device && w.rows[i].status != ScriptJobs.Pending
  }

  lemma NextTracks(w: World, device: string, h: Happening)
    requires Tracks(w, device)
    ensures Tracks(Next(w, device, h), device)
  {
    var w' := Next(w, device, h);
    if h.Server? {
      JobsAreAppended(w.store, h.event);
      assert w'.rows[..|w.rows|] == w.rows;
    } else if ScriptJobs.MayLock(w.rows, device, {}, h.picked) {
      assert forall j :: j in h.picked ==> ScriptJobs.IsPending(w.rows, device, j);
      assert forall i: nat :: i in w'.handed <==> i in w.handed || i in h.picked;
    }
  }

  lemma {:induction false} CourseTracks(w: World, device: string, hs: seq<Happening>)
    requires Tracks(w, device)
    ensures Tracks(Course(w, device, hs), device)
    decreases hs
  {
    if hs != [] {
      NextTracks(w, device, hs[0]);
      CourseTracks(Next(w, device, hs[0]), device, hs[1..]);
    }
  }

  /** The device's admin group once it ran what it was handed, in that order. */
  ghost predicate InGroup(w: World, device: string, username: string)
    requires InRange(w.handed, |w.store.jobs|)
  {
    (device, username) in Replay({}, Picked(w.store.jobs, w.handed))
  }

  lemma TracksInRange(w: World, device: string)
    requires Tracks(w, device)
    ensures InRange(w.handed, |w.store.jobs|)
  {
    assert forall k :: 0 <= k < |w.handed| ==> w.handed[k] in w.handed;
  }

  /** With nothing pending, each user of the device with a queued job was handed one. */
  lemma DrainedHandsEachUser(w: World, device: string, username: string)
    requires Tracks(w, device) && ScriptJobs.PendingSet(w.rows, device) == {}
    requires InRange(w.handed, |w.store.jobs|)
    ensures LastFor(Picked(w.store.jobs, w.handed), device, username).Some?
       <==> LastFor(w.store.jobs, device, username).Some?
  {
    var jobs, got := w.store.jobs, Picked(w.store.jobs, w.handed);
    LastForSomeIff(jobs, device, username);
    LastForSomeIff(got, device, username);
    if k :| 0 <= k < |jobs| && IsFor(jobs[k], device, username) {
      assert k !in ScriptJobs.PendingSet(w.rows, device);
      assert ScriptJobs.IsPending(w.rows, device, k) <==> w.rows[k].status == ScriptJobs.Pending;
      var at :| 0 <= at < |w.handed| && w.handed[at] == k;
      assert got[at] == jobs[k];
    }
    if k :| 0 <= k < |got| && IsFor(got[k], device, username) {
      assert got[k] == jobs[w.handed[k]];
    }
  }

  /** The user's job handed out last does the same as the user's job queued last. */
  ghost predicate SameLast(w: World, device: string, username: string)
    requires InRange(w.handed, |w.store.jobs|)
  {
    var queued := LastFor(w.store.jobs, device, username);
    var handed := LastFor(Picked(w.store.jobs, w.handed), device, username);
    queued.Some? ==> handed.Some? && handed.value.Adds() == queued.value.Adds()
  }

  /**
   * Any grants, revocations and worker passes, interleaved with polls that hand out rows in any
   * order: whenever the device has nothing pending, its group matches the queue's order for a user
   * exactly when the job handed out last for that user does the same as the job queued last.
   */
  lemma DeliveryMatchesQueueIff(s: Store, device: string, hs: seq<Happening>, username: string)
    requires ScriptJobs.PendingSet(Course(Outset(s), device, hs).rows, device) == {}
    ensures var w := Course(Outset(s), device, hs);
      && InRange(w.handed, |w.store.jobs|)
      && ((InGroup(w, device, username) <==> (device, username) in Replay({}, w.store.jobs))
            <==> SameLast(w, device, username))
  {
    CourseTracks(Outset(s), device, hs);
    var w := Course(Outset(s), device, hs);
    TracksInRange(w, device);
    LastJobDecides(w.store.jobs, device, username);
    LastJobDecides(Picked(w.store.jobs, w.handed), device, username);
    DrainedHandsEachUser(w, device, username);
  }

  /**
   * So, from the initial state and for any order of delivery, the device's group holds the user
   * exactly when an approved grant says so, if and only if either both or neither hold: delivery
   * kept the user's last job last, and the last decision for the user left no approved grant
   * behind an ending.
   */
  lemma GrantsTakeEffectIff(s: Store, device: string, hs: seq<Happening>, username: string)
    requires Initial(s) && ScriptJobs.PendingSet(Course(Outset(s), device, hs).rows, device) == {}
    ensures var w := Course(Outset(s), device, hs);
      && InRange(w.handed, |w.store.jobs|) && w.store == Run(s, ServerEvents(hs))
      && var settled := LastDecisionSettles(s, ServerEvents(hs), device, username, true);
         (InGroup(w, device, username) <==> ApprovedFor(w.store, device, username) != {})
           <==> (SameLast(w, device, username) <==> settled)
  {
    DeliveryMatchesQueueIff(s, device, hs, username);
    CourseRunsServer(Outset(s), device, hs);
    InitialAgrees(s);
    assert Agrees(s, device, username);
    AgreesAfterRunIff(s, ServerEvents(hs), device, username);
  }

  /**
   * If grants never overlap and no pass ends a row late, delivery alone decides: the group and the
   * grants agree for a user exactly when the user's last job was handed out last.
   */
  lemma SeparateGrantsTakeEffectIff(s: Store, device: string, hs: seq<Happening>, username: string)
    requires Initial(s) && Along(s, ServerEvents(hs), NoOverlap) && NoneLate(s, ServerEvents(hs))
    requires ScriptJobs.PendingSet(Course(Outset(s), device, hs).rows, device) == {}
    ensures var w := Course(Outset(s), device, hs);
      && InRange(w.handed, |w.store.jobs|) && w.store == Run(s, ServerEvents(hs))
      && ((InGroup(w, device, username) <==> ApprovedFor(w.store, device, username) != {})
            <==> SameLast(w, device, username))
  {
    DeliveryMatchesQueueIff(s, device, hs, username);
    CourseRunsServer(Outset(s), device, hs);
    InitialAgrees(s);
    ReplayMatchesGrants(s, ServerEvents(hs));
    assert Agrees(Run(s, ServerEvents(hs)), device, username);
  }

  // ----- Polls that return the oldest rows first -----

  /** Each poll returned a first part of the device's pending rows, oldest first. */
  ghost predicate OldestFirst(w: World, device: string, hs: seq<Happening>)
    decreases hs
  {
    hs != [] ==>
      && (hs[0].Poll? ==> hs[0].picked <= ScriptJobs.PendingList(w.rows, device))
      && OldestFirst(Next(w, device, hs[0]), device, hs[1..])
  }

  function NewIds(more: seq<Job>, known: nat, device: string): seq<nat> {
    if more == [] then []
    else
      var n := |more| - 1;
      NewIds(more[..n], known, device) + if more[n].device == device then [known + n] else []
  }

  lemma PendingOfQueued(rows: seq<ScriptJobs.Job>, row: ScriptJobs.Job, device: string)
    ensures ScriptJobs.PendingList(rows + [row], device) == ScriptJobs.PendingList(rows, device)
      + if row.device == device && row.status == ScriptJobs.Pending then [|rows|] else []
  {
    var mask := ScriptJobs.PendingMask(rows + [row], device);
    assert mask[..|rows|] == ScriptJobs.PendingMask(rows, device);
  }

  lemma {:induction false} PendingOfMore(rows: seq<ScriptJobs.Job>, more: seq<Job>, device: string)
    ensures ScriptJobs.PendingList(rows + Rows(more), device)
         == ScriptJobs.PendingList(rows, device) + NewIds(more, |rows|, device)
    decreases more
  {
    if more == [] {
      assert rows + Rows(more) == rows;
    } else {
      var n := |more| - 1;
      PendingOfMore(rows, more[..n], device);
      var row := ScriptJobs.Queued(more[n].device);
      assert rows + Rows(more) == (rows + Rows(more[..n])) + [row];
      PendingOfQueued(rows + Rows(more[..n]), row, device);
    }
  }

  /** What was handed out and what is pending make up the device's jobs, oldest first. */
  ghost predicate InOrder(w: World, device: string) {
    && |w.rows| == |w.store.jobs|
    && w.handed + ScriptJobs.PendingList(w.rows, device) == ScriptJobs.PendingList(Rows(w.store.jobs), device)
  }

  lemma ServerKeepsOrder(w: World, device: string, e: AdminGrants.Event)
    requires InOrder(w, device)
    ensures InOrder(Next(w, device, Server(e)), device)
  {
    JobsAreAppended(w.store, e);
    var jobs, all := w.store.jobs, AdminGrants.Step(w.store, e).jobs;
    var more := all[|jobs|..];
    PendingOfMore(w.rows, more, device);
    PendingOfMore(Rows(jobs), more, device);
    assert Rows(all) == Rows(jobs) + Rows(more);
    Associate(w.handed, ScriptJobs.PendingList(w.rows, device), NewIds(more, |jobs|, device));
  }

  lemma PollKeepsOrder(w: World, device: string, picked: seq<nat>)
    requires InOrder(w, device) && picked <= ScriptJobs.PendingList(w.rows, device)
    ensures InOrder(Next(w, device, Poll(picked)), device)
  {
    var pending := ScriptJobs.PendingList(w.rows, device);
    assert picked == pending[..|picked|] && pending == picked + pending[|picked|..];
    ScriptJobs.OldestLeaveList(w.rows, device, |picked|);
    Associate(w.handed, picked, pending[|picked|..]);
  }

  lemma {:induction false} CourseKeepsOrder(w: World, device: string, hs: seq<Happening>)
    requires InOrder(w, device) && OldestFirst(w, device, hs)
    ensures InOrder(Course(w, device, hs), device)
    decreases hs
  {
    if hs != [] {
      if hs[0].Server? {
        ServerKeepsOrder(w, device, hs[0].event);
      } else {
        PollKeepsOrder(w, device, hs[0].picked);
      }
      CourseKeepsOrder(Next(w, device, hs[0]), device, hs[1..]);
    }
  }

  /**
   * With polls that return the oldest rows first, at every moment of every interleaving the device
   * was handed a first part of its jobs in queue order, and all of them when nothing is pending.
   */
  lemma HandedIsPrefix(s: Store, device: string, hs: seq<Happening>)
    requires OldestFirst(Outset(s), device, hs)
    ensures var w := Course(Outset(s), device, hs);
      && InRange(w.handed, |w.store.jobs|)
      && Picked(w.store.jobs, w.handed) <= OwnJobs(w.store.jobs, device)
      && (ScriptJobs.PendingSet(w.rows, device) == {} ==>
            Picked(w.store.jobs, w.handed) == OwnJobs(w.store.jobs, device))
  {
    CourseKeepsOrder(Outset(s), device, hs);
    var w := Course(Outset(s), device, hs);
    var all, pending := ScriptJobs.PendingList(Rows(w.store.jobs), device), ScriptJobs.PendingList(w.rows, device);
    OwnJobsArePending(w.store.jobs, device);
    assert w.handed == all[..|w.handed|];
    assert Picked(w.store.jobs, w.handed) == Picked(w.store.jobs, all)[..|w.handed|];
    ScriptJobs.PendingListElements(w.rows, device);
    ScriptJobs.DistinctSize(pending);
    if ScriptJobs.PendingSet(w.rows, device) == {} {
      assert pending == [] && w.handed == all;
    }
  }

  /**
   * Then, whenever nothing is pending, the group holds a user exactly when an approved grant says
   * so, if and only if the last decision for the user left no approved grant behind an ending.
   */
  lemma OrderedGrantsTakeEffectIff(s: Store, device: string, hs: seq<Happening>, username: string)
    requires Initial(s) && OldestFirst(Outset(s), device, hs)
    requires ScriptJobs.PendingSet(Course(Outset(s), device, hs).rows, device) == {}
    ensures var w := Course(Outset(s), device, hs);
      && InRange(w.handed, |w.store.jobs|) && w.store == Run(s, ServerEvents(hs))
      && ((InGroup(w, device, username) <==> ApprovedFor(w.store, device, username) != {})
            <==> LastDecisionSettles(s, ServerEvents(hs), device, username, true))
  {
    HandedIsPrefix(s, device, hs);
    var w := Course(Outset(s), device, hs);
    OwnJobsSuffice(w.store.jobs, device, username);
    CourseRunsServer(Outset(s), device, hs);
    InitialAgrees(s);
    assert Agrees(s, device, username);
    AgreesAfterRunIff(s, ServerEvents(hs), device, username);
  }

  /**
   * If grants never overlap, no pass ends a row late and each poll returns the oldest rows first,
   * then once the device has polled ceil(k / 10) times for its k jobs and run what it got in order,
   * its admin group holds exactly the users with an approved grant on it.
   */
  lemma PolledGrantsTakeEffect(s: Store, events: seq<AdminGrants.Event>, device: string, username: string, polls: nat)
    requires Initial(s) && Along(s, events, NoOverlap) && NoneLate(s, events)
    requires var k := |ScriptJobs.PendingSet(Rows(Run(s, events).jobs), device)|;
      polls >= CeilDiv(k, 10)
    ensures var s' := Run(s, events);
      var ids := ScriptJobs.OrderedPolls(Rows(s'.jobs), device, polls);
      && InRange(ids, |s'.jobs|)
      && ((device, username) in Replay({}, Picked(s'.jobs, ids)) <==> ApprovedFor(s', device, username) != {})
  {
    var s' := Run(s, events);
    var rows := Rows(s'.jobs);
    var all := ScriptJobs.PendingList(rows, device);
    ScriptJobs.OrderedPollsKeepOrder(rows, device, polls);
    ScriptJobs.PendingListElements(rows, device);
    ScriptJobs.DistinctSize(all);
    assert ScriptJobs.OrderedPolls(rows, device, polls) == all;
    OwnJobsArePending(s'.jobs, device);
    OwnJobsSuffice(s'.jobs, device, username);
    InitialAgrees(s);
    ReplayMatchesGrants(s, events);
    assert Agrees(s', device, username);
  }

  /** The order matters, and poll_jobs asks for none: swapped, a revoked user stays an admin. */
  lemma SwappedJobsLeaveAdmin(device: string, username: string)
    ensures var add := Job(device, username, Elevation); var drop := Job(device, username, RevocationAuto);
      Replay({}, [add, drop]) == {} && Replay({}, [drop, add]) == {(device, username)}
      && ScriptJobs.MayPick(Rows([add, drop]), device, [1, 0])
  {
    var add, drop := Job(device, username, Elevation), Job(device, username, RevocationAuto);
    ReplayTwo(add, drop);
    ReplayTwo(drop, add);
    BothMayBePicked(add, drop, device);
  }

  lemma ReplayTwo(a: Job, b: Job)
    ensures Replay({}, [a, b]) == Execute(Execute({}, a), b)
  {
    assert [a, b][..1] == [a] && [a][..0] == [];
    assert Replay({}, [a]) == Execute(Replay({}, []), a);
  }

  /** Two pending rows of one device may be handed out in either order. */
  lemma BothMayBePicked(a: Job, b: Job, device: string)
    requires a.device == b.device == device
    ensures ScriptJobs.MayPick(Rows([a, b]), device, [1, 0])
  {
    var rows := Rows([a, b]);
    assert ScriptJobs.PendingSet(rows, device) == {0, 1} by {
      assert ScriptJobs.IsPending(rows, device, 0) && ScriptJobs.IsPending(rows, device, 1);
    }
  }
}
