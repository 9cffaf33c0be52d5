/** The agent's script-job queue: polls that lock rows and skip locked ones, and posted results. */
module ScriptJobs {
  import opened Prelude
  import opened WorkLists

  datatype Status = Pending | Running | Completed | Failed

  datatype Job = Job(device: string, status: Status, exitCode: Option<int>, stdout: string, stderr: string)

  const LIMIT := 10
  const OUTPUT_CAP := 65536

  function Queued(device: string): Job {
    Job(device, Pending, None, "", "")
  }

  ghost predicate IsPending(jobs: seq<Job>, device: string, j: nat) {
    j < |jobs| && jobs[j].device == device && jobs[j].status == Pending
  }

  ghost function PendingSet(jobs: seq<Job>, device: string): set<nat> {
    set j: nat | j < |jobs| && IsPending(jobs, device, j)
  }

  /**
   * What a poll's SELECT ... FOR UPDATE SKIP LOCKED LIMIT 10 may return beside other transactions: at
   * most ten free pending rows in any order, perhaps fewer than there are, since a row it meets may
   * be taken meanwhile.
   */
  ghost predicate MayLock(jobs: seq<Job>, device: string, locked: set<nat>, picked: seq<nat>) {
    && Distinct(picked) && |picked| <= LIMIT
    && forall j :: j in picked ==> IsPending(jobs, device, j) && j !in locked
  }

  /** What it returns when nothing else is running: ten of the pending rows, or all of them. */
  ghost predicate MayPick(jobs: seq<Job>, device: string, picked: seq<nat>) {
    MayLock(jobs, device, {}, picked) && |picked| == Min(LIMIT, |PendingSet(jobs, device)|)
  }

  ghost predicate Distinct(xs: seq<nat>) {
    forall a, b :: 0 <= a < b < |xs| ==> xs[a] != xs[b]
  }

  function MarkRunning(jobs: seq<Job>, picked: seq<nat>): seq<Job> {
    seq(|jobs|, i requires 0 <= i < |jobs| => if i in picked then jobs[i].(status := Running) else jobs[i])
  }

  function Cap(s: string): string {
    if |s| <= OUTPUT_CAP then s else s[..OUTPUT_CAP]
  }

  function Finished(job: Job, code: int, stdout: string, stderr: string): Job {
    job.(
      status := if code == 0 then Completed else Failed, exitCode := Some(code),
      stdout := Cap(stdout), stderr := Cap(stderr))
  }

  class JobTable {
    var jobs: seq<Job>

    /** poll_jobs once its query has returned and locked `picked`. */
    method PollJobs(ghost device: string, ghost locked: set<nat>, picked: seq<nat>) returns (dispatched: seq<Job>)
      requires MayLock(jobs, device, locked, picked)
      modifies this
      ensures jobs == MarkRunning(old(jobs), picked)
      ensures |jobs| == |old(jobs)| && forall i :: 0 <= i < |jobs| ==>
        jobs[i] == if i in picked then old(jobs)[i].(status := Running) else old(jobs)[i]
      ensures |dispatched| == |picked|
      ensures forall k :: 0 <= k < |picked| ==>
        picked[k] < |old(jobs)| && dispatched[k] == old(jobs)[picked[k]].(status := Running)
    {
      dispatched := [];
      for k := 0 to |picked|
        invariant jobs == MarkRunning(old(jobs), picked[..k])
        invariant |dispatched| == k
        invariant forall i :: 0 <= i < k ==>
          picked[i] < |old(jobs)| && dispatched[i] == old(jobs)[picked[i]].(status := Running)
      {
        assert IsPending(old(jobs), device, picked[k]);
        jobs := jobs[picked[k] := jobs[picked[k]].(status := Running)];
        dispatched := dispatched + [jobs[picked[k]]];
        assert picked[..k + 1] == picked[..k] + [picked[k]];
      }
      assert picked[..|picked|] == picked;
    }

    method PostJobResult(id: nat, device: string, code: int, stdout: string, stderr: string) returns (found: bool)
      modifies this
      ensures found <==> id < |old(jobs)| && old(jobs)[id].device == device
      ensures found ==>
        && |jobs| == |old(jobs)| && jobs[id].exitCode == Some(code)
        && jobs[id].status == (if code == 0 then Completed else Failed)
        && KeptOf(jobs[id].stdout, stdout) && KeptOf(jobs[id].stderr, stderr)
      ensures jobs == if found then old(jobs)[id := Finished(old(jobs)[id], code, stdout, stderr)] else old(jobs)
    {
      found := id < |jobs| && jobs[id].device == device;
      if found {
        var job := jobs[id];
        job := job.(status := if code == 0 then Completed else Failed);
        job := job.(exitCode := Some(code), stdout := Cap(stdout), stderr := Cap(stderr));
        jobs := jobs[id := job];
      }
    }
  }

  // ----- Concurrent polls -----

  /** A poll that has selected and locked its rows and not yet committed. */
  datatype Poll = Poll(device: string, picked: seq<nat>)

  /** `handed` lists the jobs returned by committed polls, in commit order. */
  datatype Table = Table(jobs: seq<Job>, polls: map<nat, Poll>, handed: seq<nat>)

  datatype Event =
    | Enqueue(device: string)
    | OpenPoll(p: nat, device: string, picked: seq<nat>)
    | CommitPoll(p: nat)
    | AbortPoll(p: nat)
    | PostResult(id: nat, device: string, code: int, stdout: string, stderr: string)

  ghost function Locked(t: Table): set<nat> {
    set p, j | p in t.polls && j in t.polls[p].picked :: j
  }

  /** One atomic step; what the database would refuse or make wait changes nothing. */
  ghost function Step(t: Table, e: Event): Table {
    match e
    case Enqueue(d) => t.(jobs := t.jobs + [Queued(d)])
    case OpenPoll(p, d, picked) =>
      if p !in t.polls && MayLock(t.jobs, d, Locked(t), picked) then t.(polls := t.polls[p := Poll(d, picked)]) else t
    case CommitPoll(p) =>
      if p in t.polls then
        Table(MarkRunning(t.jobs, t.polls[p].picked), t.polls - {p}, t.handed + t.polls[p].picked)
      else t
    case AbortPoll(p) => t.(polls := t.polls - {p})
    case PostResult(j, d, code, out, err) =>
      if j < |t.jobs| && t.jobs[j].device == d && j !in Locked(t)
      then t.(jobs := t.jobs[j := Finished(t.jobs[j], code, out, err)]) else t
  }

  ghost function Run(t: Table, events: seq<Event>): Table
    decreases events
  {
    if events == [] then t else Run(Step(t, events[0]), events[1..])
  }

  const Empty := Table([], map[], [])

  ghost function SetOf(xs: seq<nat>): set<nat> {
    set x | x in xs
  }

  /** completed iff exit code 0, failed iff another code, pending or running iff none. */
  ghost predicate StatusFitsCode(job: Job) {
    && (job.status == Completed <==> job.exitCode == Some(0))
    && (job.status == Failed <==> job.exitCode.Some? && job.exitCode.value != 0)
    && (job.status in {Pending, Running} <==> job.exitCode.None?)
  }

  ghost predicate PollInv(t: Table, poll: Poll) {
    Distinct(poll.picked) && forall j :: j in poll.picked ==> j < |t.jobs| && t.jobs[j].status == Pending
  }

  ghost predicate Apart(p: Poll, q: Poll) {
    forall j :: j in p.picked ==> j !in q.picked
  }

  ghost predicate HandedInv(t: Table) {
    && Distinct(t.handed)
    && forall j :: j in t.handed ==> j < |t.jobs| && t.jobs[j].status != Pending
  }

  ghost predicate Inv(t: Table) {
    && (forall j :: 0 <= j < |t.jobs| ==> StatusFitsCode(t.jobs[j]))
    && (forall p :: p in t.polls ==> PollInv(t, t.polls[p]))
    && (forall p, q :: p in t.polls && q in t.polls && p != q ==> Apart(t.polls[p], t.polls[q]))
    && HandedInv(t)
  }

  lemma StepKeepsPicked(t: Table, e: Event, p: nat, j: nat)
    requires p in t.polls && j in t.polls[p].picked && j < |t.jobs| && t.jobs[j].status == Pending
    requires e.CommitPoll? && e.p in t.polls ==> j !in t.polls[e.p].picked
    ensures j < |Step(t, e).jobs| && Step(t, e).jobs[j].status == Pending
  {
    assert j in Locked(t);
  }

  lemma StepKeepsPoll(t: Table, e: Event, p: nat)
    requires Inv(t) && p in Step(t, e).polls
    ensures PollInv(Step(t, e), Step(t, e).polls[p])
  {
    if p in t.polls {
      assert PollInv(t, t.polls[p]);
      assert e.CommitPoll? && e.p in t.polls ==> Apart(t.polls[p], t.polls[e.p]);
      assert Step(t, e).polls[p] == t.polls[p];
      forall j | j in t.polls[p].picked
        ensures j < |Step(t, e).jobs| && Step(t, e).jobs[j].status == Pending
      {
        StepKeepsPicked(t, e, p, j);
      }
    } else {
      assert e.OpenPoll? && MayLock(t.jobs, e.device, Locked(t), e.picked);
      assert Step(t, e).jobs == t.jobs;
      assert forall j :: j in e.picked ==> IsPending(t.jobs, e.device, j);
    }
  }

  lemma StepKeepsApart(t: Table, e: Event, p: nat, q: nat)
    requires Inv(t) && p in Step(t, e).polls && q in Step(t, e).polls && p != q
    ensures Apart(Step(t, e).polls[p], Step(t, e).polls[q])
  {
    if p in t.polls && q in t.polls {
      assert Apart(t.polls[p], t.polls[q]);
    } else if p in t.polls {
      assert SetOf(t.polls[p].picked) <= Locked(t);
      assert forall j :: j in e.picked ==> j !in Locked(t);
    } else {
      assert SetOf(t.polls[q].picked) <= Locked(t);
      assert forall j :: j in e.picked ==> j !in Locked(t);
    }
  }

  lemma StepKeepsHanded(t: Table, e: Event)
    requires Inv(t)
    ensures HandedInv(Step(t, e))
  {
    if e.CommitPoll? && e.p in t.polls {
      assert PollInv(t, t.polls[e.p]);
      var t' := Step(t, e);
      assert forall j :: j in t'.handed ==> j in t.handed || j in t.polls[e.p].picked;
    }
  }

  lemma StepKeepsInv(t: Table, e: Event)
    requires Inv(t)
    ensures Inv(Step(t, e))
  {
    var t' := Step(t, e);
    forall p | p in t'.polls ensures PollInv(t', t'.polls[p]) {
      StepKeepsPoll(t, e, p);
    }
    forall p, q | p in t'.polls && q in t'.polls && p != q ensures Apart(t'.polls[p], t'.polls[q]) {
      StepKeepsApart(t, e, p, q);
    }
    StepKeepsHanded(t, e);
    if e.CommitPoll? && e.p in t.polls {
      assert PollInv(t, t.polls[e.p]);
    }
  }

  /** A job once out of pending never returns to it. */
  lemma StepNeverRequeues(t: Table, e: Event, j: nat)
    requires j < |t.jobs| && t.jobs[j].status != Pending
    ensures j < |Step(t, e).jobs| && Step(t, e).jobs[j].status != Pending
  {
  }

  lemma {:induction false} NeverPendingAgain(t: Table, events: seq<Event>, j: nat)
    requires j < |t.jobs| && t.jobs[j].status != Pending
    ensures j < |Run(t, events).jobs| && Run(t, events).jobs[j].status != Pending
    decreases events
  {
    if events != [] {
      StepNeverRequeues(t, events[0], j);
      NeverPendingAgain(Step(t, events[0]), events[1..], j);
    }
  }

  lemma {:induction false} RunKeepsInv(t: Table, events: seq<Event>)
    requires Inv(t)
    ensures Inv(Run(t, events))
    decreases events
  {
    if events != [] {
      StepKeepsInv(t, events[0]);
      RunKeepsInv(Step(t, events[0]), events[1..]);
    }
  }

  /** No job is handed out by two committed polls, and status and exit code always fit. */
  lemma HandedOutOnce(events: seq<Event>)
    ensures var t := Run(Empty, events);
      && Distinct(t.handed)
      && (forall j :: 0 <= j < |t.jobs| ==> StatusFitsCode(t.jobs[j]))
  {
    RunKeepsInv(Empty, events);
  }

  // ----- What a job's row says about the posted results -----

  /** The table takes the posted result: the job is the device's own and no poll holds its row. */
  ghost predicate Takes(t: Table, e: Event, j: nat) {
    e.PostResult? && e.id == j && j < |t.jobs| && t.jobs[j].device == e.device && j !in Locked(t)
  }

  /** The last result the table took for the job. */
  ghost function LastPosted(events: seq<Event>, j: nat): Option<Event> {
    if events == [] then None
    else
      var front, e := events[..|events| - 1], events[|events| - 1];
      if Takes(Run(Empty, front), e, j) then Some(e) else LastPosted(front, j)
  }

  /** `stored` is what is kept of a posted text: its first 65536 characters. */
  predicate KeptOf(stored: string, posted: string) {
    stored <= posted && |stored| == if |posted| <= 65536 then |posted| else 65536
  }

  /** The row against the last result taken for it. */
  ghost predicate Tells(job: Job, last: Option<Event>) {
    match last
    case Some(PostResult(_, _, code, out, err)) =>
      && job.exitCode == Some(code) && job.status == (if code == 0 then Completed else Failed)
      && KeptOf(job.stdout, out) && KeptOf(job.stderr, err)
    case _ =>
      job.exitCode == None && job.status in {Pending, Running} && job.stdout == "" && job.stderr == ""
  }

  lemma {:induction false} RunSnoc(t: Table, front: seq<Event>, e: Event)
    ensures Run(t, front + [e]) == Step(Run(t, front), e)
    decreases front
  {
    if front == [] {
      assert [e][1..] == [];
      assert Run(t, [] + [e]) == Run(Step(t, e), []);
    } else {
      assert (front + [e])[1..] == front[1..] + [e];
      RunSnoc(Step(t, front[0]), front[1..], e);
    }
  }

  lemma StepTells(t: Table, e: Event, j: nat, last: Option<Event>)
    requires Inv(t) && j < |Step(t, e).jobs|
    requires if j < |t.jobs| then Tells(t.jobs[j], last) else last == None
    ensures Tells(Step(t, e).jobs[j], if Takes(t, e, j) then Some(e) else last)
  {
    if e.CommitPoll? && e.p in t.polls {
      assert PollInv(t, t.polls[e.p]);
      assert j in t.polls[e.p].picked ==> t.jobs[j].status == Pending;
    }
  }

  lemma {:induction false} NothingPosted(events: seq<Event>, j: nat)
    requires j >= |Run(Empty, events).jobs|
    ensures LastPosted(events, j) == None
  {
    if events != [] {
      var front, e := events[..|events| - 1], events[|events| - 1];
      assert events == front + [e];
      RunSnoc(Empty, front, e);
      NothingPosted(front, j);
    }
  }

  /**
   * In every run a job's row holds the code of the last result the table took for it, is completed
   * exactly for code 0 and failed for any other, and keeps the first 65536 characters of that
   * result's output; without a result it has none of these.
   */
  lemma {:induction false} RowTellsLastResult(events: seq<Event>, j: nat)
    requires j < |Run(Empty, events).jobs|
    ensures Tells(Run(Empty, events).jobs[j], LastPosted(events, j))
  {
    if events != [] {
      var front, e := events[..|events| - 1], events[|events| - 1];
      assert events == front + [e];
      RunSnoc(Empty, front, e);
      RunKeepsInv(Empty, front);
      if j < |Run(Empty, front).jobs| {
        RowTellsLastResult(front, j);
      } else {
        NothingPosted(front, j);
      }
      StepTells(Run(Empty, front), e, j, LastPosted(front, j));
    }
  }

  lemma StepHands(t: Table, e: Event, j: nat, last: Option<Event>)
    requires Inv(t) && j < |Step(t, e).jobs|
    requires if j < |t.jobs| then t.jobs[j].status == Pending <==> j !in t.handed && last == None
             else last == None
    ensures var now := if Takes(t, e, j) then Some(e) else last;
      Step(t, e).jobs[j].status == Pending <==> j !in Step(t, e).handed && now == None
  {
    if e.CommitPoll? && e.p in t.polls {
      assert PollInv(t, t.polls[e.p]);
      assert j in Step(t, e).handed <==> j in t.handed || j in t.polls[e.p].picked;
    }
  }

  /** A job is pending exactly while no committed poll handed it out and no result was taken for it. */
  lemma {:induction false} PendingIffUntouched(events: seq<Event>, j: nat)
    requires j < |Run(Empty, events).jobs|
    ensures var t := Run(Empty, events);
      t.jobs[j].status == Pending <==> j !in t.handed && LastPosted(events, j) == None
  {
    if events != [] {
      var front, e := events[..|events| - 1], events[|events| - 1];
      assert events == front + [e];
      RunSnoc(Empty, front, e);
      RunKeepsInv(Empty, front);
      if j < |Run(Empty, front).jobs| {
        PendingIffUntouched(front, j);
      } else {
        NothingPosted(front, j);
        assert forall k :: k in Run(Empty, front).handed ==> k < |Run(Empty, front).jobs|;
      }
      StepHands(Run(Empty, front), e, j, LastPosted(front, j));
    }
  }

  // ----- Draining a queue -----

  /** A run of polls one after the other, each with the rows its query returned. */
  ghost predicate MayPoll(jobs: seq<Job>, device: string, picks: seq<seq<nat>>)
    decreases picks
  {
    picks == [] || (MayPick(jobs, device, picks[0]) && MayPoll(MarkRunning(jobs, picks[0]), device, picks[1..]))
  }

  ghost function PollAll(jobs: seq<Job>, picks: seq<seq<nat>>): seq<Job>
    decreases picks
  {
    if picks == [] then jobs else PollAll(MarkRunning(jobs, picks[0]), picks[1..])
  }

  lemma {:induction false} DistinctSize(xs: seq<nat>)
    requires Distinct(xs)
    ensures |SetOf(xs)| == |xs|
  {
    if xs != [] {
      var n := |xs| - 1;
      DistinctSize(xs[..n]);
      assert SetOf(xs) == SetOf(xs[..n]) + {xs[n]};
    }
  }

  lemma PickedLeavePending(jobs: seq<Job>, device: string, picked: seq<nat>)
    ensures PendingSet(MarkRunning(jobs, picked), device) == PendingSet(jobs, device) - SetOf(picked)
  {
  }

  lemma PollTakesTen(jobs: seq<Job>, device: string, picked: seq<nat>)
    requires MayPick(jobs, device, picked)
    ensures var k := |PendingSet(jobs, device)|;
      |PendingSet(MarkRunning(jobs, picked), device)| == k - Min(LIMIT, k)
  {
    DistinctSize(picked);
    PickedLeavePending(jobs, device, picked);
    assert SetOf(picked) <= PendingSet(jobs, device);
  }

  /** k pending jobs are drained by n sequential polls exactly when n >= ceil(k / 10). */
  lemma {:induction false} DrainedByCeil(jobs: seq<Job>, device: string, picks: seq<seq<nat>>)
    requires MayPoll(jobs, device, picks)
    ensures var k := |PendingSet(jobs, device)|;
      && |PendingSet(PollAll(jobs, picks), device)| == k - Min(k, 10 * |picks|)
      && (PendingSet(PollAll(jobs, picks), device) == {} <==> |picks| >= CeilDiv(k, 10))
    decreases picks
  {
    if picks != [] {
      PollTakesTen(jobs, device, picks[0]);
      DrainedByCeil(MarkRunning(jobs, picks[0]), device, picks[1..]);
    }
  }

  // ----- Polls that return the oldest rows first -----

  function PendingMask(jobs: seq<Job>, device: string): seq<bool> {
    seq(|jobs|, i requires 0 <= i < |jobs| => jobs[i].device == device && jobs[i].status == Pending)
  }

  /** The pending rows of a device, oldest first. */
  function PendingList(jobs: seq<Job>, device: string): seq<nat> {
    Indices(PendingMask(jobs, device))
  }

  lemma PendingListElements(jobs: seq<Job>, device: string)
    ensures Distinct(PendingList(jobs, device))
    ensures SetOf(PendingList(jobs, device)) == PendingSet(jobs, device)
  {
    IndicesElements(PendingMask(jobs, device));
    forall j: nat ensures j in PendingList(jobs, device) <==> IsPending(jobs, device, j) {
    }
  }

  function OldestTen(jobs: seq<Job>, device: string): seq<nat> {
    var all := PendingList(jobs, device);
    all[..Min(LIMIT, |all|)]
  }

  /** A run of polls that each return the oldest rows; the ids handed out, in order. */
  function OrderedPolls(jobs: seq<Job>, device: string, n: nat): seq<nat>
    decreases n
  {
    if n == 0 then []
    else OldestTen(jobs, device) + OrderedPolls(MarkRunning(jobs, OldestTen(jobs, device)), device, n - 1)
  }

  /** A poll that takes the oldest m rows takes them off the list. */
  lemma OldestLeaveList(jobs: seq<Job>, device: string, m: nat)
    requires m <= |PendingList(jobs, device)|
    ensures var all := PendingList(jobs, device);
      PendingList(MarkRunning(jobs, all[..m]), device) == all[m..]
  {
    var all := PendingList(jobs, device);
    ClearFirst(PendingMask(jobs, device), m);
    assert PendingMask(MarkRunning(jobs, all[..m]), device) == Clear(PendingMask(jobs, device), all[..m]);
  }

  lemma OrderedPollTakesOldest(jobs: seq<Job>, device: string)
    ensures var all := PendingList(jobs, device); var m := Min(LIMIT, |all|);
      && OldestTen(jobs, device) == all[..m]
      && PendingList(MarkRunning(jobs, all[..m]), device) == all[m..]
  {
    OldestLeaveList(jobs, device, Min(LIMIT, |PendingList(jobs, device)|));
  }

  lemma TakeMore(xs: seq<nat>, n: nat)
    requires n > 0
    ensures var m := Min(LIMIT, |xs|);
      xs[..m] + xs[m..][..Min(LIMIT * (n - 1), |xs[m..]|)] == xs[..Min(LIMIT * n, |xs|)]
  {
  }

  /** n ordered polls hand out exactly the 10n oldest pending jobs, oldest first. */
  lemma {:induction false} OrderedPollsKeepOrder(jobs: seq<Job>, device: string, n: nat)
    ensures var all := PendingList(jobs, device);
      OrderedPolls(jobs, device, n) == all[..Min(10 * n, |all|)]
    decreases n
  {
    if n > 0 {
      OrderedPollTakesOldest(jobs, device);
      OrderedPollsKeepOrder(MarkRunning(jobs, OldestTen(jobs, device)), device, n - 1);
      TakeMore(PendingList(jobs, device), n);
    }
  }

  /** An ordered poll is one of the polls the database allows. */
  lemma OldestTenMayBePicked(jobs: seq<Job>, device: string)
    ensures MayPick(jobs, device, OldestTen(jobs, device))
  {
    var all := PendingList(jobs, device);
    PendingListElements(jobs, device);
    DistinctSize(all);
    forall j | j in OldestTen(jobs, device) ensures IsPending(jobs, device, j) {
      assert j in SetOf(all);
    }
  }
}
