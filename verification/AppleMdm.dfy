/** Apple MDM: check-in and connect handlers, the push consumer, and the device and command rows they share. */
module AppleMdm {
  import opened Prelude

  type Udid = string

  datatype Platform = MacOS | Windows

  /** `Staged` is the row value "pending" of a CSV import. */
  datatype DeviceStatus = Staged | Authenticating | Enrolled | Wiped | Spare | Unenrolled | TokenExpired

  datatype Device = Device(
    platform: Platform,
    status: DeviceStatus,
    pushToken: Option<string>,
    pushMagic: Option<string>,
    pushTopic: Option<string>,
    enrolledAt: Option<int>)

  datatype CommandStatus = Queued | Sent | Completed | NotNow | Failed

  datatype Command = Command(
    uuid: string, udid: Udid, kind: string, queuedAt: int, status: CommandStatus, executedAt: Option<int>)

  /** The Status of a connect body: DeviceBusy is "NotNow", every other string counts as an error. */
  datatype Reply = Acknowledged | DeviceBusy | Idle | Errored

  datatype Outcome = Delivered | Gone | PushFailed

  /** A consumer task between reading the row and hearing from APNs. */
  datatype Push = Push(message: nat, udid: Udid)

  /** `delivered` lists the rows of `commands` handed to devices, in order; `queue` the SQS messages. */
  datatype Server = Server(
    now: int,
    devices: map<Udid, Device>,
    commands: seq<Command>,
    delivered: seq<nat>,
    queue: map<nat, Udid>,
    pushes: map<nat, Push>)

  // ----- Check-in -----

  function Authenticate(s: Server, udid: Udid, topic: string): Server {
    if udid !in s.devices then s
    else s.(devices := s.devices[udid := s.devices[udid].(status := Authenticating, pushTopic := Some(topic))])
  }

  function TokenUpdate(s: Server, udid: Udid, token: string, magic: string, topic: string, tenantFound: bool): Server {
    if udid in s.devices then
      var d := s.devices[udid];
      var since := if d.enrolledAt.Some? then d.enrolledAt else Some(s.now);
      s.(devices := s.devices[udid := Device(d.platform, Enrolled, Some(token), Some(magic), Some(topic), since)])
    else if tenantFound then
      s.(devices := s.devices[udid := Device(MacOS, Enrolled, Some(token), Some(magic), Some(topic), Some(s.now))])
    else s
  }

  function CheckOut(s: Server, udid: Udid): Server {
    if udid !in s.devices then s
    else
      var d := s.devices[udid];
      s.(devices := s.devices[udid :=
        d.(status := if d.status == Wiped then Spare else Unenrolled, pushToken := None, pushMagic := None)])
  }

  // ----- Connect -----

  function Find(commands: seq<Command>, uuid: string): Option<nat> {
    if commands == [] then None
    else
      var n := |commands| - 1;
      var front := Find(commands[..n], uuid);
      if front.Some? then front else if commands[n].uuid == uuid then Some(n) else None
  }

  function Verdict(reply: Reply): CommandStatus {
    match reply
    case Acknowledged => Completed
    case DeviceBusy => NotNow
    case _ => Failed
  }

  function MarkResult(commands: seq<Command>, uuid: string, reply: Reply, now: int): seq<Command> {
    seq(|commands|, i requires 0 <= i < |commands| =>
      if commands[i].uuid == uuid then commands[i].(status := Verdict(reply), executedAt := Some(now)) else commands[i])
  }

  predicate IsErase(commands: seq<Command>, uuid: string) {
    var found := Find(commands, uuid);
    found.Some? && found.value < |commands| && commands[found.value].kind == "EraseDevice"
  }

  function Wipe(s: Server, udid: Udid): Server {
    if udid !in s.devices then s
    else s.(devices := s.devices[udid := s.devices[udid].(status := Wiped, pushToken := None, pushMagic := None)])
  }

  function ProcessResult(s: Server, udid: Udid, uuid: string, reply: Reply): Server {
    var s' := s.(commands := MarkResult(s.commands, uuid, reply, s.now));
    if reply == Acknowledged && IsErase(s.commands, uuid) then Wipe(s', udid) else s'
  }

  predicate IsQueued(commands: seq<Command>, udid: Udid, i: nat) {
    i < |commands| && commands[i].udid == udid && commands[i].status == Queued
  }

  predicate IsOldest(commands: seq<Command>, udid: Udid, i: nat) {
    && IsQueued(commands, udid, i)
    && forall j: nat | j < |commands| && IsQueued(commands, udid, j) :: commands[i].queuedAt <= commands[j].queuedAt
  }

  function OldestQueued(commands: seq<Command>, udid: Udid): (r: Option<nat>)
    ensures r.Some? ==> IsOldest(commands, udid, r.value)
    ensures r.None? ==> forall j: nat | j < |commands| :: !IsQueued(commands, udid, j)
  {
    if commands == [] then None
    else
      var n := |commands| - 1;
      var front := OldestQueued(commands[..n], udid);
      assert forall j: nat | j < n :: IsQueued(commands, udid, j) <==> IsQueued(commands[..n], udid, j);
      if !IsQueued(commands, udid, n) then front
      else if front.Some? && commands[front.value].queuedAt <= commands[n].queuedAt then front
      else Some(n)
  }

  /** The row ORDER BY queued_at LIMIT 1 returns; `tie` settles which of equally old rows that is. */
  function NextCommand(s: Server, udid: Udid, tie: nat): (r: Option<nat>)
    ensures r.Some? ==> IsOldest(s.commands, udid, r.value)
    ensures r.None? <==> udid !in s.devices || forall j: nat | j < |s.commands| :: !IsQueued(s.commands, udid, j)
  {
    if udid !in s.devices then None
    else if IsOldest(s.commands, udid, tie) then Some(tie)
    else OldestQueued(s.commands, udid)
  }

  function Deliver(s: Server, i: nat): Server
    requires i < |s.commands|
  {
    s.(commands := s.commands[i := s.commands[i].(status := Sent)], delivered := s.delivered + [i])
  }

  /** One connect request with a body: the server afterwards and the command returned. */
  function Connect(s: Server, udid: Udid, uuid: Option<string>, reply: Reply, tie: nat): (Server, Option<nat>) {
    var s1 := if uuid.Some? && uuid.value != "" && reply != Idle then ProcessResult(s, udid, uuid.value, reply) else s;
    var next := NextCommand(s1, udid, tie);
    (if next.Some? then Deliver(s1, next.value) else s1, next)
  }

  // ----- Push consumer -----

  predicate CanPush(s: Server, udid: Udid) {
    udid in s.devices &&
    var d := s.devices[udid];
    d.pushToken.GetOr("") != "" && d.pushMagic.GetOr("") != "" && d.pushTopic.GetOr("") != ""
  }

  /** First half of _process_message: read the row, give up at once without credentials. */
  function BeginPush(s: Server, task: nat, message: nat): Server {
    if message !in s.queue || task in s.pushes then s
    else if CanPush(s, s.queue[message]) then s.(pushes := s.pushes[task := Push(message, s.queue[message])])
    else s.(queue := s.queue - {message})
  }

  /** Second half: APNs has answered, possibly long after the read. */
  function EndPush(s: Server, task: nat, outcome: Outcome): Server {
    if task !in s.pushes then s
    else
      var p := s.pushes[task];
      var s1 := s.(pushes := s.pushes - {task});
      match outcome
      case Delivered => s1.(queue := s.queue - {p.message})
      case PushFailed => s1
      case Gone =>
        var s2 := s1.(queue := s.queue - {p.message});
        if p.udid !in s.devices then s2
        else s2.(devices := s.devices[p.udid := s.devices[p.udid].(pushToken := None, status := TokenExpired)])
  }

  // ----- The handlers as they update the rows -----

  class MdmServer {
    var now: int
    var devices: map<Udid, Device>
    var commands: seq<Command>
    var delivered: seq<nat>
    var queue: map<nat, Udid>
    var pushes: map<nat, Push>

    ghost function View(): Server
      reads this
    {
      Server(now, devices, commands, delivered, queue, pushes)
    }

    method HandleAuthenticate(udid: Udid, topic: string)
      modifies this`devices
      ensures View() == Authenticate(old(View()), udid, topic)
    {
      if udid in devices {
        devices := devices[udid := devices[udid].(status := Authenticating, pushTopic := Some(topic))];
      }
    }

    method HandleTokenUpdate(udid: Udid, token: string, magic: string, topic: string, tenantFound: bool)
      modifies this`devices
      ensures View() == TokenUpdate(old(View()), udid, token, magic, topic, tenantFound)
    {
      if udid !in devices {
        if tenantFound {
          devices := devices[udid := Device(MacOS, Enrolled, Some(token), Some(magic), Some(topic), Some(now))];
        }
        return;
      }
      var d := devices[udid];
      d := d.(pushToken := Some(token), pushMagic := Some(magic), pushTopic := Some(topic), status := Enrolled);
      if d.enrolledAt.None? {
        d := d.(enrolledAt := Some(now));
      }
      devices := devices[udid := d];
    }

    method HandleCheckout(udid: Udid)
      modifies this`devices
      ensures View() == CheckOut(old(View()), udid)
    {
      if udid in devices {
        var d := devices[udid];
        var newStatus := if d.status == Wiped then Spare else Unenrolled;
        devices := devices[udid := d.(status := newStatus, pushToken := None, pushMagic := None)];
      }
    }

    method ProcessCommandResult(udid: Udid, uuid: string, reply: Reply)
      modifies this`commands, this`devices
      ensures View() == ProcessResult(old(View()), udid, uuid, reply)
    {
      var erase := IsErase(commands, uuid);
      commands := MarkResult(commands, uuid, reply, now);
      if reply == Acknowledged && erase && udid in devices {
        devices := devices[udid := devices[udid].(status := Wiped, pushToken := None, pushMagic := None)];
      }
    }

    /** The connect route for a decoded body. */
    method HandleConnect(udid: Udid, uuid: Option<string>, reply: Reply, tie: nat) returns (next: Option<nat>)
      modifies this`commands, this`devices, this`delivered
      ensures (View(), next) == Connect(old(View()), udid, uuid, reply, tie)
    {
      if uuid.Some? && uuid.value != "" && reply != Idle {
        ProcessCommandResult(udid, uuid.value, reply);
      }
      if udid !in devices {
        return None;
      }
      next := if IsOldest(commands, udid, tie) then Some(tie) else OldestQueued(commands, udid);
      if next.Some? {
        commands := commands[next.value := commands[next.value].(status := Sent)];
        delivered := delivered + [next.value];
      }
    }

    /** What the consumer does when APNs answers a push. */
    method FinishPush(task: nat, outcome: Outcome)
      modifies this`devices, this`queue, this`pushes
      ensures View() == EndPush(old(View()), task, outcome)
    {
      if task !in pushes {
        return;
      }
      var p := pushes[task];
      pushes := pushes - {task};
      if outcome == Gone && p.udid in devices {
        devices := devices[p.udid := devices[p.udid].(pushToken := None, status := TokenExpired)];
      }
      if outcome != PushFailed {
        queue := queue - {p.message};
      }
    }
  }

  // ----- Runs -----

  datatype Event =
    | Elapse(seconds: nat)
    | Import(udid: Udid, platform: Platform)
    | EnrollWindows(udid: Udid)
    | Enqueue(uuid: string, udid: Udid, kind: string)
    | Publish(message: nat, udid: Udid)
    | AuthenticateMsg(udid: Udid, topic: string)
    | TokenUpdateMsg(udid: Udid, token: string, magic: string, topic: string, tenantFound: bool)
    | CheckOutMsg(udid: Udid)
    | ConnectMsg(udid: Udid, answering: Option<string>, reply: Reply, tie: nat)
    | ReadRow(task: nat, message: nat)
    | Answer(task: nat, outcome: Outcome)

  function Step(s: Server, e: Event): Server {
    match e
    case Elapse(d) => s.(now := s.now + d)
    case Import(u, p) =>
      if u in s.devices then s else s.(devices := s.devices[u := Device(p, Staged, None, None, None, None)])
    case EnrollWindows(u) =>
      if u in s.devices then s
      else s.(devices := s.devices[u := Device(Windows, Enrolled, None, None, None, Some(s.now))])
    case Enqueue(uuid, u, kind) =>   // command_uuid is unique
      if u in s.devices && Find(s.commands, uuid).None?
      then s.(commands := s.commands + [Command(uuid, u, kind, s.now, Queued, None)]) else s
    case Publish(m, u) => if m in s.queue then s else s.(queue := s.queue[m := u])
    case AuthenticateMsg(u, topic) => Authenticate(s, u, topic)
    case TokenUpdateMsg(u, token, magic, topic, found) => TokenUpdate(s, u, token, magic, topic, found)
    case CheckOutMsg(u) => CheckOut(s, u)
    case ConnectMsg(u, uuid, reply, tie) => Connect(s, u, uuid, reply, tie).0
    case ReadRow(task, m) => BeginPush(s, task, m)
    case Answer(task, outcome) => EndPush(s, task, outcome)
  }

  function Run(s: Server, events: seq<Event>): Server {
    if events == [] then s else Step(Run(s, events[..|events| - 1]), events[|events| - 1])
  }

  const Empty := Server(0, map[], [], [], map[], map[])

  // ----- Tokens and enrolment date -----

  predicate TokensFit(d: Device) {
    && (d.status in {Unenrolled, Spare, Wiped, TokenExpired} ==> d.pushToken.None?)
    && (d.platform == MacOS && d.status == Enrolled ==> d.pushToken.Some?)
    && (d.status in {Unenrolled, Spare, Wiped} ==> d.pushMagic.None?)
    && (d.status == Enrolled ==> d.enrolledAt.Some?)
  }

  ghost predicate AllTokensFit(s: Server) {
    forall u :: u in s.devices ==> TokensFit(s.devices[u])
  }

  /** A connect changes device rows only by an acknowledged erase. */
  lemma ConnectOnDevices(s: Server, u: Udid, uuid: Option<string>, reply: Reply, tie: nat)
    ensures var erased := uuid.Some? && uuid.value != "" && reply == Acknowledged && IsErase(s.commands, uuid.value);
      Connect(s, u, uuid, reply, tie).0.devices == if erased then Wipe(s, u).devices else s.devices
  {
  }

  /** Any device row after one step: present rows stay, and a set enrolment date stays as it is. */
  lemma StepOnDevice(s: Server, e: Event, u: Udid)
    requires u in s.devices
    ensures u in Step(s, e).devices
    ensures TokensFit(s.devices[u]) ==> TokensFit(Step(s, e).devices[u])
    ensures Step(s, e).devices[u].platform == s.devices[u].platform
    ensures s.devices[u].enrolledAt.Some? ==> Step(s, e).devices[u].enrolledAt == s.devices[u].enrolledAt
  {
    if e.ConnectMsg? {
      ConnectOnDevices(s, e.udid, e.answering, e.reply, e.tie);
    }
  }

  lemma StepOnNewDevice(s: Server, e: Event, u: Udid)
    requires u !in s.devices && u in Step(s, e).devices
    ensures TokensFit(Step(s, e).devices[u])
  {
  }

  /**
   * In every reachable state, stale 410s included: unenrolled, spare, wiped and token_expired rows
   * hold no push token, an enrolled macOS row holds one, unenrolled, spare and wiped rows no magic.
   */
  lemma {:induction false} TokensFitInEveryRun(s: Server, events: seq<Event>)
    requires AllTokensFit(s)
    ensures AllTokensFit(Run(s, events))
  {
    if events != [] {
      var before, e := Run(s, events[..|events| - 1]), events[|events| - 1];
      TokensFitInEveryRun(s, events[..|events| - 1]);
      forall u | u in Step(before, e).devices ensures TokensFit(Step(before, e).devices[u]) {
        if u in before.devices {
          StepOnDevice(before, e, u);
        } else {
          StepOnNewDevice(before, e, u);
        }
      }
    }
  }

  /** enrolled_at never changes once set. */
  lemma {:induction false} EnrolledAtIsFinal(s: Server, events: seq<Event>, u: Udid)
    requires u in s.devices && s.devices[u].enrolledAt.Some?
    ensures u in Run(s, events).devices && Run(s, events).devices[u].enrolledAt == s.devices[u].enrolledAt
  {
    if events != [] {
      EnrolledAtIsFinal(s, events[..|events| - 1], u);
      StepOnDevice(Run(s, events[..|events| - 1]), events[|events| - 1], u);
    }
  }

  /** The device's row holds a push token, a push magic and a topic, none of them empty. */
  predicate HasCredentials(s: Server, u: Udid) {
    u in s.devices &&
    match s.devices[u]
    case Device(_, _, Some(token), Some(magic), Some(topic), _) => token != "" && magic != "" && topic != ""
    case _ => false
  }

  /** The event takes the message out of the queue. */
  ghost predicate Deletes(s: Server, e: Event, m: nat) {
    m in s.queue &&
    match e
    case ReadRow(task, message) => message == m && task !in s.pushes && !HasCredentials(s, s.queue[m])
    case Answer(task, outcome) => task in s.pushes && s.pushes[task].message == m && outcome != PushFailed
    case _ => false
  }

  lemma MessageDeletedIff(s: Server, e: Event, m: nat)
    requires m in s.queue
    ensures m !in Step(s, e).queue <==> Deletes(s, e, m)
  {
  }

  /** The run holds a moment at which the message was handled to the end. */
  ghost predicate HandledIn(s: Server, events: seq<Event>, m: nat) {
    exists k :: 0 <= k < |events| && Deletes(Run(s, events[..k]), events[k], m)
  }

  /**
   * No wake-up is lost: over any run a message stays in the queue, failed pushes and crashes
   * included, unless its device lacked credentials, its push was delivered or APNs answered 410.
   */
  lemma {:induction false} MessageStaysUnlessHandled(s: Server, events: seq<Event>, m: nat)
    requires m in s.queue && forall e :: e in events && e.Publish? ==> e.message != m
    ensures m in Run(s, events).queue <==> !HandledIn(s, events, m)
  {
    if events != [] {
      var n := |events| - 1;
      var front, e := events[..n], events[n];
      assert events == front + [e] && forall x :: x in front ==> x in events;
      MessageStaysUnlessHandled(s, front, m);
      HandledSnoc(s, front, e, m);
      var before := Run(s, front);
      if m in before.queue {
        MessageDeletedIff(before, e, m);
      } else {
        GoneStaysGone(before, e, m);
      }
    }
  }

  lemma GoneStaysGone(s: Server, e: Event, m: nat)
    requires m !in s.queue && (e.Publish? ==> e.message != m)
    ensures m !in Step(s, e).queue
  {
  }

  lemma HandledSnoc(s: Server, front: seq<Event>, e: Event, m: nat)
    ensures HandledIn(s, front + [e], m) <==> HandledIn(s, front, m) || Deletes(Run(s, front), e, m)
  {
    var all := front + [e];
    assert all[..|front|] == front && all[|front|] == e;
    if k :| 0 <= k < |front| && Deletes(Run(s, front[..k]), front[k], m) {
      assert all[..k] == front[..k] && Deletes(Run(s, all[..k]), all[k], m);
    }
    if k :| 0 <= k < |all| && Deletes(Run(s, all[..k]), all[k], m) {
      if k < |front| {
        assert all[..k] == front[..k] && Deletes(Run(s, front[..k]), front[k], m);
      }
    }
  }

  // ----- When a device is spare -----

  /** What an event does to one device row's status. */
  datatype Effect = Silent | Authenticates | Updates | Leaves | Erased | Expires

  /** Some command with this uuid is an EraseDevice. */
  ghost predicate IsEraseCommand(s: Server, uuid: string) {
    exists i :: 0 <= i < |s.commands| && s.commands[i].uuid == uuid && s.commands[i].kind == "EraseDevice"
  }

  ghost predicate DistinctUuids(commands: seq<Command>) {
    forall i, j :: 0 <= i < j < |commands| ==> commands[i].uuid != commands[j].uuid
  }

  lemma {:induction false} FindIsTheOne(commands: seq<Command>, uuid: string)
    ensures match Find(commands, uuid)
      case None => forall i :: 0 <= i < |commands| ==> commands[i].uuid != uuid
      case Some(n) => n < |commands| && commands[n].uuid == uuid
  {
    if commands != [] {
      FindIsTheOne(commands[..|commands| - 1], uuid);
    }
  }

  lemma IsEraseIff(s: Server, uuid: string)
    requires DistinctUuids(s.commands)
    ensures IsErase(s.commands, uuid) <==> IsEraseCommand(s, uuid)
  {
    FindIsTheOne(s.commands, uuid);
    if i :| 0 <= i < |s.commands| && s.commands[i].uuid == uuid && s.commands[i].kind == "EraseDevice" {
      assert Find(s.commands, uuid) == Some(i);
    }
  }

  lemma StepKeepsDistinct(s: Server, e: Event)
    requires DistinctUuids(s.commands)
    ensures DistinctUuids(Step(s, e).commands)
  {
    StepGrows(s, e);
    if e.Enqueue? {
      FindIsTheOne(s.commands, e.uuid);
    } else {
      StepKeepsCount(s, e);
    }
  }

  lemma StepKeepsCount(s: Server, e: Event)
    requires !e.Enqueue?
    ensures |Step(s, e).commands| == |s.commands|
  {
  }

  lemma {:induction false} UuidsStayDistinct(events: seq<Event>)
    ensures DistinctUuids(Run(Empty, events).commands)
  {
    if events != [] {
      UuidsStayDistinct(events[..|events| - 1]);
      StepKeepsDistinct(Run(Empty, events[..|events| - 1]), events[|events| - 1]);
    }
  }

  ghost function EffectOn(s: Server, e: Event, u: Udid): Effect {
    match e
    case AuthenticateMsg(v, _) => if v == u && u in s.devices then Authenticates else Silent
    case TokenUpdateMsg(v, _, _, _, found) => if v == u && (u in s.devices || found) then Updates else Silent
    case CheckOutMsg(v) => if v == u && u in s.devices then Leaves else Silent
    case ConnectMsg(v, uuid, reply, _) =>
      if v != u || u !in s.devices || reply != Acknowledged then Silent
      else if uuid.Some? && uuid.value != "" && IsEraseCommand(s, uuid.value) then Erased
      else Silent
    case Answer(task, outcome) =>
      if task in s.pushes && s.pushes[task].udid == u && outcome == Gone && u in s.devices then Expires else Silent
    case _ => Silent
  }

  ghost function Effects(s: Server, events: seq<Event>, u: Udid): seq<Effect> {
    if events == [] then []
    else
      var front := events[..|events| - 1];
      Effects(s, front, u) + [EffectOn(Run(s, front), events[|events| - 1], u)]
  }

  function StatusAfter(status: DeviceStatus, fx: Effect): DeviceStatus {
    match fx
    case Silent => status
    case Authenticates => Authenticating
    case Updates => Enrolled
    case Leaves => if status == Wiped then Spare else Unenrolled
    case Erased => Wiped
    case Expires => TokenExpired
  }

  lemma StepStatus(s: Server, e: Event, u: Udid)
    requires u in s.devices && DistinctUuids(s.commands)
    ensures u in Step(s, e).devices
    ensures Step(s, e).devices[u].status == StatusAfter(s.devices[u].status, EffectOn(s, e, u))
  {
    if e.ConnectMsg? {
      ConnectOnDevices(s, e.udid, e.answering, e.reply, e.tie);
      if e.answering.Some? {
        IsEraseIff(s, e.answering.value);
      }
    }
  }

  ghost predicate SilentFrom(fx: seq<Effect>, lo: nat) {
    forall k :: lo <= k < |fx| ==> fx[k] == Silent
  }

  /** The last thing that happened was an acknowledged erase. */
  ghost predicate EndsErased(fx: seq<Effect>) {
    exists i :: 0 <= i < |fx| && fx[i] == Erased && SilentFrom(fx, i + 1)
  }

  /** An acknowledged erase, then exactly one CheckOut, with nothing else between or since. */
  ghost predicate EndsErasedThenLeft(fx: seq<Effect>) {
    exists j :: 0 <= j < |fx| && fx[j] == Leaves && SilentFrom(fx, j + 1) && EndsErased(fx[..j])
  }

  lemma EndsErasedSnoc(fx: seq<Effect>, e: Effect)
    ensures EndsErased(fx + [e]) <==> e == Erased || (e == Silent && EndsErased(fx))
  {
    var all := fx + [e];
    if e == Erased {
      assert all[|fx|] == Erased && SilentFrom(all, |fx| + 1);
    }
    if e == Silent && EndsErased(fx) {
      var i :| 0 <= i < |fx| && fx[i] == Erased && SilentFrom(fx, i + 1);
      assert all[i] == Erased && SilentFrom(all, i + 1);
    }
    if EndsErased(all) {
      var i :| 0 <= i < |all| && all[i] == Erased && SilentFrom(all, i + 1);
      if i < |fx| {
        assert all[|fx|] == Silent && fx[i] == Erased;
        assert SilentFrom(fx, i + 1) by {
          assert forall k :: i + 1 <= k < |fx| ==> fx[k] == all[k];
        }
      }
    }
  }

  lemma StillErasedThenLeft(fx: seq<Effect>, e: Effect)
    requires (e == Leaves && EndsErased(fx)) || (e == Silent && EndsErasedThenLeft(fx))
    ensures EndsErasedThenLeft(fx + [e])
  {
    var all := fx + [e];
    if e == Leaves {
      assert all[..|fx|] == fx && all[|fx|] == Leaves && SilentFrom(all, |fx| + 1);
    } else {
      var j :| 0 <= j < |fx| && fx[j] == Leaves && SilentFrom(fx, j + 1) && EndsErased(fx[..j]);
      assert all[..j] == fx[..j] && all[j] == Leaves && SilentFrom(all, j + 1);
    }
  }

  lemma WasErasedThenLeft(fx: seq<Effect>, e: Effect)
    requires EndsErasedThenLeft(fx + [e])
    ensures (e == Leaves && EndsErased(fx)) || (e == Silent && EndsErasedThenLeft(fx))
  {
    var all := fx + [e];
    var j :| 0 <= j < |all| && all[j] == Leaves && SilentFrom(all, j + 1) && EndsErased(all[..j]);
    assert all[..j] == fx[..j];
    if j < |fx| {
      assert all[|fx|] == Silent && fx[j] == Leaves;
      assert SilentFrom(fx, j + 1) by {
        assert forall k :: j + 1 <= k < |fx| ==> fx[k] == all[k];
      }
    } else {
      assert fx[..j] == fx;
    }
  }

  lemma EndsErasedThenLeftSnoc(fx: seq<Effect>, e: Effect)
    ensures EndsErasedThenLeft(fx + [e])
       <==> (e == Leaves && EndsErased(fx)) || (e == Silent && EndsErasedThenLeft(fx))
  {
    if (e == Leaves && EndsErased(fx)) || (e == Silent && EndsErasedThenLeft(fx)) {
      StillErasedThenLeft(fx, e);
    }
    if EndsErasedThenLeft(fx + [e]) {
      WasErasedThenLeft(fx, e);
    }
  }

  /**
   * In every run from the empty server a device is wiped exactly when an acknowledged erase is the
   * last thing that happened to it, and spare exactly when that was followed by exactly one
   * CheckOut, with no Authenticate, TokenUpdate or applied 410 between the two or since.
   */
  lemma {:induction false} SpareIffErasedThenLeft(events: seq<Event>, u: Udid)
    ensures var s := Run(Empty, events); var fx := Effects(Empty, events, u);
      && (u in s.devices && s.devices[u].status == Wiped <==> EndsErased(fx))
      && (u in s.devices && s.devices[u].status == Spare <==> EndsErasedThenLeft(fx))
  {
    if events != [] {
      var front, e := events[..|events| - 1], events[|events| - 1];
      SpareIffErasedThenLeft(front, u);
      UuidsStayDistinct(front);
      var s, fx := Run(Empty, front), Effects(Empty, front, u);
      EndsErasedSnoc(fx, EffectOn(s, e, u));
      EndsErasedThenLeftSnoc(fx, EffectOn(s, e, u));
      if u in s.devices {
        StepStatus(s, e, u);
      } else {
        NewRowStatus(s, e, u);
      }
    }
  }

  lemma NewRowStatus(s: Server, e: Event, u: Udid)
    requires u !in s.devices
    ensures EffectOn(s, e, u) in {Silent, Updates}
    ensures EffectOn(s, e, u) == Updates ==> u in Step(s, e).devices
    ensures u in Step(s, e).devices ==> Step(s, e).devices[u].status in {Staged, Enrolled}
  {
  }

  // ----- Command delivery -----

  ghost predicate DeliveryInv(s: Server) {
    && (forall i :: 0 <= i < |s.commands| ==> s.commands[i].queuedAt <= s.now)
    && (forall a :: 0 <= a < |s.delivered| ==>
          s.delivered[a] < |s.commands| && s.commands[s.delivered[a]].status != Queued)
    && (forall a, b :: 0 <= a < b < |s.delivered| ==> InOrder(s, s.delivered[a], s.delivered[b]))
    && (forall a, j :: 0 <= a < |s.delivered| && 0 <= j < |s.commands| && s.commands[j].status == Queued ==>
          InOrder(s, s.delivered[a], j))
  }

  /** Two different commands, and if for one device then i no younger than j. */
  ghost predicate InOrder(s: Server, i: nat, j: nat) {
    && i != j && i < |s.commands| && j < |s.commands|
    && (s.commands[i].udid == s.commands[j].udid ==> s.commands[i].queuedAt <= s.commands[j].queuedAt)
  }

  /** Rows are only appended; device and age never change and no row goes back to queued. */
  ghost predicate Grows(s: Server, s': Server) {
    && |s.commands| <= |s'.commands|
    && forall i :: 0 <= i < |s.commands| ==>
         && s'.commands[i].udid == s.commands[i].udid && s'.commands[i].queuedAt == s.commands[i].queuedAt
         && s'.commands[i].uuid == s.commands[i].uuid && s'.commands[i].kind == s.commands[i].kind
         && (s.commands[i].status != Queued ==> s'.commands[i].status != Queued)
  }

  lemma ResultGrows(s: Server, udid: Udid, uuid: string, reply: Reply)
    ensures Grows(s, ProcessResult(s, udid, uuid, reply))
  {
  }

  lemma StepGrows(s: Server, e: Event)
    ensures Grows(s, Step(s, e))
  {
    if e.ConnectMsg? {
      if e.answering.Some? {
        ResultGrows(s, e.udid, e.answering.value, e.reply);
      }
    } else if !e.Enqueue? {
      assert Step(s, e).commands == s.commands;
    }
  }

  /** No command ever returns to queued, in any run. */
  lemma {:induction false} NeverRequeued(s: Server, events: seq<Event>)
    ensures Grows(s, Run(s, events))
  {
    if events != [] {
      NeverRequeued(s, events[..|events| - 1]);
      StepGrows(Run(s, events[..|events| - 1]), events[|events| - 1]);
    }
  }

  lemma SameRowsKeepDelivery(s: Server, s': Server)
    requires DeliveryInv(s) && Grows(s, s') && |s'.commands| == |s.commands|
    requires s'.delivered == s.delivered && s'.now >= s.now
    ensures DeliveryInv(s')
  {
    assert forall i, j {:trigger InOrder(s', i, j)} :: InOrder(s, i, j) ==> InOrder(s', i, j);
  }

  lemma ProcessKeepsDelivery(s: Server, udid: Udid, uuid: string, reply: Reply)
    requires DeliveryInv(s)
    ensures DeliveryInv(ProcessResult(s, udid, uuid, reply))
  {
    ResultGrows(s, udid, uuid, reply);
    SameRowsKeepDelivery(s, ProcessResult(s, udid, uuid, reply));
  }

  lemma DeliverKeepsDelivery(s: Server, udid: Udid, i: nat)
    requires DeliveryInv(s) && IsOldest(s.commands, udid, i)
    ensures DeliveryInv(Deliver(s, i))
  {
    var s' := Deliver(s, i);
    assert forall k, j {:trigger InOrder(s', k, j)} :: InOrder(s, k, j) ==> InOrder(s', k, j);
    forall j: nat | j < |s'.commands| && s'.commands[j].status == Queued ensures InOrder(s', i, j) {
      assert s.commands[j].udid == udid ==> IsQueued(s.commands, udid, j);
    }
  }

  lemma ConnectKeepsDelivery(s: Server, u: Udid, uuid: Option<string>, reply: Reply, tie: nat)
    requires DeliveryInv(s)
    ensures DeliveryInv(Connect(s, u, uuid, reply, tie).0)
  {
    var answered := uuid.Some? && uuid.value != "" && reply != Idle;
    var s1 := if answered then ProcessResult(s, u, uuid.value, reply) else s;
    if answered {
      ProcessKeepsDelivery(s, u, uuid.value, reply);
    }
    var next := NextCommand(s1, u, tie);
    if next.Some? {
      DeliverKeepsDelivery(s1, u, next.value);
    }
  }

  lemma AppendKeepsDelivery(s: Server, c: Command)
    requires DeliveryInv(s) && c.queuedAt == s.now
    ensures DeliveryInv(s.(commands := s.commands + [c]))
  {
    var s' := s.(commands := s.commands + [c]);
    assert forall i, j {:trigger InOrder(s', i, j)} :: InOrder(s, i, j) ==> InOrder(s', i, j);
  }

  lemma StepKeepsDelivery(s: Server, e: Event)
    requires DeliveryInv(s)
    ensures DeliveryInv(Step(s, e))
  {
    if e.ConnectMsg? {
      ConnectKeepsDelivery(s, e.udid, e.answering, e.reply, e.tie);
    } else if e.Enqueue? && e.udid in s.devices && Find(s.commands, e.uuid).None? {
      AppendKeepsDelivery(s, Command(e.uuid, e.udid, e.kind, s.now, Queued, None));
    } else {
      StepGrows(s, e);
      SameRowsKeepDelivery(s, Step(s, e));
    }
  }

  /**
   * In every run each command is delivered at most once and each device's deliveries are sorted
   * by queued_at, however results, enqueues and connects of other devices come in between.
   */
  lemma {:induction false} DeliveredOnceInOrder(events: seq<Event>)
    ensures var s := Run(Empty, events);
      && DeliveryInv(s)
      && (forall a, b :: 0 <= a < b < |s.delivered| ==> s.delivered[a] != s.delivered[b])
      && (forall a, b :: 0 <= a < b < |s.delivered| ==>
            && s.delivered[a] < |s.commands| && s.delivered[b] < |s.commands|
            && (s.commands[s.delivered[a]].udid == s.commands[s.delivered[b]].udid ==>
                  s.commands[s.delivered[a]].queuedAt <= s.commands[s.delivered[b]].queuedAt))
  {
    if events != [] {
      DeliveredOnceInOrder(events[..|events| - 1]);
      StepKeepsDelivery(Run(Empty, events[..|events| - 1]), events[|events| - 1]);
    }
    var s := Run(Empty, events);
    assert forall a, b :: 0 <= a < b < |s.delivered| ==> InOrder(s, s.delivered[a], s.delivered[b]);
  }

  lemma ConnectDelivers(s: Server, u: Udid, uuid: Option<string>, reply: Reply, tie: nat)
    ensures var (s', next) := Connect(s, u, uuid, reply, tie);
      && (next.None? ==> s'.delivered == s.delivered)
      && (next.Some? ==>
            && s'.delivered == s.delivered + [next.value]
            && next.value < |s.commands| && s.commands[next.value].status == Queued)
  {
  }

  /** Only commands that are queued are delivered. */
  lemma StepDelivers(s: Server, e: Event)
    ensures s.delivered <= Step(s, e).delivered
    ensures forall a :: |s.delivered| <= a < |Step(s, e).delivered| ==>
      Step(s, e).delivered[a] < |s.commands| && s.commands[Step(s, e).delivered[a]].status == Queued
  {
    if e.ConnectMsg? {
      ConnectDelivers(s, e.udid, e.answering, e.reply, e.tie);
    } else {
      assert Step(s, e).delivered == s.delivered;
    }
  }

  /**
   * Once sent or answered a command is never delivered again. That holds for a "NotNow" answer
   * too: nothing puts a postponed command back in line.
   */
  lemma {:induction false} NeverRedelivered(s: Server, events: seq<Event>, i: nat)
    requires i < |s.commands| && s.commands[i].status != Queued
    ensures var s' := Run(s, events);
      s.delivered <= s'.delivered && i !in s'.delivered[|s.delivered|..]
  {
    if events != [] {
      var front, e := events[..|events| - 1], events[|events| - 1];
      var before := Run(s, front);
      NeverRedelivered(s, front, i);
      NeverRequeued(s, front);
      StepDelivers(before, e);
      var after := Step(before, e).delivered;
      forall a | |s.delivered| <= a < |after| ensures after[a] != i {
        if a < |before.delivered| {
          assert after[a] == before.delivered[|s.delivered|..][a - |s.delivered|];
        }
      }
    }
  }

  // ----- Draining by idle connects -----

  ghost function QueuedFor(s: Server, u: Udid): set<nat> {
    set i: nat | i < |s.commands| && IsQueued(s.commands, u, i)
  }

  ghost function SetOf(xs: seq<nat>): set<nat> {
    set x | x in xs
  }

  function IdleConnects(s: Server, u: Udid, ties: seq<nat>): Server {
    if ties == [] then s
    else Connect(IdleConnects(s, u, ties[..|ties| - 1]), u, None, Idle, ties[|ties| - 1]).0
  }

  lemma IdleConnectTakesOne(s: Server, u: Udid, tie: nat)
    requires u in s.devices
    ensures var (s', next) := Connect(s, u, None, Idle, tie);
      && s'.devices == s.devices
      && (next.None? <==> QueuedFor(s, u) == {})
      && (next.None? ==> s' == s)
      && (next.Some? ==>
            && next.value in QueuedFor(s, u) && s'.delivered == s.delivered + [next.value]
            && QueuedFor(s', u) == QueuedFor(s, u) - {next.value})
  {
    var (s', next) := Connect(s, u, None, Idle, tie);
    if next.None? {
      assert QueuedFor(s, u) == {};
    } else {
      assert next.value in QueuedFor(s, u);
      assert QueuedFor(s', u) == QueuedFor(s, u) - {next.value};
    }
  }

  /** `s'` is `s` after the commands `sent` went out to `u`, all queued for it, none twice. */
  ghost predicate SentTo(s: Server, s': Server, u: Udid, sent: seq<nat>) {
    && s'.devices == s.devices && s'.delivered == s.delivered + sent
    && SetOf(sent) <= QueuedFor(s, u) && |SetOf(sent)| == |sent|
    && QueuedFor(s', u) == QueuedFor(s, u) - SetOf(sent)
  }

  lemma SentToExtends(s: Server, s': Server, u: Udid, sent: seq<nat>, tie: nat)
    requires u in s.devices && SentTo(s, s', u, sent) && QueuedFor(s', u) != {}
    ensures var (s2, next) := Connect(s', u, None, Idle, tie); next.Some? && SentTo(s, s2, u, sent + [next.value])
  {
    IdleConnectTakesOne(s', u, tie);
    var (s2, next) := Connect(s', u, None, Idle, tie);
    assert SetOf(sent + [next.value]) == SetOf(sent) + {next.value};
    assert next.value !in SetOf(sent);
  }

  /**
   * With n commands queued for a device and no new ones, k idle connects deliver min(n, k) of
   * them, each once; n connects deliver exactly those n.
   */
  lemma {:induction false} IdleConnectsDrain(s: Server, u: Udid, ties: seq<nat>) returns (sent: seq<nat>)
    requires u in s.devices
    ensures SentTo(s, IdleConnects(s, u, ties), u, sent)
    ensures |sent| == Min(|QueuedFor(s, u)|, |ties|)
    ensures |ties| >= |QueuedFor(s, u)| <==> SetOf(sent) == QueuedFor(s, u)
  {
    sent := [];
    if ties != [] {
      var k := |ties| - 1;
      sent := IdleConnectsDrain(s, u, ties[..k]);
      var before := IdleConnects(s, u, ties[..k]);
      IdleConnectTakesOne(before, u, ties[k]);
      if QueuedFor(before, u) != {} {
        SentToExtends(s, before, u, sent, ties[k]);
        sent := sent + [Connect(before, u, None, Idle, ties[k]).1.value];
      }
    }
    SubsetSize(SetOf(sent), QueuedFor(s, u));
  }

  lemma SubsetSize(a: set<nat>, b: set<nat>)
    requires a <= b
    ensures |b - a| == |b| - |a|
    ensures a == b <==> |a| == |b|
  {
    assert b == a + (b - a);
  }

  lemma NothingQueuedIff(s: Server, u: Udid, ties: seq<nat>)
    requires u in s.devices
    ensures var s' := IdleConnects(s, u, ties);
      u in s'.devices && (QueuedFor(s', u) == {} <==> |ties| >= |QueuedFor(s, u)|)
  {
    var sent := IdleConnectsDrain(s, u, ties);
    var all := QueuedFor(s, u);
    SubsetSize(SetOf(sent), all);
    assert all - SetOf(sent) == {} <==> |all - SetOf(sent)| == 0;
  }

  /** The connect after those returns the empty plist, and not before. */
  lemma EmptyPlistIffDrained(s: Server, s': Server, u: Udid, ties: seq<nat>, tie: nat)
    requires u in s.devices && s' == IdleConnects(s, u, ties)
    ensures Connect(s', u, None, Idle, tie).1.None? <==> |ties| >= |QueuedFor(s, u)|
  {
    NothingQueuedIff(s, u, ties);
    IdleConnectTakesOne(s', u, tie);
  }
}
