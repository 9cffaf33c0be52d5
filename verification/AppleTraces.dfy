/** What device rows, command rows and pushes say about the messages that led to them, over every run. */
module AppleTraces {
  import opened Prelude
  import opened AppleMdm

  // ----- Device rows -----

  /** A TokenUpdate that finds or makes the device's row. */
  predicate Reaches(s: Server, e: Event, u: Udid) {
    e.TokenUpdateMsg? && e.udid == u && (u in s.devices || e.tenantFound)
  }

  /** The token of the last TokenUpdate, unless a CheckOut, an acknowledged erase or a 410 came after it. */
  ghost function TokenNow(events: seq<Event>, u: Udid): Option<string> {
    if events == [] then None
    else
      var front, e := events[..|events| - 1], events[|events| - 1];
      var s := Run(Empty, front);
      if Reaches(s, e, u) then Some(e.token)
      else if EffectOn(s, e, u) in {Leaves, Erased, Expires} then None
      else TokenNow(front, u)
  }

  /** The magic of the last TokenUpdate, unless a CheckOut or an acknowledged erase came after it. */
  ghost function MagicNow(events: seq<Event>, u: Udid): Option<string> {
    if events == [] then None
    else
      var front, e := events[..|events| - 1], events[|events| - 1];
      var s := Run(Empty, front);
      if Reaches(s, e, u) then Some(e.magic)
      else if EffectOn(s, e, u) in {Leaves, Erased} then None
      else MagicNow(front, u)
  }

  /** The topic of the last TokenUpdate or Authenticate. */
  function TopicNow(events: seq<Event>, u: Udid): Option<string> {
    if events == [] then None
    else
      var front, e := events[..|events| - 1], events[|events| - 1];
      var s := Run(Empty, front);
      match e
      case TokenUpdateMsg(_, _, _, topic, _) => if Reaches(s, e, u) then Some(topic) else TopicNow(front, u)
      case AuthenticateMsg(v, topic) => if v == u && u in s.devices then Some(topic) else TopicNow(front, u)
      case _ => TopicNow(front, u)
  }

  /** When the device was enrolled for the first time. */
  function EnrolledFirst(events: seq<Event>, u: Udid): Option<int> {
    if events == [] then None
    else
      var front, e := events[..|events| - 1], events[|events| - 1];
      var s, before := Run(Empty, front), EnrolledFirst(front, u);
      if before.Some? then before
      else if Reaches(s, e, u) || (e == EnrollWindows(u) && u !in s.devices) then Some(s.now)
      else None
  }

  /** How the row came about. */
  function MadeAs(events: seq<Event>, u: Udid): Option<Platform> {
    if events == [] then None
    else
      var front, e := events[..|events| - 1], events[|events| - 1];
      var before := MadeAs(front, u);
      if before.Some? then before
      else
        match e
        case Import(v, p) => if v == u then Some(p) else None
        case EnrollWindows(v) => if v == u then Some(Windows) else None
        case TokenUpdateMsg(v, _, _, _, found) => if v == u && found then Some(MacOS) else None
        case _ => None
  }

  /** A row, or none, against what the events say it holds. */
  predicate Holds(
      devices: map<Udid, Device>, u: Udid, token: Option<string>, magic: Option<string>, topic: Option<string>,
      since: Option<int>, made: Option<Platform>)
  {
    if u in devices then
      && devices[u].pushToken == token && devices[u].pushMagic == magic && devices[u].pushTopic == topic
      && devices[u].enrolledAt == since && Some(devices[u].platform) == made
    else token == None && magic == None && topic == None && since == None && made == None
  }

  ghost predicate Told(events: seq<Event>, u: Udid, devices: map<Udid, Device>)
  {
    Holds(devices, u, TokenNow(events, u), MagicNow(events, u), TopicNow(events, u),
      EnrolledFirst(events, u), MadeAs(events, u))
  }

  lemma ConnectIsTold(front: seq<Event>, e: Event, u: Udid)
    requires Told(front, u, Run(Empty, front).devices) && e.ConnectMsg?
    ensures Told(front + [e], u, Step(Run(Empty, front), e).devices)
  {
    var s := Run(Empty, front);
    assert (front + [e])[..|front|] == front;
    UuidsStayDistinct(front);
    ConnectOnDevices(s, e.udid, e.answering, e.reply, e.tie);
    if e.answering.Some? {
      IsEraseIff(s, e.answering.value);
    }
  }

  lemma TokenUpdateIsTold(front: seq<Event>, e: Event, u: Udid)
    requires Told(front, u, Run(Empty, front).devices) && e.TokenUpdateMsg?
    ensures Told(front + [e], u, Step(Run(Empty, front), e).devices)
  {
    assert (front + [e])[..|front|] == front;
  }

  lemma AuthenticateIsTold(front: seq<Event>, e: Event, u: Udid)
    requires Told(front, u, Run(Empty, front).devices) && e.AuthenticateMsg?
    ensures Told(front + [e], u, Step(Run(Empty, front), e).devices)
  {
    assert (front + [e])[..|front|] == front;
  }

  lemma CheckOutIsTold(front: seq<Event>, e: Event, u: Udid)
    requires Told(front, u, Run(Empty, front).devices) && e.CheckOutMsg?
    ensures Told(front + [e], u, Step(Run(Empty, front), e).devices)
  {
    assert (front + [e])[..|front|] == front;
  }

  lemma AnswerIsTold(front: seq<Event>, e: Event, u: Udid)
    requires Told(front, u, Run(Empty, front).devices) && e.Answer?
    ensures Told(front + [e], u, Step(Run(Empty, front), e).devices)
  {
    assert (front + [e])[..|front|] == front;
  }

  lemma MakingIsTold(front: seq<Event>, e: Event, u: Udid)
    requires Told(front, u, Run(Empty, front).devices) && (e.Import? || e.EnrollWindows?)
    ensures Told(front + [e], u, Step(Run(Empty, front), e).devices)
  {
    assert (front + [e])[..|front|] == front;
  }

  lemma OtherIsTold(front: seq<Event>, e: Event, u: Udid)
    requires Told(front, u, Run(Empty, front).devices)
    requires e.Elapse? || e.Enqueue? || e.Publish? || e.ReadRow?
    ensures Told(front + [e], u, Step(Run(Empty, front), e).devices)
  {
    assert (front + [e])[..|front|] == front;
    assert Step(Run(Empty, front), e).devices == Run(Empty, front).devices;
  }

  /**
   * In every run a device's row exists exactly if an import, an enrolment or a TokenUpdate made it, and
   * holds the push token and magic of its last TokenUpdate until a CheckOut or an erase, or for the
   * token a 410, clears them; the topic of its last TokenUpdate or Authenticate; and the time of its
   * first enrolment.
   */
  lemma {:induction false} RowHoldsWhatWasSent(events: seq<Event>, u: Udid)
    ensures Told(events, u, Run(Empty, events).devices)
  {
    if events != [] {
      var front, e := events[..|events| - 1], events[|events| - 1];
      assert events == front + [e];
      RowHoldsWhatWasSent(front, u);
      if e.ConnectMsg? {
        ConnectIsTold(front, e, u);
      } else if e.TokenUpdateMsg? {
        TokenUpdateIsTold(front, e, u);
      } else if e.AuthenticateMsg? {
        AuthenticateIsTold(front, e, u);
      } else if e.CheckOutMsg? {
        CheckOutIsTold(front, e, u);
      } else if e.Answer? {
        AnswerIsTold(front, e, u);
      } else if e.Import? || e.EnrollWindows? {
        MakingIsTold(front, e, u);
      } else {
        OtherIsTold(front, e, u);
      }
    }
  }

  // ----- Command rows -----

  /** The last thing that happened to a command. */
  datatype Touch = Untouched | Handed | Answered(reply: Reply, at: int)

  function TouchOf(events: seq<Event>, i: nat): Touch {
    if events == [] then Untouched
    else
      var front, e := events[..|events| - 1], events[|events| - 1];
      var s := Run(Empty, front);
      if i >= |s.commands| || !e.ConnectMsg? then TouchOf(front, i)
      else if e.reply != Idle && e.answering == Some(s.commands[i].uuid) && s.commands[i].uuid != "" then
        Answered(e.reply, s.now)
      else if Run(Empty, events).delivered == s.delivered + [i] then Handed
      else TouchOf(front, i)
  }

  /** The row's status and execution time against that. */
  predicate Shows(c: Command, touch: Touch) {
    match touch
    case Untouched => c.status == Queued && c.executedAt == None
    case Handed => c.status == Sent && c.executedAt == None
    case Answered(Acknowledged, at) => c.status == Completed && c.executedAt == Some(at)
    case Answered(DeviceBusy, at) => c.status == NotNow && c.executedAt == Some(at)
    case Answered(_, at) => c.status == Failed && c.executedAt == Some(at)
  }

  lemma ResultOnCommand(s: Server, u: Udid, uuid: string, reply: Reply, i: nat)
    requires i < |s.commands|
    ensures var c := s.commands[i]; var s' := ProcessResult(s, u, uuid, reply);
      && |s'.commands| == |s.commands| && s'.delivered == s.delivered && s'.devices.Keys == s.devices.Keys
      && (c.uuid != uuid ==> s'.commands[i] == c)
      && (c.uuid == uuid ==> s'.commands[i].uuid == c.uuid && Shows(s'.commands[i], Answered(reply, s.now)))
  {
  }

  lemma ConnectOnCommand(s: Server, u: Udid, uuid: Option<string>, reply: Reply, tie: nat, i: nat, touch: Touch)
    requires i < |s.commands| && Shows(s.commands[i], touch)
    ensures var c := s.commands[i]; var (s', next) := Connect(s, u, uuid, reply, tie);
      var answered := reply != Idle && uuid == Some(c.uuid) && c.uuid != "";
      && i < |s'.commands|
      && (s'.delivered == s.delivered + [i] <==> next == Some(i))
      && Shows(s'.commands[i], if answered then Answered(reply, s.now) else if next == Some(i) then Handed else touch)
  {
    var (s', next) := Connect(s, u, uuid, reply, tie);
    var s1 := s;
    if uuid.Some? && uuid.value != "" && reply != Idle {
      ResultOnCommand(s, u, uuid.value, reply, i);
      s1 := ProcessResult(s, u, uuid.value, reply);
    }
    assert next == NextCommand(s1, u, tie);
    if next.Some? {
      assert s'.delivered == s.delivered + [next.value];
      assert s'.delivered[|s.delivered|] == next.value;
      assert IsQueued(s1.commands, u, next.value);
    } else {
      assert s'.delivered == s.delivered && |s.delivered + [i]| == |s.delivered| + 1;
    }
  }

  lemma OtherOnCommand(s: Server, e: Event, i: nat)
    requires i < |s.commands| && !e.ConnectMsg?
    ensures i < |Step(s, e).commands| && Step(s, e).commands[i] == s.commands[i]
  {
  }

  lemma {:induction false} NotThereUntouched(events: seq<Event>, i: nat)
    requires i >= |Run(Empty, events).commands|
    ensures TouchOf(events, i) == Untouched
  {
    if events != [] {
      StepGrows(Run(Empty, events[..|events| - 1]), events[|events| - 1]);
      NotThereUntouched(events[..|events| - 1], i);
    }
  }

  lemma NewRowIsQueued(s: Server, e: Event, i: nat)
    requires |s.commands| <= i < |Step(s, e).commands|
    ensures !e.ConnectMsg? && Shows(Step(s, e).commands[i], Untouched)
  {
    if !e.Enqueue? {
      StepKeepsCount(s, e);
      assert false;
    }
  }

  /**
   * In every run a command's row shows the last thing that happened to it: queued before anything,
   * sent once handed out, completed after Acknowledged, not_now after NotNow and failed after any other
   * answer, with the time of that answer.
   */
  lemma {:induction false} RowShowsLastAnswer(events: seq<Event>, i: nat)
    requires i < |Run(Empty, events).commands|
    ensures Shows(Run(Empty, events).commands[i], TouchOf(events, i))
  {
    if events != [] {
      var front, e := events[..|events| - 1], events[|events| - 1];
      var s := Run(Empty, front);
      if i >= |s.commands| {
        NewRowIsQueued(s, e, i);
        NotThereUntouched(front, i);
      } else {
        RowShowsLastAnswer(front, i);
        if e.ConnectMsg? {
          ConnectOnCommand(s, e.udid, e.answering, e.reply, e.tie, i, TouchOf(front, i));
        } else {
          OtherOnCommand(s, e, i);
        }
      }
    }
  }

  // ----- Pushes -----

  lemma StepQueues(s: Server, e: Event, m: nat)
    requires m in Step(s, e).queue
    ensures (m in s.queue && Step(s, e).queue[m] == s.queue[m]) || e == Publish(m, Step(s, e).queue[m])
  {
  }

  lemma StepPushes(s: Server, e: Event, t: nat)
    requires t in Step(s, e).pushes
    ensures var p := Step(s, e).pushes[t];
      (t in s.pushes && p == s.pushes[t]) || (p.message in s.queue && s.queue[p.message] == p.udid)
  {
  }

  lemma StillThere(events: seq<Event>, x: Event)
    requires events != []
    ensures x in events <==> x in events[..|events| - 1] || x == events[|events| - 1]
  {
    assert events == events[..|events| - 1] + [events[|events| - 1]];
  }

  /** A queued message is for the device it was published for. */
  lemma {:induction false} MessageWasPublished(events: seq<Event>, m: nat)
    requires m in Run(Empty, events).queue
    ensures Publish(m, Run(Empty, events).queue[m]) in events
  {
    var front, e := events[..|events| - 1], events[|events| - 1];
    StepQueues(Run(Empty, front), e, m);
    StillThere(events, Publish(m, Run(Empty, events).queue[m]));
    if e != Publish(m, Run(Empty, events).queue[m]) {
      MessageWasPublished(front, m);
    }
  }

  /** And so is every push under way, however late APNs answers it. */
  lemma {:induction false} PushKnowsItsDevice(events: seq<Event>, t: nat)
    requires t in Run(Empty, events).pushes
    ensures var p := Run(Empty, events).pushes[t]; Publish(p.message, p.udid) in events
  {
    var front, e := events[..|events| - 1], events[|events| - 1];
    var before, p := Run(Empty, front), Run(Empty, events).pushes[t];
    StepPushes(before, e, t);
    StillThere(events, Publish(p.message, p.udid));
    if t in before.pushes && before.pushes[t] == p {
      PushKnowsItsDevice(front, t);
    } else {
      MessageWasPublished(front, p.message);
    }
  }

  /** A push starts exactly for a queued message whose device holds all three credentials. */
  lemma PushStartsIff(s: Server, task: nat, message: nat)
    requires task !in s.pushes
    ensures task in Step(s, ReadRow(task, message)).pushes
       <==> message in s.queue && HasCredentials(s, s.queue[message])
  {
  }
}
