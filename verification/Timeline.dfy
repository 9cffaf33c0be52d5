/** The device timeline: the newest commands and the newest audit rows, merged and cut. */
module Timeline {
  import opened Prelude

  datatype Command = Command(uuid: string, kind: string, status: string, queuedAt: int, executedAt: Option<int>)
  datatype AuditRow = AuditRow(action: string, changes: string, actor: Option<string>, createdAt: int)

  datatype Event =
    | CommandEvent(timestamp: int, title: string, status: string, uuid: string)
    | AuditEvent(timestamp: int, title: string, detail: string, actor: Option<string>)

  function ShowCommand(c: Command): Event {
    CommandEvent(c.executedAt.GetOr(c.queuedAt), c.kind, c.status, c.uuid)
  }

  function ShowAudit(a: AuditRow): Event {
    AuditEvent(a.createdAt, a.action, a.changes, a.actor)
  }

  function Shown(commands: seq<Command>): seq<Event> {
    seq(|commands|, i requires 0 <= i < |commands| => ShowCommand(commands[i]))
  }

  function ShownAudit(rows: seq<AuditRow>): seq<Event> {
    seq(|rows|, i requires 0 <= i < |rows| => ShowAudit(rows[i]))
  }

  function Top<T>(xs: seq<T>, limit: nat): seq<T> {
    xs[..Min(limit, |xs|)]
  }

  // ----- list.sort(key=timestamp, reverse=True), which keeps the order of equal timestamps -----

  function Merge(a: seq<Event>, b: seq<Event>): seq<Event> {
    if a == [] then b
    else if b == [] then a
    else if a[0].timestamp >= b[0].timestamp then [a[0]] + Merge(a[1..], b)
    else [b[0]] + Merge(a, b[1..])
  }

  function SortNewestFirst(xs: seq<Event>): seq<Event> {
    if xs == [] then [] else Merge([xs[0]], SortNewestFirst(xs[1..]))
  }

  predicate NewestFirst(xs: seq<Event>) {
    forall i, j :: 0 <= i < j < |xs| ==> xs[i].timestamp >= xs[j].timestamp
  }

  /** The events with one timestamp, in order. */
  function At(xs: seq<Event>, t: int): seq<Event> {
    if xs == [] then [] else (if xs[0].timestamp == t then [xs[0]] else []) + At(xs[1..], t)
  }

  lemma {:induction false} MergeElements(a: seq<Event>, b: seq<Event>)
    ensures forall e :: e in Merge(a, b) <==> e in a || e in b
    ensures |Merge(a, b)| == |a| + |b|
  {
    if a != [] && b != [] {
      if a[0].timestamp >= b[0].timestamp {
        MergeElements(a[1..], b);
        assert a == [a[0]] + a[1..];
      } else {
        MergeElements(a, b[1..]);
        assert b == [b[0]] + b[1..];
      }
    }
  }

  lemma NewestFirstCons(head: Event, rest: seq<Event>)
    requires NewestFirst(rest) && (rest != [] ==> head.timestamp >= rest[0].timestamp)
    ensures NewestFirst([head] + rest)
  {
  }

  lemma {:induction false} MergeIsNewestFirst(a: seq<Event>, b: seq<Event>)
    requires NewestFirst(a) && NewestFirst(b)
    ensures NewestFirst(Merge(a, b))
  {
    if a != [] && b != [] {
      if a[0].timestamp >= b[0].timestamp {
        MergeIsNewestFirst(a[1..], b);
        NewestFirstCons(a[0], Merge(a[1..], b));
      } else {
        MergeIsNewestFirst(a, b[1..]);
        NewestFirstCons(b[0], Merge(a, b[1..]));
      }
    }
  }

  lemma {:induction false} AtOlder(xs: seq<Event>, t: int)
    requires forall i :: 0 <= i < |xs| ==> xs[i].timestamp < t
    ensures At(xs, t) == []
  {
    if xs != [] {
      AtOlder(xs[1..], t);
    }
  }

  lemma {:induction false} MergeAt(a: seq<Event>, b: seq<Event>, t: int)
    requires NewestFirst(a) && NewestFirst(b)
    ensures At(Merge(a, b), t) == At(a, t) + At(b, t)
  {
    if a != [] && b != [] {
      if a[0].timestamp >= b[0].timestamp {
        MergeAt(a[1..], b, t);
      } else {
        MergeAt(a, b[1..], t);
        if b[0].timestamp == t {
          AtOlder(a, t);
        }
      }
    }
  }

  /** The model of list.sort: newest first, and events of one timestamp stay in their order. */
  lemma {:induction false} SortIsStable(xs: seq<Event>)
    ensures NewestFirst(SortNewestFirst(xs))
    ensures forall t :: At(SortNewestFirst(xs), t) == At(xs, t)
    ensures |SortNewestFirst(xs)| == |xs| && forall e :: e in SortNewestFirst(xs) <==> e in xs
  {
    if xs != [] {
      SortIsStable(xs[1..]);
      MergeIsNewestFirst([xs[0]], SortNewestFirst(xs[1..]));
      MergeElements([xs[0]], SortNewestFirst(xs[1..]));
      assert xs == [xs[0]] + xs[1..];
      forall t ensures At(SortNewestFirst(xs), t) == At(xs, t) {
        MergeAt([xs[0]], SortNewestFirst(xs[1..]), t);
      }
    }
  }

  lemma {:induction false} MergeAssociates(a: seq<Event>, b: seq<Event>, c: seq<Event>)
    ensures Merge(Merge(a, b), c) == Merge(a, Merge(b, c))
    decreases |a| + |b| + |c|
  {
    if a != [] && b != [] && c != [] {
      var ab := Merge(a, b);
      if a[0].timestamp >= b[0].timestamp {
        assert ab[1..] == Merge(a[1..], b);
        if a[0].timestamp >= c[0].timestamp {
          MergeAssociates(a[1..], b, c);
        } else {
          MergeAssociates(a, b, c[1..]);
          assert Merge(b, c)[1..] == Merge(b, c[1..]);
        }
      } else {
        assert ab[1..] == Merge(a, b[1..]);
        if b[0].timestamp >= c[0].timestamp {
          MergeAssociates(a, b[1..], c);
          assert Merge(b, c)[1..] == Merge(b[1..], c);
        } else {
          MergeAssociates(a, b, c[1..]);
          assert Merge(b, c)[1..] == Merge(b, c[1..]);
        }
      }
    }
  }

  lemma {:induction false} SortOfConcat(xs: seq<Event>, ys: seq<Event>)
    ensures SortNewestFirst(xs + ys) == Merge(SortNewestFirst(xs), SortNewestFirst(ys))
  {
    if xs == [] {
      assert xs + ys == ys;
    } else {
      SortOfConcat(xs[1..], ys);
      assert (xs + ys)[1..] == xs[1..] + ys;
      MergeAssociates([xs[0]], SortNewestFirst(xs[1..]), SortNewestFirst(ys));
    }
  }

  lemma MergeOne(x: Event, rest: seq<Event>)
    requires rest != [] ==> x.timestamp >= rest[0].timestamp
    ensures Merge([x], rest) == [x] + rest
  {
    assert [x][1..] == [];
  }

  lemma {:induction false} SortOfSorted(xs: seq<Event>)
    requires NewestFirst(xs)
    ensures SortNewestFirst(xs) == xs
  {
    if xs != [] {
      SortOfSorted(xs[1..]);
      MergeOne(xs[0], xs[1..]);
      assert xs == [xs[0]] + xs[1..];
    }
  }

  // ----- device_timeline -----

  /** `commands` and `audits` are the device's rows, newest queued_at and created_at first. */
  function Timeline(commands: seq<Command>, audits: seq<AuditRow>, limit: nat): seq<Event> {
    Top(SortNewestFirst(Shown(Top(commands, limit)) + ShownAudit(Top(audits, limit))), limit)
  }

  method DeviceTimeline(commands: seq<Command>, audits: seq<AuditRow>, limit: nat) returns (timeline: seq<Event>)
    ensures timeline == Timeline(commands, audits, limit)
  {
    var fetched, logs := Top(commands, limit), Top(audits, limit);
    var events: seq<Event> := [];
    for i := 0 to |fetched|
      invariant events == Shown(fetched[..i])
    {
      events := events + [ShowCommand(fetched[i])];
    }
    assert fetched[..|fetched|] == fetched;
    for i := 0 to |logs|
      invariant events == Shown(fetched) + ShownAudit(logs[..i])
    {
      events := events + [ShowAudit(logs[i])];
    }
    assert logs[..|logs|] == logs;
    timeline := Top(SortNewestFirst(events), limit);
  }

  // ----- The timeline against all events -----

  /** What the endpoint stands for: all events of the device, sorted, then the first `limit`. */
  function Newest(commands: seq<Command>, audits: seq<AuditRow>, limit: nat): seq<Event> {
    Top(SortNewestFirst(Shown(commands) + ShownAudit(audits)), limit)
  }

  predicate AuditsNewestFirst(audits: seq<AuditRow>) {
    forall i, j :: 0 <= i < j < |audits| ==> audits[i].createdAt >= audits[j].createdAt
  }

  predicate TakesLeft(a: seq<Event>, b: seq<Event>) {
    a != [] && (b == [] || a[0].timestamp >= b[0].timestamp)
  }

  /** The first `limit` events of the merge, taken one at a time. */
  function TopMerge(a: seq<Event>, b: seq<Event>, limit: nat): seq<Event>
    decreases limit
  {
    if limit == 0 || a + b == [] then []
    else if TakesLeft(a, b) then [a[0]] + TopMerge(a[1..], b, limit - 1)
    else [b[0]] + TopMerge(a, b[1..], limit - 1)
  }

  lemma TopCons(x: Event, xs: seq<Event>, limit: nat)
    requires limit > 0
    ensures Top([x] + xs, limit) == [x] + Top(xs, limit - 1)
  {
  }

  lemma MergeCons(a: seq<Event>, b: seq<Event>)
    requires a + b != []
    ensures TakesLeft(a, b) ==> Merge(a, b) == [a[0]] + Merge(a[1..], b)
    ensures !TakesLeft(a, b) ==> Merge(a, b) == [b[0]] + Merge(a, b[1..])
  {
  }

  lemma {:induction false} TopMergeIsTop(a: seq<Event>, b: seq<Event>, limit: nat)
    ensures TopMerge(a, b, limit) == Top(Merge(a, b), limit)
    decreases limit
  {
    if limit > 0 && a + b != [] {
      MergeCons(a, b);
      if TakesLeft(a, b) {
        TopMergeIsTop(a[1..], b, limit - 1);
        TopCons(a[0], Merge(a[1..], b), limit);
      } else {
        TopMergeIsTop(a, b[1..], limit - 1);
        TopCons(b[0], Merge(a, b[1..]), limit);
      }
    }
  }

  lemma TopUncons(xs: seq<Event>, keep: nat)
    requires keep > 0
    ensures xs == [] ==> Top(xs, keep) == []
    ensures xs != [] ==>
      Top(xs, keep) != [] && Top(xs, keep)[0] == xs[0] && Top(xs, keep)[1..] == Top(xs[1..], keep - 1)
  {
  }

  /** The top of a merge needs no more than the tops of both sides. */
  lemma {:induction false} TopOfTops(a: seq<Event>, b: seq<Event>, keepA: nat, keepB: nat, limit: nat)
    requires limit <= keepA && limit <= keepB
    ensures TopMerge(a, b, limit) == TopMerge(Top(a, keepA), Top(b, keepB), limit)
    decreases limit
  {
    if limit > 0 && a + b != [] {
      TopUncons(a, keepA);
      TopUncons(b, keepB);
      if TakesLeft(a, b) {
        TopOfTops(a[1..], b, keepA - 1, keepB, limit - 1);
      } else {
        TopOfTops(a, b[1..], keepA, keepB - 1, limit - 1);
      }
    }
  }

  lemma TopOfMerge(a: seq<Event>, b: seq<Event>, limit: nat)
    ensures Top(Merge(a, b), limit) == Top(Merge(Top(a, limit), Top(b, limit)), limit)
  {
    TopMergeIsTop(a, b, limit);
    TopMergeIsTop(Top(a, limit), Top(b, limit), limit);
    TopOfTops(a, b, limit, limit, limit);
  }

  /** When the shown times are ordered like queued_at, the timeline is the newest `limit` events of all. */
  lemma OrderedTimesSuffice(commands: seq<Command>, audits: seq<AuditRow>, limit: nat)
    requires NewestFirst(Shown(commands)) && AuditsNewestFirst(audits)
    ensures Timeline(commands, audits, limit) == Newest(commands, audits, limit)
  {
    var cs, bs := Shown(commands), ShownAudit(audits);
    assert Shown(Top(commands, limit)) == Top(cs, limit);
    assert ShownAudit(Top(audits, limit)) == Top(bs, limit);
    SortOfConcat(cs, bs);
    SortOfConcat(Top(cs, limit), Top(bs, limit));
    SortOfSorted(cs);
    SortOfSorted(bs);
    SortOfSorted(Top(cs, limit));
    SortOfSorted(Top(bs, limit));
    TopOfMerge(cs, bs, limit);
  }

  // ----- Exactly when it is -----

  /** In the sorted list, e stands in front of a command c that the query left out. */
  predicate Before(e: Event, c: Event) {
    if e.AuditEvent? then e.timestamp > c.timestamp else e.timestamp >= c.timestamp
  }

  ghost predicate AllBefore(es: seq<Event>, cs: seq<Event>) {
    forall e, c :: e in es && c in cs ==> Before(e, c)
  }

  predicate Commands(es: seq<Event>) {
    forall e :: e in es ==> e.CommandEvent?
  }

  predicate Audits(es: seq<Event>) {
    forall e :: e in es ==> e.AuditEvent?
  }


  lemma AllBeforeCons(e: Event, rest: seq<Event>, omitted: seq<Event>)
    requires omitted != [] && NewestFirst(omitted)
    ensures AllBefore([e] + rest, omitted) <==> Before(e, omitted[0]) && AllBefore(rest, omitted)
  {
    assert forall x :: x in [e] + rest <==> x == e || x in rest;
    assert forall c :: c in omitted ==> c.timestamp <= omitted[0].timestamp;
    assert omitted[0] in omitted && e in [e] + rest;
  }

  /** The head of the two lists with and without the omitted commands. */
  lemma HeadIff(kept: seq<Event>, omitted: seq<Event>, logs: seq<Event>)
    requires omitted != [] && omitted[0].CommandEvent? && Commands(kept) && Audits(logs) && kept + logs != []
    ensures var left := TakesLeft(kept, logs);
      var head := if left then kept[0] else logs[0];
      var all := Merge(kept, omitted);
      if Before(head, omitted[0])
      then TakesLeft(all, logs) == left && (left ==> all == [head] + Merge(kept[1..], omitted))
      else TakesLeft(all, logs) && all[0] == omitted[0] && omitted[0] != head
  {
    MergeCons(kept, omitted);
    assert kept != [] ==> kept[0] in kept;
    assert logs != [] ==> logs[0] in logs;
  }

  /** Merging without the omitted commands gives the same top. */
  predicate Harmless(kept: seq<Event>, omitted: seq<Event>, logs: seq<Event>, limit: nat) {
    TopMerge(Merge(kept, omitted), logs, limit) == TopMerge(kept, logs, limit)
  }

  ghost predicate TopIsBefore(kept: seq<Event>, omitted: seq<Event>, logs: seq<Event>, limit: nat) {
    AllBefore(TopMerge(kept, logs, limit), omitted)
  }

  /** One step in which both merges take a kept command. */
  lemma StepKept(kept: seq<Event>, omitted: seq<Event>, logs: seq<Event>, limit: nat)
    requires omitted != [] && omitted[0].CommandEvent? && Commands(kept) && Audits(logs) && limit > 0
    requires TakesLeft(kept, logs) && Before(kept[0], omitted[0])
    ensures Harmless(kept, omitted, logs, limit) <==> Harmless(kept[1..], omitted, logs, limit - 1)
  {
    HeadIff(kept, omitted, logs);
    assert Merge(kept, omitted)[1..] == Merge(kept[1..], omitted);
    var all, few := TopMerge(Merge(kept[1..], omitted), logs, limit - 1), TopMerge(kept[1..], logs, limit - 1);
    ConsIff(kept[0], all, kept[0], few);
  }

  /** One step in which both take an audit row. */
  lemma StepLogged(kept: seq<Event>, omitted: seq<Event>, logs: seq<Event>, limit: nat)
    requires omitted != [] && omitted[0].CommandEvent? && Commands(kept) && Audits(logs) && limit > 0
    requires !TakesLeft(kept, logs) && logs != [] && Before(logs[0], omitted[0])
    ensures Harmless(kept, omitted, logs, limit) <==> Harmless(kept, omitted, logs[1..], limit - 1)
  {
    HeadIff(kept, omitted, logs);
    var all, few := TopMerge(Merge(kept, omitted), logs[1..], limit - 1), TopMerge(kept, logs[1..], limit - 1);
    ConsIff(logs[0], all, logs[0], few);
  }

  /** One step in which the omitted command shows at once. */
  lemma StepDiffers(kept: seq<Event>, omitted: seq<Event>, logs: seq<Event>, limit: nat)
    requires omitted != [] && omitted[0].CommandEvent? && Commands(kept) && Audits(logs)
    requires limit > 0 && kept + logs != []
    requires !Before(if TakesLeft(kept, logs) then kept[0] else logs[0], omitted[0])
    ensures !Harmless(kept, omitted, logs, limit)
  {
    HeadIff(kept, omitted, logs);
    assert TopMerge(Merge(kept, omitted), logs, limit)[0] == omitted[0];
  }

  lemma KeptCase(kept: seq<Event>, omitted: seq<Event>, logs: seq<Event>, limit: nat)
    requires omitted != [] && NewestFirst(omitted) && omitted[0].CommandEvent? && Commands(kept) && Audits(logs)
    requires limit > 0 && TakesLeft(kept, logs)
    requires Harmless(kept[1..], omitted, logs, limit - 1) <==> TopIsBefore(kept[1..], omitted, logs, limit - 1)
    ensures Harmless(kept, omitted, logs, limit) <==> TopIsBefore(kept, omitted, logs, limit)
  {
    AllBeforeCons(kept[0], TopMerge(kept[1..], logs, limit - 1), omitted);
    if Before(kept[0], omitted[0]) {
      StepKept(kept, omitted, logs, limit);
    } else {
      StepDiffers(kept, omitted, logs, limit);
    }
  }

  lemma LoggedCase(kept: seq<Event>, omitted: seq<Event>, logs: seq<Event>, limit: nat)
    requires omitted != [] && NewestFirst(omitted) && omitted[0].CommandEvent? && Commands(kept) && Audits(logs)
    requires limit > 0 && !TakesLeft(kept, logs) && logs != []
    requires Harmless(kept, omitted, logs[1..], limit - 1) <==> TopIsBefore(kept, omitted, logs[1..], limit - 1)
    ensures Harmless(kept, omitted, logs, limit) <==> TopIsBefore(kept, omitted, logs, limit)
  {
    AllBeforeCons(logs[0], TopMerge(kept, logs[1..], limit - 1), omitted);
    if Before(logs[0], omitted[0]) {
      StepLogged(kept, omitted, logs, limit);
    } else {
      StepDiffers(kept, omitted, logs, limit);
    }
  }

  /** Leaving commands out of the merge changes the top exactly when one of them belongs before some of it. */
  lemma {:induction false} OmittingIsHarmlessIff(kept: seq<Event>, omitted: seq<Event>, logs: seq<Event>, limit: nat)
    requires omitted != [] && NewestFirst(omitted) && omitted[0].CommandEvent? && Commands(kept) && Audits(logs)
    requires limit <= |kept| + |logs|
    ensures Harmless(kept, omitted, logs, limit) <==> TopIsBefore(kept, omitted, logs, limit)
    decreases limit
  {
    if limit > 0 {
      if TakesLeft(kept, logs) {
        OmittingIsHarmlessIff(kept[1..], omitted, logs, limit - 1);
        KeptCase(kept, omitted, logs, limit);
      } else {
        OmittingIsHarmlessIff(kept, omitted, logs[1..], limit - 1);
        LoggedCase(kept, omitted, logs, limit);
      }
    }
  }

  /** Each event of the timeline stands before each command beyond the newest `limit` by queued_at. */
  ghost predicate OmittedAreOlder(commands: seq<Command>, timeline: seq<Event>, limit: nat) {
    forall i, e :: limit <= i < |commands| && e in timeline ==> Before(e, ShowCommand(commands[i]))
  }

  lemma SortsAsMerges(cs: seq<Event>, bs: seq<Event>, limit: nat)
    requires limit <= |cs| && NewestFirst(bs)
    ensures var kept, omitted := SortNewestFirst(cs[..limit]), SortNewestFirst(cs[limit..]);
      && SortNewestFirst(cs + bs) == Merge(Merge(kept, omitted), bs)
      && SortNewestFirst(cs[..limit] + Top(bs, limit)) == Merge(kept, Top(bs, limit))
  {
    assert cs == cs[..limit] + cs[limit..];
    SortOfConcat(cs, bs);
    SortOfConcat(cs[..limit], cs[limit..]);
    SortOfConcat(cs[..limit], Top(bs, limit));
    SortOfSorted(bs);
    SortOfSorted(Top(bs, limit));
  }

  lemma TimelineByMerge(commands: seq<Command>, audits: seq<AuditRow>, limit: nat)
    requires AuditsNewestFirst(audits) && limit < |commands|
    ensures var cs, bs := Shown(commands), ShownAudit(audits);
      var kept, omitted := SortNewestFirst(cs[..limit]), SortNewestFirst(cs[limit..]);
      && Timeline(commands, audits, limit) == TopMerge(kept, bs, limit)
      && Newest(commands, audits, limit) == TopMerge(Merge(kept, omitted), bs, limit)
  {
    var cs, bs := Shown(commands), ShownAudit(audits);
    var kept, omitted := SortNewestFirst(cs[..limit]), SortNewestFirst(cs[limit..]);
    assert Shown(Top(commands, limit)) == cs[..limit];
    assert ShownAudit(Top(audits, limit)) == Top(bs, limit);
    SortsAsMerges(cs, bs, limit);
    SortIsStable(cs[..limit]);
    assert Top(kept, limit) == kept;
    TopMergeIsTop(kept, Top(bs, limit), limit);
    TopOfTops(kept, bs, limit, limit, limit);
    TopMergeIsTop(Merge(kept, omitted), bs, limit);
  }

  lemma TimelineOmitsOlderIff(commands: seq<Command>, audits: seq<AuditRow>, limit: nat)
    requires AuditsNewestFirst(audits)
    ensures Timeline(commands, audits, limit) == Newest(commands, audits, limit)
       <==> OmittedAreOlder(commands, Timeline(commands, audits, limit), limit)
  {
    var cs, bs := Shown(commands), ShownAudit(audits);
    if limit < |commands| {
      var kept, omitted := SortNewestFirst(cs[..limit]), SortNewestFirst(cs[limit..]);
      SortIsStable(cs[..limit]);
      SortIsStable(cs[limit..]);
      TimelineByMerge(commands, audits, limit);
      assert omitted[0] in omitted;
      OmittingIsHarmlessIff(kept, omitted, bs, limit);
      OmittedElements(commands, Timeline(commands, audits, limit), limit);
    } else {
      FewCommands(commands, audits, limit);
    }
  }

  lemma OmittedElements(commands: seq<Command>, timeline: seq<Event>, limit: nat)
    requires limit < |commands|
    ensures AllBefore(timeline, SortNewestFirst(Shown(commands)[limit..]))
       <==> OmittedAreOlder(commands, timeline, limit)
  {
    var rest := Shown(commands)[limit..];
    SortIsStable(rest);
    assert forall i :: limit <= i < |commands| ==> ShowCommand(commands[i]) == rest[i - limit];
    assert forall k :: 0 <= k < |rest| ==> rest[k] == ShowCommand(commands[limit + k]);
  }

  lemma FewCommands(commands: seq<Command>, audits: seq<AuditRow>, limit: nat)
    requires AuditsNewestFirst(audits) && limit >= |commands|
    ensures Timeline(commands, audits, limit) == Newest(commands, audits, limit)
  {
    var cs, bs := Shown(commands), ShownAudit(audits);
    assert ShownAudit(Top(audits, limit)) == Top(bs, limit) && Top(commands, limit) == commands;
    SortOfConcat(cs, bs);
    SortOfConcat(cs, Top(bs, limit));
    SortOfSorted(bs);
    SortOfSorted(Top(bs, limit));
    SortIsStable(cs);
    TopMergeIsTop(SortNewestFirst(cs), bs, limit);
    TopMergeIsTop(SortNewestFirst(cs), Top(bs, limit), limit);
    TopOfTops(SortNewestFirst(cs), bs, limit, limit, limit);
    assert Top(SortNewestFirst(cs), limit) == SortNewestFirst(cs);
  }

  // ----- The same as a test on the rows -----

  /** How many of the events stand before the command. */
  function CountBefore(es: seq<Event>, c: Event): nat {
    if es == [] then 0 else (if Before(es[0], c) then 1 else 0) + CountBefore(es[1..], c)
  }

  lemma {:induction false} CountOfMerge(a: seq<Event>, b: seq<Event>, c: Event)
    ensures CountBefore(Merge(a, b), c) == CountBefore(a, c) + CountBefore(b, c)
  {
    if a != [] && b != [] {
      if a[0].timestamp >= b[0].timestamp {
        CountOfMerge(a[1..], b, c);
      } else {
        CountOfMerge(a, b[1..], c);
      }
    }
  }

  lemma {:induction false} CountOfSorted(xs: seq<Event>, c: Event)
    ensures CountBefore(SortNewestFirst(xs), c) == CountBefore(xs, c)
  {
    if xs != [] {
      CountOfSorted(xs[1..], c);
      CountOfMerge([xs[0]], SortNewestFirst(xs[1..]), c);
      assert [xs[0]][1..] == [];
    }
  }

  lemma {:induction false} CountNone(es: seq<Event>, c: Event)
    requires forall i :: 0 <= i < |es| ==> !Before(es[i], c)
    ensures CountBefore(es, c) == 0
  {
    if es != [] {
      CountNone(es[1..], c);
    }
  }

  ghost predicate AllBeforeOne(es: seq<Event>, c: Event) {
    forall e :: e in es ==> Before(e, c)
  }

  lemma AllBeforeOneCons(e: Event, rest: seq<Event>, c: Event)
    ensures AllBeforeOne([e] + rest, c) <==> Before(e, c) && AllBeforeOne(rest, c)
  {
    assert forall x :: x in [e] + rest <==> x == e || x in rest;
    assert e in [e] + rest;
  }

  /** If the first event of the merge does not stand before the command, none does. */
  lemma HeadDecides(kept: seq<Event>, logs: seq<Event>, c: Event)
    requires NewestFirst(kept) && NewestFirst(logs) && Commands(kept) && Audits(logs) && kept + logs != []
    requires !Before(if TakesLeft(kept, logs) then kept[0] else logs[0], c)
    ensures CountBefore(kept, c) + CountBefore(logs, c) == 0
  {
    forall i | 0 <= i < |kept| ensures !Before(kept[i], c) {
      assert kept[0] in kept && kept[i] in kept;
    }
    CountNone(kept, c);
    forall i | 0 <= i < |logs| ensures !Before(logs[i], c) {
      assert logs[0] in logs && logs[i] in logs;
      assert kept != [] ==> kept[0] in kept;
    }
    CountNone(logs, c);
  }

  /** The first `limit` events all stand before the command exactly when at least `limit` events do. */
  lemma {:induction false} TopBeforeIff(kept: seq<Event>, logs: seq<Event>, c: Event, limit: nat)
    requires NewestFirst(kept) && NewestFirst(logs) && Commands(kept) && Audits(logs) && limit <= |kept| + |logs|
    ensures AllBeforeOne(TopMerge(kept, logs, limit), c) <==> CountBefore(kept, c) + CountBefore(logs, c) >= limit
    decreases limit
  {
    if limit > 0 {
      if TakesLeft(kept, logs) {
        AllBeforeOneCons(kept[0], TopMerge(kept[1..], logs, limit - 1), c);
        if Before(kept[0], c) {
          TopBeforeIff(kept[1..], logs, c, limit - 1);
        } else {
          HeadDecides(kept, logs, c);
        }
      } else {
        AllBeforeOneCons(logs[0], TopMerge(kept, logs[1..], limit - 1), c);
        if Before(logs[0], c) {
          TopBeforeIff(kept, logs[1..], c, limit - 1);
        } else {
          HeadDecides(kept, logs, c);
        }
      }
    }
  }

  /** Of the commands read and all audit rows, at least `limit` are shown before the command. */
  predicate Crowded(commands: seq<Command>, audits: seq<AuditRow>, limit: nat, c: Command) {
    CountBefore(Shown(Top(commands, limit)), ShowCommand(c)) + CountBefore(ShownAudit(audits), ShowCommand(c)) >= limit
  }

  lemma OmittedIsOlderIff(commands: seq<Command>, audits: seq<AuditRow>, limit: nat, i: nat)
    requires AuditsNewestFirst(audits) && limit <= i < |commands|
    ensures AllBeforeOne(Timeline(commands, audits, limit), ShowCommand(commands[i]))
       <==> Crowded(commands, audits, limit, commands[i])
  {
    var cs, bs, c := Shown(commands), ShownAudit(audits), ShowCommand(commands[i]);
    var kept := SortNewestFirst(cs[..limit]);
    TimelineByMerge(commands, audits, limit);
    SortIsStable(cs[..limit]);
    CountOfSorted(cs[..limit], c);
    assert Shown(Top(commands, limit)) == cs[..limit];
    TopBeforeIff(kept, bs, c, limit);
  }

  /**
   * For any times at all, the timeline is the newest `limit` events exactly when, for each command
   * the query leaves out, `limit` others come first: commands it reads that are shown at or after
   * that one, and audit rows newer than it.
   */
  lemma TimelineIsNewestIff(commands: seq<Command>, audits: seq<AuditRow>, limit: nat)
    requires AuditsNewestFirst(audits)
    ensures Timeline(commands, audits, limit) == Newest(commands, audits, limit)
       <==> forall i :: limit <= i < |commands| ==> Crowded(commands, audits, limit, commands[i])
  {
    TimelineOmitsOlderIff(commands, audits, limit);
    var timeline := Timeline(commands, audits, limit);
    assert OmittedAreOlder(commands, timeline, limit)
      <==> forall i :: limit <= i < |commands| ==> AllBeforeOne(timeline, ShowCommand(commands[i]));
    forall i | limit <= i < |commands|
      ensures AllBeforeOne(timeline, ShowCommand(commands[i])) <==> Crowded(commands, audits, limit, commands[i])
    {
      OmittedIsOlderIff(commands, audits, limit, i);
    }
  }

  // ----- What an event shows -----

  /** A command is shown at its execution, or if it has none at its queueing, with its type, status and uuid. */
  predicate IsOfCommand(e: Event, c: Command) {
    match c.executedAt
    case Some(t) => e == CommandEvent(t, c.kind, c.status, c.uuid)
    case None => e == CommandEvent(c.queuedAt, c.kind, c.status, c.uuid)
  }

  predicate IsOfAudit(e: Event, a: AuditRow) {
    e == AuditEvent(a.createdAt, a.action, a.changes, a.actor)
  }

  /** Every event shown is that of one of the rows read. */
  lemma EventsTellRows(commands: seq<Command>, audits: seq<AuditRow>, limit: nat, e: Event)
    requires e in Timeline(commands, audits, limit)
    ensures || (exists i :: 0 <= i < |commands| && i < limit && IsOfCommand(e, commands[i]))
            || (exists i :: 0 <= i < |audits| && i < limit && IsOfAudit(e, audits[i]))
  {
    var cs, bs := Shown(Top(commands, limit)), ShownAudit(Top(audits, limit));
    SortIsStable(cs + bs);
    assert e in cs + bs;
    if e in cs {
      var i :| 0 <= i < |cs| && cs[i] == e;
      assert IsOfCommand(e, commands[i]);
    } else {
      var i :| 0 <= i < |bs| && bs[i] == e;
      assert IsOfAudit(e, audits[i]);
    }
  }

  /** If all rows fit, every one of them is shown. */
  lemma FittingRowsAreShown(commands: seq<Command>, audits: seq<AuditRow>, limit: nat, e: Event)
    requires |commands| + |audits| <= limit
    requires || (exists i :: 0 <= i < |commands| && IsOfCommand(e, commands[i]))
             || (exists i :: 0 <= i < |audits| && IsOfAudit(e, audits[i]))
    ensures e in Timeline(commands, audits, limit)
    ensures |Timeline(commands, audits, limit)| == |commands| + |audits|
  {
    var cs, bs := Shown(commands), ShownAudit(audits);
    assert Top(commands, limit) == commands && Top(audits, limit) == audits;
    SortIsStable(cs + bs);
    assert Timeline(commands, audits, limit) == SortNewestFirst(cs + bs);
    assert e in cs + bs by {
      if i :| 0 <= i < |commands| && IsOfCommand(e, commands[i]) {
        assert cs[i] == e;
      } else {
        var i :| 0 <= i < |audits| && IsOfAudit(e, audits[i]);
        assert bs[i] == e;
      }
    }
  }

  /** It can fail: a command queued first but executed last is left out of a timeline of one. */
  lemma ExecutedLateIsMissed()
    ensures var early := Command("a", "Lock", "acknowledged", 1, Some(3));
      var late := Command("b", "Lock", "queued", 2, None);
      && Timeline([late, early], [], 1) == [ShowCommand(late)]
      && Newest([late, early], [], 1) == [ShowCommand(early)]
  {
    var early := Command("a", "Lock", "acknowledged", 1, Some(3));
    var late := Command("b", "Lock", "queued", 2, None);
    var e, l := ShowCommand(early), ShowCommand(late);
    assert Shown(Top([late, early], 1)) + ShownAudit(Top([], 1)) == [l];
    assert Shown([late, early]) + ShownAudit([]) == [l, e];
    MergeOne(l, []);
    MergeOne(e, []);
    assert [l][1..] == [] && [e][1..] == [] && [l, e][1..] == [e];
    assert SortNewestFirst([e]) == [e];
    assert SortNewestFirst([l, e]) == Merge([l], [e]);
    assert Merge([l], [e]) == [e] + Merge([l], []);
  }
}
