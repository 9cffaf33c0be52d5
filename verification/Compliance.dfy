/** Compliance evaluation: classifying a policy's controls and recording one result per device and policy. */
module Compliance {
  import opened Prelude
  import opened WorkLists

  /** The rule keys the evaluator knows; any other key is ignored. */
  datatype Control =
    | FileVault | Firewall | Gatekeeper | ScreenLock
    | MaxCheckinAge | CriticalUpdates | Psso
    | Other(key: string)

  datatype Required = Flag(on: bool) | Number(limit: real)

  function Truthy(r: Required): bool {
    match r
    case Flag(on) => on
    case Number(x) => x != 0.0
  }

  /** As a threshold True is 1 and False is 0. */
  function Threshold(r: Required): real {
    match r
    case Flag(on) => if on then 1.0 else 0.0
    case Number(x) => x
  }

  datatype Rule = Rule(control: Control, required: Required)
  type Rules = seq<Rule>   // a policy's dictionary, in its order

  predicate DistinctKeys(rules: Rules) {
    forall i, j :: 0 <= i < j < |rules| ==> rules[i].control != rules[j].control
  }

  datatype PssoStatus = Registered | NotConfigured | OtherPsso

  datatype Device = Device(
    id: string,
    encrypted: Option<bool>,
    firewall: Option<bool>,
    gatekeeper: Option<bool>,
    screenLock: Option<bool>,
    lastCheckin: Option<int>,   // in seconds
    psso: PssoStatus)

  /** What one evaluation sees: the device row, the clock and the number of pending critical updates. */
  datatype Facts = Facts(device: Device, now: int, critical: nat)

  datatype Outcome = Passing | Failing | Unknown
  datatype Status = Compliant | NonCompliant | Undetermined

  function FlagOutcome(fact: Option<bool>): Outcome {
    match fact
    case None => Unknown
    case Some(on) => if on then Passing else Failing
  }

  function WithinLimit(value: real, required: Required): Outcome {
    if value <= Threshold(required) then Passing else Failing
  }

  function AgeOutcome(f: Facts, required: Required): Outcome {
    match f.device.lastCheckin
    case None => Unknown
    case Some(at) => WithinLimit((f.now - at) as real / 3600.0, required)
  }

  function PssoOutcome(status: PssoStatus): Outcome {
    match status
    case Registered => Passing
    case NotConfigured => Failing
    case OtherPsso => Unknown
  }

  predicate Enforced(r: Rule) {
    match r.control
    case Other(_) => false
    case MaxCheckinAge => true
    case CriticalUpdates => true
    case _ => Truthy(r.required)
  }

  function OutcomeOf(f: Facts, r: Rule): Outcome {
    match r.control
    case FileVault => FlagOutcome(f.device.encrypted)
    case Firewall => FlagOutcome(f.device.firewall)
    case Gatekeeper => FlagOutcome(f.device.gatekeeper)
    case ScreenLock => FlagOutcome(f.device.screenLock)
    case MaxCheckinAge => AgeOutcome(f, r.required)
    case CriticalUpdates => WithinLimit(f.critical as real, r.required)
    case Psso => PssoOutcome(f.device.psso)
    case Other(_) => Unknown
  }

  /** What one rule adds to the list of this outcome. */
  function Share(f: Facts, r: Rule, outcome: Outcome): seq<Control> {
    if Enforced(r) && OutcomeOf(f, r) == outcome then [r.control] else []
  }

  /** The controls of the enforced rules with this outcome, in rule order. */
  function Listed(f: Facts, rules: Rules, outcome: Outcome): seq<Control> {
    if rules == [] then []
    else
      var n := |rules| - 1;
      Listed(f, rules[..n], outcome) + Share(f, rules[n], outcome)
  }

  datatype Report = Report(status: Status, passing: seq<Control>, failing: seq<Control>, unknown: seq<Control>)

  function StatusOf(passing: seq<Control>, failing: seq<Control>, unknown: seq<Control>): Status {
    if failing != [] then NonCompliant
    else if unknown != [] && passing == [] then Undetermined
    else Compliant
  }

  function Evaluate(f: Facts, rules: Rules): Report {
    var p, q, u := Listed(f, rules, Passing), Listed(f, rules, Failing), Listed(f, rules, Unknown);
    Report(StatusOf(p, q, u), p, q, u)
  }

  /** The loop over the policy's rules. */
  method Classify(f: Facts, rules: Rules) returns (passing: seq<Control>, failing: seq<Control>, unknown: seq<Control>)
    ensures passing == Listed(f, rules, Passing)
    ensures failing == Listed(f, rules, Failing)
    ensures unknown == Listed(f, rules, Unknown)
  {
    passing, failing, unknown := [], [], [];
    for i := 0 to |rules|
      invariant passing == Listed(f, rules[..i], Passing)
      invariant failing == Listed(f, rules[..i], Failing)
      invariant unknown == Listed(f, rules[..i], Unknown)
    {
      assert rules[..i + 1][..i] == rules[..i];
      var control := rules[i].control;
      if Enforced(rules[i]) {
        match OutcomeOf(f, rules[i])
        case Passing => passing := passing + [control];
        case Failing => failing := failing + [control];
        case Unknown => unknown := unknown + [control];
      }
    }
    assert rules[..|rules|] == rules;
  }

  // ----- Results -----

  datatype Row = Row(device: string, policy: string, report: Report, checkedAt: int)
  datatype Policy = Policy(id: string, rules: Rules, active: bool)

  function Position(rows: seq<Row>, device: string, policy: string): (r: Option<nat>)
    ensures r.Some? ==> r.value < |rows| && rows[r.value].device == device && rows[r.value].policy == policy
    ensures r.None? ==> forall i :: 0 <= i < |rows| ==> !(rows[i].device == device && rows[i].policy == policy)
  {
    if rows == [] then None
    else
      var n := |rows| - 1;
      if rows[n].device == device && rows[n].policy == policy then Some(n) else Position(rows[..n], device, policy)
  }

  function Upsert(rows: seq<Row>, row: Row): seq<Row> {
    match Position(rows, row.device, row.policy)
    case Some(i) => rows[i := row]
    case None => rows + [row]
  }

  function RowFor(f: Facts, p: Policy): Row {
    Row(f.device.id, p.id, Evaluate(f, p.rules), f.now)
  }

  function Active(policies: seq<Policy>): seq<Policy> {
    if policies == [] then []
    else
      var n := |policies| - 1;
      Active(policies[..n]) + if policies[n].active then [policies[n]] else []
  }

  /** One upsert per policy, in order. */
  function EvaluateEach(rows: seq<Row>, f: Facts, policies: seq<Policy>): seq<Row> {
    if policies == [] then rows
    else
      var n := |policies| - 1;
      Upsert(EvaluateEach(rows, f, policies[..n]), RowFor(f, policies[n]))
  }

  predicate SomeFails(f: Facts, policies: seq<Policy>) {
    exists i :: 0 <= i < |policies| && Listed(f, policies[i].rules, Failing) != []
  }

  class Engine {
    var rows: seq<Row>
    var statuses: map<string, Status>   // Device.compliance_status

    /** At most one result per device and policy, as scalar_one_or_none demands. */
    predicate Valid()
      reads this
    {
      OnePerPair(rows)
    }

    method EvaluateDevice(f: Facts, policy: Policy) returns (report: Report)
      requires Valid()
      modifies `rows
      ensures Valid()
      ensures report == Evaluate(f, policy.rules)
      ensures rows == Upsert(old(rows), RowFor(f, policy))
    {
      var passing, failing, unknown := Classify(f, policy.rules);
      report := Report(StatusOf(passing, failing, unknown), passing, failing, unknown);
      UpsertKeepsOne(rows, RowFor(f, policy));
      match Position(rows, f.device.id, policy.id) {
        case Some(i) => rows := rows[i := rows[i].(report := report, checkedAt := f.now)];
        case None => rows := rows + [Row(f.device.id, policy.id, report, f.now)];
      }
    }

    /**
     * Without an active policy nothing changes. Otherwise the device is non_compliant exactly when its
     * facts violate a rule of some active policy; each active policy's own report is recorded, and the
     * results of inactive policies and of other devices read as before.
     */
    method EvaluateAll(f: Facts, policies: seq<Policy>)
      requires Valid()
      modifies this
      ensures Valid()
      ensures Active(policies) == [] ==> rows == old(rows) && statuses == old(statuses)
      ensures Active(policies) != [] ==>
        && rows == EvaluateEach(old(rows), f, Active(policies))
        && statuses == old(statuses)[f.device.id := if SomeFails(f, Active(policies)) then NonCompliant else Compliant]
      ensures NoneActive(policies) ==> rows == old(rows) && statuses == old(statuses)
      ensures !NoneActive(policies) ==>
        statuses == old(statuses)[f.device.id := if SomeActiveViolated(f, policies) then NonCompliant else Compliant]
      ensures forall d, p :: d != f.device.id || !ActiveId(policies, p) ==>
        Lookup(rows, d, p) == Lookup(old(rows), d, p)
      ensures DistinctIds(policies) ==> forall i :: 0 <= i < |policies| && policies[i].active ==>
        Lookup(rows, f.device.id, policies[i].id)
          == Some(Row(f.device.id, policies[i].id, Evaluate(f, policies[i].rules), f.now))
    {
      ActiveEmptyIff(policies);
      SomeActiveFailsIff(f, policies);
      EvaluationReadsBack(rows, f, policies);
      var active := Active(policies);
      if active == [] {
        return;
      }
      var anyFailing := EvaluateInTurn(f, active);
      statuses := statuses[f.device.id := if anyFailing then NonCompliant else Compliant];
    }

    /** The loop over the active policies. */
    method EvaluateInTurn(f: Facts, active: seq<Policy>) returns (anyFailing: bool)
      requires Valid()
      modifies `rows
      ensures Valid()
      ensures rows == EvaluateEach(old(rows), f, active)
      ensures anyFailing == SomeFails(f, active)
    {
      ghost var was := rows;
      anyFailing := false;
      for i := 0 to |active|
        invariant Valid()
        invariant rows == EvaluateEach(was, f, active[..i])
        invariant anyFailing == SomeFails(f, active[..i])
      {
        NextInTurn(was, f, active, i);
        var report := EvaluateDevice(f, active[i]);
        if report.status == NonCompliant {
          anyFailing := true;
        }
      }
      assert active[..|active|] == active;
    }
  }

  lemma NextInTurn(rows: seq<Row>, f: Facts, active: seq<Policy>, i: nat)
    requires i < |active|
    ensures EvaluateEach(rows, f, active[..i + 1])
         == Upsert(EvaluateEach(rows, f, active[..i]), RowFor(f, active[i]))
    ensures SomeFails(f, active[..i + 1])
       <==> SomeFails(f, active[..i]) || Evaluate(f, active[i].rules).status == NonCompliant
  {
    assert active[..i + 1][..i] == active[..i];
    assert active[..i] + [active[i]] == active[..i + 1];
    SomeFailsSnoc(f, active[..i], active[i]);
  }

  // ----- The policies a check-in evaluates -----

  /** The positions of the policies whose is_active is set, in order. */
  function ActiveAt(policies: seq<Policy>): seq<nat> {
    Indices(seq(|policies|, i requires 0 <= i < |policies| => policies[i].active))
  }

  lemma ActiveAtSnoc(policies: seq<Policy>)
    requires policies != []
    ensures var n := |policies| - 1;
      ActiveAt(policies) == ActiveAt(policies[..n]) + if policies[n].active then [n] else []
  {
    var n := |policies| - 1;
    var mask := seq(|policies|, i requires 0 <= i < |policies| => policies[i].active);
    assert mask[..n] == seq(n, i requires 0 <= i < n => policies[..n][i].active);
  }

  /** Exactly the policies whose is_active is set are evaluated, in order and each as often as it occurs. */
  lemma {:induction false} ActiveExactly(policies: seq<Policy>)
    ensures Ascending(ActiveAt(policies)) && |Active(policies)| == |ActiveAt(policies)|
    ensures forall i :: i in ActiveAt(policies) <==> 0 <= i < |policies| && policies[i].active
    ensures forall k :: 0 <= k < |Active(policies)| ==>
      ActiveAt(policies)[k] < |policies| && Active(policies)[k] == policies[ActiveAt(policies)[k]]
  {
    IndicesElements(seq(|policies|, i requires 0 <= i < |policies| => policies[i].active));
    if policies != [] {
      ActiveExactly(policies[..|policies| - 1]);
      ActiveAtSnoc(policies);
    }
  }

  lemma ActiveMembers(policies: seq<Policy>, p: Policy)
    ensures p in Active(policies) <==> p in policies && p.active
  {
    ActiveExactly(policies);
    if k :| 0 <= k < |Active(policies)| && Active(policies)[k] == p {
      assert ActiveAt(policies)[k] in ActiveAt(policies);
    }
    if i :| 0 <= i < |policies| && policies[i] == p && policies[i].active {
      assert i in ActiveAt(policies);
      var k :| 0 <= k < |ActiveAt(policies)| && ActiveAt(policies)[k] == i;
      assert Active(policies)[k] == p;
    }
  }

  predicate NoneActive(policies: seq<Policy>) {
    forall i :: 0 <= i < |policies| ==> !policies[i].active
  }

  predicate Violated(f: Facts, rules: Rules) {
    exists j :: 0 <= j < |rules| && Violates(f, rules[j])
  }

  /** The facts violate a rule of some active policy. */
  predicate SomeActiveViolated(f: Facts, policies: seq<Policy>) {
    exists i :: 0 <= i < |policies| && policies[i].active && Violated(f, policies[i].rules)
  }

  predicate ActiveId(policies: seq<Policy>, id: string) {
    exists i :: 0 <= i < |policies| && policies[i].active && policies[i].id == id
  }

  predicate DistinctIds(policies: seq<Policy>) {
    forall i, j :: 0 <= i < j < |policies| ==> policies[i].id != policies[j].id
  }

  lemma ActiveEmptyIff(policies: seq<Policy>)
    ensures Active(policies) == [] <==> NoneActive(policies)
  {
    ActiveExactly(policies);
    if i :| 0 <= i < |policies| && policies[i].active {
      assert i in ActiveAt(policies);
    }
    if Active(policies) != [] {
      assert ActiveAt(policies)[0] in ActiveAt(policies);
    }
  }

  lemma FailingIffViolated(f: Facts, rules: Rules)
    ensures Listed(f, rules, Failing) != [] <==> Violated(f, rules)
  {
    NonCompliantIffViolated(f, rules);
  }

  lemma SomeActiveFailsIff(f: Facts, policies: seq<Policy>)
    ensures SomeFails(f, Active(policies)) <==> SomeActiveViolated(f, policies)
  {
    var active := Active(policies);
    if k :| 0 <= k < |active| && Listed(f, active[k].rules, Failing) != [] {
      FailingIffViolated(f, active[k].rules);
      assert active[k] in active;
      ActiveMembers(policies, active[k]);
      var i :| 0 <= i < |policies| && policies[i] == active[k];
      assert policies[i].active && Violated(f, policies[i].rules);
    }
    if i :| 0 <= i < |policies| && policies[i].active && Violated(f, policies[i].rules) {
      FailingIffViolated(f, policies[i].rules);
      assert policies[i] in policies;
      ActiveMembers(policies, policies[i]);
      var k :| 0 <= k < |active| && active[k] == policies[i];
      assert Listed(f, active[k].rules, Failing) != [];
    }
  }

  lemma ActiveIdsDistinct(policies: seq<Policy>)
    requires DistinctIds(policies)
    ensures DistinctIds(Active(policies))
  {
    ActiveExactly(policies);
    var at := ActiveAt(policies);
    forall i, j | 0 <= i < j < |Active(policies)| ensures Active(policies)[i].id != Active(policies)[j].id {
      assert at[i] < at[j];
    }
  }

  /** What reading the results gives after all active policies were evaluated. */
  lemma EvaluationReadsBack(rows: seq<Row>, f: Facts, policies: seq<Policy>)
    requires OnePerPair(rows)
    ensures var after := EvaluateEach(rows, f, Active(policies));
      forall d, p :: d != f.device.id || !ActiveId(policies, p) ==> Lookup(after, d, p) == Lookup(rows, d, p)
    ensures var after := EvaluateEach(rows, f, Active(policies));
      DistinctIds(policies) ==> forall i :: 0 <= i < |policies| && policies[i].active ==>
        Lookup(after, f.device.id, policies[i].id)
          == Some(Row(f.device.id, policies[i].id, Evaluate(f, policies[i].rules), f.now))
  {
    var active, after := Active(policies), EvaluateEach(rows, f, Active(policies));
    forall d, p | d != f.device.id || !ActiveId(policies, p) ensures Lookup(after, d, p) == Lookup(rows, d, p) {
      InactiveStays(rows, f, policies, d, p);
    }
    if DistinctIds(policies) {
      forall i | 0 <= i < |policies| && policies[i].active
        ensures Lookup(after, f.device.id, policies[i].id)
             == Some(Row(f.device.id, policies[i].id, Evaluate(f, policies[i].rules), f.now))
      {
        ActiveIsRecorded(rows, f, policies, i);
      }
    }
  }

  lemma InactiveStays(rows: seq<Row>, f: Facts, policies: seq<Policy>, device: string, policy: string)
    requires OnePerPair(rows) && (device != f.device.id || !ActiveId(policies, policy))
    ensures Lookup(EvaluateEach(rows, f, Active(policies)), device, policy) == Lookup(rows, device, policy)
  {
    var active := Active(policies);
    if device == f.device.id {
      forall k | 0 <= k < |active| ensures active[k].id != policy {
        assert active[k] in active;
        ActiveMembers(policies, active[k]);
        var i :| 0 <= i < |policies| && policies[i] == active[k];
      }
    }
    OtherResultsStay(rows, f, active, device, policy);
  }

  lemma ActiveIsRecorded(rows: seq<Row>, f: Facts, policies: seq<Policy>, i: nat)
    requires OnePerPair(rows) && DistinctIds(policies) && i < |policies| && policies[i].active
    ensures Lookup(EvaluateEach(rows, f, Active(policies)), f.device.id, policies[i].id)
         == Some(Row(f.device.id, policies[i].id, Evaluate(f, policies[i].rules), f.now))
  {
    assert policies[i] in policies;
    ActiveMembers(policies, policies[i]);
    var k :| 0 <= k < |Active(policies)| && Active(policies)[k] == policies[i];
    ActiveIdsDistinct(policies);
    EvaluationIsRecorded(rows, f, Active(policies), k);
  }

  lemma SomeFailsSnoc(f: Facts, front: seq<Policy>, last: Policy)
    ensures SomeFails(f, front + [last]) <==> SomeFails(f, front) || Listed(f, last.rules, Failing) != []
  {
    var all := front + [last];
    assert forall i :: 0 <= i < |front| ==> all[i] == front[i];
    assert all[|front|] == last;
  }

  // ----- The classification -----

  /** A control is listed under an outcome exactly when an enforced rule of it has that outcome. */
  lemma {:induction false} ListedIff(f: Facts, rules: Rules, outcome: Outcome, c: Control)
    ensures c in Listed(f, rules, outcome)
       <==> exists i :: 0 <= i < |rules| && rules[i].control == c
              && Enforced(rules[i]) && OutcomeOf(f, rules[i]) == outcome
  {
    if rules != [] {
      ListedIff(f, rules[..|rules| - 1], outcome, c);
    }
  }

  /** Occurrences of a control in the three lists together. */
  function Times(r: Report, c: Control): nat {
    multiset(r.passing)[c] + multiset(r.failing)[c] + multiset(r.unknown)[c]
  }

  function EnforcedTimes(rules: Rules, c: Control): nat {
    if rules == [] then 0
    else
      var n := |rules| - 1;
      EnforcedTimes(rules[..n], c) + if Enforced(rules[n]) && rules[n].control == c then 1 else 0
  }

  lemma ListedTimes(f: Facts, rules: Rules, outcome: Outcome, c: Control)
    requires rules != []
    ensures var n := |rules| - 1; var r := rules[n];
      multiset(Listed(f, rules, outcome))[c] == multiset(Listed(f, rules[..n], outcome))[c]
        + if Enforced(r) && OutcomeOf(f, r) == outcome && r.control == c then 1 else 0
  {
  }

  lemma {:induction false} TimesIsEnforcedTimes(f: Facts, rules: Rules, c: Control)
    ensures Times(Evaluate(f, rules), c) == EnforcedTimes(rules, c)
  {
    if rules != [] {
      TimesIsEnforcedTimes(f, rules[..|rules| - 1], c);
      ListedTimes(f, rules, Passing, c);
      ListedTimes(f, rules, Failing, c);
      ListedTimes(f, rules, Unknown, c);
    }
  }

  lemma {:induction false} EnforcedAtMostOnce(rules: Rules, i: nat)
    requires DistinctKeys(rules) && i < |rules|
    ensures EnforcedTimes(rules, rules[i].control) == if Enforced(rules[i]) then 1 else 0
  {
    var n := |rules| - 1;
    if i < n {
      EnforcedAtMostOnce(rules[..n], i);
    } else {
      EnforcedNever(rules[..n], rules[i].control);
    }
  }

  lemma {:induction false} EnforcedNever(rules: Rules, c: Control)
    requires forall i :: 0 <= i < |rules| ==> rules[i].control != c
    ensures EnforcedTimes(rules, c) == 0
  {
    if rules != [] {
      EnforcedNever(rules[..|rules| - 1], c);
    }
  }

  /** Each enforced control is listed once, under its own outcome; an unenforced one nowhere. */
  lemma EachControlOnce(f: Facts, rules: Rules, i: nat)
    requires DistinctKeys(rules) && i < |rules|
    ensures var r := Evaluate(f, rules); var c := rules[i].control;
      && Times(r, c) == (if Enforced(rules[i]) then 1 else 0)
      && (c in r.passing <==> Enforced(rules[i]) && OutcomeOf(f, rules[i]) == Passing)
      && (c in r.failing <==> Enforced(rules[i]) && OutcomeOf(f, rules[i]) == Failing)
      && (c in r.unknown <==> Enforced(rules[i]) && OutcomeOf(f, rules[i]) == Unknown)
  {
    var c := rules[i].control;
    TimesIsEnforcedTimes(f, rules, c);
    EnforcedAtMostOnce(rules, i);
    ListedIff(f, rules, Passing, c);
    ListedIff(f, rules, Failing, c);
    ListedIff(f, rules, Unknown, c);
  }

  // ----- The status in terms of the facts -----

  /** The value is above the limit; a boolean limit counts as 1 or 0. */
  predicate Exceeds(value: real, limit: Required) {
    match limit
    case Number(x) => value > x
    case Flag(true) => value > 1.0
    case Flag(false) => value > 0.0
  }

  /** The facts contradict an enforced requirement. */
  predicate Violates(f: Facts, r: Rule) {
    var d := f.device;
    match r.control
    case FileVault => Truthy(r.required) && d.encrypted == Some(false)
    case Firewall => Truthy(r.required) && d.firewall == Some(false)
    case Gatekeeper => Truthy(r.required) && d.gatekeeper == Some(false)
    case ScreenLock => Truthy(r.required) && d.screenLock == Some(false)
    case MaxCheckinAge =>
      d.lastCheckin.Some? && Exceeds((f.now - d.lastCheckin.value) as real / 3600.0, r.required)
    case CriticalUpdates => Exceeds(f.critical as real, r.required)
    case Psso => Truthy(r.required) && d.psso == NotConfigured
    case Other(_) => false
  }

  /** The device never reported what an enforced requirement is about. */
  predicate Unreported(f: Facts, r: Rule) {
    var d := f.device;
    match r.control
    case FileVault => Truthy(r.required) && d.encrypted == None
    case Firewall => Truthy(r.required) && d.firewall == None
    case Gatekeeper => Truthy(r.required) && d.gatekeeper == None
    case ScreenLock => Truthy(r.required) && d.screenLock == None
    case MaxCheckinAge => d.lastCheckin == None
    case CriticalUpdates => false
    case Psso => Truthy(r.required) && d.psso == OtherPsso
    case Other(_) => false
  }

  lemma OutcomeByFacts(f: Facts, r: Rule)
    ensures Enforced(r) && OutcomeOf(f, r) == Failing <==> Violates(f, r)
    ensures Enforced(r) && OutcomeOf(f, r) == Unknown <==> Unreported(f, r)
  {
  }

  lemma {:induction false} ListedEmptyIff(f: Facts, rules: Rules, outcome: Outcome)
    ensures Listed(f, rules, outcome) == [] <==>
      forall i :: 0 <= i < |rules| ==> !(Enforced(rules[i]) && OutcomeOf(f, rules[i]) == outcome)
  {
    if rules != [] {
      ListedEmptyIff(f, rules[..|rules| - 1], outcome);
    }
  }

  /** A device is non_compliant exactly when the facts contradict some enforced requirement. */
  lemma NonCompliantIffViolated(f: Facts, rules: Rules)
    ensures Evaluate(f, rules).status == NonCompliant <==> exists i :: 0 <= i < |rules| && Violates(f, rules[i])
  {
    ListedEmptyIff(f, rules, Failing);
    forall i | 0 <= i < |rules|
      ensures Enforced(rules[i]) && OutcomeOf(f, rules[i]) == Failing <==> Violates(f, rules[i])
    {
      OutcomeByFacts(f, rules[i]);
    }
  }

  /** It is unknown exactly when some enforced requirement is unreported and no other one is enforced. */
  lemma UndeterminedIff(f: Facts, rules: Rules)
    ensures Evaluate(f, rules).status == Undetermined <==>
      && (exists i :: 0 <= i < |rules| && Unreported(f, rules[i]))
      && (forall i :: 0 <= i < |rules| && Enforced(rules[i]) ==> Unreported(f, rules[i]))
  {
    ListedEmptyIff(f, rules, Failing);
    ListedEmptyIff(f, rules, Passing);
    ListedEmptyIff(f, rules, Unknown);
    forall i | 0 <= i < |rules|
      ensures Enforced(rules[i]) && OutcomeOf(f, rules[i]) == Unknown <==> Unreported(f, rules[i])
    {
      OutcomeByFacts(f, rules[i]);
    }
  }

  // ----- Weakening a policy -----

  predicate HasThreshold(c: Control) {
    c.MaxCheckinAge? || c.CriticalUpdates?
  }

  /** A higher threshold, or a requirement dropped. */
  predicate Relaxed(weak: Rule, strict: Rule) {
    && weak.control == strict.control
    && (Enforced(weak) ==> Enforced(strict))
    && (HasThreshold(weak.control) ==> Threshold(weak.required) >= Threshold(strict.required))
  }

  /** Every rule that is left relaxes a rule of the stricter policy. */
  predicate Weaker(weak: Rules, strict: Rules) {
    forall i :: 0 <= i < |weak| ==> exists j :: 0 <= j < |strict| && Relaxed(weak[i], strict[j])
  }

  lemma RelaxedFailsLess(f: Facts, weak: Rule, strict: Rule)
    requires Relaxed(weak, strict) && Enforced(weak) && OutcomeOf(f, weak) == Failing
    ensures Enforced(strict) && OutcomeOf(f, strict) == Failing
  {
  }

  /** Weakening a policy never adds a failing control, so never makes a device non_compliant. */
  lemma WeakeningNeverFails(f: Facts, weak: Rules, strict: Rules)
    requires Weaker(weak, strict)
    ensures forall c :: c in Evaluate(f, weak).failing ==> c in Evaluate(f, strict).failing
    ensures Evaluate(f, weak).status == NonCompliant ==> Evaluate(f, strict).status == NonCompliant
  {
    forall c | c in Evaluate(f, weak).failing ensures c in Evaluate(f, strict).failing {
      ListedIff(f, weak, Failing, c);
      ListedIff(f, strict, Failing, c);
      var i :| 0 <= i < |weak| && weak[i].control == c && Enforced(weak[i]) && OutcomeOf(f, weak[i]) == Failing;
      var j :| 0 <= j < |strict| && Relaxed(weak[i], strict[j]);
      RelaxedFailsLess(f, weak[i], strict[j]);
    }
    if Evaluate(f, weak).failing != [] {
      assert Evaluate(f, weak).failing[0] in Evaluate(f, strict).failing;
    }
  }

  /** But it can cost a device its "compliant": dropping the one control that passed leaves only unknowns. */
  lemma WeakeningCanLoseCompliance(f: Facts)
    requires f.device.encrypted == Some(true) && f.device.firewall == None
    ensures var strict := [Rule(FileVault, Flag(true)), Rule(Firewall, Flag(true))];
      var weak := [Rule(FileVault, Flag(false)), Rule(Firewall, Flag(true))];
      Weaker(weak, strict) && Evaluate(f, strict).status == Compliant && Evaluate(f, weak).status == Undetermined
  {
    var strict := [Rule(FileVault, Flag(true)), Rule(Firewall, Flag(true))];
    var weak := [Rule(FileVault, Flag(false)), Rule(Firewall, Flag(true))];
    assert Relaxed(weak[0], strict[0]) && Relaxed(weak[1], strict[1]);
    TwoRules(f, strict[0], strict[1], Failing);
    TwoRules(f, strict[0], strict[1], Passing);
    TwoRules(f, weak[0], weak[1], Failing);
    TwoRules(f, weak[0], weak[1], Passing);
    TwoRules(f, weak[0], weak[1], Unknown);
  }

  lemma TwoRules(f: Facts, a: Rule, b: Rule, outcome: Outcome)
    ensures Listed(f, [a, b], outcome) == Share(f, a, outcome) + Share(f, b, outcome)
  {
    assert [a, b][..1] == [a] && [a][..0] == [];
    assert Listed(f, [a], outcome) == Listed(f, [], outcome) + Share(f, a, outcome);
  }

  // ----- Recording -----

  predicate OnePerPair(rows: seq<Row>) {
    forall i, j :: 0 <= i < j < |rows| ==> !(rows[i].device == rows[j].device && rows[i].policy == rows[j].policy)
  }

  function Lookup(rows: seq<Row>, device: string, policy: string): Option<Row> {
    match Position(rows, device, policy)
    case Some(i) => Some(rows[i])
    case None => None
  }

  lemma UpsertKeepsOne(rows: seq<Row>, row: Row)
    requires OnePerPair(rows)
    ensures OnePerPair(Upsert(rows, row))
  {
  }

  lemma FoundAt(rows: seq<Row>, i: nat)
    requires OnePerPair(rows) && i < |rows|
    ensures Lookup(rows, rows[i].device, rows[i].policy) == Some(rows[i])
  {
  }

  /** An upsert is what a later read of its pair returns, and no other pair's read changes. */
  lemma UpsertThenLookup(rows: seq<Row>, row: Row, device: string, policy: string)
    requires OnePerPair(rows)
    ensures Lookup(Upsert(rows, row), device, policy)
         == if device == row.device && policy == row.policy then Some(row) else Lookup(rows, device, policy)
  {
    var next := Upsert(rows, row);
    UpsertKeepsOne(rows, row);
    var found := Position(rows, row.device, row.policy);
    var at := if found.Some? then found.value else |rows|;
    assert next[at] == row;
    FoundAt(next, at);
    match Position(rows, device, policy) {
      case Some(i) =>
        if i != at {
          assert next[i] == rows[i];
          FoundAt(next, i);
        }
      case None =>
    }
  }

  lemma {:induction false} EvaluateEachKeepsOne(rows: seq<Row>, f: Facts, policies: seq<Policy>)
    requires OnePerPair(rows)
    ensures OnePerPair(EvaluateEach(rows, f, policies))
  {
    if policies != [] {
      EvaluateEachKeepsOne(rows, f, policies[..|policies| - 1]);
      UpsertKeepsOne(EvaluateEach(rows, f, policies[..|policies| - 1]), RowFor(f, policies[|policies| - 1]));
    }
  }

  /** A device's evaluation leaves the results of other devices and of other policies alone. */
  lemma {:induction false} OtherResultsStay(
      rows: seq<Row>, f: Facts, policies: seq<Policy>, device: string, policy: string)
    requires OnePerPair(rows)
    requires device != f.device.id || forall i :: 0 <= i < |policies| ==> policies[i].id != policy
    ensures Lookup(EvaluateEach(rows, f, policies), device, policy) == Lookup(rows, device, policy)
  {
    if policies != [] {
      var n := |policies| - 1;
      OtherResultsStay(rows, f, policies[..n], device, policy);
      EvaluateEachKeepsOne(rows, f, policies[..n]);
      UpsertThenLookup(EvaluateEach(rows, f, policies[..n]), RowFor(f, policies[n]), device, policy);
    }
  }

  /** Afterwards each evaluated policy's result is its own report. */
  lemma {:induction false} EvaluationIsRecorded(rows: seq<Row>, f: Facts, policies: seq<Policy>, k: nat)
    requires OnePerPair(rows) && k < |policies|
    requires forall i, j :: 0 <= i < j < |policies| ==> policies[i].id != policies[j].id
    ensures Lookup(EvaluateEach(rows, f, policies), f.device.id, policies[k].id)
         == Some(Row(f.device.id, policies[k].id, Evaluate(f, policies[k].rules), f.now))
  {
    var n := |policies| - 1;
    EvaluateEachKeepsOne(rows, f, policies[..n]);
    UpsertThenLookup(EvaluateEach(rows, f, policies[..n]), RowFor(f, policies[n]), f.device.id, policies[k].id);
    if k < n {
      EvaluationIsRecorded(rows, f, policies[..n], k);
    }
  }

  // ----- Runs of evaluations -----

  datatype CheckIn = CheckIn(facts: Facts, policies: seq<Policy>)

  function Run(events: seq<CheckIn>): seq<Row> {
    if events == [] then []
    else
      var e := events[|events| - 1];
      EvaluateEach(Run(events[..|events| - 1]), e.facts, Active(e.policies))
  }

  /** However often devices are evaluated, there is at most one result per device and policy. */
  lemma {:induction false} OneResultInEveryRun(events: seq<CheckIn>)
    ensures OnePerPair(Run(events))
  {
    if events != [] {
      var e := events[|events| - 1];
      OneResultInEveryRun(events[..|events| - 1]);
      EvaluateEachKeepsOne(Run(events[..|events| - 1]), e.facts, Active(e.policies));
    }
  }
}
