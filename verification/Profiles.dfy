/** Configuration profiles: the version history and the diff between consecutive versions. */
module Profiles {
  import opened Prelude

  // ----- JSON payloads and Python's == on them -----

  datatype Json =
    | Null
    | Bool(b: bool)
    | Int(n: int)
    | Float(x: real)
    | Str(s: string)
    | List(items: seq<Json>)
    | Dict(fields: map<string, Json>)

  type Payload = map<string, Json>

  /** One value from each class of equal Python values: True == 1 == 1.0. */
  function Canon(j: Json): Json {
    match j
    case Bool(b) => Int(if b then 1 else 0)
    case Float(x) => if x == x.Floor as real then Int(x.Floor) else j
    case List(items) => List(seq(|items|, i requires 0 <= i < |items| => Canon(items[i])))
    case Dict(fields) => Dict(map k | k in fields :: Canon(fields[k]))
    case _ => j
  }

  predicate PyEq(a: Json, b: Json) {
    Canon(a) == Canon(b)
  }

  predicate PayloadsEq(a: Payload, b: Payload) {
    a.Keys == b.Keys && forall k :: k in a.Keys ==> PyEq(a[k], b[k])
  }

  /** The number a JSON value is in Python, if it is one. */
  function NumberOf(j: Json): Option<real> {
    match j
    case Bool(true) => Some(1.0)
    case Bool(false) => Some(0.0)
    case Int(n) => Some(n as real)
    case Float(x) => Some(x)
    case _ => None
  }

  /** Numbers and booleans are equal exactly when their values are, and to nothing else. */
  lemma NumbersCompareByValue(a: Json, b: Json)
    requires NumberOf(a).Some? || NumberOf(b).Some?
    ensures PyEq(a, b) <==> NumberOf(a) == NumberOf(b)
  {
  }

  /** Texts compare as texts, lists place by place, dictionaries key by key, and None to None. */
  lemma OthersCompareByParts(a: Json, b: Json)
    requires NumberOf(a).None? && NumberOf(b).None?
    ensures PyEq(a, b) <==>
      match (a, b)
      case (Null, Null) => true
      case (Str(s), Str(t)) => s == t
      case (List(xs), List(ys)) => |xs| == |ys| && forall i :: 0 <= i < |xs| ==> PyEq(xs[i], ys[i])
      case (Dict(p), Dict(q)) => PayloadsEq(p, q)
      case _ => false
  {
    match (a, b)
    case (List(xs), List(ys)) =>
      ListsCompare(xs, ys);
    case (Dict(p), Dict(q)) =>
      DictsCompare(p, q);
    case _ =>
  }

  lemma ListsCompare(xs: seq<Json>, ys: seq<Json>)
    ensures PyEq(List(xs), List(ys)) <==> |xs| == |ys| && forall i :: 0 <= i < |xs| ==> PyEq(xs[i], ys[i])
  {
    var cx := seq(|xs|, i requires 0 <= i < |xs| => Canon(xs[i]));
    var cy := seq(|ys|, i requires 0 <= i < |ys| => Canon(ys[i]));
    assert Canon(List(xs)) == List(cx) && Canon(List(ys)) == List(cy);
    assert PyEq(List(xs), List(ys)) <==> cx == cy;
    if cx == cy {
      assert |xs| == |cx| == |cy| == |ys|;
      forall i | 0 <= i < |xs| ensures PyEq(xs[i], ys[i]) {
        assert cx[i] == cy[i];
      }
    } else if |xs| == |ys| {
      var i :| 0 <= i < |xs| && cx[i] != cy[i];
      assert !PyEq(xs[i], ys[i]);
    }
  }

  lemma DictsCompare(p: map<string, Json>, q: map<string, Json>)
    ensures PyEq(Dict(p), Dict(q)) <==> PayloadsEq(p, q)
  {
    var cp := map k | k in p :: Canon(p[k]);
    var cq := map k | k in q :: Canon(q[k]);
    assert Canon(Dict(p)) == Dict(cp) && Canon(Dict(q)) == Dict(cq);
    assert cp.Keys == p.Keys && cq.Keys == q.Keys;
    assert cp == cq ==> forall k :: k in p ==> cp[k] == cq[k];
  }

  // ----- The diff -----

  datatype Change = Change(from: Json, to: Json)
  datatype Diff = Diff(added: Payload, removed: Payload, changed: map<string, Change>)

  function DiffOf(prev: Payload, curr: Payload): Diff {
    Diff(
      map k | k in curr && k !in prev :: curr[k],
      map k | k in prev && k !in curr :: prev[k],
      map k | k in curr && k in prev && !PyEq(curr[k], prev[k]) :: Change(prev[k], curr[k]))
  }

  /** What a reader of the diff does with it. */
  function Apply(d: Diff, p: Payload): Payload {
    (p - d.removed.Keys) + d.added + (map k | k in d.changed :: d.changed[k].to)
  }

  /** Some key keeps its Python value but not its JSON text, as in 1 becoming true. */
  ghost predicate SilentChange(prev: Payload, curr: Payload) {
    exists k :: k in prev && k in curr && PyEq(curr[k], prev[k]) && curr[k] != prev[k]
  }

  /** Each key is in exactly one of added, removed, changed and unchanged, with the values of both sides. */
  lemma DiffClassifies(prev: Payload, curr: Payload, k: string)
    ensures var d := DiffOf(prev, curr);
      && d.added.Keys !! d.removed.Keys && d.added.Keys !! d.changed.Keys && d.removed.Keys !! d.changed.Keys
      && (k in d.added <==> k in curr && k !in prev)
      && (k in d.removed <==> k in prev && k !in curr)
      && (k in d.changed ==> d.changed[k] == Change(prev[k], curr[k]))
      && ((k !in d.added && k !in d.removed && k !in d.changed) <==>
          ((k in prev <==> k in curr) && (k in prev ==> PyEq(prev[k], curr[k]))))
  {
  }

  /** What a key holds after applying the diff: the old value where Python saw no change, else the new one. */
  lemma AppliedAt(start: Payload, prev: Payload, curr: Payload, k: string)
    requires start.Keys == prev.Keys
    ensures var r := Apply(DiffOf(prev, curr), start);
      && (k in r <==> k in curr)
      && (k in curr ==> r[k] == if k in prev && PyEq(curr[k], prev[k]) then start[k] else curr[k])
  {
    assert k in start.Keys <==> k in prev.Keys;
  }

  /** Applied to anything equal to the previous payload, the diff gives something equal to the current one. */
  lemma ApplyDiffEq(start: Payload, prev: Payload, curr: Payload)
    requires PayloadsEq(start, prev)
    ensures PayloadsEq(Apply(DiffOf(prev, curr), start), curr)
  {
    var r := Apply(DiffOf(prev, curr), start);
    forall k: string ensures (k in r <==> k in curr) && (k in curr ==> PyEq(r[k], curr[k])) {
      AppliedAt(start, prev, curr, k);
    }
  }

  /** The diff restores the current payload exactly unless a value changed only in its JSON type. */
  lemma ApplyDiffIff(prev: Payload, curr: Payload)
    ensures Apply(DiffOf(prev, curr), prev) == curr <==> !SilentChange(prev, curr)
  {
    var r := Apply(DiffOf(prev, curr), prev);
    forall k: string
      ensures k in r <==> k in curr
      ensures k in curr ==> r[k] == if k in prev && PyEq(curr[k], prev[k]) then prev[k] else curr[k]
    {
      AppliedAt(prev, prev, curr, k);
    }
    if SilentChange(prev, curr) {
      var k :| k in prev && k in curr && PyEq(curr[k], prev[k]) && curr[k] != prev[k];
      assert r[k] == prev[k];
    }
  }

  /** Such a change exists: 1 becoming true leaves an empty diff. */
  lemma OneBecomesTrue(k: string)
    ensures var p: Payload, c: Payload := map[k := Int(1)], map[k := Bool(true)];
      DiffOf(p, c) == Diff(map[], map[], map[]) && p != c
  {
    var p: Payload, c: Payload := map[k := Int(1)], map[k := Bool(true)];
    assert Int(1) != Bool(true) && p[k] != c[k];
    assert PyEq(c[k], p[k]);
    assert DiffOf(p, c).changed.Keys == {};
  }

  // ----- The store -----

  datatype Profile = Profile(name: string, payload: Payload, signedXml: Option<string>)
  datatype Version = Version(profile: string, version: int, snapshot: Payload, note: Option<string>)
  datatype Store = Store(profiles: map<string, Profile>, versions: seq<Version>)
  datatype Error = ProfileNotFound | VersionNotFound

  const INITIAL := Some("Initial version")

  /** The profile's version rows in insertion order. */
  function History(versions: seq<Version>, id: string): seq<Version> {
    if versions == [] then []
    else
      var n := |versions| - 1;
      History(versions[..n], id) + if versions[n].profile == id then [versions[n]] else []
  }

  /** select max(version) ... or 0 */
  function MaxVersion(versions: seq<Version>, id: string): int {
    if versions == [] then 0
    else
      var n := |versions| - 1;
      var before := MaxVersion(versions[..n], id);
      if versions[n].profile == id && versions[n].version > before then versions[n].version else before
  }

  /** by_ver.get(v): the last row wins, as in a dictionary comprehension. */
  function Find(versions: seq<Version>, id: string, v: int): Option<Version> {
    if versions == [] then None
    else
      var n := |versions| - 1;
      if versions[n].profile == id && versions[n].version == v then Some(versions[n])
      else Find(versions[..n], id, v)
  }

  function Without(versions: seq<Version>, id: string): seq<Version> {
    if versions == [] then []
    else
      var n := |versions| - 1;
      Without(versions[..n], id) + if versions[n].profile == id then [] else [versions[n]]
  }

  function Create(s: Store, id: string, name: string, payload: Payload): Store {
    Store(s.profiles[id := Profile(name, payload, None)], s.versions + [Version(id, 1, payload, INITIAL)])
  }

  /**
   * The payload the row holds once the session is flushed: the ORM writes an assigned attribute only
   * if it differs from the loaded one in Python's sense.
   */
  function Written(stored: Payload, given: Payload): Payload {
    if PayloadsEq(given, stored) then stored else given
  }

  /** The assignment is equal to what is stored, and so not written, though its JSON differs. */
  predicate Skipped(stored: Payload, given: Option<Payload>) {
    given.Some? && PayloadsEq(given.value, stored) && given.value != stored
  }

  function Edit(p: Profile, name: Option<string>, payload: Option<Payload>): Profile {
    Profile(name.GetOr(p.name), Written(p.payload, payload.GetOr(p.payload)),
      if payload.Some? then None else p.signedXml)
  }

  /** The new version's snapshot is the object in memory, whether or not the profile's row was written. */
  function Update(s: Store, id: string, name: Option<string>, payload: Option<Payload>, note: Option<string>): Store
    requires id in s.profiles
  {
    var p := s.profiles[id];
    var row := Version(id, MaxVersion(s.versions, id) + 1, payload.GetOr(p.payload), note);
    Store(s.profiles[id := Edit(p, name, payload)], s.versions + [row])
  }

  /** Version rows go with their profile (ON DELETE CASCADE). */
  function Delete(s: Store, id: string): Store {
    Store(s.profiles - {id}, Without(s.versions, id))
  }

  function DiffVersion(s: Store, id: string, v: int): Result<Diff, Error> {
    if id !in s.profiles then Err(ProfileNotFound)
    else
      match Find(s.versions, id, v)
      case None => Err(VersionNotFound)
      case Some(current) =>
        var previous := Find(s.versions, id, v - 1);
        Ok(DiffOf(if previous.Some? then previous.value.snapshot else map[], current.snapshot))
  }

  /** What an update leaves in the profile's row: what is given, and the cached XML only without a payload. */
  predicate WrittenAs(was: Profile, now: Profile, name: Option<string>, payload: Option<Payload>) {
    && now.name == (match name case Some(given) => given case None => was.name)
    && match payload
       case Some(given) => PayloadsEq(now.payload, given) && now.signedXml == None
       case None => now.payload == was.payload && now.signedXml == was.signedXml
  }

  /** One version row more, for this profile, with this snapshot and note. */
  predicate Appended(was: seq<Version>, now: seq<Version>, id: string, snapshot: Payload, note: Option<string>) {
    && |now| == |was| + 1 && now[..|was|] == was
    && now[|was|].profile == id && now[|was|].snapshot == snapshot && now[|was|].note == note
  }

  class ProfileStore {
    var profiles: map<string, Profile>
    var versions: seq<Version>

    function View(): Store
      reads this
    {
      Store(profiles, versions)
    }

    /** The new profile's id is a fresh uuid. */
    method CreateProfile(id: string, name: string, payload: Payload)
      requires id !in profiles
      modifies this
      ensures View() == Create(old(View()), id, name, payload)
      ensures profiles == old(profiles)[id := Profile(name, payload, None)]
      ensures versions == old(versions) + [Version(id, 1, payload, Some("Initial version"))]
    {
      profiles := profiles[id := Profile(name, payload, None)];
      versions := versions + [Version(id, 1, payload, INITIAL)];
    }

    method UpdateProfile(id: string, name: Option<string>, payload: Option<Payload>, note: Option<string>)
      returns (r: Result<Profile, Error>)
      modifies this
      ensures old(id !in profiles) ==> r == Err(ProfileNotFound) && View() == old(View())
      ensures old(id in profiles) ==>
        && View() == Update(old(View()), id, name, payload, note)
        && r == Ok(profiles[id].(payload := payload.GetOr(old(profiles)[id].payload)))
      ensures old(id in profiles) ==> WrittenAs(old(profiles)[id], profiles[id], name, payload)
      ensures old(id in profiles) ==> profiles == old(profiles)[id := profiles[id]]
      ensures old(id in profiles) ==> Appended(old(versions), versions, id,
        if payload.Some? then payload.value else old(profiles)[id].payload, note)
    {
      if id !in profiles {
        return Err(ProfileNotFound);
      }
      var p := profiles[id];
      if name.Some? {
        p := p.(name := name.value);
      }
      if payload.Some? {
        p := p.(payload := payload.value, signedXml := None);
      }
      var currentMax := MaxVersion(versions, id);
      var written := p.(payload := Written(profiles[id].payload, p.payload));
      profiles := profiles[id := written];
      versions := versions + [Version(id, currentMax + 1, p.payload, note)];
      r := Ok(p);
    }

    method DeleteProfile(id: string) returns (r: Result<(), Error>)
      modifies this
      ensures old(id !in profiles) ==> r == Err(ProfileNotFound) && View() == old(View())
      ensures old(id in profiles) ==> r == Ok(()) && View() == Delete(old(View()), id)
      ensures old(id in profiles) ==> profiles == old(profiles) - {id} && forall other ::
        History(versions, other) == if other == id then [] else History(old(versions), other)
    {
      if id !in profiles {
        return Err(ProfileNotFound);
      }
      forall other
        ensures History(Without(versions, id), other) == if other == id then [] else History(versions, other)
      {
        HistoryWithout(versions, id, other);
      }
      profiles := profiles - {id};
      versions := Without(versions, id);
      r := Ok(());
    }
  }

  // ----- Runs -----

  datatype Event =
    | Created(id: string, name: string, payload: Payload)
    | Updated(id: string, newName: Option<string>, newPayload: Option<Payload>, note: Option<string>)
    | Deleted(id: string)

  function Step(s: Store, e: Event): Store {
    match e
    case Created(id, name, payload) => if id in s.profiles then s else Create(s, id, name, payload)
    case Updated(id, name, payload, note) => if id in s.profiles then Update(s, id, name, payload, note) else s
    case Deleted(id) => if id in s.profiles then Delete(s, id) else s
  }

  function Run(events: seq<Event>): Store {
    if events == [] then Store(map[], []) else Step(Run(events[..|events| - 1]), events[|events| - 1])
  }

  predicate Numbered(history: seq<Version>) {
    forall i :: 0 <= i < |history| ==> history[i].version == i + 1
  }

  /** Versions 1..n in order, n > 0, the last one holding the current payload as Python compares it. */
  predicate Chain(history: seq<Version>, payload: Payload) {
    history != [] && Numbered(history) && PayloadsEq(history[|history| - 1].snapshot, payload)
  }

  predicate Chained(s: Store, id: string) {
    var history := History(s.versions, id);
    if id in s.profiles then Chain(history, s.profiles[id].payload) else history == []
  }

  lemma {:induction false} MaxIsCount(versions: seq<Version>, id: string)
    requires Numbered(History(versions, id))
    ensures MaxVersion(versions, id) == |History(versions, id)|
  {
    if versions != [] {
      HistoryFront(versions, id);
      MaxIsCount(versions[..|versions| - 1], id);
    }
  }

  lemma {:induction false} FindInHistory(versions: seq<Version>, id: string, v: int)
    requires Numbered(History(versions, id))
    ensures var h := History(versions, id);
      Find(versions, id, v) == if 1 <= v <= |h| then Some(h[v - 1]) else None
  {
    if versions != [] {
      HistoryFront(versions, id);
      FindInHistory(versions[..|versions| - 1], id, v);
    }
  }

  lemma HistoryFront(versions: seq<Version>, id: string)
    requires versions != [] && Numbered(History(versions, id))
    ensures var n := |versions| - 1; var h := History(versions, id); var front := History(versions[..n], id);
      && Numbered(front)
      && if versions[n].profile == id then h == front + [versions[n]] && versions[n].version == |h| else h == front
  {
    var n := |versions| - 1;
    var h, front := History(versions, id), History(versions[..n], id);
    assert forall i :: 0 <= i < |front| ==> front[i] == h[i];
    if versions[n].profile == id {
      assert h[|front|] == versions[n];
    }
  }

  lemma HistorySnoc(versions: seq<Version>, row: Version, id: string)
    ensures History(versions + [row], id) == History(versions, id) + if row.profile == id then [row] else []
  {
    assert (versions + [row])[..|versions|] == versions;
  }

  lemma {:induction false} HistoryWithout(versions: seq<Version>, gone: string, id: string)
    ensures History(Without(versions, gone), id) == if id == gone then [] else History(versions, id)
  {
    if versions != [] {
      var n := |versions| - 1;
      HistoryWithout(versions[..n], gone, id);
      if versions[n].profile != gone {
        HistorySnoc(Without(versions[..n], gone), versions[n], id);
      } else {
        assert Without(versions, gone) == Without(versions[..n], gone);
      }
    }
  }

  /** A row for the next version extends the chain; a row of another profile does not touch it. */
  lemma AppendKeepsChain(s: Store, id: string, p: Profile, row: Version, other: string)
    requires Chained(s, other) && row.profile == id && PayloadsEq(row.snapshot, p.payload)
    requires row.version == if id in s.profiles then MaxVersion(s.versions, id) + 1 else 1
    ensures Chained(Store(s.profiles[id := p], s.versions + [row]), other)
  {
    HistorySnoc(s.versions, row, other);
    if other == id {
      MaxIsCount(s.versions, id);
    }
  }

  lemma StepKeepsChain(s: Store, e: Event, id: string)
    requires Chained(s, id)
    ensures Chained(Step(s, e), id)
  {
    match e
    case Created(other, name, payload) =>
      if other !in s.profiles {
        AppendKeepsChain(s, other, Profile(name, payload, None), Version(other, 1, payload, INITIAL), id);
      }
    case Updated(other, name, payload, note) =>
      if other in s.profiles {
        var p := Edit(s.profiles[other], name, payload);
        var snapshot := payload.GetOr(s.profiles[other].payload);
        AppendKeepsChain(s, other, p, Version(other, MaxVersion(s.versions, other) + 1, snapshot, note), id);
      }
    case Deleted(other) => HistoryWithout(s.versions, other, id);
  }

  /** In every run a profile's versions are exactly 1..n and the last snapshot equals the current payload. */
  lemma {:induction false} VersionsAreChained(events: seq<Event>, id: string)
    ensures Chained(Run(events), id)
  {
    if events != [] {
      VersionsAreChained(events[..|events| - 1], id);
      StepKeepsChain(Run(events[..|events| - 1]), events[|events| - 1], id);
    }
  }

  /** The profile's last update assigned a payload that was not written. */
  predicate LastSkipped(events: seq<Event>, id: string) {
    events != [] &&
    var front, e := events[..|events| - 1], events[|events| - 1];
    var s := Run(front);
    match e
    case Created(other, _, _) => (other != id || id in s.profiles) && LastSkipped(front, id)
    case Updated(other, _, payload, _) =>
      if other == id && id in s.profiles then Skipped(s.profiles[id].payload, payload) else LastSkipped(front, id)
    case Deleted(other) => other != id && LastSkipped(front, id)
  }

  ghost predicate LastIsPayload(s: Store, id: string) {
    var h := History(s.versions, id);
    id in s.profiles && h != [] && h[|h| - 1].snapshot == s.profiles[id].payload
  }

  lemma OtherStepKeepsLast(s: Store, e: Event, id: string)
    requires e.id != id || (e.Created? && id in s.profiles) || (!e.Created? && id !in s.profiles)
    ensures LastIsPayload(Step(s, e), id) <==> LastIsPayload(s, id)
    ensures id in Step(s, e).profiles <==> id in s.profiles
  {
    var next := Step(s, e);
    if next != s {
      if e.Deleted? {
        HistoryWithout(s.versions, e.id, id);
      } else {
        assert next.versions == s.versions + [next.versions[|s.versions|]];
        HistorySnoc(s.versions, next.versions[|s.versions|], id);
      }
    }
  }

  lemma OwnStepDecidesLast(s: Store, e: Event, id: string)
    requires e.id == id && !e.Deleted? && (e.Created? <==> id !in s.profiles)
    ensures id in Step(s, e).profiles
    ensures LastIsPayload(Step(s, e), id) <==> e.Created? || !Skipped(s.profiles[id].payload, e.newPayload)
  {
    var next := Step(s, e);
    assert next.versions == s.versions + [next.versions[|s.versions|]];
    HistorySnoc(s.versions, next.versions[|s.versions|], id);
  }

  /** They are the same JSON exactly when the last update was not one the ORM took for no change. */
  lemma {:induction false} LastSnapshotIsPayloadIff(events: seq<Event>, id: string)
    requires id in Run(events).profiles
    ensures LastIsPayload(Run(events), id) <==> !LastSkipped(events, id)
  {
    var front, e := events[..|events| - 1], events[|events| - 1];
    var s := Run(front);
    if e.id != id || (e.Created? && id in s.profiles) || (!e.Created? && id !in s.profiles) {
      OtherStepKeepsLast(s, e, id);
      LastSnapshotIsPayloadIff(front, id);
    } else if !e.Deleted? {
      OwnStepDecidesLast(s, e, id);
    }
  }

  /** The snapshot of version v; before the first version there is {}. */
  function Snapshot(h: seq<Version>, v: nat): Payload
    requires v <= |h|
  {
    if v == 0 then map[] else h[v - 1].snapshot
  }

  /** The endpoint answers for exactly the versions 1..n, with the diff from the previous snapshot or from {}. */
  lemma DiffOfVersionK(s: Store, id: string, v: int)
    requires Chained(s, id)
    ensures var h := History(s.versions, id);
      && (DiffVersion(s, id, v).Ok? <==> 1 <= v <= |h|)
      && (1 <= v <= |h| ==> DiffVersion(s, id, v) == Ok(DiffOf(Snapshot(h, v - 1), Snapshot(h, v))))
  {
    FindInHistory(s.versions, id, v);
    FindInHistory(s.versions, id, v - 1);
  }

  // ----- Rebuilding from diffs alone -----

  /** The diffs 1..v applied in turn to the empty payload; a missing version changes nothing. */
  function Rebuilt(s: Store, id: string, v: nat): Payload {
    if v == 0 then map[]
    else
      var before := Rebuilt(s, id, v - 1);
      var d := DiffVersion(s, id, v);
      if d.Ok? then Apply(d.value, before) else before
  }

  lemma RebuiltStep(s: Store, id: string, v: nat)
    requires Chained(s, id) && 0 < v <= |History(s.versions, id)|
    ensures var h := History(s.versions, id);
      Rebuilt(s, id, v) == Apply(DiffOf(Snapshot(h, v - 1), Snapshot(h, v)), Rebuilt(s, id, v - 1))
  {
    DiffOfVersionK(s, id, v);
  }

  lemma {:induction false} DiffsRebuildVersions(s: Store, id: string, v: nat)
    requires Chained(s, id) && v <= |History(s.versions, id)|
    ensures PayloadsEq(Rebuilt(s, id, v), Snapshot(History(s.versions, id), v))
  {
    var h := History(s.versions, id);
    if v > 0 {
      DiffsRebuildVersions(s, id, v - 1);
      RebuiltStep(s, id, v);
      ApplyDiffEq(Rebuilt(s, id, v - 1), Snapshot(h, v - 1), Snapshot(h, v));
    }
  }

  /** In every run, folding the diffs of all versions from {} gives back the payload, as Python compares it. */
  lemma DiffsRebuildPayload(events: seq<Event>, id: string)
    requires id in Run(events).profiles
    ensures var s := Run(events);
      PayloadsEq(Rebuilt(s, id, |History(s.versions, id)|), s.profiles[id].payload)
  {
    VersionsAreChained(events, id);
    DiffsRebuildVersions(Run(events), id, |History(Run(events).versions, id)|);
  }

  /** Each of the versions 0..n is rebuilt exactly. */
  predicate RebuiltExactly(s: Store, id: string, n: nat)
    requires n <= |History(s.versions, id)|
  {
    Rebuilt(s, id, n) == Snapshot(History(s.versions, id), n) && (n > 0 ==> RebuiltExactly(s, id, n - 1))
  }

  /** No step from one of the versions 0..n to the next is a silent change. */
  ghost predicate NoneSilent(h: seq<Version>, n: nat)
    requires n <= |h|
  {
    n > 0 ==> !SilentChange(Snapshot(h, n - 1), Snapshot(h, n)) && NoneSilent(h, n - 1)
  }

  /** One more version: it is rebuilt exactly just when nothing changed silently on the way to it. */
  lemma RebuiltStepIff(s: Store, id: string, v: nat)
    requires Chained(s, id) && 0 < v <= |History(s.versions, id)|
    requires Rebuilt(s, id, v - 1) == Snapshot(History(s.versions, id), v - 1)
    ensures var h := History(s.versions, id);
      Rebuilt(s, id, v) == Snapshot(h, v) <==> !SilentChange(Snapshot(h, v - 1), Snapshot(h, v))
  {
    var h := History(s.versions, id);
    RebuiltStep(s, id, v);
    ApplyDiffIff(Snapshot(h, v - 1), Snapshot(h, v));
  }

  /** Every version comes back exactly if and only if no update changed a value only in its JSON type. */
  lemma {:induction false} RebuiltExactlyIff(s: Store, id: string, n: nat)
    requires Chained(s, id) && n <= |History(s.versions, id)|
    ensures RebuiltExactly(s, id, n) <==> NoneSilent(History(s.versions, id), n)
  {
    if n > 0 {
      RebuiltExactlyIff(s, id, n - 1);
      if RebuiltExactly(s, id, n - 1) {
        RebuiltStepIff(s, id, n);
      }
    }
  }
}
