/** The JWT revocation check: one table of revoked tokens, one 60 s cache per worker process. */
module Revocation {
  import opened Prelude

  type Jti = string
  type Process = nat
  type Cache = map<Jti, real>

  const TTL := 60.0

  // ----- What get_current_user and _cache_invalidate do to one process's cache -----

  /** The cache lets the request through without a table query. */
  predicate Hit(cache: Cache, jti: Jti, now: real) {
    jti in cache && now - cache[jti] <= TTL
  }

  /** A whole check with nothing interleaved: (accepted, cache afterwards). */
  function Check(cache: Cache, revoked: set<Jti>, jti: Jti, now: real): (bool, Cache) {
    if Hit(cache, jti, now) then (true, cache)
    else if jti in revoked then (false, cache)
    else (true, cache[jti := now])
  }

  /**
   * One process serving its requests one at a time. `cache` is the module dictionary,
   * `revoked` the jtis of the committed rows.
   */
  class Worker {
    var cache: Cache
    var revoked: set<Jti>

    /** No revoked token is cached. */
    ghost predicate Valid()
      reads this
    {
      cache.Keys !! revoked
    }

    constructor ()
      ensures Valid() && cache == map[] && revoked == {}
    {
      cache, revoked := map[], {};
    }

    method CacheInvalidate(jti: Jti)
      modifies this`cache
      ensures cache == old(cache) - {jti}
    {
      cache := cache - {jti};
    }

    /** The revocation part of get_current_user; a token without jti is not checked. */
    method GetCurrentUser(jti: Option<Jti>, now: real) returns (accepted: bool)
      modifies this`cache
      ensures jti.None? ==> accepted && cache == old(cache)
      ensures jti.Some? ==> (accepted, cache) == Check(old(cache), revoked, jti.value, now)
      ensures old(Valid()) ==> Valid()
      ensures old(Valid()) && jti.Some? ==> (accepted <==> jti.value !in revoked)
    {
      accepted := true;
      if jti.Some? {
        var id := jti.value;
        if id !in cache || now - cache[id] > TTL {
          if id in revoked {
            return false;
          }
          cache := cache[id := now];
        }
      }
    }

    /** logout: row added, cache entry popped, row committed. */
    method Logout(jti: Jti)
      modifies this
      ensures revoked == old(revoked) + {jti} && cache == old(cache) - {jti}
      ensures old(Valid()) ==> Valid()
    {
      CacheInvalidate(jti);
      revoked := revoked + {jti};
    }

    /** The revocation in validate_2fa: row only. The cache stays clean exactly when it never held the temp token. */
    method ValidateTwoFactor(jti: Jti)
      modifies this`revoked
      ensures revoked == old(revoked) + {jti}
      ensures old(Valid()) ==> (Valid() <==> jti !in cache)
    {
      revoked := revoked + {jti};
    }
  }

  datatype Call = Ask(jti: Jti, now: real) | LogoutCall(jti: Jti) | TwoFactorCall(jti: Jti)

  /** The answers of a run of whole calls in one process. */
  function Answers(cache: Cache, revoked: set<Jti>, calls: seq<Call>): seq<bool>
    decreases calls
  {
    if calls == [] then []
    else match calls[0]
      case Ask(j, now) =>
        var (ok, cache') := Check(cache, revoked, j, now);
        [ok] + Answers(cache', revoked, calls[1..])
      case LogoutCall(j) => Answers(cache - {j}, revoked + {j}, calls[1..])
      case TwoFactorCall(j) => Answers(cache, revoked + {j}, calls[1..])
  }

  /** The same run with no cache at all. */
  function UncachedAnswers(revoked: set<Jti>, calls: seq<Call>): seq<bool>
    decreases calls
  {
    if calls == [] then []
    else match calls[0]
      case Ask(j, now) => [j !in revoked] + UncachedAnswers(revoked, calls[1..])
      case LogoutCall(j) => UncachedAnswers(revoked + {j}, calls[1..])
      case TwoFactorCall(j) => UncachedAnswers(revoked + {j}, calls[1..])
  }

  /** An entry made at `at` answers a later request for the token, before a logout pops it. */
  predicate UsedLater(jti: Jti, at: real, calls: seq<Call>) {
    calls != [] &&
    match calls[0]
      case Ask(j, now) => (j == jti && now - at <= 60.0) || UsedLater(jti, at, calls[1..])
      case LogoutCall(j) => j != jti && UsedLater(jti, at, calls[1..])
      case TwoFactorCall(_) => UsedLater(jti, at, calls[1..])
  }

  /** No cache entry that validate_2fa leaves behind for a token it revokes is used later. */
  predicate NoneLeftBehind(cache: Cache, revoked: set<Jti>, calls: seq<Call>)
    decreases calls
  {
    calls != [] ==>
      match calls[0]
      case Ask(j, now) => NoneLeftBehind(Check(cache, revoked, j, now).1, revoked, calls[1..])
      case LogoutCall(j) => NoneLeftBehind(cache - {j}, revoked + {j}, calls[1..])
      case TwoFactorCall(j) =>
        && (j in cache && j !in revoked ==> !UsedLater(j, cache[j], calls[1..]))
        && NoneLeftBehind(cache, revoked + {j}, calls[1..])
  }

  /** A revoked token is accepted at once exactly when an entry no older than the TTL is still cached for it. */
  lemma StaleAcceptIff(cache: Cache, revoked: set<Jti>, jti: Jti, now: real)
    requires jti in revoked
    ensures Check(cache, revoked, jti, now).0 <==> jti in cache && now <= cache[jti] + 60.0
    ensures Check(cache, revoked, jti, now).1 == cache
  {
  }

  ghost predicate NoneUsed(cache: Cache, revoked: set<Jti>, calls: seq<Call>) {
    forall j :: j in cache && j in revoked ==> !UsedLater(j, cache[j], calls)
  }

  lemma AskIsRight(cache: Cache, revoked: set<Jti>, j: Jti, now: real, rest: seq<Call>)
    ensures var calls := [Ask(j, now)] + rest; var (ok, cache') := Check(cache, revoked, j, now);
      NoneUsed(cache, revoked, calls) <==> (ok <==> j !in revoked) && NoneUsed(cache', revoked, rest)
  {
    var calls := [Ask(j, now)] + rest;
    var (ok, cache') := Check(cache, revoked, j, now);
    assert calls[1..] == rest;
    if j in revoked {
      StaleAcceptIff(cache, revoked, j, now);
    }
    forall x ensures x in cache && x in revoked <==> x in cache' && x in revoked {
    }
    forall x | x in cache && x in revoked
      ensures UsedLater(x, cache[x], calls) <==> (x == j && ok) || UsedLater(x, cache'[x], rest)
    {
    }
  }

  lemma LogoutIsRight(cache: Cache, revoked: set<Jti>, j: Jti, rest: seq<Call>)
    ensures NoneUsed(cache, revoked, [LogoutCall(j)] + rest) <==> NoneUsed(cache - {j}, revoked + {j}, rest)
  {
    assert ([LogoutCall(j)] + rest)[1..] == rest;
  }

  lemma TwoFactorIsRight(cache: Cache, revoked: set<Jti>, j: Jti, rest: seq<Call>)
    ensures var leaves := j in cache && j !in revoked && UsedLater(j, cache[j], rest);
      NoneUsed(cache, revoked, [TwoFactorCall(j)] + rest) && !leaves <==> NoneUsed(cache, revoked + {j}, rest)
  {
    assert ([TwoFactorCall(j)] + rest)[1..] == rest;
  }

  lemma {:induction false} AnswersAgreeIff(cache: Cache, revoked: set<Jti>, calls: seq<Call>)
    ensures Answers(cache, revoked, calls) == UncachedAnswers(revoked, calls)
       <==> NoneUsed(cache, revoked, calls) && NoneLeftBehind(cache, revoked, calls)
    decreases calls
  {
    if calls != [] {
      var call, rest := calls[0], calls[1..];
      assert calls == [call] + rest;
      match call
      case Ask(j, now) =>
        var (ok, cache') := Check(cache, revoked, j, now);
        AnswersAgreeIff(cache', revoked, rest);
        AskIsRight(cache, revoked, j, now, rest);
        ConsIff(ok, Answers(cache', revoked, rest), j !in revoked, UncachedAnswers(revoked, rest));
      case LogoutCall(j) =>
        AnswersAgreeIff(cache - {j}, revoked + {j}, rest);
        LogoutIsRight(cache, revoked, j, rest);
      case TwoFactorCall(j) =>
        AnswersAgreeIff(cache, revoked + {j}, rest);
        TwoFactorIsRight(cache, revoked, j, rest);
    }
  }

  /**
   * Served one at a time, the cached check answers exactly as if it always asked the table, if and
   * only if no token revoked by validate_2fa while cached is presented again within 60 s of its
   * entry, before a logout.
   */
  lemma CacheIsInvisibleIff(cache: Cache, revoked: set<Jti>, calls: seq<Call>)
    requires cache.Keys !! revoked
    ensures Answers(cache, revoked, calls) == UncachedAnswers(revoked, calls)
       <==> NoneLeftBehind(cache, revoked, calls)
  {
    AnswersAgreeIff(cache, revoked, calls);
  }

  /** With logouts alone the cache is never noticed. */
  lemma SequentialCacheIsInvisible(cache: Cache, revoked: set<Jti>, calls: seq<Call>)
    requires cache.Keys !! revoked && forall c :: c in calls ==> !c.TwoFactorCall?
    ensures Answers(cache, revoked, calls) == UncachedAnswers(revoked, calls)
  {
    NothingToLeaveBehind(cache, revoked, calls);
    CacheIsInvisibleIff(cache, revoked, calls);
  }

  lemma {:induction false} NothingToLeaveBehind(cache: Cache, revoked: set<Jti>, calls: seq<Call>)
    requires forall c :: c in calls ==> !c.TwoFactorCall?
    ensures NoneLeftBehind(cache, revoked, calls)
    decreases calls
  {
    if calls != [] {
      assert calls[0] in calls && forall c :: c in calls[1..] ==> c in calls;
      match calls[0]
      case Ask(j, now) => NothingToLeaveBehind(Check(cache, revoked, j, now).1, revoked, calls[1..]);
      case LogoutCall(j) => NothingToLeaveBehind(cache - {j}, revoked + {j}, calls[1..]);
    }
  }

  // ----- Every interleaving, over any number of processes -----

  /** A request between its awaits. `at` is the clock reading it took. */
  datatype Phase =
    | Begin
    | Clocked(at: real)
    | Missed(at: real)      // cache consulted, table query outstanding
    | Clear(at: real)       // query returned no row, cache not yet written
    | Accepted(at: real)
    | Rejected

  datatype Request = Request(process: Process, jti: Jti, phase: Phase)

  /** A transaction that adds a revocation row; validate_2fa never pops. */
  datatype Revoker = Revoker(process: Process, jti: Jti, open: bool)

  /** `table` maps each revoked jti to the time its row was committed. */
  datatype System = System(
    clock: real,
    table: map<Jti, real>,
    caches: map<Process, Cache>,
    requests: map<nat, Request>,
    revokers: map<nat, Revoker>)

  datatype Event =
    | Tick(elapsed: real)
    | Arrive(r: nat, process: Process, jti: Jti)
    | ReadClock(r: nat)
    | ReadCache(r: nat)
    | Query(r: nat)
    | WriteCache(r: nat)
    | AddRow(v: nat, process: Process, jti: Jti)
    | Pop(v: nat)
    | Commit(v: nat)
    | Abort(v: nat)

  function CacheOf(s: System, p: Process): Cache {
    if p in s.caches then s.caches[p] else map[]
  }

  function Advance(s: System, r: nat, phase: Phase): System
    requires r in s.requests
  {
    s.(requests := s.requests[r := s.requests[r].(phase := phase)])
  }

  /** One atomic action. An event that is not possible in `s` changes nothing. */
  function Step(s: System, e: Event): System {
    match e
    case Tick(d) => if d >= 0.0 then s.(clock := s.clock + d) else s
    case Arrive(r, p, j) =>
      if r in s.requests then s else s.(requests := s.requests[r := Request(p, j, Begin)])
    case ReadClock(r) =>
      if r in s.requests && s.requests[r].phase.Begin? then Advance(s, r, Clocked(s.clock)) else s
    case ReadCache(r) =>
      if r in s.requests && s.requests[r].phase.Clocked? then
        var q := s.requests[r];
        var hit := Hit(CacheOf(s, q.process), q.jti, q.phase.at);
        Advance(s, r, if hit then Accepted(q.phase.at) else Missed(q.phase.at))
      else s
    case Query(r) =>
      if r in s.requests && s.requests[r].phase.Missed? then
        Advance(s, r, if s.requests[r].jti in s.table then Rejected else Clear(s.requests[r].phase.at))
      else s
    case WriteCache(r) =>
      if r in s.requests && s.requests[r].phase.Clear? then
        var q := s.requests[r];
        Advance(s, r, Accepted(q.phase.at))
          .(caches := s.caches[q.process := CacheOf(s, q.process)[q.jti := q.phase.at]])
      else s
    case AddRow(v, p, j) =>
      if v in s.revokers then s else s.(revokers := s.revokers[v := Revoker(p, j, true)])
    case Pop(v) =>
      if v in s.revokers && s.revokers[v].open then
        var p := s.revokers[v].process;
        s.(caches := s.caches[p := CacheOf(s, p) - {s.revokers[v].jti}])
      else s
    case Commit(v) =>
      if v in s.revokers && s.revokers[v].open then
        var j := s.revokers[v].jti;
        // jti is unique: a second row fails and the transaction rolls back
        s.(revokers := s.revokers[v := s.revokers[v].(open := false)],
           table := if j in s.table then s.table else s.table[j := s.clock])
      else s
    case Abort(v) =>
      if v in s.revokers then s.(revokers := s.revokers[v := s.revokers[v].(open := false)]) else s
  }

  function Run(s: System, events: seq<Event>): System
    decreases events
  {
    if events == [] then s else Run(Step(s, events[0]), events[1..])
  }

  const Start := System(0.0, map[], map[], map[], map[])

  /** `at` is a reading taken no later than now, and before the token's row was committed. */
  ghost predicate Fresh(s: System, jti: Jti, at: real) {
    at <= s.clock && (jti in s.table ==> at <= s.table[jti])
  }

  ghost predicate PhaseInv(s: System, q: Request) {
    match q.phase
    case Clocked(at) => at <= s.clock
    case Missed(at) => at <= s.clock
    case Clear(at) => Fresh(s, q.jti, at)
    case Accepted(at) => at <= s.clock && (q.jti in s.table ==> at <= s.table[q.jti] + TTL)
    case _ => true
  }

  ghost predicate CacheInv(s: System, cache: Cache) {
    forall j :: j in cache ==> Fresh(s, j, cache[j])
  }

  ghost predicate Inv(s: System) {
    && (forall j :: j in s.table ==> s.table[j] <= s.clock)
    && (forall p :: p in s.caches ==> CacheInv(s, s.caches[p]))
    && (forall r :: r in s.requests ==> PhaseInv(s, s.requests[r]))
  }

  lemma StepKeepsCaches(s: System, e: Event, p: Process)
    requires Inv(s) && p in Step(s, e).caches
    ensures CacheInv(Step(s, e), Step(s, e).caches[p])
  {
    assert CacheInv(s, CacheOf(s, p));
    if e.WriteCache? && e.r in s.requests {
      assert PhaseInv(s, s.requests[e.r]);
    }
  }

  lemma StepKeepsRequests(s: System, e: Event, r: nat)
    requires Inv(s) && r in Step(s, e).requests
    ensures PhaseInv(Step(s, e), Step(s, e).requests[r])
  {
    if r in s.requests {
      assert PhaseInv(s, s.requests[r]);
      assert CacheInv(s, CacheOf(s, s.requests[r].process));
    }
  }

  lemma StepKeepsInv(s: System, e: Event)
    requires Inv(s)
    ensures Inv(Step(s, e))
  {
    var s' := Step(s, e);
    forall p | p in s'.caches ensures CacheInv(s', s'.caches[p]) {
      StepKeepsCaches(s, e, p);
    }
    forall r | r in s'.requests ensures PhaseInv(s', s'.requests[r]) {
      StepKeepsRequests(s, e, r);
    }
  }

  lemma {:induction false} RunKeepsInv(s: System, events: seq<Event>)
    requires Inv(s)
    ensures Inv(Run(s, events))
    decreases events
  {
    if events != [] {
      StepKeepsInv(s, events[0]);
      RunKeepsInv(Step(s, events[0]), events[1..]);
    }
  }

  /**
   * Bounded staleness: in every interleaving of requests, logouts and 2FA revocations over any
   * processes, an accepted request read its clock at most 60 s after the row was committed.
   */
  lemma StalenessBounded(events: seq<Event>, r: nat)
    ensures var s := Run(Start, events);
      r in s.requests && s.requests[r].phase.Accepted? && s.requests[r].jti in s.table ==>
        s.requests[r].phase.at <= s.table[s.requests[r].jti] + 60.0
  {
    RunKeepsInv(Start, events);
  }

  /** A request in process 1 that finds no row and caches the token at time 0. */
  function Warm(jti: Jti): seq<Event> {
    [Arrive(0, 1, jti), ReadClock(0), ReadCache(0), Query(0), WriteCache(0), AddRow(0, 0, jti), Pop(0), Commit(0)]
  }

  /** A second request in process 1, a minute after the logout in process 0. */
  function Stale(jti: Jti): seq<Event> {
    [Tick(60.0), Arrive(1, 1, jti), ReadClock(1), ReadCache(1)]
  }

  function AfterWarm(jti: Jti): System {
    System(0.0, map[jti := 0.0], map[1 := map[jti := 0.0], 0 := map[]],
      map[0 := Request(1, jti, Accepted(0.0))], map[0 := Revoker(0, jti, false)])
  }

  lemma WarmRequest(jti: Jti)
    ensures Run(Start, Warm(jti)) ==
      Run(Start.(requests := map[0 := Request(1, jti, Clear(0.0))]), Warm(jti)[4..])
  {
    var es := Warm(jti);
    RunFour(Start, es);
    assert Step(Step(Step(Step(Start, es[0]), es[1]), es[2]), es[3])
        == Start.(requests := map[0 := Request(1, jti, Clear(0.0))]);
  }

  lemma WarmRun(jti: Jti)
    ensures Run(Start, Warm(jti)) == AfterWarm(jti)
  {
    WarmRequest(jti);
    var s4 := Start.(requests := map[0 := Request(1, jti, Clear(0.0))]);
    RunFour(s4, Warm(jti)[4..]);
    var s5 := Step(s4, WriteCache(0));
    assert s5 == Start.(requests := map[0 := Request(1, jti, Accepted(0.0))], caches := map[1 := map[jti := 0.0]]);
    var s7 := Step(Step(s5, AddRow(0, 0, jti)), Pop(0));
    assert s7 == s5.(revokers := map[0 := Revoker(0, jti, true)], caches := map[1 := map[jti := 0.0], 0 := map[]]);
    assert Step(s7, Commit(0)) == AfterWarm(jti);
  }

  /** The bound is reached: a second worker accepts exactly 60 s after a logout on the first. */
  lemma StalenessBoundIsTight(jti: Jti)
    ensures var s := Run(Start, Warm(jti) + Stale(jti));
      && s.table == map[jti := 0.0]
      && 1 in s.requests && s.requests[1] == Request(1, jti, Accepted(60.0))
  {
    WarmRun(jti);
    RunAppend(Start, Warm(jti), Stale(jti));
    RunFour(AfterWarm(jti), Stale(jti));
  }

  lemma {:induction false} RunAppend(s: System, a: seq<Event>, b: seq<Event>)
    ensures Run(s, a + b) == Run(Run(s, a), b)
    decreases a
  {
    if a == [] {
      assert a + b == b;
    } else {
      assert (a + b)[1..] == a[1..] + b;
      RunAppend(Step(s, a[0]), a[1..], b);
    }
  }

  lemma RunFour(s: System, es: seq<Event>)
    requires |es| >= 4
    ensures Run(s, es) == Run(Step(Step(Step(Step(s, es[0]), es[1]), es[2]), es[3]), es[4..])
  {
    var s2 := Step(Step(s, es[0]), es[1]);
    assert Run(s, es) == Run(Step(s, es[0]), es[1..]) == Run(s2, es[1..][1..]);
    assert es[1..][1..] == es[2..];
    assert Run(s2, es[2..]) == Run(Step(s2, es[2]), es[2..][1..]);
    assert es[2..][1..] == es[3..] && es[3..][1..] == es[4..];
  }

  /** Run on its own, a request's four steps are one Check of its process's cache. */
  lemma UninterruptedRequestIsCheck(s: System, r: nat)
    requires r in s.requests && s.requests[r].phase.Begin?
    ensures var q := s.requests[r];
      var s' := Step(Step(Step(Step(s, ReadClock(r)), ReadCache(r)), Query(r)), WriteCache(r));
      var (ok, cache) := Check(CacheOf(s, q.process), s.table.Keys, q.jti, s.clock);
      s'.requests[r].phase == (if ok then Accepted(s.clock) else Rejected) && CacheOf(s', q.process) == cache
  {
  }

  /** Run on its own, a logout is Worker.Logout: its row committed, its own process's entry gone, no other touched. */
  lemma UninterruptedLogoutIsLogout(s: System, v: nat, p: Process, jti: Jti)
    requires v !in s.revokers
    ensures var s' := Step(Step(Step(s, AddRow(v, p, jti)), Pop(v)), Commit(v));
      && s'.table == (if jti in s.table then s.table else s.table[jti := s.clock])
      && CacheOf(s', p) == CacheOf(s, p) - {jti}
      && (forall q :: q != p ==> CacheOf(s', q) == CacheOf(s, q))
      && s'.requests == s.requests && s'.clock == s.clock
  {
  }

  /** The revocation of validate_2fa is the same without the pop: no cache is touched. */
  lemma UninterruptedTwoFactorKeepsCaches(s: System, v: nat, p: Process, jti: Jti)
    requires v !in s.revokers
    ensures var s' := Step(Step(s, AddRow(v, p, jti)), Commit(v));
      && s'.table == (if jti in s.table then s.table else s.table[jti := s.clock])
      && s'.caches == s.caches && s'.requests == s.requests && s'.clock == s.clock
  {
  }
}
