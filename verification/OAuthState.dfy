/**
 * The signed state parameter of the two single sign-on flows. `mac` stands for HMAC-SHA256 with the
 * server's key, in hex.
 */
module OAuthState {
  import opened Prelude

  type Mac = string -> string

  // ----- str.rsplit(".", 1) and str.split("|", 1) -----

  function LastIndex(s: string, c: char): (r: Option<nat>)
    ensures r.None? <==> c !in s
    ensures r.Some? ==> r.value < |s| && s[r.value] == c && forall k :: r.value < k < |s| ==> s[k] != c
  {
    if s == "" then None
    else if s[|s| - 1] == c then Some(|s| - 1)
    else LastIndex(s[..|s| - 1], c)
  }

  function FirstIndex(s: string, c: char): (r: Option<nat>)
    ensures r.None? <==> c !in s
    ensures r.Some? ==> r.value < |s| && s[r.value] == c && forall k :: 0 <= k < r.value ==> s[k] != c
  {
    if s == "" then None
    else if s[0] == c then Some(0)
    else
      var rest := FirstIndex(s[1..], c);
      if rest.Some? then Some(rest.value + 1) else None
  }

  // ----- The code -----

  function Sign(mac: Mac, payload: string): string {
    payload + ['.'] + mac(payload)
  }

  function MakeState(mac: Mac, nonce: string, origin: string): string {
    Sign(mac, nonce + ['|'] + origin)
  }

  /** The payload of a state whose signature matches. */
  function Authentic(mac: Mac, state: string): Option<string> {
    match LastIndex(state, '.')
    case None => None
    case Some(i) => if state[i + 1..] == mac(state[..i]) then Some(state[..i]) else None
  }

  function VerifyState(mac: Mac, state: string): (bool, string) {
    match Authentic(mac, state)
    case None => (false, "")
    case Some(payload) =>
      match FirstIndex(payload, '|')
      case Some(i) => (true, payload[i + 1..])
      case None => (true, "")
  }

  const PREFIX := ['p', 'o', 'r', 't', 'a', 'l', '.']

  function PortalState(mac: Mac, nonce: string, next: string): string {
    Sign(mac, PREFIX + nonce + ['|'] + next)
  }

  /** The next URL, or None for the 400 answer. */
  function PortalCallback(mac: Mac, state: string): Option<string> {
    match Authentic(mac, state)
    case None => None
    case Some(raw) =>
      if !(PREFIX <= raw) then None
      else
        var rest := raw[|PREFIX|..];
        match FirstIndex(rest, '|')
        case Some(i) => Some(rest[i + 1..])
        case None => None
  }

  // ----- Splitting undoes joining -----

  lemma {:induction false} LastSplit(head: string, c: char, tail: string)
    requires c !in tail
    ensures LastIndex(head + [c] + tail, c) == Some(|head|)
    decreases |tail|
  {
    var s := head + [c] + tail;
    if tail == "" {
      assert s[|s| - 1] == c;
    } else {
      var n := |tail| - 1;
      assert s[|s| - 1] == tail[n] && tail[n] in tail;
      assert s[..|s| - 1] == head + [c] + tail[..n];
      LastSplit(head, c, tail[..n]);
    }
  }

  lemma FirstSplit(head: string, c: char, tail: string)
    ensures FirstIndex(head + [c] + tail, c).Some?
    ensures FirstIndex(head + [c] + tail, c).value <= |head|
    ensures FirstIndex(head + [c] + tail, c) == Some(|head|) <==> c !in head
  {
    var s := head + [c] + tail;
    assert s[|head|] == c;
    assert forall k :: 0 <= k < |head| ==> s[k] == head[k];
  }

  ghost predicate DotFree(mac: Mac) {
    forall p :: '.' !in mac(p)
  }

  /** A state passes the signature check with payload p exactly when it is p signed. */
  lemma AuthenticIff(mac: Mac, state: string, payload: string)
    requires DotFree(mac)
    ensures Authentic(mac, state) == Some(payload) <==> state == Sign(mac, payload)
  {
    if state == Sign(mac, payload) {
      LastSplit(payload, '.', mac(payload));
      assert state[|payload| + 1..] == mac(payload) && state[..|payload|] == payload;
    } else if LastIndex(state, '.').Some? {
      var i := LastIndex(state, '.').value;
      assert state == state[..i] + ['.'] + state[i + 1..];
    }
  }

  /** _verify_state accepts exactly the signed texts. */
  lemma AcceptedIffSigned(mac: Mac, state: string)
    requires DotFree(mac)
    ensures VerifyState(mac, state).0 <==> exists p :: state == p + ['.'] + mac(p)
  {
    if p :| state == p + ['.'] + mac(p) {
      AuthenticIff(mac, state, p);
    }
    if VerifyState(mac, state).0 {
      var p := Authentic(mac, state).value;
      AuthenticIff(mac, state, p);
      assert state == p + ['.'] + mac(p);
    }
  }

  /** Verifying a made state gives its origin back, whatever that holds, exactly when the nonce has no bar. */
  lemma StateRoundTripIff(mac: Mac, nonce: string, origin: string)
    requires DotFree(mac)
    ensures VerifyState(mac, MakeState(mac, nonce, origin)).0
    ensures VerifyState(mac, MakeState(mac, nonce, origin)) == (true, origin) <==> '|' !in nonce
    ensures var payload := nonce + ['|'] + origin; MakeState(mac, nonce, origin) == payload + ['.'] + mac(payload)
  {
    var payload := nonce + ['|'] + origin;
    AuthenticIff(mac, Sign(mac, payload), payload);
    FirstSplit(nonce, '|', origin);
    var i := FirstIndex(payload, '|').value;
    if i == |nonce| {
      assert payload[i + 1..] == origin;
    } else {
      assert |payload[i + 1..]| > |origin|;
    }
  }

  /** Whatever the callback answers a URL to was made by portal_sso_login, for that URL. */
  lemma AcceptedPortalState(mac: Mac, state: string) returns (nonce: string)
    requires DotFree(mac) && PortalCallback(mac, state).Some?
    ensures '|' !in nonce && state == PortalState(mac, nonce, PortalCallback(mac, state).value)
  {
    var raw := Authentic(mac, state).value;
    AuthenticIff(mac, state, raw);
    var rest := raw[|PREFIX|..];
    var i := FirstIndex(rest, '|').value;
    nonce := rest[..i];
    assert raw == PREFIX + nonce + ['|'] + rest[i + 1..];
  }

  /** The callback answers with a URL exactly for the states portal_sso_login makes for that URL. */
  lemma PortalAcceptsIff(mac: Mac, state: string, next: string)
    requires DotFree(mac)
    ensures PortalCallback(mac, state) == Some(next) <==> MadeFor(mac, state, next)
  {
    if MadeFor(mac, state, next) {
      var nonce :| '|' !in nonce &&
        var raw := ['p', 'o', 'r', 't', 'a', 'l', '.'] + nonce + ['|'] + next;
        state == raw + ['.'] + mac(raw);
      PortalRoundTrip(mac, nonce, next);
    } else if PortalCallback(mac, state).Some? {
      var nonce := AcceptedPortalState(mac, state);
    }
  }

  ghost predicate MadeFor(mac: Mac, state: string, next: string) {
    exists nonce :: '|' !in nonce &&
      var raw := ['p', 'o', 'r', 't', 'a', 'l', '.'] + nonce + ['|'] + next;
      state == raw + ['.'] + mac(raw)
  }

  lemma PortalRoundTrip(mac: Mac, nonce: string, next: string)
    requires DotFree(mac) && '|' !in nonce
    ensures PortalCallback(mac, PortalState(mac, nonce, next)) == Some(next)
  {
    var raw := PREFIX + nonce + ['|'] + next;
    AuthenticIff(mac, Sign(mac, raw), raw);
    FirstSplit(nonce, '|', next);
    assert raw[|PREFIX|..] == nonce + ['|'] + next;
    assert (nonce + ['|'] + next)[|nonce| + 1..] == next;
  }

  /** A dashboard state never passes for a portal state: its nonce has no dot. */
  lemma DashboardStateIsNotPortal(mac: Mac, nonce: string, origin: string)
    requires DotFree(mac) && '.' !in nonce
    ensures PortalCallback(mac, MakeState(mac, nonce, origin)) == None
  {
    var payload := nonce + ['|'] + origin;
    AuthenticIff(mac, Sign(mac, payload), payload);
    if |nonce| > 6 {
      assert payload[6] == nonce[6] && nonce[6] in nonce;
    } else {
      assert payload[|nonce|] == '|';
    }
  }
}
