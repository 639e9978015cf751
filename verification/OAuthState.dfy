/** The OAuth state of django/users/api_views.py: minting binds a signed nonce to the
    browser session, validation accepts it once it comes back. JSON and HMAC are taken
    as an ideal codec and tag. */
module OAuthState {
  import opened Wrappers
  import opened Base64Url

  /** The signed fields; an absent field reads as "" or 0. */
  datatype Payload = Payload(nonce: string, issuedAt: int, next: string)

  datatype Codec = Codec(dump: Payload -> Bytes, load: Bytes -> Option<Payload>, mac: (Bytes, string) -> Bytes)

  ghost predicate Ideal(codec: Codec) {
    forall p :: codec.load(codec.dump(p)) == Some(p)
  }

  predicate Allowlisted(next: string) {
    next == "/dashboard"
  }

  // ---- Minting and validating -------------------------------------------------------------

  function Sign(codec: Codec, json: Bytes, secret: string): string {
    Encode(codec.mac(json, secret))
  }

  function StateOf(codec: Codec, p: Payload, secret: string): string {
    var json := codec.dump(p);
    Encode(json) + "." + Sign(codec, json, secret)
  }

  datatype Parts = Parts(payload: string, signature: string)

  /** `state.split(".", 1)`. */
  function SplitState(state: string): Option<Parts> {
    if state == "" then None
    else if state[0] == '.' then Some(Parts("", state[1..]))
    else
      var rest := SplitState(state[1..]);
      if rest.None? then None else Some(rest.value.(payload := [state[0]] + rest.value.payload))
  }

  datatype Refusal = InvalidState | StateExpired | InvalidRedirect

  datatype Accepted = Accepted(next: string, issuedAt: int)

  /** The signed payload of a state, if its tag is right. */
  function Opened(codec: Codec, secret: string, state: string): Option<Payload> {
    var parts := SplitState(state);
    if parts.None? then None
    else
      var json := Decode(parts.value.payload);
      if json.None? || Sign(codec, json.value, secret) != parts.value.signature then None
      else codec.load(json.value)
  }

  function Checked(p: Payload, session: Option<string>, now: int): Result<Accepted, Refusal> {
    var next := if p.next == "" then "/dashboard" else p.next;
    if p.nonce == "" || p.issuedAt == 0 then Err(InvalidState)
    else if now - p.issuedAt > 600 then Err(StateExpired)
    else if session.None? || session.value == "" || session.value != p.nonce then Err(InvalidState)
    else if !Allowlisted(next) then Err(InvalidRedirect)
    else Ok(Accepted(next, p.issuedAt))
  }

  function Validated(codec: Codec, secret: string, session: Option<string>, state: string, now: int): Result<Accepted, Refusal> {
    var p := Opened(codec, secret, state);
    if p.None? then Err(InvalidState) else Checked(p.value, session, now)
  }

  class Session {
    var nonce: Option<string>
    var issuedAt: Option<int>

    constructor ()
      ensures nonce.None? && issuedAt.None?
    {
      nonce, issuedAt := None, None;
    }

    method Mint(codec: Codec, secret: string, next: string, now: int, token: string) returns (state: string)
      modifies this
      ensures nonce == Some(token) && issuedAt == Some(now)
      ensures state == StateOf(codec, Payload(token, now, next), secret)
    {
      var json := codec.dump(Payload(token, now, next));
      var sig := Sign(codec, json, secret);
      nonce := Some(token);
      issuedAt := Some(now);
      state := Encode(json) + "." + sig;
    }

    /** The start route: only allowlisted targets are minted. */
    method Start(codec: Codec, secret: string, next: string, now: int, token: string) returns (state: Option<string>)
      modifies this
      ensures nonce == if Allowlisted(next) then Some(token) else old(nonce)
      ensures state == if Allowlisted(next) then Some(StateOf(codec, Payload(token, now, next), secret)) else None
    {
      if !Allowlisted(next) {
        return None;
      }
      var minted := Mint(codec, secret, next, now, token);
      state := Some(minted);
    }

    method Validate(codec: Codec, secret: string, state: string, now: int) returns (r: Result<Accepted, Refusal>)
      ensures r == Validated(codec, secret, nonce, state, now)
      ensures r.Ok? <==> Acceptable(codec, secret, nonce, state, now)
    {
      AcceptedIff(codec, secret, nonce, state, now);
      var parts := SplitState(state);
      if parts.None? {
        return Err(InvalidState);
      }
      var json := Decode(parts.value.payload);
      if json.None? {
        return Err(InvalidState);
      }
      if Sign(codec, json.value, secret) != parts.value.signature {
        return Err(InvalidState);
      }
      var payload := codec.load(json.value);
      if payload.None? {
        return Err(InvalidState);
      }
      r := Checked(payload.value, nonce, now);
    }
  }

  // ---- Opening what was minted -----------------------------------------------------------------

  lemma {:induction false} SplitAtDot(a: string, b: string)
    requires forall i :: 0 <= i < |a| ==> a[i] != '.'
    ensures SplitState(a + "." + b) == Some(Parts(a, b))
  {
    var s := a + "." + b;
    if a == "" {
      assert s[1..] == b;
    } else {
      SplitAtDot(a[1..], b);
      assert s[1..] == a[1..] + "." + b;
      assert [a[0]] + a[1..] == a;
    }
  }

  lemma MintedOpens(codec: Codec, secret: string, p: Payload)
    requires Ideal(codec)
    ensures Opened(codec, secret, StateOf(codec, p, secret)) == Some(p)
  {
    var json := codec.dump(p);
    EncodeShape(json);
    SplitAtDot(Encode(json), Sign(codec, json, secret));
    DecodeEncode(json);
  }

  // ---- Runs over many browser sessions -------------------------------------------------------------

  datatype Event =
    | Started(session: nat, next: string, now: int, nonce: string)
    | CalledBack(session: nat, state: string, now: int)

  predicate Mints(e: Event) {
    e.Started? && Allowlisted(e.next)
  }

  /** The nonce each session holds after a run. */
  function Nonces(events: seq<Event>): map<nat, string> {
    if events == [] then map[]
    else
      var before, e := Nonces(events[..|events| - 1]), events[|events| - 1];
      if Mints(e) then before[e.session := e.nonce] else before
  }

  function Held(events: seq<Event>, session: nat): Option<string> {
    if session in Nonces(events) then Some(Nonces(events)[session]) else None
  }

  /** Random nonces do not repeat, and the clock is past its origin. */
  ghost predicate FreshNonces(events: seq<Event>) {
    && (forall i :: 0 <= i < |events| && Mints(events[i]) ==> events[i].nonce != "" && events[i].now > 0)
    && (forall i, j :: 0 <= i < j < |events| && Mints(events[i]) && Mints(events[j]) ==> events[i].nonce != events[j].nonce)
  }

  ghost predicate LastMinted(events: seq<Event>, k: nat, session: nat) {
    && k < |events| && Mints(events[k]) && events[k].session == session
    && forall j :: k < j < |events| && Mints(events[j]) ==> events[j].session != session
  }

  lemma {:induction false} HeldIsLast(events: seq<Event>, session: nat)
    ensures session in Nonces(events) ==>
      exists k: nat :: LastMinted(events, k, session) && Nonces(events)[session] == events[k].nonce
  {
    if session in Nonces(events) {
      var before, last := events[..|events| - 1], |events| - 1;
      if Mints(events[last]) && events[last].session == session {
        assert LastMinted(events, last, session);
      } else {
        HeldIsLast(before, session);
        var k: nat :| LastMinted(before, k, session) && Nonces(before)[session] == before[k].nonce;
        assert LastMinted(events, k, session);
      }
    }
  }

  lemma {:induction false} LastIsHeld(events: seq<Event>, k: nat, session: nat)
    requires LastMinted(events, k, session)
    ensures Held(events, session) == Some(events[k].nonce)
  {
    var before, last := events[..|events| - 1], |events| - 1;
    if k == last {
    } else {
      assert LastMinted(before, k, session);
      LastIsHeld(before, k, session);
    }
  }

  /** A minted state validates, to the target it was minted for, for 600 seconds
      inclusive and exactly in the session whose last minted state it is. */
  lemma ValidatesIffLast(codec: Codec, secret: string, events: seq<Event>, k: nat, session: nat, now: int)
    requires Ideal(codec) && FreshNonces(events) && k < |events| && Mints(events[k])
    ensures var e := events[k];
      var r := Validated(codec, secret, Held(events, session), StateOf(codec, Payload(e.nonce, e.now, e.next), secret), now);
      && (r.Ok? <==> now - e.now <= 600 && LastMinted(events, k, session))
      && (r.Ok? ==> r.value == Accepted(e.next, e.now))
      && (r.Err? ==> r.error == if now - e.now > 600 then StateExpired else InvalidState)
  {
    var e := events[k];
    MintedOpens(codec, secret, Payload(e.nonce, e.now, e.next));
    HeldIsLast(events, session);
    if LastMinted(events, k, session) {
      LastIsHeld(events, k, session);
    }
  }

  // ---- Texts that were not minted ----------------------------------------------------------------

  predicate FirstDot(text: string, dot: nat) {
    dot < |text| && text[dot] == '.' && '.' !in text[..dot]
  }

  /** Up to its first '.' the text encodes these bytes, and the rest is their tag under
      the secret. */
  predicate SignedAt(codec: Codec, secret: string, text: string, dot: nat, json: Bytes) {
    FirstDot(text, dot) && Decode(text[..dot]) == Some(json) && text[dot + 1..] == Encode(codec.mac(json, secret))
  }

  ghost predicate Signed(codec: Codec, secret: string, text: string, json: Bytes) {
    exists dot: nat :: SignedAt(codec, secret, text, dot, json)
  }

  lemma SplitAtFirstDot(text: string, dot: nat)
    requires FirstDot(text, dot)
    ensures SplitState(text) == Some(Parts(text[..dot], text[dot + 1..]))
  {
    assert text == text[..dot] + "." + text[dot + 1..];
    SplitAtDot(text[..dot], text[dot + 1..]);
  }

  lemma {:induction false} SplitHasDot(text: string) returns (dot: nat)
    requires SplitState(text).Some?
    ensures FirstDot(text, dot)
  {
    if text[0] == '.' {
      dot := 0;
    } else {
      var later := SplitHasDot(text[1..]);
      dot := later + 1;
      assert text[..dot] == [text[0]] + text[1..][..later];
    }
  }

  lemma OneFirstDot(text: string, i: nat, j: nat)
    requires FirstDot(text, i) && FirstDot(text, j)
    ensures i == j
  {
    SplitAtFirstDot(text, i);
    SplitAtFirstDot(text, j);
    assert |text[..i]| == i && |text[..j]| == j;
  }

  lemma DotAfter(payload: string, tag: string)
    requires '.' !in payload
    ensures var text := payload + "." + tag;
      FirstDot(text, |payload|) && text[..|payload|] == payload && text[|payload| + 1..] == tag
  {
  }

  /** The fields are in place, issued at most 600 seconds ago, and name this session and
      an allowed target. */
  predicate Current(p: Payload, session: Option<string>, now: int) {
    && p.nonce != "" && session == Some(p.nonce) && p.issuedAt != 0 && now <= p.issuedAt + 600
    && (p.next == "" || p.next == "/dashboard")
  }

  lemma CheckedIff(p: Payload, session: Option<string>, now: int, r: Accepted)
    ensures Checked(p, session, now) == Ok(r) <==> Current(p, session, now) && r == Accepted("/dashboard", p.issuedAt)
  {
  }

  predicate AcceptableAt(codec: Codec, secret: string, session: Option<string>, text: string, now: int, dot: nat, json: Bytes) {
    && SignedAt(codec, secret, text, dot, json)
    && codec.load(json).Some? && Current(codec.load(json).value, session, now)
  }

  /** For every text whatsoever: what it takes to be accepted. */
  lemma AcceptedHas(codec: Codec, secret: string, session: Option<string>, text: string, now: int) returns (dot: nat, json: Bytes)
    requires Validated(codec, secret, session, text, now).Ok?
    ensures AcceptableAt(codec, secret, session, text, now, dot, json)
    ensures Validated(codec, secret, session, text, now).value == Accepted("/dashboard", codec.load(json).value.issuedAt)
  {
    dot := SplitHasDot(text);
    SplitAtFirstDot(text, dot);
    json := Decode(text[..dot]).value;
    CheckedIff(codec.load(json).value, session, now, Validated(codec, secret, session, text, now).value);
  }

  lemma AcceptableIsAccepted(codec: Codec, secret: string, session: Option<string>, text: string, now: int, dot: nat, json: Bytes)
    requires AcceptableAt(codec, secret, session, text, now, dot, json)
    ensures Validated(codec, secret, session, text, now) == Ok(Accepted("/dashboard", codec.load(json).value.issuedAt))
  {
    SplitAtFirstDot(text, dot);
    CheckedIff(codec.load(json).value, session, now, Accepted("/dashboard", codec.load(json).value.issuedAt));
  }

  ghost predicate Acceptable(codec: Codec, secret: string, session: Option<string>, text: string, now: int) {
    exists dot: nat, json :: AcceptableAt(codec, secret, session, text, now, dot, json)
  }

  /** So a text is accepted exactly when it is signed under the secret and holds current
      fields of this session. */
  lemma AcceptedIff(codec: Codec, secret: string, session: Option<string>, text: string, now: int)
    ensures Validated(codec, secret, session, text, now).Ok? <==> Acceptable(codec, secret, session, text, now)
  {
    if Validated(codec, secret, session, text, now).Ok? {
      var dot, json := AcceptedHas(codec, secret, session, text, now);
    }
    if Acceptable(codec, secret, session, text, now) {
      var dot: nat, json :| AcceptableAt(codec, secret, session, text, now, dot, json);
      AcceptableIsAccepted(codec, secret, session, text, now, dot, json);
    }
  }

  // ---- With an ideal tag ---------------------------------------------------------------------------

  /** A tag determines what was signed and the secret it was signed under. */
  ghost predicate IdealTag(codec: Codec) {
    forall j1, j2, s1, s2 :: codec.mac(j1, s1) == codec.mac(j2, s2) ==> j1 == j2 && s1 == s2
  }

  lemma EncodeInjective(a: Bytes, b: Bytes)
    requires Encode(a) == Encode(b)
    ensures a == b
  {
    DecodeEncode(a);
    DecodeEncode(b);
  }

  /** A payload before any tag but its own under the secret is refused. */
  lemma WrongTagIsRefused(codec: Codec, secret: string, session: Option<string>, now: int, json: Bytes, tag: string)
    requires tag != Encode(codec.mac(json, secret))
    ensures Validated(codec, secret, session, Encode(json) + "." + tag, now).Err?
  {
    var text := Encode(json) + "." + tag;
    EncodeShape(json);
    DecodeEncode(json);
    DotAfter(Encode(json), tag);
    if Validated(codec, secret, session, text, now).Ok? {
      var dot, accepted := AcceptedHas(codec, secret, session, text, now);
      OneFirstDot(text, dot, |Encode(json)|);
    }
  }

  /** So neither a changed payload nor a state minted under another secret is accepted,
      in any session at any time. */
  lemma TamperedIsRefused(
    codec: Codec, secret: string, session: Option<string>, now: int, json: Bytes, other: Bytes, otherSecret: string)
    requires IdealTag(codec) && (other != json || otherSecret != secret)
    ensures Validated(codec, secret, session, Encode(json) + "." + Encode(codec.mac(other, otherSecret)), now).Err?
  {
    if Encode(codec.mac(other, otherSecret)) == Encode(codec.mac(json, secret)) {
      EncodeInjective(codec.mac(other, otherSecret), codec.mac(json, secret));
    }
    WrongTagIsRefused(codec, secret, session, now, json, Encode(codec.mac(other, otherSecret)));
  }

  function MintedBytes(codec: Codec, e: Event): Bytes
    requires e.Started?
  {
    codec.dump(Payload(e.nonce, e.now, e.next))
  }

  /** The text ends in the tag that this event minted under this secret. */
  ghost predicate HasTagOf(codec: Codec, e: Event, secret: string, text: string) {
    Mints(e) && exists dot: nat :: FirstDot(text, dot) && text[dot + 1..] == Encode(codec.mac(MintedBytes(codec, e), secret))
  }

  /** Over every run of many sessions, with a secret that may change: if tags only come
      from minting, an accepted text holds the payload of the last state minted in that
      session, minted under the secret now in use. */
  lemma AcceptedWasMinted(
    codec: Codec, events: seq<Event>, k: nat, mintedUnder: string, session: nat, secret: string, text: string, now: int)
    requires Ideal(codec) && IdealTag(codec) && FreshNonces(events) && k < |events| && HasTagOf(codec, events[k], mintedUnder, text)
    requires Validated(codec, secret, Held(events, session), text, now).Ok?
    ensures LastMinted(events, k, session) && mintedUnder == secret && now <= events[k].now + 600
    ensures Validated(codec, secret, Held(events, session), text, now).value == Accepted("/dashboard", events[k].now)
    ensures Signed(codec, secret, text, MintedBytes(codec, events[k]))
  {
    var dot, json := AcceptedHas(codec, secret, Held(events, session), text, now);
    var i: nat :| FirstDot(text, i) && text[i + 1..] == Encode(codec.mac(MintedBytes(codec, events[k]), mintedUnder));
    OneFirstDot(text, i, dot);
    EncodeInjective(codec.mac(MintedBytes(codec, events[k]), mintedUnder), codec.mac(json, secret));
    HeldIsLast(events, session);
    var last: nat :| LastMinted(events, last, session) && Nonces(events)[session] == events[last].nonce;
    assert last == k;
  }
}
