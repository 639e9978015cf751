/** One browser tab composed with the server over a network that delays, reorders
    and loses refresh requests and responses. Refresh tokens travel in the JSON
    body. Unless the page is reloaded while its stored secret is on its way, no
    secret is ever sent in two refresh requests, so the server never takes its
    reuse branch; and each such reload can send one twice. */
module RefreshProtocol {
  import opened Wrappers
  import opened ApiClient
  import SingleFlight
  import Auth = AuthStore
  import Calls = AuthCalls
  import AuthInvariants

  /** A refresh POST on its way; `number` says which refresh of the tab it is. */
  datatype Up = Up(number: nat, secret: Option<Secret>)

  datatype Down =
    | RefreshDown(number: nat, answer: Option<Tokens>)
    | SignInDown(issued: Tokens)

  datatype System = System(tab: Tab, server: Auth.Store, up: seq<Up>, down: seq<Down>)

  /** Issued access tokens are inputs; `wait` is time passing on the server. */
  datatype Event =
    | BeginRequest(url: string)
    | Answer401(request: nat)
    | AnswerOther(request: nat, ok: bool)
    | RefreshErrors
    | ServeRefresh(index: nat, wait: nat, minted: Secret, access: Access, client: Auth.Client)
    | ServeSignIn(wait: nat, call: Calls.Call, access: Access)
    | Deliver(index: nat)
    | LoseUp(index: nat)
    | LoseDown(index: nat)
    | Reload

  function Without<T>(s: seq<T>, i: nat): (r: seq<T>)
    requires i < |s|
    ensures |r| == |s| - 1
    ensures forall k :: 0 <= k < |r| ==> r[k] == if k < i then s[k] else s[k + 1]
  {
    s[..i] + s[i + 1..]
  }

  function ReplyTokens(reply: Calls.Reply, access: Access): Option<Tokens> {
    if reply.SignedIn? then Some(Tokens(access, reply.refreshToken)) else None
  }

  predicate IsSignIn(call: Calls.Call) {
    call.Login? || call.Register? || call.OAuth?
  }

  function Next(cfg: Calls.Config, sys: System, e: Event): System {
    match e
    case BeginRequest(url) => sys.(tab := Start(sys.tab, url))
    case Answer401(k) =>
      if k >= |sys.tab.requests| then sys
      else
        var tab := Unauthorized(sys.tab, k);
        if tab.refreshPending && !sys.tab.refreshPending
        then sys.(tab := tab, up := sys.up + [Up(sys.tab.settled, sys.tab.refreshToken)])
        else sys.(tab := tab)
    case AnswerOther(k, ok) => if k < |sys.tab.requests| then sys.(tab := Answered(sys.tab, k, ok)) else sys
    case RefreshErrors => sys.(tab := RefreshSettled(sys.tab, None))
    case ServeRefresh(i, wait, minted, access, client) =>
      if i >= |sys.up| then sys
      else
        var left := sys.(up := Without(sys.up, i));
        if sys.up[i].secret.None? then left.(down := sys.down + [RefreshDown(sys.up[i].number, None)])
        else
          var event := Calls.Event(wait, Calls.Refresh(sys.up[i].secret.value, minted, client));
          left.(server := Calls.After(cfg, sys.server, event),
                down := sys.down + [RefreshDown(sys.up[i].number, ReplyTokens(Calls.Answer(cfg, sys.server, event), access))])
    case ServeSignIn(wait, call, access) =>
      if !IsSignIn(call) then sys
      else
        var event := Calls.Event(wait, call);
        var tokens := ReplyTokens(Calls.Answer(cfg, sys.server, event), access);
        sys.(server := Calls.After(cfg, sys.server, event),
             down := if tokens.Some? then sys.down + [SignInDown(tokens.value)] else sys.down)
    case Deliver(i) =>
      if i >= |sys.down| then sys
      else
        var left := sys.(down := Without(sys.down, i));
        (match sys.down[i]
         case SignInDown(tokens) => left.(tab := StoreTokens(sys.tab, tokens))
         case RefreshDown(number, tokens) =>
           if sys.tab.refreshPending && number == sys.tab.settled
           then left.(tab := RefreshSettled(sys.tab, tokens)) else left)
    case LoseUp(i) => if i < |sys.up| then sys.(up := Without(sys.up, i)) else sys
    case LoseDown(i) => if i < |sys.down| then sys.(down := Without(sys.down, i)) else sys
    case Reload => sys.(tab := SingleFlight.Reloaded(sys.tab), down := [])
  }

  /** Minted secrets are non-empty and new to the server. */
  predicate Legal(sys: System, e: Event) {
    match e
    case ServeRefresh(_, _, minted, _, _) => minted != "" && Calls.Unstored(sys.server, minted)
    case ServeSignIn(_, call, _) => IsSignIn(call) ==> call.minted != "" && Calls.Unstored(sys.server, call.minted)
    case _ => true
  }

  /** A reload is safe unless the stored secret is the one a pending refresh sent. */
  predicate SafeReload(tab: Tab) {
    !tab.refreshPending || tab.refreshToken.None? || !WasSent(tab.outbox, tab.refreshToken.value)
  }

  predicate ReloadsSafely(cfg: Calls.Config, sys: System, events: seq<Event>)
    decreases |events|
  {
    || events == []
    || ((events[0].Reload? ==> SafeReload(sys.tab)) && ReloadsSafely(cfg, Next(cfg, sys, events[0]), events[1..]))
  }

  function Run(cfg: Calls.Config, sys: System, events: seq<Event>): System
    decreases |events|
  {
    if events == [] then sys else Run(cfg, Next(cfg, sys, events[0]), events[1..])
  }

  predicate LegalRun(cfg: Calls.Config, sys: System, events: seq<Event>)
    decreases |events|
  {
    events == [] || (Legal(sys, events[0]) && LegalRun(cfg, Next(cfg, sys, events[0]), events[1..]))
  }

  function Initial(start: Auth.Time): System {
    System(SingleFlight.NEW_TAB, Calls.EmptyStore(start), [], [])
  }

  // ---- What the two sides must never do ---------------------------------------------

  ghost predicate NoSecretSentTwice(outbox: seq<Message>) {
    forall i, j :: 0 <= i < j < |outbox| && outbox[i].RefreshSend? && outbox[j].RefreshSend? && outbox[i].secret.Some? ==>
      outbox[i] != outbox[j]
  }

  predicate NoReuseDetected(s: Auth.Store) {
    forall i :: 0 <= i < |s.audit| ==> s.audit[i].action != "auth.refresh_reuse"
  }

  // ---- The invariant ------------------------------------------------------------------

  predicate WasSent(outbox: seq<Message>, secret: Secret) {
    RefreshSend(Some(secret)) in outbox
  }

  predicate LiveRow(s: Auth.Store, secret: Secret) {
    exists i :: 0 <= i < |s.refresh| && s.refresh[i].tokenHash == Auth.HashToken(secret) && s.refresh[i].revokedAt.None?
  }

  predicate KnownRow(s: Auth.Store, secret: Secret) {
    exists i :: 0 <= i < |s.refresh| && s.refresh[i].tokenHash == Auth.HashToken(secret)
  }

  function DownSecret(d: Down): Option<Secret> {
    match d
    case RefreshDown(_, tokens) => if tokens.Some? then Some(tokens.value.refreshToken) else None
    case SignInDown(tokens) => Some(tokens.refreshToken)
  }

  /** A secret nobody has used yet: not sent, and unrevoked on the server. */
  predicate Unused(sys: System, secret: Secret) {
    secret != "" && !WasSent(sys.tab.outbox, secret) && LiveRow(sys.server, secret)
  }

  ghost predicate TabOk(sys: System) {
    && SingleFlight.FlightOk(sys.tab) && NoSecretSentTwice(sys.tab.outbox)
    && (forall x :: WasSent(sys.tab.outbox, x) ==> KnownRow(sys.server, x))
    && (sys.tab.refreshToken.Some? ==>
          Unused(sys, sys.tab.refreshToken.value) || (sys.tab.refreshPending && WasSent(sys.tab.outbox, sys.tab.refreshToken.value)))
  }

  ghost predicate UpOk(sys: System) {
    && (forall i :: 0 <= i < |sys.up| && sys.up[i].secret.Some? ==>
          WasSent(sys.tab.outbox, sys.up[i].secret.value) && LiveRow(sys.server, sys.up[i].secret.value))
    && (forall i, j :: 0 <= i < j < |sys.up| && sys.up[i].secret.Some? ==> sys.up[i].secret != sys.up[j].secret)
  }

  ghost predicate DownOk(sys: System) {
    && (forall i :: 0 <= i < |sys.down| && DownSecret(sys.down[i]).Some? ==>
          Unused(sys, DownSecret(sys.down[i]).value) && DownSecret(sys.down[i]) != sys.tab.refreshToken)
    && (forall i, j :: 0 <= i < j < |sys.down| && DownSecret(sys.down[i]).Some? ==>
          DownSecret(sys.down[i]) != DownSecret(sys.down[j]))
  }

  ghost predicate SystemOk(sys: System) {
    AuthInvariants.Inv(sys.server) && NoReuseDetected(sys.server) && TabOk(sys) && UpOk(sys) && DownOk(sys)
  }

  // ---- The server's side ---------------------------------------------------------------

  lemma KnownStays(s: Auth.Store, t: Auth.Store, secret: Secret)
    requires AuthInvariants.Grows(s, t) && KnownRow(s, secret)
    ensures KnownRow(t, secret)
  {
    var i :| 0 <= i < |s.refresh| && s.refresh[i].tokenHash == Auth.HashToken(secret);
    assert AuthInvariants.RefreshGrows(s.refresh[i], t.refresh[i]);
  }

  /** A call other than revocation, seen from the secrets: `used` may be spent,
      every other live secret stays live, `minted` becomes live on success. */
  ghost predicate Served(s: Auth.Store, t: Auth.Store, used: Option<Secret>, minted: Secret, reply: Calls.Reply) {
    && AuthInvariants.Inv(t) && NoReuseDetected(t) && AuthInvariants.Grows(s, t)
    && (forall x :: LiveRow(s, x) && used != Some(x) ==> LiveRow(t, x))
    && (reply.SignedIn? ==> reply.refreshToken == minted && LiveRow(t, minted))
  }

  lemma LiveRowFound(s: Auth.Store, secret: Secret)
    requires AuthInvariants.Inv(s) && LiveRow(s, secret)
    ensures Auth.FindRefresh(s.refresh, Auth.HashToken(secret)).Some?
    ensures s.refresh[Auth.FindRefresh(s.refresh, Auth.HashToken(secret)).value].revokedAt.None?
  {
  }

  lemma RefreshRows(cfg: Calls.Config, s: Auth.Store, e: Calls.Event, id: Auth.TokenId)
    requires AuthInvariants.Inv(s) && e.call.Refresh? && LiveRow(s, e.call.presented)
    requires Auth.FindRefresh(s.refresh, Auth.HashToken(e.call.presented)) == Some(id)
    ensures var t := Calls.After(cfg, s, e);
      && |s.refresh| <= |t.refresh| && (forall i :: 0 <= i < |s.refresh| && i != id ==> t.refresh[i] == s.refresh[i])
      && (Calls.Answer(cfg, s, e).SignedIn? ==>
            Calls.Answer(cfg, s, e).refreshToken == e.call.minted && LiveRow(t, e.call.minted))
      && (NoReuseDetected(s) ==> NoReuseDetected(t))
  {
    LiveRowFound(s, e.call.presented);
    var t := Calls.After(cfg, s, e);
    if Calls.Answer(cfg, s, e).SignedIn? {
      assert t.refresh[|s.refresh|].tokenHash == Auth.HashToken(e.call.minted);
    }
  }

  lemma ServeRefreshOk(cfg: Calls.Config, s: Auth.Store, e: Calls.Event)
    requires AuthInvariants.Inv(s) && NoReuseDetected(s) && e.call.Refresh?
    requires LiveRow(s, e.call.presented) && Calls.Unstored(s, e.call.minted)
    ensures Served(s, Calls.After(cfg, s, e), Some(e.call.presented), e.call.minted, Calls.Answer(cfg, s, e))
  {
    var t := Calls.After(cfg, s, e);
    assert AuthInvariants.Inv(t) && AuthInvariants.Grows(s, t) by {
      AuthInvariants.EventSafe(cfg, s, e);
    }
    LiveRowFound(s, e.call.presented);
    var id := Auth.FindRefresh(s.refresh, Auth.HashToken(e.call.presented)).value;
    RefreshRows(cfg, s, e, id);
    forall x | LiveRow(s, x) && x != e.call.presented ensures LiveRow(t, x) {
      var i :| 0 <= i < |s.refresh| && s.refresh[i].tokenHash == Auth.HashToken(x) && s.refresh[i].revokedAt.None?;
      assert i != id && t.refresh[i] == s.refresh[i];
    }
  }

  lemma ServeSignInOk(cfg: Calls.Config, s: Auth.Store, e: Calls.Event)
    requires AuthInvariants.Inv(s) && NoReuseDetected(s) && IsSignIn(e.call) && Calls.Unstored(s, e.call.minted)
    ensures Served(s, Calls.After(cfg, s, e), None, e.call.minted, Calls.Answer(cfg, s, e))
  {
    var t := Calls.After(cfg, s, e);
    AuthInvariants.EventSafe(cfg, s, e);
    SignInAudits(cfg, Calls.At(s, e), e.call);
    SignInRows(cfg, Calls.At(s, e), e.call);
    forall x | LiveRow(s, x) ensures LiveRow(t, x) {
      var i :| 0 <= i < |s.refresh| && s.refresh[i].tokenHash == Auth.HashToken(x) && s.refresh[i].revokedAt.None?;
      assert t.refresh[i] == s.refresh[i];
    }
    if Calls.Answer(cfg, s, e).SignedIn? {
      assert t.refresh[|s.refresh|].tokenHash == Auth.HashToken(e.call.minted);
    }
  }

  lemma SignInAudits(cfg: Calls.Config, s: Auth.Store, call: Calls.Call)
    requires NoReuseDetected(s) && IsSignIn(call)
    ensures NoReuseDetected(Calls.Step(cfg, s, call).0)
  {
    match call
    case Register(_, _, _, _) =>
    case Login(email, password, _, client) =>
      assert NoReuseDetected(Calls.Authenticate(cfg, s, email, password, client).0);
    case OAuth(sub, email, verified, _, client) =>
      assert NoReuseDetected(Calls.ResolveOAuth(s, sub, email, verified, client).0);
  }

  lemma SignInRows(cfg: Calls.Config, s: Auth.Store, call: Calls.Call)
    requires IsSignIn(call)
    ensures var (t, reply) := Calls.Step(cfg, s, call);
      && s.refresh <= t.refresh
      && (reply.SignedIn? ==>
            && reply.refreshToken == call.minted && |t.refresh| == |s.refresh| + 1
            && t.refresh[|s.refresh|].tokenHash == Auth.HashToken(call.minted) && t.refresh[|s.refresh|].revokedAt.None?)
  {
    match call
    case Register(_, _, _, _) =>
    case Login(email, password, _, client) =>
      var _ := Calls.Authenticate(cfg, s, email, password, client);
    case OAuth(sub, email, verified, _, client) =>
      var _ := Calls.ResolveOAuth(s, sub, email, verified, client);
  }

  // ---- The tab's side ------------------------------------------------------------------

  /** A fresh secret is not live, not sent and not on its way anywhere. */
  lemma MintedIsNew(sys: System, minted: Secret)
    requires SystemOk(sys) && Calls.Unstored(sys.server, minted)
    ensures !WasSent(sys.tab.outbox, minted) && sys.tab.refreshToken != Some(minted)
    ensures forall i :: 0 <= i < |sys.down| ==> DownSecret(sys.down[i]) != Some(minted)
  {
    assert !KnownRow(sys.server, minted) && !LiveRow(sys.server, minted);
  }

  /** Replacing the server state while spending at most `used`. */
  lemma ServerMoves(sys: System, t: Auth.Store, used: Option<Secret>, minted: Secret, reply: Calls.Reply)
    requires SystemOk(sys) && Served(sys.server, t, used, minted, reply)
    requires used.Some? ==> WasSent(sys.tab.outbox, used.value)
    requires used.Some? ==> forall i :: 0 <= i < |sys.up| ==> sys.up[i].secret != used
    ensures SystemOk(sys.(server := t))
  {
    forall x | WasSent(sys.tab.outbox, x) ensures KnownRow(t, x) {
      KnownStays(sys.server, t, x);
    }
  }

  lemma DropUp(sys: System, i: nat)
    requires SystemOk(sys) && i < |sys.up|
    ensures SystemOk(sys.(up := Without(sys.up, i)))
    ensures sys.up[i].secret.Some? ==>
      forall k :: 0 <= k < |sys.up| - 1 ==> Without(sys.up, i)[k].secret != sys.up[i].secret
  {
  }

  lemma DropDown(sys: System, i: nat)
    requires SystemOk(sys) && i < |sys.down|
    ensures SystemOk(sys.(down := Without(sys.down, i)))
    ensures DownSecret(sys.down[i]).Some? ==>
      forall k :: 0 <= k < |sys.down| - 1 ==> DownSecret(Without(sys.down, i)[k]) != DownSecret(sys.down[i])
  {
  }

  lemma AddDown(sys: System, d: Down)
    requires SystemOk(sys)
    requires DownSecret(d).Some? ==> Unused(sys, DownSecret(d).value) && DownSecret(d) != sys.tab.refreshToken
    requires DownSecret(d).Some? ==> forall i :: 0 <= i < |sys.down| ==> DownSecret(sys.down[i]) != DownSecret(d)
    ensures SystemOk(sys.(down := sys.down + [d]))
  {
  }

  /** A tab step that sends no refresh and keeps, clears or replaces the stored
      secret by an unused one that is not on its way. */
  lemma TabMoves(sys: System, tab: Tab)
    requires SystemOk(sys) && SingleFlight.FlightOk(tab) && NoSecretSentTwice(tab.outbox)
    requires forall x :: WasSent(tab.outbox, x) <==> WasSent(sys.tab.outbox, x)
    requires tab.refreshToken.Some? ==>
      || (tab.refreshToken == sys.tab.refreshToken && (Unused(sys, tab.refreshToken.value) || tab.refreshPending))
      || (Unused(sys, tab.refreshToken.value) && forall i :: 0 <= i < |sys.down| ==> DownSecret(sys.down[i]) != tab.refreshToken)
    ensures SystemOk(sys.(tab := tab))
  {
  }

  lemma {:induction false} ResendsAreAppSends(requests: seq<Request>, n: nat, bearer: Option<Access>)
    requires n <= |requests|
    ensures forall i :: 0 <= i < |Resends(requests, n, bearer)| ==> Resends(requests, n, bearer)[i].AppSend?
  {
    if n == 0 {
    } else {
      ResendsAreAppSends(requests, n - 1, bearer);
    }
  }

  lemma AppSendsKeepSecrets(outbox: seq<Message>, more: seq<Message>)
    requires NoSecretSentTwice(outbox) && forall i :: 0 <= i < |more| ==> more[i].AppSend?
    ensures NoSecretSentTwice(outbox + more)
    ensures forall x :: WasSent(outbox + more, x) <==> WasSent(outbox, x)
  {
  }

  lemma BeginStep(sys: System, url: string)
    requires SystemOk(sys)
    ensures SystemOk(sys.(tab := Start(sys.tab, url)))
  {
    SingleFlight.BeginOk(sys.tab, url);
    AppSendsKeepSecrets(sys.tab.outbox, [AppSend(|sys.tab.requests|, sys.tab.token)]);
    TabMoves(sys, Start(sys.tab, url));
  }

  lemma RefreshSendKeepsSecrets(outbox: seq<Message>, secret: Option<Secret>)
    requires NoSecretSentTwice(outbox) && (secret.Some? ==> !WasSent(outbox, secret.value))
    ensures NoSecretSentTwice(outbox + [RefreshSend(secret)])
    ensures forall x :: WasSent(outbox + [RefreshSend(secret)], x) <==> WasSent(outbox, x) || secret == Some(x)
  {
  }

  /** Starting a refresh turns the stored secret from unused into sent. */
  lemma SendRefreshStep(sys: System, tab: Tab)
    requires SystemOk(sys) && !sys.tab.refreshPending
    requires SingleFlight.FlightOk(tab) && tab.refreshPending && tab.refreshToken == sys.tab.refreshToken
    requires tab.outbox == sys.tab.outbox + [RefreshSend(sys.tab.refreshToken)]
    ensures SystemOk(sys.(tab := tab, up := sys.up + [Up(sys.tab.settled, sys.tab.refreshToken)]))
  {
    var next := sys.(tab := tab, up := sys.up + [Up(sys.tab.settled, sys.tab.refreshToken)]);
    RefreshSendKeepsSecrets(sys.tab.outbox, sys.tab.refreshToken);
    if sys.tab.refreshToken.Some? {
      KnownIfLive(sys.server, sys.tab.refreshToken.value);
    }
    assert TabOk(next);
    assert UpOk(next);
    assert DownOk(next);
  }

  lemma Answer401Step(cfg: Calls.Config, sys: System, k: nat)
    requires SystemOk(sys) && k < |sys.tab.requests|
    ensures SystemOk(Next(cfg, sys, Answer401(k)))
  {
    var tab := Unauthorized(sys.tab, k);
    SingleFlight.UnauthorizedOk(sys.tab, k);
    if tab.refreshPending && !sys.tab.refreshPending {
      SendRefreshStep(sys, tab);
    } else {
      TabMoves(sys, tab);
    }
  }

  lemma KnownIfLive(s: Auth.Store, secret: Secret)
    requires LiveRow(s, secret)
    ensures KnownRow(s, secret)
  {
  }

  lemma SettleStep(sys: System, outcome: Option<Tokens>)
    requires SystemOk(sys) && sys.tab.refreshPending
    requires outcome.Some? ==> Unused(sys, outcome.value.refreshToken)
    requires outcome.Some? ==> forall i :: 0 <= i < |sys.down| ==> DownSecret(sys.down[i]) != Some(outcome.value.refreshToken)
    ensures SystemOk(sys.(tab := RefreshSettled(sys.tab, outcome)))
  {
    var tab := RefreshSettled(sys.tab, outcome);
    SingleFlight.SettledOk(sys.tab, outcome);
    var more := tab.outbox[|sys.tab.outbox|..];
    ResendsAreAppSends(sys.tab.requests, |sys.tab.requests|, tab.token);
    assert tab.outbox == sys.tab.outbox + more;
    AppSendsKeepSecrets(sys.tab.outbox, more);
    TabMoves(sys, tab);
  }

  lemma NextOk(cfg: Calls.Config, sys: System, e: Event)
    requires SystemOk(sys) && Legal(sys, e) && (e.Reload? ==> SafeReload(sys.tab))
    ensures SystemOk(Next(cfg, sys, e))
  {
    match e
    case BeginRequest(url) => BeginStep(sys, url);
    case Answer401(k) => if k < |sys.tab.requests| { Answer401Step(cfg, sys, k); }
    case AnswerOther(k, ok) =>
      if k < |sys.tab.requests| {
        SingleFlight.DoOk(sys.tab, SingleFlight.OnAnswer(k, ok));
        TabMoves(sys, Answered(sys.tab, k, ok));
      }
    case RefreshErrors =>
      if sys.tab.refreshPending {
        SettleStep(sys, None);
      }
    case ServeRefresh(i, wait, minted, access, client) =>
      if i < |sys.up| {
        ServeRefreshStep(cfg, sys, e);
      }
    case ServeSignIn(wait, call, access) =>
      if IsSignIn(call) {
        ServeSignInStep(cfg, sys, e);
      }
    case Deliver(i) => if i < |sys.down| { DeliverStep(cfg, sys, i); }
    case LoseUp(i) => if i < |sys.up| { DropUp(sys, i); }
    case LoseDown(i) => if i < |sys.down| { DropDown(sys, i); }
    case Reload => ReloadStep(sys);
  }

  lemma ReloadStep(sys: System)
    requires SystemOk(sys) && SafeReload(sys.tab)
    ensures SystemOk(sys.(tab := SingleFlight.Reloaded(sys.tab), down := []))
  {
    SingleFlight.ReloadedOk(sys.tab);
    TabMoves(sys.(down := []), SingleFlight.Reloaded(sys.tab));
  }

  lemma ServeSignInStep(cfg: Calls.Config, sys: System, e: Event)
    requires SystemOk(sys) && Legal(sys, e) && e.ServeSignIn? && IsSignIn(e.call)
    ensures SystemOk(Next(cfg, sys, e))
  {
    var event := Calls.Event(e.wait, e.call);
    var t := Calls.After(cfg, sys.server, event);
    ServeSignInOk(cfg, sys.server, event);
    MintedIsNew(sys, e.call.minted);
    ServerMoves(sys, t, None, e.call.minted, Calls.Answer(cfg, sys.server, event));
    if Calls.Answer(cfg, sys.server, event).SignedIn? {
      AddDown(sys.(server := t), SignInDown(Tokens(e.access, e.call.minted)));
    }
  }

  lemma ServeRefreshStep(cfg: Calls.Config, sys: System, e: Event)
    requires SystemOk(sys) && Legal(sys, e) && e.ServeRefresh? && e.index < |sys.up|
    ensures SystemOk(Next(cfg, sys, e))
  {
    var left := sys.(up := Without(sys.up, e.index));
    var number, secret := sys.up[e.index].number, sys.up[e.index].secret;
    DropUp(sys, e.index);
    if secret.None? {
      AddDown(left, RefreshDown(number, None));
    } else {
      var event := Calls.Event(e.wait, Calls.Refresh(secret.value, e.minted, e.client));
      var t := Calls.After(cfg, sys.server, event);
      var reply := Calls.Answer(cfg, sys.server, event);
      ServeRefreshOk(cfg, sys.server, event);
      MintedIsNew(sys, e.minted);
      ServerMoves(left, t, secret, e.minted, reply);
      AddDown(left.(server := t), RefreshDown(number, ReplyTokens(reply, e.access)));
    }
  }

  lemma DeliverStep(cfg: Calls.Config, sys: System, i: nat)
    requires SystemOk(sys) && i < |sys.down|
    ensures SystemOk(Next(cfg, sys, Deliver(i)))
  {
    var left := sys.(down := Without(sys.down, i));
    DropDown(sys, i);
    match sys.down[i]
    case SignInDown(tokens) =>
      SingleFlight.DoOk(sys.tab, SingleFlight.OnSignIn(tokens));
      TabMoves(left, StoreTokens(sys.tab, tokens));
    case RefreshDown(number, tokens) =>
      if sys.tab.refreshPending && number == sys.tab.settled {
        SettleStep(left, tokens);
      }
  }

  lemma {:induction false} RunOk(cfg: Calls.Config, sys: System, events: seq<Event>)
    requires SystemOk(sys) && LegalRun(cfg, sys, events) && ReloadsSafely(cfg, sys, events)
    ensures SystemOk(Run(cfg, sys, events))
    decreases |events|
  {
    if events == [] {
    } else {
      NextOk(cfg, sys, events[0]);
      RunOk(cfg, Next(cfg, sys, events[0]), events[1..]);
    }
  }

  lemma InitialOk(start: Auth.Time)
    ensures SystemOk(Initial(start))
  {
    SingleFlight.PlayOk(SingleFlight.NEW_TAB, []);
    assert SingleFlight.FlightOk(SingleFlight.NEW_TAB);
  }

  /** Client and server together, over every legal run with safe reloads. */
  lemma NoSecretIsReused(cfg: Calls.Config, start: Auth.Time, events: seq<Event>)
    requires LegalRun(cfg, Initial(start), events) && ReloadsSafely(cfg, Initial(start), events)
    ensures NoSecretSentTwice(Run(cfg, Initial(start), events).tab.outbox)
    ensures NoReuseDetected(Run(cfg, Initial(start), events).server)
  {
    InitialOk(start);
    RunOk(cfg, Initial(start), events);
  }

  // ---- Unsafe reloads ---------------------------------------------------------------------

  /** After any other reload, the first request answered 401 sends the secret again. */
  lemma UnsafeReloadResends(cfg: Calls.Config, sys: System, url: string)
    requires SystemOk(sys) && !SafeReload(sys.tab) && !IsAuthEndpoint(url)
    ensures var after := Next(cfg, sys, Reload);
      var more := [BeginRequest(url), Answer401(|sys.tab.requests|)];
      && LegalRun(cfg, after, more) && ReloadsSafely(cfg, after, more)
      && !NoSecretSentTwice(Run(cfg, after, more).tab.outbox)
  {
    var secret := sys.tab.refreshToken;
    var after := Next(cfg, sys, Reload);
    var more := [BeginRequest(url), Answer401(|sys.tab.requests|)];
    var begun := Next(cfg, after, more[0]);
    var end := Next(cfg, begun, more[1]);
    assert more[1..] == [more[1]] && more[1..][1..] == [];
    assert Run(cfg, end, []) == end;
    assert Run(cfg, begun, [more[1]]) == end;
    assert Run(cfg, after, more) == end;
    assert end.tab.outbox == sys.tab.outbox + [AppSend(|sys.tab.requests|, sys.tab.token)] + [RefreshSend(secret)];
    var i :| 0 <= i < |sys.tab.outbox| && sys.tab.outbox[i] == RefreshSend(secret);
    assert end.tab.outbox[i] == end.tab.outbox[|end.tab.outbox| - 1];
  }

  /** Whatever happens after a reload, no secret is sent twice: legal events, further
      reloads only where they are safe. */
  ghost predicate HarmlessFrom(cfg: Calls.Config, sys: System) {
    forall more :: LegalRun(cfg, sys, more) && ReloadsSafely(cfg, sys, more) ==> NoSecretSentTwice(Run(cfg, sys, more).tab.outbox)
  }

  /** In every state a legal run with safe reloads reaches: reloading the page is
      harmless for all that follows exactly when it is safe. */
  lemma ReloadIsHarmlessIff(cfg: Calls.Config, start: Auth.Time, events: seq<Event>)
    requires LegalRun(cfg, Initial(start), events) && ReloadsSafely(cfg, Initial(start), events)
    ensures var sys := Run(cfg, Initial(start), events);
      HarmlessFrom(cfg, Next(cfg, sys, Reload)) <==> SafeReload(sys.tab)
  {
    var sys := Run(cfg, Initial(start), events);
    var after := Next(cfg, sys, Reload);
    InitialOk(start);
    RunOk(cfg, Initial(start), events);
    if SafeReload(sys.tab) {
      ReloadStep(sys);
      forall more | LegalRun(cfg, after, more) && ReloadsSafely(cfg, after, more)
        ensures NoSecretSentTwice(Run(cfg, after, more).tab.outbox)
      {
        RunOk(cfg, after, more);
      }
    } else {
      NoAuthEndpoint();
      UnsafeReloadResends(cfg, sys, "");
    }
  }

  lemma NoAuthEndpoint()
    ensures !IsAuthEndpoint("")
  {
  }

  // ---- What the tab presents was issued ---------------------------------------------------------------

  /** The access tokens that the server has issued in the run: those of sign-ins and
      refreshes that it answered with tokens. */
  function Issued(cfg: Calls.Config, sys: System, events: seq<Event>): set<Access>
    decreases |events|
  {
    if events == [] then {} else IssuedBy(cfg, sys, events[0]) + Issued(cfg, Next(cfg, sys, events[0]), events[1..])
  }

  function IssuedBy(cfg: Calls.Config, sys: System, e: Event): set<Access> {
    match e
    case ServeRefresh(i, wait, minted, access, client) =>
      if i < |sys.up| && sys.up[i].secret.Some?
         && Calls.Answer(cfg, sys.server, Calls.Event(wait, Calls.Refresh(sys.up[i].secret.value, minted, client))).SignedIn?
      then {access} else {}
    case ServeSignIn(wait, call, access) =>
      if IsSignIn(call) && Calls.Answer(cfg, sys.server, Calls.Event(wait, call)).SignedIn? then {access} else {}
    case _ => {}
  }

  function DownTokens(d: Down): Option<Tokens> {
    match d
    case RefreshDown(_, answer) => answer
    case SignInDown(issued) => Some(issued)
  }

  /** Every access token in the tab, on its way to it or ever sent by it is one of these. */
  ghost predicate OnlyHolds(sys: System, issued: set<Access>) {
    && (sys.tab.token.Some? ==> sys.tab.token.value in issued)
    && (forall i :: 0 <= i < |sys.down| && DownTokens(sys.down[i]).Some? ==> DownTokens(sys.down[i]).value.accessToken in issued)
    && (forall m :: m in sys.tab.outbox && m.AppSend? && m.bearer.Some? ==> m.bearer.value in issued)
  }

  lemma TabOnlyHolds(sys: System, tab: Tab, task: SingleFlight.Task, issued: set<Access>)
    requires OnlyHolds(sys, issued) && tab == SingleFlight.Do(sys.tab, task)
    requires task.OnSignIn? ==> task.data.accessToken in issued
    requires task.OnRefresh? && task.outcome.Some? ==> task.outcome.value.accessToken in issued
    ensures OnlyHolds(sys.(tab := tab), issued)
  {
    if task.OnRefresh? {
      SingleFlight.ResendsBearer(sys.tab.requests, |sys.tab.requests|, tab.token);
    }
  }

  lemma DeliverOnlyHolds(cfg: Calls.Config, sys: System, i: nat, issued: set<Access>)
    requires OnlyHolds(sys, issued) && i < |sys.down|
    ensures OnlyHolds(Next(cfg, sys, Deliver(i)), issued)
  {
    var left := sys.(down := Without(sys.down, i));
    match sys.down[i]
    case SignInDown(tokens) => TabOnlyHolds(left, StoreTokens(sys.tab, tokens), SingleFlight.OnSignIn(tokens), issued);
    case RefreshDown(number, tokens) =>
      TabOnlyHolds(left, RefreshSettled(sys.tab, tokens), SingleFlight.OnRefresh(tokens), issued);
  }

  lemma NextOnlyHolds(cfg: Calls.Config, sys: System, e: Event, issued: set<Access>)
    requires OnlyHolds(sys, issued)
    ensures OnlyHolds(Next(cfg, sys, e), issued + IssuedBy(cfg, sys, e))
  {
    match e
    case BeginRequest(url) => TabOnlyHolds(sys, Start(sys.tab, url), SingleFlight.Begin(url), issued);
    case Answer401(k) =>
      if k < |sys.tab.requests| {
        TabOnlyHolds(sys, Unauthorized(sys.tab, k), SingleFlight.On401(k), issued);
      }
    case AnswerOther(k, ok) =>
      if k < |sys.tab.requests| {
        TabOnlyHolds(sys, Answered(sys.tab, k, ok), SingleFlight.OnAnswer(k, ok), issued);
      }
    case RefreshErrors => TabOnlyHolds(sys, RefreshSettled(sys.tab, None), SingleFlight.OnRefresh(None), issued);
    case Deliver(i) => if i < |sys.down| { DeliverOnlyHolds(cfg, sys, i, issued); }
    case _ =>
  }

  lemma {:induction false} RunOnlyHolds(cfg: Calls.Config, sys: System, events: seq<Event>, issued: set<Access>)
    requires OnlyHolds(sys, issued)
    ensures OnlyHolds(Run(cfg, sys, events), issued + Issued(cfg, sys, events))
    decreases |events|
  {
    if events == [] {
      assert issued + {} == issued;
    } else {
      NextOnlyHolds(cfg, sys, events[0], issued);
      RunOnlyHolds(cfg, Next(cfg, sys, events[0]), events[1..], issued + IssuedBy(cfg, sys, events[0]));
      assert issued + IssuedBy(cfg, sys, events[0]) + Issued(cfg, Next(cfg, sys, events[0]), events[1..]) == issued + Issued(cfg, sys, events);
    }
  }

  /** Over every run, legal or not: each bearer the tab has sent is an access token that
      the server issued in that run. */
  lemma BearersWereIssued(cfg: Calls.Config, start: Auth.Time, events: seq<Event>, m: Message)
    requires m in Run(cfg, Initial(start), events).tab.outbox && m.AppSend? && m.bearer.Some?
    ensures m.bearer.value in Issued(cfg, Initial(start), events)
  {
    RunOnlyHolds(cfg, Initial(start), events, {});
    assert {} + Issued(cfg, Initial(start), events) == Issued(cfg, Initial(start), events);
  }

  // ---- A refresh that comes through ---------------------------------------------------------------------

  /** If the server still takes the secret of the pending refresh when it serves it, and the
      answer comes through, then the tab holds the tokens of that answer and every waiting
      request is on its way again. */
  lemma RefreshComesThrough(
    cfg: Calls.Config, sys: System, i: nat, wait: nat, minted: Secret, access: Access, client: Auth.Client)
    requires i < |sys.up| && sys.tab.refreshPending && sys.up[i].number == sys.tab.settled && sys.up[i].secret.Some?
    requires Calls.Answer(cfg, sys.server, Calls.Event(wait, Calls.Refresh(sys.up[i].secret.value, minted, client))).SignedIn?
    requires access != "" && minted != ""
    ensures var served := Next(cfg, sys, ServeRefresh(i, wait, minted, access, client));
      |served.down| > 0 &&
      var tab := Next(cfg, served, Deliver(|served.down| - 1)).tab;
      && tab.token == Some(access) && tab.refreshToken == Some(minted) && !tab.refreshPending
      && |tab.requests| == |sys.tab.requests|
      && forall k :: 0 <= k < |tab.requests| && sys.tab.requests[k].phase == Waiting ==> tab.requests[k].phase == Sent
  {
  }
}
