/** How long what the server issues is good for, and what a redeemed token changes. */
module AuthLifetimes {
  import opened Wrappers
  import opened AuthStore
  import opened AuthCalls
  import opened AuthInvariants

  // ---- Refresh tokens ------------------------------------------------------------------------

  /** The row of a refresh secret, unrevoked, of this user and good until `until`. */
  predicate GoodUntil(s: Store, secret: Secret, user: UserId, until: Time) {
    var found := FindRefresh(s.refresh, HashToken(secret));
    && found.Some? && user < |s.users|
    && s.refresh[found.value].revokedAt.None? && s.refresh[found.value].userId == user && s.refresh[found.value].expiresAt == until
  }

  lemma LastRefreshFound(rows: seq<RefreshToken>, row: RefreshToken)
    ensures FindRefresh(rows + [row], row.tokenHash) == Some(|rows|)
  {
  }

  lemma SignInIssues(cfg: Config, s: Store, call: Call)
    requires (call.Register? || call.Login? || call.OAuth?) && Step(cfg, s, call).1.SignedIn?
    ensures var (t, reply) := Step(cfg, s, call);
      && t.now == s.now && reply.refreshToken == call.minted && reply.expiresAt == s.now + cfg.refreshTtlDays * 86_400_000_000
      && GoodUntil(t, call.minted, reply.user, reply.expiresAt)
  {
    match call
    case Register(_, _, _, _) =>
    case Login(email, password, _, client) => var _ := Authenticate(cfg, s, email, password, client);
    case OAuth(sub, email, verified, _, client) => var _ := ResolveOAuth(s, sub, email, verified, client);
  }

  lemma RefreshIssues(cfg: Config, s: Store, call: Call)
    requires call.Refresh? && Step(cfg, s, call).1.SignedIn? && Unstored(s, call.minted)
    ensures var (t, reply) := Step(cfg, s, call);
      && t.now == s.now && reply.refreshToken == call.minted && reply.expiresAt == s.now + cfg.refreshTtlDays * 86_400_000_000
      && GoodUntil(t, call.minted, reply.user, reply.expiresAt)
  {
    var id := FindRefresh(s.refresh, HashToken(call.presented)).value;
    var t := Step(cfg, s, call).0;
    assert t.refresh[|s.refresh|].tokenHash == HashToken(call.minted);
    assert t.refresh[..|s.refresh|][id].tokenHash != HashToken(call.minted);
  }

  lemma GoodUntilDecides(
    cfg: Config, s: Store, secret: Secret, user: UserId, until: Time, wait: nat, minted: Secret, client: Client)
    requires GoodUntil(s, secret, user, until)
    ensures var again := Answer(cfg, s, Event(wait, Refresh(secret, minted, client)));
      && (again.SignedIn? <==> s.now + wait < until)
      && (again.SignedIn? ==> again.user == user && again.refreshToken == minted)
  {
  }

  /** The answer to a sign-in or refresh is a token that is good for exactly the
      configured days, and the expiry told is its expiry. */
  lemma NewTokenLasts(cfg: Config, s: Store, call: Call, wait: nat, minted: Secret, client: Client)
    requires Step(cfg, s, call).1.SignedIn? && (call.Refresh? ==> Unstored(s, call.minted))
    ensures var (t, reply) := Step(cfg, s, call);
      var again := Answer(cfg, t, Event(wait, Refresh(reply.refreshToken, minted, client)));
      && reply.expiresAt == s.now + cfg.refreshTtlDays * 86_400_000_000
      && (again.SignedIn? <==> wait < cfg.refreshTtlDays * 86_400_000_000)
      && (again.SignedIn? ==> again.user == reply.user && again.refreshToken == minted)
  {
    if call.Refresh? {
      RefreshIssues(cfg, s, call);
    } else {
      SignInIssues(cfg, s, call);
    }
    var (t, reply) := Step(cfg, s, call);
    GoodUntilDecides(cfg, t, reply.refreshToken, reply.user, reply.expiresAt, wait, minted, client);
  }

  // ---- One-time tokens ----------------------------------------------------------------------------

  /** What is asked for is issued to the address's account: a verification token while it
      is unverified, a reset token while it is active. */
  predicate Issues(s: Store, call: Call, user: UserId) {
    && user < |s.users|
    && match call
       case IssueVerifyEmail(email, _, _) => FindUser(s.users, email) == Some(user) && !s.users[user].isEmailVerified
       case IssuePasswordReset(email, _, _) => FindUser(s.users, email) == Some(user) && s.users[user].isActive
       case _ => false
  }

  /** The call that redeems what `call` issued. */
  function Redeeming(call: Call, password: string): Call
    requires call.IssueVerifyEmail? || call.IssuePasswordReset?
  {
    if call.IssueVerifyEmail? then VerifyEmail(call.minted) else ResetPassword(call.minted, password)
  }

  /** An issued one-time token is good for exactly its minutes, at least one. */
  lemma IssuedTokenLasts(cfg: Config, s: Store, call: Call, user: UserId, wait: nat, password: string)
    requires Issues(s, call, user) && call.minted != "" && PasswordPolicy(password)
    ensures var t := Step(cfg, s, call).0;
      var reply := Answer(cfg, t, Event(wait, Redeeming(call, password)));
      && (reply.Done? <==> wait < Max(1, call.ttlMinutes) * 60_000_000)
      && (reply.Done? ==> reply.user == user)
  {
  }

  /** Otherwise nothing is issued, and nobody is told so. */
  lemma NothingIssued(cfg: Config, s: Store, call: Call)
    requires call.IssueVerifyEmail? || call.IssuePasswordReset?
    requires forall user :: !Issues(s, call, user)
    ensures Step(cfg, s, call) == (s, NoContent)
  {
    var found := FindUser(s.users, call.email);
    if found.Some? {
      assert !Issues(s, call, found.value);
    }
  }

  // ---- The verified mark -------------------------------------------------------------------------

  predicate Verified(s: Store, user: UserId) {
    user < |s.users| && s.users[user].isEmailVerified
  }

  /** How a call changes whether a user's email counts as verified. */
  predicate MarkAfter(s: Store, call: Call, t: Store, reply: Reply, user: UserId) {
    Verified(t, user) ==
      if call.VerifyEmail? && reply == Done(user) then true
      else if call.ChangeEmail? && reply == Done(user) then false
      else if call.OAuth? && user == |s.users| then user < |t.users| && call.emailVerified
      else Verified(s, user)
  }

  lemma TokenCallsKeepMarks(cfg: Config, s: Store, call: Call, user: UserId)
    requires call.Refresh? || call.Logout? || call.RevokeOthers? || call.IssueVerifyEmail? || call.IssuePasswordReset?
    ensures MarkAfter(s, call, Step(cfg, s, call).0, Step(cfg, s, call).1, user)
  {
    assert Step(cfg, s, call).0.users == s.users;
  }

  lemma SignInsKeepMarks(cfg: Config, s: Store, call: Call, user: UserId)
    requires call.Register? || call.Login? || call.OAuth?
    ensures MarkAfter(s, call, Step(cfg, s, call).0, Step(cfg, s, call).1, user)
  {
    match call
    case Register(_, _, _, _) =>
    case Login(email, password, _, client) => var _ := Authenticate(cfg, s, email, password, client);
    case OAuth(sub, email, verified, _, client) => var _ := ResolveOAuth(s, sub, email, verified, client);
  }

  lemma AccountCallsKeepMarks(cfg: Config, s: Store, call: Call, user: UserId)
    requires Shape(s) && (call.VerifyEmail? || call.ResetPassword? || call.ChangeEmail?)
    ensures MarkAfter(s, call, Step(cfg, s, call).0, Step(cfg, s, call).1, user)
  {
  }

  /** An email becomes verified exactly by redeeming its token or by a new account for an
      address that the provider has verified, and unverified exactly by changing it. */
  lemma MarkFollows(cfg: Config, s: Store, call: Call, user: UserId)
    requires Shape(s)
    ensures MarkAfter(s, call, Step(cfg, s, call).0, Step(cfg, s, call).1, user)
  {
    if call.Register? || call.Login? || call.OAuth? {
      SignInsKeepMarks(cfg, s, call, user);
    } else if call.VerifyEmail? || call.ResetPassword? || call.ChangeEmail? {
      AccountCallsKeepMarks(cfg, s, call, user);
    } else {
      TokenCallsKeepMarks(cfg, s, call, user);
    }
  }

  // ---- Revoking other sessions ----------------------------------------------------------------------

  /** A row with the secret belongs to the user. */
  predicate Owns(s: Store, user: UserId, secret: Secret) {
    secret != "" && exists id :: 0 <= id < |s.refresh| && s.refresh[id].tokenHash == HashToken(secret) && s.refresh[id].userId == user
  }

  /** Only the owner of the presented token may revoke the other sessions, and anyone
      else changes nothing. */
  lemma OnlyOwnersRevokeOthers(cfg: Config, s: Store, call: Call)
    requires call.RevokeOthers? && UniqueRefreshDigests(s.refresh)
    ensures var (t, reply) := Step(cfg, s, call);
      && (reply == NoContent <==> Owns(s, call.caller, call.presented))
      && (!Owns(s, call.caller, call.presented) ==> t == s && reply == Rejected("not_authenticated"))
  {
    var found := FindRefresh(s.refresh, HashToken(call.presented));
    if found.Some? {
      forall id | 0 <= id < |s.refresh| && s.refresh[id].tokenHash == HashToken(call.presented) ensures id == found.value {
      }
    }
  }
}
