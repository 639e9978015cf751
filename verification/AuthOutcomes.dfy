/** Call by call, who gets in and what is left behind, in plain terms of the rows. */
module AuthOutcomes {
  import opened Wrappers
  import opened AuthStore
  import opened AuthCalls
  import opened AuthInvariants

  // ---- Accounts ----------------------------------------------------------------------------

  predicate EmailInUse(s: Store, email: string) {
    exists u :: 0 <= u < |s.users| && s.users[u].email == email
  }

  /** Eight characters, with a small letter, a capital and a digit among them. */
  predicate StrongEnough(p: string) {
    && 8 <= |p|
    && !(forall i :: 0 <= i < |p| ==> !('a' <= p[i] <= 'z'))
    && !(forall i :: 0 <= i < |p| ==> !('A' <= p[i] <= 'Z'))
    && !(forall i :: 0 <= i < |p| ==> !('0' <= p[i] <= '9'))
  }

  /** A registration succeeds exactly with a strong password and an unused email; it adds
      an active, unverified, unlocked account with that password, and else nothing. */
  lemma RegisterExactly(cfg: Config, s: Store, call: Call)
    requires call.Register?
    ensures var (t, reply) := Step(cfg, s, call);
      if StrongEnough(call.password) && !EmailInUse(s, call.email) then
        && t.users == s.users + [User(call.email, HashOf(call.password), true, false, 0, None)]
        && reply.SignedIn? && reply.user == |s.users|
      else t == s && reply == Rejected(if StrongEnough(call.password) then "email_taken" else "invalid_password")
  {
    assert PasswordPolicy(call.password) <==> StrongEnough(call.password);
  }

  /** An email change succeeds exactly for an existing account and an email that no other
      account has; it changes that email, which is then unverified, and no other account. */
  lemma ChangeEmailExactly(cfg: Config, s: Store, call: Call)
    requires call.ChangeEmail?
    ensures var (t, reply) := Step(cfg, s, call);
      var free := forall u :: 0 <= u < |s.users| && s.users[u].email == call.email ==> u == call.caller;
      if call.email != "" && call.caller < |s.users| && free then
        && reply == Done(call.caller)
        && t.users == s.users[call.caller := s.users[call.caller].(email := call.email, isEmailVerified := false)]
      else
        && t == s
        && reply == Rejected(if call.email == "" then "email_required" else if !free then "email_taken" else "invalid_request")
  {
  }

  /** The token sent to the new address verifies it, for a day. */
  lemma ChangeEmailIssues(cfg: Config, s: Store, call: Call, wait: nat)
    requires call.ChangeEmail? && Step(cfg, s, call).1.Done? && call.minted != "" && UniqueEmails(s.users)
    ensures var reply := Answer(cfg, Step(cfg, s, call).0, Event(wait, VerifyEmail(call.minted)));
      && (reply.Done? <==> wait < 1440 * 60_000_000)
      && (reply.Done? ==> reply.user == call.caller)
  {
    var s1 := UpdateUserEmail(s, call.caller, call.email);
    assert s1.users[call.caller].email == call.email;
    assert FindUser(s1.users, call.email) == Some(call.caller);
  }

  // ---- Signing in with a provider ------------------------------------------------------------------

  /** The account that a provider's identity stands for: the linked one, else the one
      with its email if either side has verified that, else a new one. */
  predicate Identified(s: Store, call: Call, user: UserId)
    requires call.OAuth?
  {
    if call.sub in s.oauth && s.oauth[call.sub] < |s.users| then user == s.oauth[call.sub]
    else if EmailInUse(s, call.email) then
      user < |s.users| && s.users[user].email == call.email && (s.users[user].isEmailVerified || call.emailVerified)
    else user == |s.users|
  }

  lemma EmailOwner(s: Store, email: string, user: UserId)
    requires UniqueEmails(s.users) && user < |s.users| && s.users[user].email == email
    ensures FindUser(s.users, email) == Some(user)
  {
  }

  /** The provider signs in exactly that account, if it is active. */
  lemma OAuthExactly(cfg: Config, s: Store, call: Call, user: UserId)
    requires call.OAuth? && UniqueEmails(s.users)
    ensures var reply := Step(cfg, s, call).1;
      (reply.SignedIn? && reply.user == user) <==>
        Identified(s, call, user) && (user < |s.users| ==> s.users[user].isActive)
  {
    if user < |s.users| && s.users[user].email == call.email {
      EmailOwner(s, call.email, user);
    }
  }

  /** What it leaves of accounts and links: a new account has the provider's email, no
      password, and the provider's word on that email; a success links the identity. */
  lemma OAuthLeaves(cfg: Config, s: Store, call: Call)
    requires call.OAuth?
    ensures var (t, reply) := Step(cfg, s, call);
      && (t.users == s.users || t.users == s.users + [User(call.email, Unusable, true, call.emailVerified, 0, None)])
      && (t.users != s.users ==> reply.SignedIn? && reply.user == |s.users| && !EmailInUse(s, call.email))
      && (forall sub :: sub in s.oauth ==> sub in t.oauth && t.oauth[sub] == s.oauth[sub])
      && (forall sub :: sub in t.oauth && sub !in s.oauth ==> sub == call.sub)
      && (reply.SignedIn? && call.sub !in s.oauth ==> call.sub in t.oauth && t.oauth[call.sub] == reply.user)
  {
    var (s1, user) := ResolveOAuth(s, call.sub, call.email, call.emailVerified, call.client);
    if s1.users != s.users {
      assert s1.users[|s.users|] == User(call.email, Unusable, true, call.emailVerified, 0, None);
    }
  }

  lemma OthersKeepLinks(cfg: Config, s: Store, call: Call)
    requires !call.OAuth?
    ensures Step(cfg, s, call).0.oauth == s.oauth
  {
    if call.Login? {
      var _ := Authenticate(cfg, s, call.email, call.password, call.client);
    }
  }

  lemma StepGrowsUsers(cfg: Config, s: Store, call: Call)
    ensures |s.users| <= |Step(cfg, s, call).0.users|
  {
    if call.Login? {
      var _ := Authenticate(cfg, s, call.email, call.password, call.client);
    } else if call.OAuth? {
      var _ := ResolveOAuth(s, call.sub, call.email, call.emailVerified, call.client);
    }
  }

  /** A link is for ever. */
  lemma {:induction false} LinksStay(cfg: Config, s: Store, events: seq<Event>, sub: string)
    requires sub in s.oauth && s.oauth[sub] < |s.users|
    ensures var t := Run(cfg, s, events); sub in t.oauth && t.oauth[sub] == s.oauth[sub] < |t.users|
    decreases |events|
  {
    if events == [] {
    } else {
      var e := events[0];
      StepGrowsUsers(cfg, At(s, e), e.call);
      if e.call.OAuth? {
        OAuthLeaves(cfg, At(s, e), e.call);
      } else {
        OthersKeepLinks(cfg, At(s, e), e.call);
      }
      LinksStay(cfg, After(cfg, s, e), events[1..], sub);
    }
  }

  /** So once an identity has signed in, it signs in that account after every later run,
      whatever its email has become, exactly while the account is active. */
  lemma LinkedIdentityDecides(cfg: Config, s: Store, first: Event, events: seq<Event>, again: Event)
    requires first.call.OAuth? && Answer(cfg, s, first).SignedIn? && first.call.sub !in s.oauth
    requires again.call.OAuth? && again.call.sub == first.call.sub
    ensures var user := Answer(cfg, s, first).user;
      var t := Run(cfg, After(cfg, s, first), events);
      && user < |t.users|
      && (Answer(cfg, t, again).SignedIn? <==> t.users[user].isActive)
      && (Answer(cfg, t, again).SignedIn? ==> Answer(cfg, t, again).user == user)
  {
    OAuthLeaves(cfg, At(s, first), first.call);
    LinksStay(cfg, After(cfg, s, first), events, first.call.sub);
  }

  // ---- The audit trail --------------------------------------------------------------------------------

  /** The entries that a login leaves. */
  function LoginTrail(cfg: Config, s: Store, call: Call): seq<AuditEvent>
    requires call.Login?
  {
    match FindUser(s.users, call.email)
    case None => [AuditEvent(None, "auth.login_failed", call.client)]
    case Some(user) =>
      var row := s.users[user];
      if !row.isActive then [AuditEvent(Some(user), "auth.login_failed", call.client)]
      else if row.lockedUntil.Some? && row.lockedUntil.value > s.now then [AuditEvent(Some(user), "auth.login_locked", call.client)]
      else if row.passwordHash == HashOf(call.password) then [AuditEvent(Some(user), "auth.login", call.client)]
      else if row.failedLoginAttempts + 1 >= cfg.maxFailures && (row.lockedUntil.Some? || row.failedLoginAttempts + 1 >= Max(1, cfg.maxFailures)) then
        [AuditEvent(Some(user), "auth.login_failed", call.client), AuditEvent(Some(user), "auth.account_locked", call.client)]
      else [AuditEvent(Some(user), "auth.login_failed", call.client)]
  }

  /** The entries that any other call leaves, from its answer. */
  function OtherTrail(s: Store, call: Call, reply: Reply): seq<AuditEvent>
    requires !call.Login?
  {
    match call
    case Register(_, _, _, client) => if reply.SignedIn? then [AuditEvent(Some(reply.user), "user.register", client)] else []
    case OAuth(sub, email, verified, _, client) =>
      if reply.SignedIn? then [AuditEvent(Some(reply.user), "auth.oauth_login", client)]
      else if sub in s.oauth && s.oauth[sub] < |s.users| then []
      else
        var owner := FindUser(s.users, email);
        if owner.Some? && !verified && !s.users[owner.value].isEmailVerified
        then [AuditEvent(owner, "auth.oauth_link_rejected", client)] else []
    case Refresh(presented, _, client) =>
      var row := FindRefresh(s.refresh, HashToken(presented));
      if reply.SignedIn? then [AuditEvent(Some(reply.user), "auth.refresh", client)]
      else if row.Some? && s.refresh[row.value].revokedAt.Some?
      then [AuditEvent(Some(s.refresh[row.value].userId), "auth.refresh_reuse", client)] else []
    case Logout(presented, client) =>
      var row := FindRefresh(s.refresh, HashToken(presented));
      if presented != "" && row.Some? then [AuditEvent(Some(s.refresh[row.value].userId), "auth.logout", client)] else []
    case RevokeOthers(caller, _, client) =>
      if reply.NoContent? then [AuditEvent(Some(caller), "auth.revoke_other_sessions", client)] else []
    case ChangeEmail(caller, _, _, client) =>
      if reply.Done? then [AuditEvent(Some(caller), "user.email_change_requested", client)] else []
    case _ => []
  }

  lemma LoginAudits(cfg: Config, s: Store, call: Call)
    requires call.Login?
    ensures Step(cfg, s, call).0.audit == s.audit + LoginTrail(cfg, s, call)
  {
    var found := FindUser(s.users, call.email);
    if found.Some? && !VerifyPassword(call.password, s.users[found.value].passwordHash) {
      var t := LoginFailed(cfg, s, found.value, call.client);
    }
  }

  lemma OAuthAudits(cfg: Config, s: Store, call: Call)
    requires call.OAuth?
    ensures Step(cfg, s, call).0.audit == s.audit + OtherTrail(s, call, Step(cfg, s, call).1)
  {
    var _ := ResolveOAuth(s, call.sub, call.email, call.emailVerified, call.client);
  }

  lemma RefreshAudits(cfg: Config, s: Store, call: Call)
    requires call.Refresh? || call.Logout? || call.RevokeOthers?
    ensures Step(cfg, s, call).0.audit == s.audit + OtherTrail(s, call, Step(cfg, s, call).1)
  {
  }

  /** Every call appends exactly the audit entries of its outcome. */
  lemma AuditFollows(cfg: Config, s: Store, call: Call)
    ensures var (t, reply) := Step(cfg, s, call);
      t.audit == s.audit + (if call.Login? then LoginTrail(cfg, s, call) else OtherTrail(s, call, reply))
  {
    if call.Login? {
      LoginAudits(cfg, s, call);
    } else if call.OAuth? {
      OAuthAudits(cfg, s, call);
    } else if call.Refresh? || call.Logout? || call.RevokeOthers? {
      RefreshAudits(cfg, s, call);
    }
  }

  // ---- Refusals ----------------------------------------------------------------------------------------

  /** Every refused login gets the same answer, and so does every refused provider. */
  lemma SignInRefusals(cfg: Config, s: Store, call: Call)
    requires call.Login? || call.OAuth?
    ensures var reply := Step(cfg, s, call).1;
      reply.SignedIn? || reply == Rejected(if call.Login? then "invalid_credentials" else "oauth_rejected")
  {
  }

  /** Only an expired token is told apart from the other refused ones. */
  lemma RefreshRefusals(cfg: Config, s: Store, call: Call)
    requires call.Refresh?
    ensures var reply := Step(cfg, s, call).1;
      var row := FindRefresh(s.refresh, HashToken(call.presented));
      || reply.SignedIn?
      || reply == Rejected(if row.Some? && s.refresh[row.value].revokedAt.None? && s.refresh[row.value].expiresAt <= s.now
                           then "expired_refresh" else "invalid_refresh")
  {
  }

  /** A reset tells a weak password apart, and only that. */
  lemma RedemptionRefusals(cfg: Config, s: Store, call: Call)
    requires call.VerifyEmail? || call.ResetPassword?
    ensures var reply := Step(cfg, s, call).1;
      || reply.Done?
      || reply == Rejected(if call.ResetPassword? && call.presented != "" && !StrongEnough(call.password)
                           then "invalid_password" else "invalid_token")
  {
    assert call.ResetPassword? ==> (PasswordPolicy(call.password) <==> StrongEnough(call.password));
  }

  /** Logging out and asking for a token always answer the same. */
  lemma SilentCalls(cfg: Config, s: Store, call: Call)
    requires call.Logout? || call.IssueVerifyEmail? || call.IssuePasswordReset?
    ensures Step(cfg, s, call).1 == NoContent
  {
  }
}
