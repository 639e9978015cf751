/** Who gets in, over whole runs: a password works until it is reset, and a session
    that was ended stays ended. */
module AuthAccess {
  import opened Wrappers
  import opened AuthStore
  import opened AuthCalls
  import opened AuthInvariants
  import opened AuthRotation

  // ---- What calls do to users ------------------------------------------------------------

  /** The user whose password the call resets. */
  function ResetBy(call: Call, reply: Reply): Option<UserId> {
    if call.ResetPassword? && reply.Done? then Some(reply.user) else None
  }

  /** The user whose email the call changes: the caller. */
  function RenamedBy(call: Call, reply: Reply): Option<UserId> {
    if call.ChangeEmail? && reply.Done? then Some(call.caller) else None
  }

  /** Accounts are never lost or deactivated, one password changes at most, and one email. */
  predicate KeepsAccounts(s: Store, t: Store, reset: Option<UserId>, renamed: Option<UserId>) {
    && |s.users| <= |t.users|
    && (forall u :: 0 <= u < |s.users| ==>
          && t.users[u].isActive == s.users[u].isActive
          && (t.users[u].email == s.users[u].email || renamed == Some(u))
          && (t.users[u].passwordHash == s.users[u].passwordHash || reset == Some(u)))
  }

  /** At most one account is added, and only under an email that is not taken. */
  predicate AddsFreeEmail(s: Store, t: Store) {
    && |t.users| <= |s.users| + 1
    && (|t.users| > |s.users| ==> FindUser(s.users, t.users[|s.users|].email).None?)
  }

  lemma RegisterKeepsAccounts(cfg: Config, s: Store, call: Call)
    requires call.Register?
    ensures KeepsAccounts(s, Step(cfg, s, call).0, None, None) && AddsFreeEmail(s, Step(cfg, s, call).0)
  {
  }

  lemma OAuthKeepsAccounts(cfg: Config, s: Store, call: Call)
    requires call.OAuth?
    ensures KeepsAccounts(s, Step(cfg, s, call).0, None, None) && AddsFreeEmail(s, Step(cfg, s, call).0)
  {
    var t := ResolveOAuth(s, call.sub, call.email, call.emailVerified, call.client).0;
    assert KeepsAccounts(s, t, None, None) && AddsFreeEmail(s, t);
  }

  lemma LoginKeepsAccounts(cfg: Config, s: Store, call: Call)
    requires call.Login? || call.Refresh? || call.Logout? || call.RevokeOthers?
    ensures KeepsAccounts(s, Step(cfg, s, call).0, None, None) && |Step(cfg, s, call).0.users| == |s.users|
  {
  }

  lemma OneTimeCallsKeepAccounts(cfg: Config, s: Store, call: Call)
    requires call.IssueVerifyEmail? || call.VerifyEmail? || call.IssuePasswordReset? || call.ResetPassword?
    ensures KeepsAccounts(s, Step(cfg, s, call).0, ResetBy(call, Step(cfg, s, call).1), None)
    ensures |Step(cfg, s, call).0.users| == |s.users|
  {
  }

  /** A change of email hands out an address that no other account has. */
  lemma ChangeEmailKeepsAccounts(cfg: Config, s: Store, call: Call)
    requires call.ChangeEmail?
    ensures var (t, reply) := Step(cfg, s, call);
      && KeepsAccounts(s, t, None, RenamedBy(call, reply))
      && (UniqueEmails(s.users) ==> UniqueEmails(t.users))
      && (reply.Done? ==> call.caller < |t.users| && t.users[call.caller].email == call.email)
  {
    if UniqueEmails(s.users) {
      RenamedStaysUnique(s.users, UpdateUserEmail(s, call.caller, call.email).users, call.caller, call.email);
    }
  }

  lemma RenamedStaysUnique(a: seq<User>, b: seq<User>, user: UserId, email: string)
    requires UniqueEmails(a) && |a| == |b|
    requires forall u :: 0 <= u < |a| ==> b[u].email == if u == user then email else a[u].email
    ensures !EmailTaken(a, user, email) ==> UniqueEmails(b)
  {
  }

  lemma StepKeepsAccounts(cfg: Config, s: Store, call: Call)
    ensures var (t, reply) := Step(cfg, s, call);
      && KeepsAccounts(s, t, ResetBy(call, reply), RenamedBy(call, reply))
      && (UniqueEmails(s.users) ==> UniqueEmails(t.users))
  {
    if call.ChangeEmail? {
      ChangeEmailKeepsAccounts(cfg, s, call);
    } else {
      if call.Register? {
        RegisterKeepsAccounts(cfg, s, call);
      } else if call.OAuth? {
        OAuthKeepsAccounts(cfg, s, call);
      } else if call.Login? || call.Refresh? || call.Logout? || call.RevokeOthers? {
        LoginKeepsAccounts(cfg, s, call);
      } else {
        OneTimeCallsKeepAccounts(cfg, s, call);
      }
      EmailsStayUnique(s, Step(cfg, s, call).0, ResetBy(call, Step(cfg, s, call).1));
    }
  }

  lemma EmailsStayUnique(s: Store, t: Store, reset: Option<UserId>)
    ensures UniqueEmails(s.users) && KeepsAccounts(s, t, reset, None) && AddsFreeEmail(s, t) ==> UniqueEmails(t.users)
  {
  }

  /** No reset of the user's password succeeds during the run. */
  predicate NoReset(cfg: Config, s: Store, events: seq<Event>, user: UserId)
    decreases |events|
  {
    || events == []
    || (ResetBy(events[0].call, Answer(cfg, s, events[0])) != Some(user)
        && NoReset(cfg, After(cfg, s, events[0]), events[1..], user))
  }

  /** The user does not change their own email during the run. */
  predicate NoRename(cfg: Config, s: Store, events: seq<Event>, user: UserId)
    decreases |events|
  {
    || events == []
    || (RenamedBy(events[0].call, Answer(cfg, s, events[0])) != Some(user)
        && NoRename(cfg, After(cfg, s, events[0]), events[1..], user))
  }

  /** Over every run emails stay unique and an account keeps its standing, its email
      unless its owner changes it, and its password unless it is reset. */
  lemma {:induction false} AccountsOverRuns(cfg: Config, s: Store, events: seq<Event>, user: UserId)
    requires user < |s.users| && UniqueEmails(s.users)
    ensures var t := Run(cfg, s, events);
      && user < |t.users| && UniqueEmails(t.users) && t.users[user].isActive == s.users[user].isActive
      && (NoRename(cfg, s, events, user) ==> t.users[user].email == s.users[user].email)
      && (NoReset(cfg, s, events, user) ==> t.users[user].passwordHash == s.users[user].passwordHash)
    decreases |events|
  {
    if events == [] {
    } else {
      var e := events[0];
      StepKeepsAccounts(cfg, At(s, e), e.call);
      AccountsOverRuns(cfg, After(cfg, s, e), events[1..], user);
    }
  }

  // ---- Passwords --------------------------------------------------------------------------

  lemma EmailFinds(s: Store, user: UserId)
    requires user < |s.users| && UniqueEmails(s.users)
    ensures FindUser(s.users, s.users[user].email) == Some(user)
  {
  }

  predicate SignsInAs(reply: Reply, user: UserId) {
    reply.SignedIn? && reply.user == user
  }

  /** A login succeeds, as the account's user, exactly with the account's email and
      password, while it is active and not locked. */
  lemma LoginExactly(cfg: Config, s: Store, call: Call, user: UserId)
    requires call.Login? && UniqueEmails(s.users)
    ensures SignsInAs(Step(cfg, s, call).1, user) <==>
      && user < |s.users| && s.users[user].email == call.email && s.users[user].isActive
      && !Locked(s.users[user], s.now) && VerifyPassword(call.password, s.users[user].passwordHash)
  {
    if user < |s.users| && s.users[user].email == call.email {
      EmailFinds(s, user);
    }
  }

  /** A login signs the user in exactly with the email the account has by then and the
      password p, while it is active and not locked. */
  ghost predicate SignsInWith(cfg: Config, t: Store, user: UserId, p: string, wait: nat, login: Call) {
    && user < |t.users| && login.Login?
    && (SignsInAs(Answer(cfg, t, Event(wait, login)), user) <==>
          && login.email == t.users[user].email && login.password == p
          && t.users[user].isActive && !Locked(t.users[user], t.now + wait))
  }

  /** From an account whose password is p: after any run without a reset, exactly p
      signs it in, under the email it has by then. */
  lemma PasswordDecides(cfg: Config, s: Store, user: UserId, p: string, events: seq<Event>, wait: nat, login: Call)
    requires user < |s.users| && UniqueEmails(s.users) && s.users[user].passwordHash == HashOf(p)
    requires NoReset(cfg, s, events, user) && login.Login?
    ensures SignsInWith(cfg, Run(cfg, s, events), user, p, wait, login)
  {
    AccountsOverRuns(cfg, s, events, user);
    LoginExactly(cfg, At(Run(cfg, s, events), Event(wait, login)), login, user);
  }

  lemma RegisterSetsPassword(cfg: Config, s: Store, call: Call)
    requires call.Register? && Step(cfg, s, call).1.SignedIn?
    ensures var (t, reply) := Step(cfg, s, call);
      && reply.user < |t.users| && t.users[reply.user].passwordHash == HashOf(call.password)
      && t.users[reply.user].isActive && t.users[reply.user].email == call.email
  {
  }

  lemma ResetSetsPassword(cfg: Config, s: Store, call: Call)
    requires Shape(s) && call.ResetPassword? && Step(cfg, s, call).1.Done?
    ensures var (t, reply) := Step(cfg, s, call);
      reply.user < |t.users| && t.users[reply.user].passwordHash == HashOf(call.password)
  {
  }

  predicate SetsPassword(call: Call, reply: Reply) {
    (call.Register? && reply.SignedIn?) || (call.ResetPassword? && reply.Done?)
  }

  /** A successful registration or reset sets the password that every later login
      needs, until the next reset. A reset leaves a lock in place. */
  lemma SetPasswordDecides(cfg: Config, s: Store, call: Call, events: seq<Event>, wait: nat, login: Call)
    requires Shape(s) && UniqueEmails(s.users) && SetsPassword(call, Step(cfg, s, call).1)
    requires NoReset(cfg, Step(cfg, s, call).0, events, Step(cfg, s, call).1.user) && login.Login?
    ensures SignsInWith(cfg, Run(cfg, Step(cfg, s, call).0, events), Step(cfg, s, call).1.user, call.password, wait, login)
  {
    StepKeepsAccounts(cfg, s, call);
    if call.Register? {
      RegisterSetsPassword(cfg, s, call);
    } else {
      ResetSetsPassword(cfg, s, call);
    }
    PasswordDecides(cfg, Step(cfg, s, call).0, Step(cfg, s, call).1.user, call.password, events, wait, login);
  }

  /** After a change of email the old address signs the owner in no more: it is free,
      and whoever logs in with it is another account. */
  lemma OldEmailIsLeft(cfg: Config, s: Store, call: Call, events: seq<Event>, wait: nat, login: Call)
    requires UniqueEmails(s.users) && call.ChangeEmail? && Step(cfg, s, call).1.Done?
    requires login.Login? && login.email == s.users[call.caller].email != call.email
    requires NoRename(cfg, Step(cfg, s, call).0, events, call.caller)
    ensures FindUser(Step(cfg, s, call).0.users, login.email).None?
    ensures !SignsInAs(Answer(cfg, Run(cfg, Step(cfg, s, call).0, events), Event(wait, login)), call.caller)
  {
    var t := Step(cfg, s, call).0;
    ChangeEmailKeepsAccounts(cfg, s, call);
    forall u | 0 <= u < |t.users| ensures t.users[u].email != login.email {
    }
    AccountsOverRuns(cfg, t, events, call.caller);
    LoginExactly(cfg, At(Run(cfg, t, events), Event(wait, login)), login, call.caller);
  }

  // ---- Ended sessions -----------------------------------------------------------------------

  /** A revoked token is refused after every later run. */
  lemma RevokedStaysRefused(cfg: Config, s: Store, events: seq<Event>, id: TokenId, refresh: Event)
    requires Inv(s) && FreshRun(cfg, s, events) && id < |s.refresh| && s.refresh[id].revokedAt.Some?
    requires refresh.call.Refresh? && s.refresh[id].tokenHash == HashToken(refresh.call.presented)
    ensures Answer(cfg, Run(cfg, s, events), refresh) == Rejected("invalid_refresh")
  {
    var t := Run(cfg, s, events);
    RunSafe(cfg, s, events);
    SpentStaysSpent(s, t, refresh.call.presented);
    InvAt(t, refresh);
    SpentIsRefused(cfg, At(t, refresh), refresh.call);
  }

  /** The call that ends a session for good: logging out with its token, resetting its
      user's password, or revoking the user's other sessions. */
  predicate Ends(cfg: Config, s: Store, call: Call, id: TokenId)
    requires id < |s.refresh|
  {
    match call
    case Logout(presented, _) => presented != "" && s.refresh[id].tokenHash == HashToken(presented)
    case ResetPassword(_, _) => Step(cfg, s, call).1 == Done(s.refresh[id].userId)
    case RevokeOthers(caller, presented, _) =>
      Step(cfg, s, call).1.NoContent? && s.refresh[id].userId == caller && s.refresh[id].tokenHash != HashToken(presented)
    case _ => false
  }

  lemma EndingRevokes(cfg: Config, s: Store, call: Call, id: TokenId)
    requires Inv(s) && id < |s.refresh| && Ends(cfg, s, call, id)
    ensures var t := Step(cfg, s, call).0;
      |t.refresh| == |s.refresh| && t.refresh[id].tokenHash == s.refresh[id].tokenHash && t.refresh[id].revokedAt.Some?
  {
    if call.Logout? {
      assert FindRefresh(s.refresh, HashToken(call.presented)) == Some(id);
    }
  }

  /** After a session is ended, no later run lets its token refresh again. */
  lemma EndedSessionsStayEnded(cfg: Config, s: Store, call: Call, id: TokenId, events: seq<Event>, refresh: Event)
    requires Inv(s) && FreshCall(s, call) && id < |s.refresh| && Ends(cfg, s, call, id)
    requires FreshRun(cfg, Step(cfg, s, call).0, events)
    requires refresh.call.Refresh? && s.refresh[id].tokenHash == HashToken(refresh.call.presented)
    ensures Answer(cfg, Run(cfg, Step(cfg, s, call).0, events), refresh) == Rejected("invalid_refresh")
  {
    EndingRevokes(cfg, s, call, id);
    StepSafe(cfg, s, call);
    RevokedStaysRefused(cfg, Step(cfg, s, call).0, events, id, refresh);
  }
}
