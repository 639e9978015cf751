/** A call whose statements run back to back is the atomic call, for every call. */
module AuthUninterrupted {
  import opened Wrappers
  import opened AuthStore
  import opened AuthInterleaving
  import C = AuthCalls

  /** `n` statements of one thread, with nothing between them. */
  function Alone(cfg: C.Config, s: Store, th: Thread, n: nat): (Store, Thread)
    decreases n
  {
    if n == 0 then (s, th) else Alone(cfg, Statement(cfg, s, th).0, Statement(cfg, s, th).1, n - 1)
  }

  lemma {:induction false} FinishedStays(cfg: C.Config, s: Store, reply: C.Reply, n: nat)
    ensures Alone(cfg, s, Finished(reply), n) == (s, Finished(reply))
  {
    if n == 0 {
    } else {
      FinishedStays(cfg, s, reply, n - 1);
    }
  }

  function ExecuteAll(cfg: C.Config, s: Store, rest: seq<Sql>): Store
    decreases |rest|
  {
    if rest == [] then s else ExecuteAll(cfg, Execute(cfg, s, rest[0]), rest[1..])
  }

  /** The answer at the end of a script. */
  function ReplyAtEnd(cfg: C.Config, s: Store, rest: seq<Sql>, reply: C.Reply): C.Reply
    decreases |rest|
  {
    if rest == [] then reply else ReplyAtEnd(cfg, Execute(cfg, s, rest[0]), rest[1..], ReplyAfter(cfg, s, rest[0], reply))
  }

  lemma {:induction false} ScriptRuns(cfg: C.Config, s: Store, rest: seq<Sql>, reply: C.Reply, n: nat)
    requires 0 < |rest| <= n
    ensures Alone(cfg, s, Script(rest, reply), n) == (ExecuteAll(cfg, s, rest), Finished(ReplyAtEnd(cfg, s, rest, reply)))
    decreases |rest|
  {
    var s1, after := Execute(cfg, s, rest[0]), ReplyAfter(cfg, s, rest[0], reply);
    if |rest| == 1 {
      FinishedStays(cfg, s1, after, n - 1);
      assert rest[1..] == [];
    } else {
      ScriptRuns(cfg, s1, rest[1..], after, n - 1);
    }
  }

  lemma ScriptOfOne(cfg: C.Config, s: Store, a: Sql, reply: C.Reply)
    ensures ExecuteAll(cfg, s, [a]) == Execute(cfg, s, a) && ReplyAtEnd(cfg, s, [a], reply) == ReplyAfter(cfg, s, a, reply)
  {
    assert [a][1..] == [];
  }

  lemma ScriptFirst(cfg: C.Config, s: Store, a: Sql, rest: seq<Sql>, reply: C.Reply)
    ensures ExecuteAll(cfg, s, [a] + rest) == ExecuteAll(cfg, Execute(cfg, s, a), rest)
    ensures ReplyAtEnd(cfg, s, [a] + rest, reply) == ReplyAtEnd(cfg, Execute(cfg, s, a), rest, ReplyAfter(cfg, s, a, reply))
  {
    assert ([a] + rest)[1..] == rest;
  }

  lemma OneStatement(cfg: C.Config, s: Store, th: Thread, n: nat)
    requires th.Script? && |th.rest| == 1 <= n
    ensures Alone(cfg, s, th, n) == (Execute(cfg, s, th.rest[0]), Finished(ReplyAfter(cfg, s, th.rest[0], th.reply)))
  {
    assert th.rest == [th.rest[0]];
    ScriptRuns(cfg, s, th.rest, th.reply, n);
    ScriptOfOne(cfg, s, th.rest[0], th.reply);
  }

  lemma TwoStatements(cfg: C.Config, s: Store, th: Thread, n: nat)
    requires th.Script? && |th.rest| == 2 <= n
    ensures var s1 := Execute(cfg, s, th.rest[0]);
      var reply := ReplyAfter(cfg, s, th.rest[0], th.reply);
      Alone(cfg, s, th, n) == (Execute(cfg, s1, th.rest[1]), Finished(ReplyAfter(cfg, s1, th.rest[1], reply)))
  {
    var a, b := th.rest[0], th.rest[1];
    assert th.rest == [a] + [b];
    ScriptRuns(cfg, s, th.rest, th.reply, n);
    ScriptFirst(cfg, s, a, [b], th.reply);
    ScriptOfOne(cfg, Execute(cfg, s, a), b, ReplyAfter(cfg, s, a, th.reply));
  }

  lemma ThreeStatements(cfg: C.Config, s: Store, th: Thread, n: nat)
    requires th.Script? && |th.rest| == 3 <= n
    ensures var s1 := Execute(cfg, s, th.rest[0]);
      var r1 := ReplyAfter(cfg, s, th.rest[0], th.reply);
      var s2, r2 := Execute(cfg, s1, th.rest[1]), ReplyAfter(cfg, s1, th.rest[1], r1);
      Alone(cfg, s, th, n) == (Execute(cfg, s2, th.rest[2]), Finished(ReplyAfter(cfg, s2, th.rest[2], r2)))
  {
    var a, b, c := th.rest[0], th.rest[1], th.rest[2];
    assert th.rest == [a] + ([b] + [c]);
    ScriptRuns(cfg, s, th.rest, th.reply, n);
    ScriptFirst(cfg, s, a, [b] + [c], th.reply);
    var s1, r1 := Execute(cfg, s, a), ReplyAfter(cfg, s, a, th.reply);
    ScriptFirst(cfg, s1, b, [c], r1);
    ScriptOfOne(cfg, Execute(cfg, s1, b), c, ReplyAfter(cfg, s1, b, r1));
  }

  /** How a thread ends that has done what the atomic call does. */
  function Ended(r: (Store, C.Reply)): (Store, Thread) {
    (r.0, Finished(r.1))
  }

  /** The tail of a sign-in: token and audit. */
  lemma SignInRuns(cfg: C.Config, s: Store, user: UserId, minted: Secret, action: string, client: Client, n: nat)
    requires n >= 2
    ensures Alone(cfg, s, SignIn(user, minted, [], action, client), n) == Ended(C.SignIn(s, user, minted, cfg.refreshTtlDays, action, client))
  {
    var th := SignIn(user, minted, [], action, client);
    assert th.rest == [AddToken(user, minted, client), Note(Some(user), action, client)];
    TwoStatements(cfg, s, th, n);
  }

  /** A login clears the failures between the two. */
  lemma LoginSignInRuns(cfg: C.Config, s: Store, user: UserId, minted: Secret, action: string, client: Client, n: nat)
    requires n >= 3
    ensures var s1 := InsertRefresh(s, user, HashToken(minted), cfg.refreshTtlDays, client);
      Alone(cfg, s, SignIn(user, minted, [ClearFailures(user)], action, client), n) ==
        (InsertAudit(ResetLoginFailures(s1, user), Some(user), action, client),
         Finished(C.SignedIn(user, minted, s.now + cfg.refreshTtlDays * DAY)))
  {
    var th := SignIn(user, minted, [ClearFailures(user)], action, client);
    assert th.rest == [AddToken(user, minted, client), ClearFailures(user), Note(Some(user), action, client)];
    ThreeStatements(cfg, s, th, n);
  }

  lemma RefuseRuns(cfg: C.Config, s: Store, user: Option<UserId>, action: string, client: Client, error: string, n: nat)
    requires n >= 1
    ensures Alone(cfg, s, Refuse(user, action, client, error), n) == (InsertAudit(s, user, action, client), Finished(C.Rejected(error)))
  {
    OneStatement(cfg, s, Refuse(user, action, client, error), n);
  }

  // ---- Call by call ----------------------------------------------------------------------

  lemma RegisterAlone(cfg: C.Config, s: Store, call: RegisterCall, n: nat)
    requires n >= 7
    ensures Alone(cfg, s, BeginRegister(s, call), n)
      == Ended(C.RegisterUser(cfg, s, call.email, call.password, call.minted, call.client))
  {
    var th := BeginRegister(s, call);
    if th.Finished? {
      FinishedStays(cfg, s, th.reply, n);
    } else {
      var s1 := InsertUser(s, call.email, HashOf(call.password));
      assert Alone(cfg, s, th, n) == Alone(cfg, s1, SignIn(|s.users|, call.minted, [], "user.register", call.client), n - 1);
      SignInRuns(cfg, s1, |s.users|, call.minted, "user.register", call.client, n - 1);
    }
  }

  lemma WrongPasswordAlone(cfg: C.Config, s: Store, user: UserId, client: Client, n: nat)
    requires n >= 6 && user < |s.users|
    ensures Alone(cfg, s, LoginWrong(user, client), n) == (C.LoginFailed(cfg, s, user, client), Finished(C.Rejected("invalid_credentials")))
  {
    var s1 := InsertAudit(s, Some(user), "auth.login_failed", client);
    var (s2, th) := FailureCounted(cfg, s1, user, client);
    assert Alone(cfg, s, LoginWrong(user, client), n) == Alone(cfg, s1, LoginNoted(user, client), n - 1);
    assert Alone(cfg, s1, LoginNoted(user, client), n - 1) == Alone(cfg, s2, th, n - 2);
    if th.Finished? {
      FinishedStays(cfg, s2, th.reply, n - 2);
    } else {
      RefuseRuns(cfg, s2, Some(user), "auth.account_locked", client, "invalid_credentials", n - 2);
    }
  }

  function LoginResult(cfg: C.Config, s: Store, call: LoginCall): (Store, C.Reply) {
    C.LoginUser(cfg, s, call.email, call.password, call.minted, call.client)
  }

  lemma LoginAlone(cfg: C.Config, s: Store, call: LoginCall, n: nat)
    requires n >= 7
    ensures Alone(cfg, s, BeginLogin(s, call), n) == Ended(LoginResult(cfg, s, call))
  {
    var found := FindUser(s.users, call.email);
    if found.None? {
      RefuseRuns(cfg, s, None, "auth.login_failed", call.client, "invalid_credentials", n);
    } else if !s.users[found.value].isActive {
      RefuseRuns(cfg, s, found, "auth.login_failed", call.client, "invalid_credentials", n);
    } else {
      LoginReadAlone(cfg, s, found.value, call, n);
    }
  }

  lemma LoginReadAlone(cfg: C.Config, s: Store, user: UserId, call: LoginCall, n: nat)
    requires n >= 7 && FindUser(s.users, call.email) == Some(user) && s.users[user].isActive
    ensures Alone(cfg, s, LoginRead(user, s.users[user].passwordHash, call), n) == Ended(LoginResult(cfg, s, call))
  {
    var hash := s.users[user].passwordHash;
    var th := LoginChecked(s, user, hash, call);
    assert Alone(cfg, s, LoginRead(user, hash, call), n) == Alone(cfg, s, th, n - 1);
    if C.Locked(s.users[user], s.now) {
      RefuseRuns(cfg, s, Some(user), "auth.login_locked", call.client, "invalid_credentials", n - 1);
    } else if !VerifyPassword(call.password, hash) {
      WrongPasswordAlone(cfg, s, user, call.client, n - 1);
    } else {
      LoginSignInRuns(cfg, s, user, call.minted, "auth.login", call.client, n - 1);
    }
  }

  function RefreshResult(cfg: C.Config, s: Store, call: RefreshCall): (Store, C.Reply) {
    C.RefreshTokens(cfg, s, call.presented, call.minted, call.client)
  }

  lemma RefreshAlone(cfg: C.Config, s: Store, call: RefreshCall, n: nat)
    requires n >= 7
    ensures Alone(cfg, s, BeginRefresh(s, call), n) == Ended(RefreshResult(cfg, s, call))
  {
    var th := BeginRefresh(s, call);
    if th.Finished? {
      FinishedStays(cfg, s, th.reply, n);
    } else if th.Script? {
      RefuseRuns(cfg, s, th.rest[0].noted, "auth.refresh_reuse", call.client, "invalid_refresh", n);
    } else if th.owner >= |s.users| {
      FinishedStays(cfg, s, C.Rejected("invalid_refresh"), n - 1);
    } else {
      FoundAlone(cfg, s, th.id, th.owner, call.minted, call.client, n);
    }
  }

  /** What a refresh does once its row is found to be good. */
  function Exchange(cfg: C.Config, s: Store, id: TokenId, owner: UserId, minted: Secret, client: Client): (Store, C.Reply) {
    var s1 := TouchRefresh(s, id, client);
    var s2 := InsertRefresh(s1, owner, HashToken(minted), cfg.refreshTtlDays, client);
    (InsertAudit(RevokeRefresh(s2, id, Some(|s1.refresh|)), Some(owner), "auth.refresh", client),
     C.SignedIn(owner, minted, s.now + cfg.refreshTtlDays * DAY))
  }

  lemma FoundAlone(cfg: C.Config, s: Store, id: TokenId, owner: UserId, m: Secret, c: Client, n: nat)
    requires n >= 7 && owner < |s.users|
    ensures Alone(cfg, s, RefreshFound(id, owner, m, c), n) == Ended(Exchange(cfg, s, id, owner, m, c))
  {
    var s1 := TouchRefresh(s, id, c);
    var s2 := InsertRefresh(s1, owner, HashToken(m), cfg.refreshTtlDays, c);
    assert Alone(cfg, s, RefreshFound(id, owner, m, c), n) == Alone(cfg, s, RefreshChecked(id, owner, m, c), n - 1);
    assert Alone(cfg, s, RefreshChecked(id, owner, m, c), n - 1) == Alone(cfg, s1, RefreshTouched(id, owner, m, c), n - 2);
    var reply := C.SignedIn(owner, m, s.now + cfg.refreshTtlDays * DAY);
    assert Alone(cfg, s1, RefreshTouched(id, owner, m, c), n - 2) == Alone(cfg, s2, RefreshInserted(id, |s1.refresh|, owner, reply, c), n - 3);
    InsertedAlone(cfg, s2, id, |s1.refresh|, owner, reply, c, n - 3);
  }

  lemma InsertedAlone(cfg: C.Config, s: Store, id: TokenId, newId: TokenId, owner: UserId, reply: C.Reply, c: Client, n: nat)
    requires n >= 2
    ensures Alone(cfg, s, RefreshInserted(id, newId, owner, reply, c), n)
      == (InsertAudit(RevokeRefresh(s, id, Some(newId)), Some(owner), "auth.refresh", c), Finished(reply))
  {
    var s1, note := RevokeRefresh(s, id, Some(newId)), Note(Some(owner), "auth.refresh", c);
    assert Alone(cfg, s, RefreshInserted(id, newId, owner, reply, c), n) == Alone(cfg, s1, Script([note], reply), n - 1);
    OneStatement(cfg, s1, Script([note], reply), n - 1);
  }

  lemma LogoutAlone(cfg: C.Config, s: Store, call: RevocationCall, n: nat)
    requires n >= 7 && call.Logout?
    ensures Alone(cfg, s, BeginRevocation(s, call), n) == Ended(C.LogoutCall(s, call.presented, call.client))
  {
    var th := BeginRevocation(s, call);
    if th.Finished? {
      FinishedStays(cfg, s, th.reply, n);
    } else {
      TwoStatements(cfg, s, th, n);
    }
  }

  lemma RevokeOthersAlone(cfg: C.Config, s: Store, call: RevocationCall, n: nat)
    requires n >= 7 && call.RevokeOthers?
    ensures Alone(cfg, s, BeginRevocation(s, call), n) == Ended(C.RevokeOtherSessions(s, call.caller, call.presented, call.client))
  {
    var th := BeginRevocation(s, call);
    if th.Finished? {
      FinishedStays(cfg, s, th.reply, n);
    } else {
      RevokeOthersStatements(cfg, s, call.caller, th.rest[0].keep, call.client, n);
    }
  }

  lemma RevokeOthersStatements(cfg: C.Config, s: Store, user: UserId, keep: Option<TokenId>, client: Client, n: nat)
    requires n >= 2
    ensures Alone(cfg, s, Script([RevokeMany(user, keep), Note(Some(user), "auth.revoke_other_sessions", client)], C.NoContent), n) ==
      (InsertAudit(RevokeAllExcept(s, user, keep), Some(user), "auth.revoke_other_sessions", client), Finished(C.NoContent))
  {
    var th := Script([RevokeMany(user, keep), Note(Some(user), "auth.revoke_other_sessions", client)], C.NoContent);
    TwoStatements(cfg, s, th, n);
  }

  lemma VerifyEmailAlone(cfg: C.Config, s: Store, call: RedemptionCall, n: nat)
    requires n >= 7 && call.VerifyEmail?
    ensures Alone(cfg, s, BeginRedemption(s, call), n) == Ended(C.VerifyEmailCall(s, call.presented))
  {
    var th := BeginRedemption(s, call);
    if th.Finished? {
      FinishedStays(cfg, s, th.reply, n);
    } else {
      TwoStatements(cfg, s, th, n);
    }
  }

  lemma ResetPasswordAlone(cfg: C.Config, s: Store, call: RedemptionCall, n: nat)
    requires n >= 7 && call.ResetPassword?
    ensures Alone(cfg, s, BeginRedemption(s, call), n) == Ended(C.ResetPasswordCall(s, call.presented, call.password))
  {
    var th := BeginRedemption(s, call);
    if th.Finished? {
      FinishedStays(cfg, s, th.reply, n);
    } else {
      var id := C.Redeemable(s, call.presented, PasswordResetToken).value;
      ResetStatements(cfg, s, s.oneTime[id].userId.value, HashOf(call.password), id, n);
    }
  }

  lemma ResetStatements(cfg: C.Config, s: Store, user: UserId, hash: PasswordHash, id: TokenId, n: nat)
    requires n >= 3
    ensures Alone(cfg, s, Script([StoreHash(user, hash), Consume(id), RevokeMany(user, None)], C.Done(user)), n) ==
      (RevokeAllExcept(ConsumeOneTime(SetPasswordHash(s, user, hash), id), user, None), Finished(C.Done(user)))
  {
    var th := Script([StoreHash(user, hash), Consume(id), RevokeMany(user, None)], C.Done(user));
    ThreeStatements(cfg, s, th, n);
  }

  lemma IssueAlone(cfg: C.Config, s: Store, email: string, minted: Secret, kind: TokenType, ttl: int, n: nat)
    requires n >= 7
    ensures Alone(cfg, s, BeginIssue(s, email, minted, kind, ttl), n)
      == (if kind == VerifyEmailToken then C.IssueVerify(s, email, minted, ttl) else C.IssueReset(s, email, minted, ttl), Finished(C.NoContent))
  {
    var th := BeginIssue(s, email, minted, kind, ttl);
    if th.Finished? {
      FinishedStays(cfg, s, th.reply, n);
    } else {
      OneStatement(cfg, s, th, n);
    }
  }

  function ChangeResult(s: Store, call: EmailCall): (Store, C.Reply) {
    C.ChangeEmailCall(s, call.caller, call.email, call.minted, call.client)
  }

  lemma ChangeEmailAlone(cfg: C.Config, s: Store, call: EmailCall, n: nat)
    requires n >= 7
    ensures Alone(cfg, s, BeginChangeEmail(s, call), n) == Ended(ChangeResult(s, call))
  {
    var th := BeginChangeEmail(s, call);
    if th.Finished? {
      FinishedStays(cfg, s, th.reply, n);
    } else if call.caller >= |s.users| {
      FinishedStays(cfg, s, C.Rejected("invalid_request"), n - 1);
    } else {
      EmailSetAlone(cfg, s, call, n);
    }
  }

  lemma EmailSetAlone(cfg: C.Config, s: Store, call: EmailCall, n: nat)
    requires n >= 7 && BeginChangeEmail(s, call) == EmailFree(call) && call.caller < |s.users|
    ensures Alone(cfg, s, EmailFree(call), n) == Ended(ChangeResult(s, call))
  {
    var s1 := UpdateUserEmail(s, call.caller, call.email);
    assert s1.users[call.caller].email == call.email && FindUser(s1.users, call.email) == Some(call.caller);
    assert Alone(cfg, s, EmailFree(call), n) == Alone(cfg, s1, EmailSet(call), n - 1);
    EmailSelectedAlone(cfg, s1, call, n - 1);
  }

  /** The new address belongs to the caller and is unverified, so it gets its token. */
  lemma EmailSelectedAlone(cfg: C.Config, s: Store, call: EmailCall, n: nat)
    requires n >= 3
    requires FindUser(s.users, call.email) == Some(call.caller) && !s.users[call.caller].isEmailVerified
    ensures Alone(cfg, s, EmailSet(call), n) ==
      (InsertAudit(C.IssueVerify(s, call.email, call.minted, C.VERIFY_TTL), Some(call.caller), "user.email_change_requested", call.client),
       Finished(C.Done(call.caller)))
  {
    var script := EmailSelected(s, call);
    assert Alone(cfg, s, EmailSet(call), n) == Alone(cfg, s, script, n - 1);
    TwoStatements(cfg, s, script, n - 1);
  }

  // ---- OAuth ------------------------------------------------------------------------------

  function OAuthResult(cfg: C.Config, s: Store, call: OAuthCall): (Store, C.Reply) {
    C.OAuthLogin(cfg, s, call.sub, call.email, call.emailVerified, call.minted, call.client)
  }

  /** The last two statements of an OAuth sign-in. */
  lemma OAuthTail(cfg: C.Config, s: Store, user: UserId, call: OAuthCall)
    ensures var tail := [AddToken(user, call.minted, call.client), Note(Some(user), "auth.oauth_login", call.client)];
      (ExecuteAll(cfg, s, tail), ReplyAtEnd(cfg, s, tail, C.NoContent))
        == C.SignIn(s, user, call.minted, cfg.refreshTtlDays, "auth.oauth_login", call.client)
  {
    var token, note := AddToken(user, call.minted, call.client), Note(Some(user), "auth.oauth_login", call.client);
    assert [token, note] == [token] + [note];
    ScriptFirst(cfg, s, token, [note], C.NoContent);
    ScriptOfOne(cfg, Execute(cfg, s, token), note, ReplyAfter(cfg, s, token, C.NoContent));
  }

  /** From the statements before the token on, a sign-in ends as the atomic one. */
  lemma OAuthSignInRuns(cfg: C.Config, s: Store, user: UserId, active: bool, before: seq<Sql>, call: OAuthCall, n: nat)
    requires |before| + 2 <= n && forall i :: 0 <= i < |before| ==> !before[i].AddToken?
    ensures var s1 := ExecuteAll(cfg, s, before);
      var (t, reply) := if active then C.SignIn(s1, user, call.minted, cfg.refreshTtlDays, "auth.oauth_login", call.client)
                        else (s1, C.Rejected("oauth_rejected"));
      Alone(cfg, s, OAuthSignIn(user, active, before, call), n) == (t, Finished(reply))
  {
    var tail := [AddToken(user, call.minted, call.client), Note(Some(user), "auth.oauth_login", call.client)];
    if active {
      ScriptRuns(cfg, s, before + tail, C.NoContent, n);
      ScriptThen(cfg, s, before, tail, C.NoContent);
      OAuthTail(cfg, ExecuteAll(cfg, s, before), user, call);
    } else if before == [] {
      FinishedStays(cfg, s, C.Rejected("oauth_rejected"), n);
    } else {
      ScriptRuns(cfg, s, before, C.Rejected("oauth_rejected"), n);
      ScriptThen(cfg, s, before, [], C.Rejected("oauth_rejected"));
      assert before + [] == before;
    }
  }

  lemma {:induction false} ScriptThen(cfg: C.Config, s: Store, before: seq<Sql>, tail: seq<Sql>, reply: C.Reply)
    requires forall i :: 0 <= i < |before| ==> !before[i].AddToken?
    ensures ExecuteAll(cfg, s, before + tail) == ExecuteAll(cfg, ExecuteAll(cfg, s, before), tail)
    ensures ReplyAtEnd(cfg, s, before + tail, reply) == ReplyAtEnd(cfg, ExecuteAll(cfg, s, before), tail, reply)
    decreases |before|
  {
    if before == [] {
      assert before + tail == tail;
    } else {
      assert before + tail == [before[0]] + (before[1..] + tail);
      ScriptFirst(cfg, s, before[0], before[1..] + tail, reply);
      ScriptThen(cfg, Execute(cfg, s, before[0]), before[1..], tail, reply);
    }
  }

  lemma BeforeNewToken(cfg: C.Config, s: Store, user: UserId, call: OAuthCall)
    ensures var before := (if call.emailVerified then [MarkVerified(user)] else []) + [Link(call.sub, user)];
      ExecuteAll(cfg, s, before) == LinkOAuth(if call.emailVerified then SetEmailVerified(s, user) else s, call.sub, user)
  {
    var link := Link(call.sub, user);
    if call.emailVerified {
      ScriptFirst(cfg, s, MarkVerified(user), [link], C.NoContent);
      ScriptOfOne(cfg, SetEmailVerified(s, user), link, C.NoContent);
    } else {
      assert [] + [link] == [link];
      ScriptOfOne(cfg, s, link, C.NoContent);
    }
  }

  lemma NewOAuthUserAlone(cfg: C.Config, s: Store, call: OAuthCall, n: nat)
    requires FindUser(s.users, call.email).None? && n >= 5
    requires !(call.sub in s.oauth && s.oauth[call.sub] < |s.users|)
    ensures Alone(cfg, s, OAuthFree(call), n) == Ended(OAuthResult(cfg, s, call))
  {
    var user, s1 := |s.users|, InsertUser(s, call.email, Unusable);
    var before := (if call.emailVerified then [MarkVerified(user)] else []) + [Link(call.sub, user)];
    assert Alone(cfg, s, OAuthFree(call), n) == Alone(cfg, s1, OAuthSignIn(user, true, before, call), n - 1);
    OAuthSignInRuns(cfg, s1, user, true, before, call, n - 1);
    BeforeNewToken(cfg, s1, user, call);
  }

  lemma MergedAlone(cfg: C.Config, s: Store, user: UserId, call: OAuthCall, n: nat)
    requires FindUser(s.users, call.email) == Some(user) && (s.users[user].isEmailVerified || call.emailVerified)
    requires n >= 3 && !(call.sub in s.oauth && s.oauth[call.sub] < |s.users|)
    ensures Alone(cfg, s, OAuthSignIn(user, s.users[user].isActive, [Link(call.sub, user)], call), n) == Ended(OAuthResult(cfg, s, call))
  {
    OAuthSignInRuns(cfg, s, user, s.users[user].isActive, [Link(call.sub, user)], call, n);
    ScriptOfOne(cfg, s, Link(call.sub, user), C.NoContent);
  }

  lemma UnlinkedAlone(cfg: C.Config, s: Store, call: OAuthCall, n: nat)
    requires n >= 6 && !(call.sub in s.oauth && s.oauth[call.sub] < |s.users|)
    ensures Alone(cfg, s, OAuthUnlinked(call), n) == Ended(OAuthResult(cfg, s, call))
  {
    var th := OAuthByEmail(s, call);
    assert Alone(cfg, s, OAuthUnlinked(call), n) == Alone(cfg, s, th, n - 1);
    var found := FindUser(s.users, call.email);
    if found.None? {
      NewOAuthUserAlone(cfg, s, call, n - 1);
    } else if s.users[found.value].isEmailVerified || call.emailVerified {
      MergedAlone(cfg, s, found.value, call, n - 1);
    } else {
      RefuseRuns(cfg, s, found, "auth.oauth_link_rejected", call.client, "oauth_rejected", n - 1);
    }
  }

  lemma OAuthAlone(cfg: C.Config, s: Store, call: OAuthCall, n: nat)
    requires n >= 7
    ensures Alone(cfg, s, Started(s, call), n) == Ended(OAuthResult(cfg, s, call))
  {
    if call.sub !in s.oauth {
      UnlinkedAlone(cfg, s, call, n);
    } else {
      var user := s.oauth[call.sub];
      assert Alone(cfg, s, Started(s, call), n) == Alone(cfg, s, OAuthLinked(user, call), n);
      if user < |s.users| {
        OAuthSignInRuns(cfg, s, user, s.users[user].isActive, [], call, n - 1);
      } else {
        UnlinkedAlone(cfg, s, call, n - 1);
      }
    }
  }

  // ---- Every call --------------------------------------------------------------------------------

  lemma FirstStatement(cfg: C.Config, s: Store, call: C.Call, n: nat, th: Thread)
    requires n > 0 && th == Started(s, call)
    ensures Alone(cfg, s, Begin(call), n) == Alone(cfg, s, th, n - 1)
  {
  }

  lemma SignInsAlone(cfg: C.Config, s: Store, call: C.Call, n: nat, th: Thread)
    requires n >= 7 && th == Started(s, call) && (call.Register? || call.Login? || call.OAuth? || call.Refresh? || call.ChangeEmail?)
    ensures Alone(cfg, s, th, n) == Ended(C.Step(cfg, s, call))
  {
    match call
    case Register(_, _, _, _) => RegisterAlone(cfg, s, call, n);
    case Login(_, _, _, _) => LoginAlone(cfg, s, call, n);
    case OAuth(_, _, _, _, _) => OAuthAlone(cfg, s, call, n);
    case Refresh(_, _, _) => RefreshAlone(cfg, s, call, n);
    case ChangeEmail(_, _, _, _) => ChangeEmailAlone(cfg, s, call, n);
  }

  lemma StartedAlone(cfg: C.Config, s: Store, call: C.Call, n: nat, th: Thread)
    requires n >= 7 && th == Started(s, call)
    ensures Alone(cfg, s, th, n) == Ended(C.Step(cfg, s, call))
  {
    match call
    case Logout(_, _) => LogoutAlone(cfg, s, call, n);
    case RevokeOthers(_, _, _) => RevokeOthersAlone(cfg, s, call, n);
    case IssueVerifyEmail(email, minted, ttl) => IssueAlone(cfg, s, email, minted, VerifyEmailToken, ttl, n);
    case VerifyEmail(_) => VerifyEmailAlone(cfg, s, call, n);
    case IssuePasswordReset(email, minted, ttl) => IssueAlone(cfg, s, email, minted, PasswordResetToken, ttl, n);
    case ResetPassword(_, _) => ResetPasswordAlone(cfg, s, call, n);
    case _ => SignInsAlone(cfg, s, call, n, th);
  }

  /** At most eight statements run back to back are the atomic call, whatever the call
      and the store. */
  lemma UninterruptedIsTheCall(cfg: C.Config, s: Store, call: C.Call, n: nat)
    requires n >= 8
    ensures Alone(cfg, s, Begin(call), n) == Ended(C.Step(cfg, s, call))
  {
    var th := Started(s, call);
    FirstStatement(cfg, s, call, n, th);
    StartedAlone(cfg, s, call, n - 1, th);
  }
}
