/** What every statement, and so every call and every run, keeps: revocation is
    permanent, rotation links point to later tokens of the same user, consumed
    timestamps are written once. */
module AuthInvariants {
  import opened Wrappers
  import opened AuthStore
  import opened AuthCalls

  predicate UniqueRefreshDigests(rows: seq<RefreshToken>) {
    forall i, j :: 0 <= i < j < |rows| ==> rows[i].tokenHash != rows[j].tokenHash
  }

  predicate UniqueOneTimeDigests(rows: seq<OneTimeToken>) {
    forall i, j :: 0 <= i < j < |rows| ==> rows[i].tokenHash != rows[j].tokenHash
  }

  /** The column's uniqueness constraint. */
  predicate UniqueEmails(users: seq<User>) {
    forall u, v :: 0 <= u < v < |users| ==> users[u].email != users[v].email
  }

  /** A rotation link leads from a revoked row to a later row of the same user. */
  predicate LinkOk(rows: seq<RefreshToken>, i: nat)
    requires i < |rows|
  {
    rows[i].replacedBy.Some? ==>
      && rows[i].revokedAt.Some?
      && i < rows[i].replacedBy.value < |rows|
      && rows[rows[i].replacedBy.value].userId == rows[i].userId
      && rows[i].createdAt <= rows[rows[i].replacedBy.value].createdAt
  }

  /** What holds even when the statements of different calls interleave. */
  predicate Shape(s: Store) {
    && (forall i :: 0 <= i < |s.refresh| ==>
          s.refresh[i].userId < |s.users| && s.refresh[i].createdAt <= s.now && LinkOk(s.refresh, i))
    && (forall i :: 0 <= i < |s.oneTime| && s.oneTime[i].userId.Some? ==> s.oneTime[i].userId.value < |s.users|)
  }

  /** With fresh secrets a digest also names at most one row. */
  predicate Inv(s: Store) {
    Shape(s) && UniqueRefreshDigests(s.refresh) && UniqueOneTimeDigests(s.oneTime)
  }

  predicate RefreshGrows(a: RefreshToken, b: RefreshToken) {
    && a.userId == b.userId && a.tokenHash == b.tokenHash && a.createdAt == b.createdAt && a.expiresAt == b.expiresAt
    && (a.revokedAt.Some? ==> b.revokedAt.Some?)
  }

  predicate OneTimeGrows(a: OneTimeToken, b: OneTimeToken) {
    && a.userId == b.userId && a.tokenHash == b.tokenHash && a.kind == b.kind && a.expiresAt == b.expiresAt
    && (a.consumedAt.Some? ==> b.consumedAt == a.consumedAt)
  }

  /** Rows are never lost or re-issued, the clock never runs back. */
  predicate Grows(s: Store, t: Store) {
    && s.now <= t.now && |s.users| <= |t.users| && s.audit <= t.audit
    && |s.refresh| <= |t.refresh| && (forall i :: 0 <= i < |s.refresh| ==> RefreshGrows(s.refresh[i], t.refresh[i]))
    && |s.oneTime| <= |t.oneTime| && (forall i :: 0 <= i < |s.oneTime| ==> OneTimeGrows(s.oneTime[i], t.oneTime[i]))
  }

  lemma GrowsTransitive(s: Store, t: Store, u: Store)
    requires Grows(s, t) && Grows(t, u)
    ensures Grows(s, u)
  {
  }

  /** Keeps the shape and only grows the store. */
  predicate KeepsShape(s: Store, t: Store) {
    (Shape(s) ==> Shape(t)) && Grows(s, t)
  }

  /** Also keeps digests unique. */
  predicate Safe(s: Store, t: Store) {
    KeepsShape(s, t) && (Inv(s) ==> Inv(t))
  }

  // ---- Statements ---------------------------------------------------------------

  /** Every statement that leaves both token tables alone. */
  lemma UserStatementSafe(s: Store, t: Store)
    requires t == s.(users := t.users, oauth := t.oauth, audit := t.audit)
    requires |s.users| <= |t.users| && s.audit <= t.audit
    ensures Safe(s, t)
  {
  }

  lemma InsertRefreshSafe(s: Store, user: UserId, secret: Secret, ttlDays: int, client: Client)
    requires user < |s.users|
    ensures KeepsShape(s, InsertRefresh(s, user, HashToken(secret), ttlDays, client))
    ensures Unstored(s, secret) ==> Safe(s, InsertRefresh(s, user, HashToken(secret), ttlDays, client))
  {
    var t := InsertRefresh(s, user, HashToken(secret), ttlDays, client);
    if Shape(s) {
      forall i | 0 <= i < |t.refresh|
        ensures t.refresh[i].userId < |t.users| && t.refresh[i].createdAt <= t.now && LinkOk(t.refresh, i)
      {
        if i < |s.refresh| {
          assert LinkOk(s.refresh, i);
        }
      }
    }
  }

  lemma TouchRefreshSafe(s: Store, id: TokenId, client: Client)
    ensures Safe(s, TouchRefresh(s, id, client))
  {
    var t := TouchRefresh(s, id, client);
    if Shape(s) {
      forall i | 0 <= i < |t.refresh|
        ensures t.refresh[i].userId < |t.users| && t.refresh[i].createdAt <= t.now && LinkOk(t.refresh, i)
      {
        assert LinkOk(s.refresh, i);
      }
    }
  }

  predicate ValidLink(s: Store, id: TokenId, replacedBy: Option<TokenId>) {
    id < |s.refresh| && replacedBy.Some? ==>
      id < replacedBy.value < |s.refresh| && s.refresh[replacedBy.value].userId == s.refresh[id].userId
      && s.refresh[id].createdAt <= s.refresh[replacedBy.value].createdAt
  }

  lemma RevokeRefreshSafe(s: Store, id: TokenId, replacedBy: Option<TokenId>)
    requires ValidLink(s, id, replacedBy)
    ensures Safe(s, RevokeRefresh(s, id, replacedBy))
  {
    var t := RevokeRefresh(s, id, replacedBy);
    if Shape(s) {
      forall i | 0 <= i < |t.refresh|
        ensures t.refresh[i].userId < |t.users| && t.refresh[i].createdAt <= t.now && LinkOk(t.refresh, i)
      {
        assert LinkOk(s.refresh, i);
      }
    }
  }

  lemma RevokeAllSafe(s: Store, user: UserId, keep: Option<TokenId>)
    ensures Safe(s, RevokeAllExcept(s, user, keep))
  {
    var t := RevokeAllExcept(s, user, keep);
    if Shape(s) {
      forall i | 0 <= i < |t.refresh|
        ensures t.refresh[i].userId < |t.users| && t.refresh[i].createdAt <= t.now && LinkOk(t.refresh, i)
      {
        assert LinkOk(s.refresh, i);
      }
    }
  }

  lemma InsertOneTimeSafe(s: Store, user: UserId, secret: Secret, kind: TokenType, ttl: int)
    requires user < |s.users|
    ensures KeepsShape(s, InsertOneTime(s, Some(user), HashToken(secret), kind, ttl))
    ensures Unstored(s, secret) ==> Safe(s, InsertOneTime(s, Some(user), HashToken(secret), kind, ttl))
  {
    var t := InsertOneTime(s, Some(user), HashToken(secret), kind, ttl);
    assert t.refresh == s.refresh;
  }

  lemma ConsumeOneTimeSafe(s: Store, id: TokenId)
    ensures Safe(s, ConsumeOneTime(s, id))
  {
  }

  // ---- Calls ----------------------------------------------------------------------

  lemma SignInSafe(s: Store, user: UserId, minted: Secret, ttlDays: int, action: string, client: Client)
    requires user < |s.users| && Unstored(s, minted)
    ensures Safe(s, SignIn(s, user, minted, ttlDays, action, client).0)
  {
    var s1 := InsertRefresh(s, user, HashToken(minted), ttlDays, client);
    InsertRefreshSafe(s, user, minted, ttlDays, client);
    UserStatementSafe(s1, InsertAudit(s1, Some(user), action, client));
  }

  lemma LoginSafe(cfg: Config, s: Store, email: string, password: string, minted: Secret, client: Client)
    requires Unstored(s, minted)
    ensures Safe(s, LoginUser(cfg, s, email, password, minted, client).0)
  {
    var (s1, user) := Authenticate(cfg, s, email, password, client);
    var t := LoginUser(cfg, s, email, password, minted, client).0;
    if user.None? {
      UserStatementSafe(s, s1);
    } else {
      InsertRefreshSafe(s, user.value, minted, cfg.refreshTtlDays, client);
      UserStatementSafe(InsertRefresh(s, user.value, HashToken(minted), cfg.refreshTtlDays, client), t);
    }
  }

  lemma OAuthSafe(cfg: Config, s: Store, sub: string, email: string, verified: bool, minted: Secret, client: Client)
    requires Unstored(s, minted)
    ensures Safe(s, OAuthLogin(cfg, s, sub, email, verified, minted, client).0)
  {
    var (s1, user) := ResolveOAuth(s, sub, email, verified, client);
    UserStatementSafe(s, s1);
    if user.Some? {
      SignInSafe(s1, user.value, minted, cfg.refreshTtlDays, "auth.oauth_login", client);
    }
  }

  lemma RefreshSafe(cfg: Config, s: Store, presented: Secret, minted: Secret, client: Client)
    requires Unstored(s, minted)
    ensures Safe(s, RefreshTokens(cfg, s, presented, minted, client).0)
  {
    var found := FindRefresh(s.refresh, HashToken(presented));
    var t := RefreshTokens(cfg, s, presented, minted, client).0;
    if t.refresh == s.refresh {
      UserStatementSafe(s, t);
    } else {
      var id, row := found.value, s.refresh[found.value];
      var s1 := TouchRefresh(s, id, client);
      var s2 := InsertRefresh(s1, row.userId, HashToken(minted), cfg.refreshTtlDays, client);
      var s3 := RevokeRefresh(s2, id, Some(|s.refresh|));
      TouchRefreshSafe(s, id, client);
      InsertRefreshSafe(s1, row.userId, minted, cfg.refreshTtlDays, client);
      if Shape(s) {
        RevokeRefreshSafe(s2, id, Some(|s.refresh|));
      }
      assert Grows(s2, s3);
      UserStatementSafe(s3, t);
      GrowsTransitive(s, s1, s2);
      GrowsTransitive(s, s2, s3);
      GrowsTransitive(s, s3, t);
    }
  }

  lemma LogoutSafe(s: Store, presented: Secret, client: Client)
    ensures Safe(s, LogoutCall(s, presented, client).0)
  {
    var t := LogoutCall(s, presented, client).0;
    if t == s {
      UserStatementSafe(s, t);
    } else {
      var id := FindRefresh(s.refresh, HashToken(presented)).value;
      RevokeRefreshSafe(s, id, None);
      UserStatementSafe(RevokeRefresh(s, id, None), t);
    }
  }

  lemma RevokeOthersSafe(s: Store, caller: UserId, presented: Secret, client: Client)
    ensures Safe(s, RevokeOtherSessions(s, caller, presented, client).0)
  {
    var t := RevokeOtherSessions(s, caller, presented, client).0;
    if t == s {
      UserStatementSafe(s, t);
    } else {
      var found := FindRefresh(s.refresh, HashToken(presented));
      RevokeAllSafe(s, caller, found);
      UserStatementSafe(RevokeAllExcept(s, caller, found), t);
    }
  }

  lemma RevokingCallSafe(cfg: Config, s: Store, call: Call)
    requires call.Logout? || call.RevokeOthers?
    ensures Safe(s, Step(cfg, s, call).0)
  {
    if call.Logout? {
      LogoutSafe(s, call.presented, call.client);
    } else {
      RevokeOthersSafe(s, call.caller, call.presented, call.client);
    }
  }

  lemma RedeemingCallSafe(cfg: Config, s: Store, call: Call)
    requires call.VerifyEmail? || call.ResetPassword?
    ensures Safe(s, Step(cfg, s, call).0)
  {
    var t := Step(cfg, s, call).0;
    var redeemed := Redeemable(s, call.presented, if call.VerifyEmail? then VerifyEmailToken else PasswordResetToken);
    if t == s {
      UserStatementSafe(s, t);
    } else {
      var user := s.oneTime[redeemed.value].userId.value;
      var s1 := if call.VerifyEmail? then SetEmailVerified(s, user) else SetPasswordHash(s, user, HashOf(call.password));
      UserStatementSafe(s, s1);
      ConsumeOneTimeSafe(s1, redeemed.value);
      if call.ResetPassword? {
        RevokeAllSafe(ConsumeOneTime(s1, redeemed.value), user, None);
      }
    }
  }

  lemma ChangeEmailSafe(s: Store, caller: UserId, email: string, minted: Secret, client: Client)
    requires Unstored(s, minted)
    ensures Safe(s, ChangeEmailCall(s, caller, email, minted, client).0)
  {
    var t := ChangeEmailCall(s, caller, email, minted, client).0;
    if t == s {
      UserStatementSafe(s, s);
    } else {
      var s1 := UpdateUserEmail(s, caller, email);
      var s2 := IssueVerify(s1, email, minted, VERIFY_TTL);
      UserStatementSafe(s, s1);
      if s2 != s1 {
        InsertOneTimeSafe(s1, FindUser(s1.users, email).value, minted, VerifyEmailToken, VERIFY_TTL);
      }
      UserStatementSafe(s2, t);
    }
  }

  lemma StepSafe(cfg: Config, s: Store, call: Call)
    requires FreshCall(s, call)
    ensures Safe(s, Step(cfg, s, call).0)
  {
    match call
    case Register(email, password, minted, client) =>
      var t := Step(cfg, s, call).0;
      if t == s {
        UserStatementSafe(s, s);
      } else {
        var s1 := InsertUser(s, email, HashOf(password));
        UserStatementSafe(s, s1);
        SignInSafe(s1, |s.users|, minted, cfg.refreshTtlDays, "user.register", client);
      }
    case Login(email, password, minted, client) => LoginSafe(cfg, s, email, password, minted, client);
    case OAuth(sub, email, verified, minted, client) => OAuthSafe(cfg, s, sub, email, verified, minted, client);
    case Refresh(presented, minted, client) => RefreshSafe(cfg, s, presented, minted, client);
    case Logout(_, _) => RevokingCallSafe(cfg, s, call);
    case RevokeOthers(_, _, _) => RevokingCallSafe(cfg, s, call);
    case IssueVerifyEmail(email, minted, ttl) =>
      if Step(cfg, s, call).0 != s {
        InsertOneTimeSafe(s, FindUser(s.users, email).value, minted, VerifyEmailToken, ttl);
      } else {
        UserStatementSafe(s, s);
      }
    case VerifyEmail(_) => RedeemingCallSafe(cfg, s, call);
    case IssuePasswordReset(email, minted, ttl) =>
      if Step(cfg, s, call).0 != s {
        InsertOneTimeSafe(s, FindUser(s.users, email).value, minted, PasswordResetToken, ttl);
      } else {
        UserStatementSafe(s, s);
      }
    case ResetPassword(_, _) => RedeemingCallSafe(cfg, s, call);
    case ChangeEmail(caller, email, minted, client) => ChangeEmailSafe(s, caller, email, minted, client);
  }

  // ---- Runs -----------------------------------------------------------------------

  lemma EventSafe(cfg: Config, s: Store, e: Event)
    requires FreshCall(s, e.call)
    ensures Safe(s, After(cfg, s, e))
  {
    StepSafe(cfg, At(s, e), e.call);
    assert Safe(s, At(s, e)) by {
      if Shape(s) {
        forall i | 0 <= i < |s.refresh| ensures LinkOk(At(s, e).refresh, i) {
          assert LinkOk(s.refresh, i);
        }
      }
    }
    GrowsTransitive(s, At(s, e), After(cfg, s, e));
  }

  /** Every run keeps the invariant, never unrevokes a token and never rewrites a
      consumed timestamp. */
  lemma {:induction false} RunSafe(cfg: Config, s: Store, events: seq<Event>)
    requires FreshRun(cfg, s, events)
    ensures Safe(s, Run(cfg, s, events))
    decreases |events|
  {
    if events == [] {
    } else {
      EventSafe(cfg, s, events[0]);
      RunSafe(cfg, After(cfg, s, events[0]), events[1..]);
      GrowsTransitive(s, After(cfg, s, events[0]), Run(cfg, s, events));
    }
  }
}
