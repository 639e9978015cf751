/** Call by call, the session and one-time rows that are left, row by row. */
module AuthRows {
  import opened Wrappers
  import opened AuthStore
  import opened AuthCalls

  const DAYS: int := 86_400_000_000

  /** The row of a token just issued. */
  function Issued(now: Time, user: UserId, secret: Secret, days: int, client: Client): RefreshToken {
    RefreshToken(user, HashToken(secret), now, now, now + days * DAYS, None, None, client)
  }

  /** A sign-in adds one row, in the caller's name and for the client that called. */
  lemma SignInAddsRow(cfg: Config, s: Store, call: Call)
    requires call.Register? || call.Login? || call.OAuth?
    ensures var (t, reply) := Step(cfg, s, call);
      t.refresh == s.refresh +
        if reply.SignedIn? then [Issued(s.now, reply.user, call.minted, cfg.refreshTtlDays, call.client)] else []
  {
    match call
    case Register(_, _, _, _) =>
    case Login(email, password, _, client) => var _ := Authenticate(cfg, s, email, password, client);
    case OAuth(sub, email, verified, _, client) => var _ := ResolveOAuth(s, sub, email, verified, client);
  }

  /** A refresh stamps the presented row with the time and the client, revokes it in
      favour of the row it adds, and leaves all others. */
  lemma RefreshReplacesRow(cfg: Config, s: Store, call: Call)
    requires call.Refresh?
    ensures var (t, reply) := Step(cfg, s, call);
      var found := FindRefresh(s.refresh, HashToken(call.presented));
      if reply.SignedIn? then
        && found.Some? && reply.user == s.refresh[found.value].userId
        && t.refresh == s.refresh[found.value := s.refresh[found.value].(
             lastSeenAt := s.now, client := call.client, revokedAt := Some(s.now), replacedBy := Some(|s.refresh|))]
             + [Issued(s.now, reply.user, call.minted, cfg.refreshTtlDays, call.client)]
      else t.refresh == s.refresh
  {
  }

  /** A logout revokes the presented row in favour of none. */
  lemma LogoutRevokesRow(cfg: Config, s: Store, call: Call)
    requires call.Logout?
    ensures var t := Step(cfg, s, call).0;
      var found := FindRefresh(s.refresh, HashToken(call.presented));
      if call.presented != "" && found.Some?
      then t.refresh == s.refresh[found.value := s.refresh[found.value].(revokedAt := Some(s.now), replacedBy := None)]
      else t.refresh == s.refresh
  {
  }

  /** A row that a sweeping revocation of the user's sessions leaves: revoked now if it
      was not revoked before. */
  function Swept(row: RefreshToken, user: UserId, now: Time): RefreshToken {
    if row.userId == user && row.revokedAt.None? then row.(revokedAt := Some(now)) else row
  }

  /** Revoking the other sessions sweeps all rows but the presented one, a reset all, and
      a call that is refused none. */
  lemma SweepingCalls(cfg: Config, s: Store, call: Call, i: nat)
    requires (call.RevokeOthers? || call.ResetPassword?) && i < |s.refresh|
    ensures var (t, reply) := Step(cfg, s, call);
      && |t.refresh| == |s.refresh|
      && t.refresh[i] ==
         if call.RevokeOthers? && reply.NoContent? && FindRefresh(s.refresh, HashToken(call.presented)) != Some(i)
         then Swept(s.refresh[i], call.caller, s.now)
         else if call.ResetPassword? && reply.Done? then Swept(s.refresh[i], reply.user, s.now)
         else s.refresh[i]
  {
  }

  lemma OthersKeepRows(cfg: Config, s: Store, call: Call)
    requires call.IssueVerifyEmail? || call.IssuePasswordReset? || call.VerifyEmail? || call.ChangeEmail?
    ensures Step(cfg, s, call).0.refresh == s.refresh
  {
  }

  // ---- One-time rows --------------------------------------------------------------------------------

  function IssuedOnce(now: Time, user: UserId, secret: Secret, kind: TokenType, minutes: int): OneTimeToken {
    OneTimeToken(Some(user), HashToken(secret), kind, now + Max(1, minutes) * 60_000_000, None)
  }

  /** Issuing adds one row of its kind for the address's account, if that may have one. */
  lemma IssueAddsRow(cfg: Config, s: Store, call: Call)
    requires call.IssueVerifyEmail? || call.IssuePasswordReset?
    ensures var t := Step(cfg, s, call).0;
      var owner := FindUser(s.users, call.email);
      t.oneTime == s.oneTime +
        if owner.None? then []
        else if call.IssueVerifyEmail? && !s.users[owner.value].isEmailVerified
          then [IssuedOnce(s.now, owner.value, call.minted, VerifyEmailToken, call.ttlMinutes)]
        else if call.IssuePasswordReset? && s.users[owner.value].isActive
          then [IssuedOnce(s.now, owner.value, call.minted, PasswordResetToken, call.ttlMinutes)]
        else []
  {
  }

  /** Redeeming stamps the redeemed row, once and for all, and nothing else. */
  lemma RedeemStampsRow(cfg: Config, s: Store, call: Call)
    requires call.VerifyEmail? || call.ResetPassword?
    ensures var (t, reply) := Step(cfg, s, call);
      var kind := if call.VerifyEmail? then VerifyEmailToken else PasswordResetToken;
      var found := FindOneTime(s.oneTime, HashToken(call.presented), kind);
      if reply.Done? then
        && found.Some? && s.oneTime[found.value].consumedAt.None? && s.oneTime[found.value].userId == Some(reply.user)
        && t.oneTime == s.oneTime[found.value := s.oneTime[found.value].(consumedAt := Some(s.now))]
      else t.oneTime == s.oneTime
  {
  }

  /** What a reset sets is the password, and nothing else of the account. */
  lemma ResetSetsPasswordOnly(cfg: Config, s: Store, call: Call)
    requires call.ResetPassword?
    ensures var (t, reply) := Step(cfg, s, call);
      if reply.Done? && reply.user < |s.users|
      then t.users == s.users[reply.user := s.users[reply.user].(passwordHash := HashOf(call.password))]
      else t.users == s.users
  {
  }
}
