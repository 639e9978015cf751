/** The auth calls of api/auth/service.py and api/routes/auth.py as atomic steps
    on the store, and runs of them. Minted secrets are inputs; a run is `Fresh`
    when no minted secret is already stored. */
module AuthCalls {
  import opened Wrappers
  import opened AuthStore

  /** Deployment settings read from the environment. */
  datatype Config = Config(maxFailures: int, lockMinutes: int, refreshTtlDays: int)

  datatype Reply =
    | SignedIn(user: UserId, refreshToken: Secret, expiresAt: Time)
    | Done(user: UserId)
    | NoContent
    | Rejected(error: string)

  datatype Call =
    | Register(email: string, password: string, minted: Secret, client: Client)
    | Login(email: string, password: string, minted: Secret, client: Client)
    | OAuth(sub: string, email: string, emailVerified: bool, minted: Secret, client: Client)
    | Refresh(presented: Secret, minted: Secret, client: Client)
    | Logout(presented: Secret, client: Client)
    | RevokeOthers(caller: UserId, presented: Secret, client: Client)
    | IssueVerifyEmail(email: string, minted: Secret, ttlMinutes: int)
    | VerifyEmail(presented: Secret)
    | IssuePasswordReset(email: string, minted: Secret, ttlMinutes: int)
    | ResetPassword(presented: Secret, password: string)
    | ChangeEmail(caller: UserId, email: string, minted: Secret, client: Client)

  predicate PasswordPolicy(password: string) {
    && |password| >= 8
    && (exists i :: 0 <= i < |password| && 'a' <= password[i] <= 'z')
    && (exists i :: 0 <= i < |password| && 'A' <= password[i] <= 'Z')
    && (exists i :: 0 <= i < |password| && '0' <= password[i] <= '9')
  }

  predicate Locked(u: User, now: Time) {
    u.lockedUntil.Some? && u.lockedUntil.value > now
  }

  /** Shared tail of every sign-in: a refresh row, then an audit entry. */
  function SignIn(s: Store, user: UserId, minted: Secret, ttlDays: int, action: string, client: Client): (Store, Reply) {
    (InsertAudit(InsertRefresh(s, user, HashToken(minted), ttlDays, client), Some(user), action, client),
     SignedIn(user, minted, s.now + ttlDays * DAY))
  }

  function RegisterUser(cfg: Config, s: Store, email: string, password: string, minted: Secret, client: Client): (Store, Reply) {
    if !PasswordPolicy(password) then (s, Rejected("invalid_password"))
    else if FindUser(s.users, email).Some? then (s, Rejected("email_taken"))
    else SignIn(InsertUser(s, email, HashOf(password)), |s.users|, minted, cfg.refreshTtlDays, "user.register", client)
  }

  function LoginFailed(cfg: Config, s: Store, user: UserId, client: Client): Store
    requires user < |s.users|
  {
    var s1 := RegisterLoginFailure(InsertAudit(s, Some(user), "auth.login_failed", client), user, cfg.maxFailures, cfg.lockMinutes);
    if s1.users[user].lockedUntil.Some? && s1.users[user].failedLoginAttempts >= cfg.maxFailures
    then InsertAudit(s1, Some(user), "auth.account_locked", client) else s1
  }

  /** The checks of a login up to the password: who may be signed in. */
  function Authenticate(cfg: Config, s: Store, email: string, password: string, client: Client): (r: (Store, Option<UserId>))
    ensures r.0 == s.(users := r.0.users, audit := r.0.audit) && s.audit <= r.0.audit && |r.0.users| == |s.users|
    ensures r.1.Some? ==> r.1.value < |s.users| && r.0 == s
  {
    match FindUser(s.users, email)
    case None => (InsertAudit(s, None, "auth.login_failed", client), None)
    case Some(user) =>
      var row := s.users[user];
      if !row.isActive then (InsertAudit(s, Some(user), "auth.login_failed", client), None)
      else if Locked(row, s.now) then (InsertAudit(s, Some(user), "auth.login_locked", client), None)
      else if !VerifyPassword(password, row.passwordHash) then (LoginFailed(cfg, s, user, client), None)
      else (s, Some(user))
  }

  function LoginUser(cfg: Config, s: Store, email: string, password: string, minted: Secret, client: Client): (Store, Reply) {
    var (s1, user) := Authenticate(cfg, s, email, password, client);
    if user.None? then (s1, Rejected("invalid_credentials"))
    else
      var s2 := ResetLoginFailures(InsertRefresh(s, user.value, HashToken(minted), cfg.refreshTtlDays, client), user.value);
      (InsertAudit(s2, user, "auth.login", client), SignedIn(user.value, minted, s.now + cfg.refreshTtlDays * DAY))
  }

  /** The local user a verified Google identity signs in, linking or creating one. */
  function ResolveOAuth(s: Store, sub: string, email: string, verified: bool, client: Client): (r: (Store, Option<UserId>))
    ensures r.0 == s.(users := r.0.users, oauth := r.0.oauth, audit := r.0.audit) && s.audit <= r.0.audit
    ensures |s.users| <= |r.0.users| <= |s.users| + 1
    ensures forall u :: 0 <= u < |s.users| ==> r.0.users[u] == s.users[u]
    ensures |s.users| < |r.0.users| ==> r.0.users[|s.users|].failedLoginAttempts == 0 && r.0.users[|s.users|].lockedUntil.None?
    ensures r.1.Some? ==> r.1.value < |r.0.users|
  {
    if sub in s.oauth && s.oauth[sub] < |s.users| then (s, Some(s.oauth[sub]))
    else match FindUser(s.users, email)
      case Some(user) =>
        if s.users[user].isEmailVerified || verified then (LinkOAuth(s, sub, user), Some(user))
        else (InsertAudit(s, Some(user), "auth.oauth_link_rejected", client), None)
      case None =>
        var s1 := InsertUser(s, email, Unusable);
        var s2 := if verified then SetEmailVerified(s1, |s.users|) else s1;
        (LinkOAuth(s2, sub, |s.users|), Some(|s.users|))
  }

  function OAuthLogin(cfg: Config, s: Store, sub: string, email: string, verified: bool, minted: Secret, client: Client): (Store, Reply) {
    var (s1, user) := ResolveOAuth(s, sub, email, verified, client);
    if user.None? || !s1.users[user.value].isActive then (s1, Rejected("oauth_rejected"))
    else SignIn(s1, user.value, minted, cfg.refreshTtlDays, "auth.oauth_login", client)
  }

  function RefreshTokens(cfg: Config, s: Store, presented: Secret, minted: Secret, client: Client): (Store, Reply) {
    match FindRefresh(s.refresh, HashToken(presented))
    case None => (s, Rejected("invalid_refresh"))
    case Some(id) =>
      var row := s.refresh[id];
      if row.revokedAt.Some? then (InsertAudit(s, Some(row.userId), "auth.refresh_reuse", client), Rejected("invalid_refresh"))
      else if row.expiresAt <= s.now then (s, Rejected("expired_refresh"))
      else if row.userId >= |s.users| then (s, Rejected("invalid_refresh"))
      else
        var s1 := TouchRefresh(s, id, client);
        var s2 := InsertRefresh(s1, row.userId, HashToken(minted), cfg.refreshTtlDays, client);
        var s3 := RevokeRefresh(s2, id, Some(|s.refresh|));
        (InsertAudit(s3, Some(row.userId), "auth.refresh", client),
         SignedIn(row.userId, minted, s.now + cfg.refreshTtlDays * DAY))
  }

  function LogoutCall(s: Store, presented: Secret, client: Client): (Store, Reply) {
    if presented == "" then (s, NoContent)
    else match FindRefresh(s.refresh, HashToken(presented))
      case None => (s, NoContent)
      case Some(id) =>
        (InsertAudit(RevokeRefresh(s, id, None), Some(s.refresh[id].userId), "auth.logout", client), NoContent)
  }

  function RevokeOtherSessions(s: Store, caller: UserId, presented: Secret, client: Client): (Store, Reply) {
    if presented == "" then (s, Rejected("not_authenticated"))
    else match FindRefresh(s.refresh, HashToken(presented))
      case None => (s, Rejected("not_authenticated"))
      case Some(id) =>
        if s.refresh[id].userId != caller then (s, Rejected("not_authenticated"))
        else (InsertAudit(RevokeAllExcept(s, caller, Some(id)), Some(caller), "auth.revoke_other_sessions", client), NoContent)
  }

  function IssueVerify(s: Store, email: string, minted: Secret, ttlMinutes: int): Store {
    match FindUser(s.users, email)
    case None => s
    case Some(user) =>
      if s.users[user].isEmailVerified then s
      else InsertOneTime(s, Some(user), HashToken(minted), VerifyEmailToken, ttlMinutes)
  }

  function IssueReset(s: Store, email: string, minted: Secret, ttlMinutes: int): Store {
    match FindUser(s.users, email)
    case None => s
    case Some(user) =>
      if !s.users[user].isActive then s
      else InsertOneTime(s, Some(user), HashToken(minted), PasswordResetToken, ttlMinutes)
  }

  /** The row a presented one-time secret redeems, if any. */
  function Redeemable(s: Store, presented: Secret, kind: TokenType): (r: Option<TokenId>)
    ensures r.Some? ==> r.value < |s.oneTime| && s.oneTime[r.value].userId.Some?
  {
    if presented == "" then None
    else match FindOneTime(s.oneTime, HashToken(presented), kind)
      case None => None
      case Some(id) =>
        if s.oneTime[id].consumedAt.Some? || s.oneTime[id].expiresAt <= s.now || s.oneTime[id].userId.None? then None
        else Some(id)
  }

  function VerifyEmailCall(s: Store, presented: Secret): (Store, Reply) {
    match Redeemable(s, presented, VerifyEmailToken)
    case None => (s, Rejected("invalid_token"))
    case Some(id) =>
      var user := s.oneTime[id].userId.value;
      (ConsumeOneTime(SetEmailVerified(s, user), id), Done(user))
  }

  function ResetPasswordCall(s: Store, presented: Secret, password: string): (Store, Reply) {
    if presented == "" then (s, Rejected("invalid_token"))
    else if !PasswordPolicy(password) then (s, Rejected("invalid_password"))
    else match Redeemable(s, presented, PasswordResetToken)
      case None => (s, Rejected("invalid_token"))
      case Some(id) =>
        var user := s.oneTime[id].userId.value;
        (RevokeAllExcept(ConsumeOneTime(SetPasswordHash(s, user, HashOf(password)), id), user, None), Done(user))
  }

  /** Minutes a verification token lives when none are given. */
  const VERIFY_TTL := 1440

  /** The email part of PATCH /users/me. The new address starts unverified, and a
      verification token is issued for it. */
  function ChangeEmailCall(s: Store, caller: UserId, email: string, minted: Secret, client: Client): (Store, Reply) {
    if email == "" then (s, Rejected("email_required"))
    else if EmailTaken(s.users, caller, email) then (s, Rejected("email_taken"))
    else if caller >= |s.users| then (s, Rejected("invalid_request"))
    else
      var s1 := IssueVerify(UpdateUserEmail(s, caller, email), email, minted, VERIFY_TTL);
      (InsertAudit(s1, Some(caller), "user.email_change_requested", client), Done(caller))
  }

  /** One call, as an atomic step. */
  function Step(cfg: Config, s: Store, call: Call): (Store, Reply) {
    match call
    case Register(email, password, minted, client) => RegisterUser(cfg, s, email, password, minted, client)
    case Login(email, password, minted, client) => LoginUser(cfg, s, email, password, minted, client)
    case OAuth(sub, email, verified, minted, client) => OAuthLogin(cfg, s, sub, email, verified, minted, client)
    case Refresh(presented, minted, client) => RefreshTokens(cfg, s, presented, minted, client)
    case Logout(presented, client) => LogoutCall(s, presented, client)
    case RevokeOthers(caller, presented, client) => RevokeOtherSessions(s, caller, presented, client)
    case IssueVerifyEmail(email, minted, ttl) => (IssueVerify(s, email, minted, ttl), NoContent)
    case VerifyEmail(presented) => VerifyEmailCall(s, presented)
    case IssuePasswordReset(email, minted, ttl) => (IssueReset(s, email, minted, ttl), NoContent)
    case ResetPassword(presented, password) => ResetPasswordCall(s, presented, password)
    case ChangeEmail(caller, email, minted, client) => ChangeEmailCall(s, caller, email, minted, client)
  }

  // ---- Runs -------------------------------------------------------------------

  /** A call that arrives `wait` after the previous one: the clock never runs back. */
  datatype Event = Event(wait: nat, call: Call)

  /** The store as the event's call finds it. */
  function At(s: Store, e: Event): Store {
    s.(now := s.now + e.wait)
  }

  function After(cfg: Config, s: Store, e: Event): Store {
    Step(cfg, At(s, e), e.call).0
  }

  function Answer(cfg: Config, s: Store, e: Event): Reply {
    Step(cfg, At(s, e), e.call).1
  }

  function Run(cfg: Config, s: Store, events: seq<Event>): Store
    decreases |events|
  {
    if events == [] then s else Run(cfg, After(cfg, s, events[0]), events[1..])
  }

  predicate Unstored(s: Store, secret: Secret) {
    && (forall i :: 0 <= i < |s.refresh| ==> s.refresh[i].tokenHash != HashToken(secret))
    && (forall i :: 0 <= i < |s.oneTime| ==> s.oneTime[i].tokenHash != HashToken(secret))
  }

  predicate FreshCall(s: Store, call: Call) {
    match call
    case Register(_, _, minted, _) => Unstored(s, minted)
    case Login(_, _, minted, _) => Unstored(s, minted)
    case OAuth(_, _, _, minted, _) => Unstored(s, minted)
    case Refresh(_, minted, _) => Unstored(s, minted)
    case IssueVerifyEmail(_, minted, _) => Unstored(s, minted)
    case IssuePasswordReset(_, minted, _) => Unstored(s, minted)
    case ChangeEmail(_, _, minted, _) => Unstored(s, minted)
    case _ => true
  }

  predicate FreshRun(cfg: Config, s: Store, events: seq<Event>)
    decreases |events|
  {
    events == [] || (FreshCall(s, events[0].call) && FreshRun(cfg, After(cfg, s, events[0]), events[1..]))
  }

  function EmptyStore(start: Time): Store {
    Store([], [], [], map[], [], start)
  }
}
