/** The rows behind the auth API and the SQL statements of api/auth/repo.py as
    functions on them. Row identifiers are insertion ordinals: a fresh UUID is
    the next index. Times are microseconds on one clock. */
module AuthStore {
  import opened Wrappers

  type Time = int
  type UserId = nat
  type TokenId = nat
  type Secret = string

  const MINUTE: int := 60_000_000
  const DAY: int := 1440 * MINUTE

  /** `hash_token` as an ideal hash: a digest determines its secret. */
  datatype Digest = Digest(secret: Secret)

  function HashToken(secret: Secret): Digest {
    Digest(secret)
  }

  /** A stored password hash; `Unusable` is the empty string OAuth users get. */
  datatype PasswordHash = Unusable | HashOf(password: string)

  predicate VerifyPassword(password: string, hash: PasswordHash) {
    hash == HashOf(password)
  }

  datatype Client = Client(ip: string, userAgent: string)

  datatype User = User(
    email: string, passwordHash: PasswordHash, isActive: bool, isEmailVerified: bool,
    failedLoginAttempts: nat, lockedUntil: Option<Time>)

  datatype RefreshToken = RefreshToken(
    userId: UserId, tokenHash: Digest, createdAt: Time, lastSeenAt: Time, expiresAt: Time,
    revokedAt: Option<Time>, replacedBy: Option<TokenId>, client: Client)

  datatype TokenType = VerifyEmailToken | PasswordResetToken

  datatype OneTimeToken = OneTimeToken(
    userId: Option<UserId>, tokenHash: Digest, kind: TokenType, expiresAt: Time, consumedAt: Option<Time>)

  datatype AuditEvent = AuditEvent(userId: Option<UserId>, action: string, client: Client)

  datatype Store = Store(
    users: seq<User>, refresh: seq<RefreshToken>, oneTime: seq<OneTimeToken>,
    oauth: map<string, UserId>, audit: seq<AuditEvent>, now: Time)

  function Max(a: int, b: int): int {
    if a < b then b else a
  }

  // ---- SELECT statements ----------------------------------------------------

  function FindUser(users: seq<User>, email: string): (r: Option<UserId>)
    ensures r.Some? ==> r.value < |users| && users[r.value].email == email
    ensures r.None? ==> forall u :: 0 <= u < |users| ==> users[u].email != email
  {
    if users == [] then None
    else if users[|users| - 1].email == email then Some(|users| - 1)
    else FindUser(users[..|users| - 1], email)
  }

  function FindRefresh(refresh: seq<RefreshToken>, digest: Digest): (r: Option<TokenId>)
    ensures r.Some? ==> r.value < |refresh| && refresh[r.value].tokenHash == digest
    ensures r.None? ==> forall i :: 0 <= i < |refresh| ==> refresh[i].tokenHash != digest
  {
    if refresh == [] then None
    else if refresh[|refresh| - 1].tokenHash == digest then Some(|refresh| - 1)
    else FindRefresh(refresh[..|refresh| - 1], digest)
  }

  function FindOneTime(tokens: seq<OneTimeToken>, digest: Digest, kind: TokenType): (r: Option<TokenId>)
    ensures r.Some? ==> r.value < |tokens| && tokens[r.value].tokenHash == digest && tokens[r.value].kind == kind
    ensures r.None? ==> forall i :: 0 <= i < |tokens| ==> !(tokens[i].tokenHash == digest && tokens[i].kind == kind)
  {
    if tokens == [] then None
    else if tokens[|tokens| - 1].tokenHash == digest && tokens[|tokens| - 1].kind == kind then Some(|tokens| - 1)
    else FindOneTime(tokens[..|tokens| - 1], digest, kind)
  }

  /** The rows that `list_active_refresh_sessions` selects. */
  predicate Active(s: Store, user: UserId, id: TokenId) {
    id < |s.refresh| && s.refresh[id].userId == user && s.refresh[id].revokedAt.None? && s.refresh[id].expiresAt > s.now
  }

  /** ORDER BY last_seen_at DESC, created_at DESC. */
  predicate ListedBefore(a: RefreshToken, b: RefreshToken) {
    a.lastSeenAt > b.lastSeenAt || (a.lastSeenAt == b.lastSeenAt && a.createdAt >= b.createdAt)
  }

  // ---- INSERT and UPDATE statements -----------------------------------------

  function InsertUser(s: Store, email: string, hash: PasswordHash): Store {
    s.(users := s.users + [User(email, hash, true, false, 0, None)])
  }

  function InsertAudit(s: Store, user: Option<UserId>, action: string, client: Client): Store {
    s.(audit := s.audit + [AuditEvent(user, action, client)])
  }

  function FailedLogin(u: User, maxFailures: int, lockMinutes: int, now: Time): User {
    var attempts := u.failedLoginAttempts + 1;
    u.(failedLoginAttempts := attempts,
       lockedUntil := if attempts >= Max(1, maxFailures) then Some(now + Max(1, lockMinutes) * MINUTE) else u.lockedUntil)
  }

  function RegisterLoginFailure(s: Store, user: UserId, maxFailures: int, lockMinutes: int): Store {
    if user < |s.users| then
      s.(users := s.users[user := FailedLogin(s.users[user], maxFailures, lockMinutes, s.now)])
    else s
  }

  function ResetLoginFailures(s: Store, user: UserId): Store {
    if user < |s.users| then
      s.(users := s.users[user := s.users[user].(failedLoginAttempts := 0, lockedUntil := None)])
    else s
  }

  function SetEmailVerified(s: Store, user: UserId): Store {
    if user < |s.users| then s.(users := s.users[user := s.users[user].(isEmailVerified := true)]) else s
  }

  /** What the uniqueness SELECT of `update_user_email` finds: another row with the email. */
  predicate EmailTaken(users: seq<User>, user: UserId, email: string) {
    exists u :: 0 <= u < |users| && u != user && users[u].email == email
  }

  function UpdateUserEmail(s: Store, user: UserId, email: string): Store {
    if user < |s.users| then s.(users := s.users[user := s.users[user].(email := email, isEmailVerified := false)]) else s
  }

  function SetPasswordHash(s: Store, user: UserId, hash: PasswordHash): Store {
    if user < |s.users| then s.(users := s.users[user := s.users[user].(passwordHash := hash)]) else s
  }

  /** The row that `create_refresh_token` inserts at identifier `|s.refresh|`. */
  function InsertRefresh(s: Store, user: UserId, digest: Digest, ttlDays: int, client: Client): Store {
    s.(refresh := s.refresh + [RefreshToken(user, digest, s.now, s.now, s.now + ttlDays * DAY, None, None, client)])
  }

  function TouchRefresh(s: Store, id: TokenId, client: Client): Store {
    if id < |s.refresh| then
      s.(refresh := s.refresh[id := s.refresh[id].(lastSeenAt := s.now, client := client)])
    else s
  }

  /** Unguarded: overwrites `revoked_at` and `replaced_by_token_id` of a row
      that was already revoked. */
  function RevokeRefresh(s: Store, id: TokenId, replacedBy: Option<TokenId>): Store {
    if id < |s.refresh| then
      s.(refresh := s.refresh[id := s.refresh[id].(revokedAt := Some(s.now), replacedBy := replacedBy)])
    else s
  }

  function RevokedUnless(rows: seq<RefreshToken>, user: UserId, keep: Option<TokenId>, now: Time): (r: seq<RefreshToken>)
    ensures |r| == |rows|
  {
    seq(|rows|, i requires 0 <= i < |rows| =>
      if rows[i].userId == user && rows[i].revokedAt.None? && keep != Some(i)
      then rows[i].(revokedAt := Some(now)) else rows[i])
  }

  /** `keep` is None for `revoke_all_refresh_tokens`. */
  function RevokeAllExcept(s: Store, user: UserId, keep: Option<TokenId>): Store {
    s.(refresh := RevokedUnless(s.refresh, user, keep, s.now))
  }

  function InsertOneTime(s: Store, user: Option<UserId>, digest: Digest, kind: TokenType, ttlMinutes: int): Store {
    s.(oneTime := s.oneTime + [OneTimeToken(user, digest, kind, s.now + Max(1, ttlMinutes) * MINUTE, None)])
  }

  function ConsumeOneTime(s: Store, id: TokenId): Store {
    if id < |s.oneTime| && s.oneTime[id].consumedAt.None? then
      s.(oneTime := s.oneTime[id := s.oneTime[id].(consumedAt := Some(s.now))])
    else s
  }

  /** Links are unique per provider account; a clashing insert is suppressed. */
  function LinkOAuth(s: Store, sub: string, user: UserId): Store {
    if sub in s.oauth then s else s.(oauth := s.oauth[sub := user])
  }
}
