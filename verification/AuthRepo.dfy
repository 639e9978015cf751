/** api/auth/repo.py: one method per statement, updating table rows in place. */
module AuthRepo {
  import opened Wrappers
  import opened AuthStore

  class Repo {
    var users: seq<User>
    var refresh: seq<RefreshToken>
    var oneTime: seq<OneTimeToken>
    var oauth: map<string, UserId>
    var audit: seq<AuditEvent>
    var now: Time

    ghost function Contents(): Store
      reads this
    {
      Store(users, refresh, oneTime, oauth, audit, now)
    }

    constructor (start: Time)
      ensures Contents() == Store([], [], [], map[], [], start)
    {
      users, refresh, oneTime, oauth, audit, now := [], [], [], map[], [], start;
    }

    method CreateUser(email: string, hash: PasswordHash) returns (user: UserId)
      modifies this
      ensures user == old(|users|)
      ensures Contents() == InsertUser(old(Contents()), email, hash)
    {
      user := |users|;
      users := users + [User(email, hash, true, false, 0, None)];
    }

    method RegisterLoginFailure(user: UserId, maxFailures: int, lockMinutes: int)
      returns (attempts: nat, lockedUntil: Option<Time>)
      modifies this
      ensures Contents() == AuthStore.RegisterLoginFailure(old(Contents()), user, maxFailures, lockMinutes)
      ensures user < |users| ==> attempts == users[user].failedLoginAttempts && lockedUntil == users[user].lockedUntil
      ensures user >= |users| ==> attempts == 0 && lockedUntil == None
    {
      var mf := Max(1, maxFailures);
      var lm := Max(1, lockMinutes);
      if user >= |users| {
        return 0, None;
      }
      var row := users[user];
      attempts := row.failedLoginAttempts + 1;
      lockedUntil := if attempts >= mf then Some(now + lm * MINUTE) else row.lockedUntil;
      users := users[user := row.(failedLoginAttempts := attempts, lockedUntil := lockedUntil)];
    }

    method ResetLoginFailures(user: UserId)
      modifies this
      ensures Contents() == AuthStore.ResetLoginFailures(old(Contents()), user)
      ensures user < |users| ==> users[user] == old(users[user].(failedLoginAttempts := 0, lockedUntil := None))
    {
      if user < |users| {
        users := users[user := users[user].(failedLoginAttempts := 0, lockedUntil := None)];
      }
    }

    method InsertAuditEvent(user: Option<UserId>, action: string, client: Client)
      modifies this
      ensures Contents() == InsertAudit(old(Contents()), user, action, client)
    {
      audit := audit + [AuditEvent(user, action, client)];
    }

    method CreateRefreshToken(user: UserId, digest: Digest, ttlDays: int, client: Client)
      returns (id: TokenId, expiresAt: Time)
      modifies this
      ensures id == old(|refresh|) && expiresAt == now + ttlDays * DAY
      ensures Contents() == InsertRefresh(old(Contents()), user, digest, ttlDays, client)
    {
      id, expiresAt := |refresh|, now + ttlDays * DAY;
      refresh := refresh + [RefreshToken(user, digest, now, now, expiresAt, None, None, client)];
    }

    method TouchRefreshToken(id: TokenId, client: Client)
      modifies this
      ensures Contents() == TouchRefresh(old(Contents()), id, client)
    {
      if id < |refresh| {
        refresh := refresh[id := refresh[id].(lastSeenAt := now, client := client)];
      }
    }

    method RevokeRefreshToken(id: TokenId, replacedBy: Option<TokenId>)
      modifies this
      ensures Contents() == RevokeRefresh(old(Contents()), id, replacedBy)
    {
      if id < |refresh| {
        refresh := refresh[id := refresh[id].(revokedAt := Some(now), replacedBy := replacedBy)];
      }
    }

    /** Covers `revoke_all_refresh_tokens` (keep is None) and its `_except` form. */
    method RevokeAllRefreshTokens(user: UserId, keep: Option<TokenId>)
      modifies this
      ensures Contents() == RevokeAllExcept(old(Contents()), user, keep)
    {
      refresh := RevokedUnless(refresh, user, keep, now);
    }

    method SetUserEmailVerified(user: UserId)
      modifies this
      ensures Contents() == SetEmailVerified(old(Contents()), user)
    {
      if user < |users| {
        users := users[user := users[user].(isEmailVerified := true)];
      }
    }

    /** `update_user_email`, with the error it raises if any. */
    method UpdateUserEmail(user: UserId, email: string) returns (error: Option<string>)
      modifies this
      ensures error == if email == "" then Some("invalid_email") else if EmailTaken(old(users), user, email) then Some("email_taken") else None
      ensures Contents() == if error.None? then AuthStore.UpdateUserEmail(old(Contents()), user, email) else old(Contents())
    {
      if email == "" {
        return Some("invalid_email");
      }
      if EmailTaken(users, user, email) {
        return Some("email_taken");
      }
      if user < |users| {
        users := users[user := users[user].(email := email, isEmailVerified := false)];
      }
      error := None;
    }

    method SetUserPasswordHash(user: UserId, hash: PasswordHash)
      modifies this
      ensures Contents() == SetPasswordHash(old(Contents()), user, hash)
    {
      if user < |users| {
        users := users[user := users[user].(passwordHash := hash)];
      }
    }

    method CreateOneTimeToken(user: Option<UserId>, digest: Digest, kind: TokenType, ttlMinutes: int)
      modifies this
      ensures Contents() == InsertOneTime(old(Contents()), user, digest, kind, ttlMinutes)
    {
      oneTime := oneTime + [OneTimeToken(user, digest, kind, now + Max(1, ttlMinutes) * MINUTE, None)];
    }

    method ConsumeOneTimeToken(id: TokenId)
      modifies this
      ensures Contents() == ConsumeOneTime(old(Contents()), id)
    {
      if id < |oneTime| && oneTime[id].consumedAt.None? {
        oneTime := oneTime[id := oneTime[id].(consumedAt := Some(now))];
      }
    }

    method CreateOAuthAccount(sub: string, user: UserId)
      modifies this
      ensures Contents() == LinkOAuth(old(Contents()), sub, user)
    {
      if sub !in oauth {
        oauth := oauth[sub := user];
      }
    }
  }
}
