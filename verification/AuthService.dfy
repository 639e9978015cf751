/** api/auth/service.py and the token-handling routes: each call is a sequence of
    repository statements in the source's order. Every method is proved against
    the step function of AuthCalls. */
module AuthService {
  import opened Wrappers
  import opened AuthStore
  import opened AuthRepo
  import C = AuthCalls

  method RegisterUser(repo: Repo, cfg: C.Config, email: string, password: string, minted: Secret, client: Client)
    returns (reply: C.Reply)
    modifies repo
    ensures (repo.Contents(), reply) == C.RegisterUser(cfg, old(repo.Contents()), email, password, minted, client)
  {
    if !C.PasswordPolicy(password) {
      return C.Rejected("invalid_password");
    }
    if FindUser(repo.users, email).Some? {
      return C.Rejected("email_taken");
    }
    var user := repo.CreateUser(email, HashOf(password));
    var _, expiresAt := repo.CreateRefreshToken(user, HashToken(minted), cfg.refreshTtlDays, client);
    repo.InsertAuditEvent(Some(user), "user.register", client);
    return C.SignedIn(user, minted, expiresAt);
  }

  method LoginUser(repo: Repo, cfg: C.Config, email: string, password: string, minted: Secret, client: Client)
    returns (reply: C.Reply)
    modifies repo
    ensures (repo.Contents(), reply) == C.LoginUser(cfg, old(repo.Contents()), email, password, minted, client)
  {
    var found := FindUser(repo.users, email);
    if found.None? {
      repo.InsertAuditEvent(None, "auth.login_failed", client);
      return C.Rejected("invalid_credentials");
    }
    var user := found.value;
    if !repo.users[user].isActive {
      repo.InsertAuditEvent(Some(user), "auth.login_failed", client);
      return C.Rejected("invalid_credentials");
    }
    var lockedUntil := repo.users[user].lockedUntil;
    if lockedUntil.Some? && lockedUntil.value > repo.now {
      repo.InsertAuditEvent(Some(user), "auth.login_locked", client);
      return C.Rejected("invalid_credentials");
    }
    if !VerifyPassword(password, repo.users[user].passwordHash) {
      repo.InsertAuditEvent(Some(user), "auth.login_failed", client);
      var attempts, until := repo.RegisterLoginFailure(user, cfg.maxFailures, cfg.lockMinutes);
      if until.Some? && attempts >= cfg.maxFailures {
        repo.InsertAuditEvent(Some(user), "auth.account_locked", client);
      }
      return C.Rejected("invalid_credentials");
    }
    var _, expiresAt := repo.CreateRefreshToken(user, HashToken(minted), cfg.refreshTtlDays, client);
    repo.ResetLoginFailures(user);
    repo.InsertAuditEvent(Some(user), "auth.login", client);
    return C.SignedIn(user, minted, expiresAt);
  }

  method OAuthLogin(repo: Repo, cfg: C.Config, sub: string, email: string, verified: bool, minted: Secret, client: Client)
    returns (reply: C.Reply)
    modifies repo
    ensures (repo.Contents(), reply) == C.OAuthLogin(cfg, old(repo.Contents()), sub, email, verified, minted, client)
  {
    var user: UserId;
    if sub in repo.oauth && repo.oauth[sub] < |repo.users| {
      user := repo.oauth[sub];
    } else {
      var existing := FindUser(repo.users, email);
      if existing.Some? {
        user := existing.value;
        if repo.users[user].isEmailVerified || verified {
          repo.CreateOAuthAccount(sub, user);
        } else {
          repo.InsertAuditEvent(Some(user), "auth.oauth_link_rejected", client);
          return C.Rejected("oauth_rejected");
        }
      } else {
        user := repo.CreateUser(email, Unusable);
        if verified {
          repo.SetUserEmailVerified(user);
        }
        repo.CreateOAuthAccount(sub, user);
      }
    }
    if !repo.users[user].isActive {
      return C.Rejected("oauth_rejected");
    }
    var _, expiresAt := repo.CreateRefreshToken(user, HashToken(minted), cfg.refreshTtlDays, client);
    repo.InsertAuditEvent(Some(user), "auth.oauth_login", client);
    return C.SignedIn(user, minted, expiresAt);
  }

  method RefreshTokens(repo: Repo, cfg: C.Config, presented: Secret, minted: Secret, client: Client)
    returns (reply: C.Reply)
    modifies repo
    ensures (repo.Contents(), reply) == C.RefreshTokens(cfg, old(repo.Contents()), presented, minted, client)
  {
    var found := FindRefresh(repo.refresh, HashToken(presented));
    if found.None? {
      return C.Rejected("invalid_refresh");
    }
    var id := found.value;
    var row := repo.refresh[id];
    if row.revokedAt.Some? {
      repo.InsertAuditEvent(Some(row.userId), "auth.refresh_reuse", client);
      return C.Rejected("invalid_refresh");
    }
    if row.expiresAt <= repo.now {
      return C.Rejected("expired_refresh");
    }
    if row.userId >= |repo.users| {
      return C.Rejected("invalid_refresh");
    }
    repo.TouchRefreshToken(id, client);
    var newId, expiresAt := repo.CreateRefreshToken(row.userId, HashToken(minted), cfg.refreshTtlDays, client);
    repo.RevokeRefreshToken(id, Some(newId));
    repo.InsertAuditEvent(Some(row.userId), "auth.refresh", client);
    return C.SignedIn(row.userId, minted, expiresAt);
  }

  method Logout(repo: Repo, presented: Secret, client: Client) returns (reply: C.Reply)
    modifies repo
    ensures (repo.Contents(), reply) == C.LogoutCall(old(repo.Contents()), presented, client)
  {
    if presented != "" {
      var found := FindRefresh(repo.refresh, HashToken(presented));
      if found.Some? {
        var user := repo.refresh[found.value].userId;
        repo.RevokeRefreshToken(found.value, None);
        repo.InsertAuditEvent(Some(user), "auth.logout", client);
      }
    }
    return C.NoContent;
  }

  method RevokeOtherSessions(repo: Repo, caller: UserId, presented: Secret, client: Client) returns (reply: C.Reply)
    modifies repo
    ensures (repo.Contents(), reply) == C.RevokeOtherSessions(old(repo.Contents()), caller, presented, client)
  {
    if presented == "" {
      return C.Rejected("not_authenticated");
    }
    var found := FindRefresh(repo.refresh, HashToken(presented));
    if found.None? || repo.refresh[found.value].userId != caller {
      return C.Rejected("not_authenticated");
    }
    repo.RevokeAllRefreshTokens(caller, Some(found.value));
    repo.InsertAuditEvent(Some(caller), "auth.revoke_other_sessions", client);
    return C.NoContent;
  }

  method IssueVerifyEmail(repo: Repo, email: string, minted: Secret, ttlMinutes: int)
    modifies repo
    ensures repo.Contents() == C.IssueVerify(old(repo.Contents()), email, minted, ttlMinutes)
  {
    var found := FindUser(repo.users, email);
    if found.Some? && !repo.users[found.value].isEmailVerified {
      repo.CreateOneTimeToken(found, HashToken(minted), VerifyEmailToken, ttlMinutes);
    }
  }

  method IssuePasswordReset(repo: Repo, email: string, minted: Secret, ttlMinutes: int)
    modifies repo
    ensures repo.Contents() == C.IssueReset(old(repo.Contents()), email, minted, ttlMinutes)
  {
    var found := FindUser(repo.users, email);
    if found.Some? && repo.users[found.value].isActive {
      repo.CreateOneTimeToken(found, HashToken(minted), PasswordResetToken, ttlMinutes);
    }
  }

  method VerifyEmail(repo: Repo, presented: Secret) returns (reply: C.Reply)
    modifies repo
    ensures (repo.Contents(), reply) == C.VerifyEmailCall(old(repo.Contents()), presented)
  {
    if presented == "" {
      return C.Rejected("invalid_token");
    }
    var found := FindOneTime(repo.oneTime, HashToken(presented), VerifyEmailToken);
    if found.None? || repo.oneTime[found.value].consumedAt.Some? || repo.oneTime[found.value].expiresAt <= repo.now
       || repo.oneTime[found.value].userId.None? {
      return C.Rejected("invalid_token");
    }
    var user := repo.oneTime[found.value].userId.value;
    repo.SetUserEmailVerified(user);
    repo.ConsumeOneTimeToken(found.value);
    return C.Done(user);
  }

  method ResetPassword(repo: Repo, presented: Secret, password: string) returns (reply: C.Reply)
    modifies repo
    ensures (repo.Contents(), reply) == C.ResetPasswordCall(old(repo.Contents()), presented, password)
  {
    if presented == "" {
      return C.Rejected("invalid_token");
    }
    if !C.PasswordPolicy(password) {
      return C.Rejected("invalid_password");
    }
    var found := FindOneTime(repo.oneTime, HashToken(presented), PasswordResetToken);
    if found.None? || repo.oneTime[found.value].consumedAt.Some? || repo.oneTime[found.value].expiresAt <= repo.now
       || repo.oneTime[found.value].userId.None? {
      return C.Rejected("invalid_token");
    }
    var user := repo.oneTime[found.value].userId.value;
    repo.SetUserPasswordHash(user, HashOf(password));
    repo.ConsumeOneTimeToken(found.value);
    repo.RevokeAllRefreshTokens(user, None);
    return C.Done(user);
  }

  method ChangeEmail(repo: Repo, caller: UserId, email: string, minted: Secret, client: Client) returns (reply: C.Reply)
    modifies repo
    ensures (repo.Contents(), reply) == C.ChangeEmailCall(old(repo.Contents()), caller, email, minted, client)
  {
    if email == "" {
      return C.Rejected("email_required");
    }
    var error := repo.UpdateUserEmail(caller, email);
    if error.Some? {
      return C.Rejected("email_taken");
    }
    if caller >= |repo.users| {
      return C.Rejected("invalid_request");
    }
    IssueVerifyEmail(repo, email, minted, C.VERIFY_TTL);
    repo.InsertAuditEvent(Some(caller), "user.email_change_requested", client);
    return C.Done(caller);
  }
}
