/** Every auth call as its sequence of autocommitted statements, the statements of any
    calls interleaved in any order. The shape of rotation chains, the permanence of
    revocation and the uniqueness of emails survive. */
module AuthInterleaving {
  import opened Wrappers
  import opened AuthStore
  import opened AuthInvariants
  import C = AuthCalls

  /** A statement whose values are all known. */
  datatype Sql =
    | AddToken(user: UserId, minted: Secret, client: Client)
    | AddOneTime(user: UserId, minted: Secret, kind: TokenType, ttlMinutes: int)
    | ClearFailures(user: UserId)
    | MarkVerified(user: UserId)
    | StoreHash(user: UserId, hash: PasswordHash)
    | Link(sub: string, user: UserId)
    | RevokeOne(id: TokenId)
    | RevokeMany(user: UserId, keep: Option<TokenId>)
    | Consume(id: TokenId)
    | Note(noted: Option<UserId>, action: string, client: Client)

  // Calls of one kind.
  type RegisterCall = call: C.Call | call.Register? witness C.Register("", "", "", Client("", ""))
  type LoginCall = call: C.Call | call.Login? witness C.Login("", "", "", Client("", ""))
  type OAuthCall = call: C.Call | call.OAuth? witness C.OAuth("", "", false, "", Client("", ""))
  type NewUserCall = call: C.Call | call.Register? || call.OAuth? witness C.Register("", "", "", Client("", ""))
  type RefreshCall = call: C.Call | call.Refresh? witness C.Refresh("", "", Client("", ""))
  type RevocationCall = call: C.Call | call.Logout? || call.RevokeOthers? witness C.Logout("", Client("", ""))
  type RedemptionCall = call: C.Call | call.VerifyEmail? || call.ResetPassword? witness C.VerifyEmail("")
  type EmailCall = call: C.Call | call.ChangeEmail? witness C.ChangeEmail(0, "", "", Client("", ""))

  type Statements = q: seq<Sql> | q != [] witness [ClearFailures(0)]

  /** A call before one of its statements, with the locals it has read so far. */
  datatype Thread =
    | Begin(call: C.Call)
    | RegisterFree(register: RegisterCall)
    | LoginRead(user: UserId, hash: PasswordHash, login: LoginCall)
    | LoginWrong(user: UserId, client: Client)
    | LoginNoted(user: UserId, client: Client)
    | OAuthLinked(user: UserId, oauth: OAuthCall)
    | OAuthUnlinked(oauth: OAuthCall)
    | OAuthFree(oauth: OAuthCall)
    | RefreshFound(id: TokenId, owner: UserId, minted: Secret, client: Client)
    | RefreshChecked(id: TokenId, owner: UserId, minted: Secret, client: Client)
    | RefreshTouched(id: TokenId, owner: UserId, minted: Secret, client: Client)
    | RefreshInserted(id: TokenId, newId: TokenId, owner: UserId, reply: C.Reply, client: Client)
    | EmailFree(change: EmailCall)
    | EmailSet(change: EmailCall)
    | Script(rest: Statements, reply: C.Reply)
    | Finished(reply: C.Reply)

  // ---- Statements ------------------------------------------------------------------------

  function Execute(cfg: C.Config, s: Store, sql: Sql): Store {
    match sql
    case AddToken(user, minted, client) => InsertRefresh(s, user, HashToken(minted), cfg.refreshTtlDays, client)
    case AddOneTime(user, minted, kind, ttlMinutes) => InsertOneTime(s, Some(user), HashToken(minted), kind, ttlMinutes)
    case ClearFailures(user) => ResetLoginFailures(s, user)
    case MarkVerified(user) => SetEmailVerified(s, user)
    case StoreHash(user, hash) => SetPasswordHash(s, user, hash)
    case Link(sub, user) => LinkOAuth(s, sub, user)
    case RevokeOne(id) => RevokeRefresh(s, id, None)
    case RevokeMany(user, keep) => RevokeAllExcept(s, user, keep)
    case Consume(id) => ConsumeOneTime(s, id)
    case Note(user, action, client) => InsertAudit(s, user, action, client)
  }

  /** The answer once the statement has run: an inserted token fixes its expiry. */
  function ReplyAfter(cfg: C.Config, s: Store, sql: Sql, reply: C.Reply): C.Reply {
    if sql.AddToken? then C.SignedIn(sql.user, sql.minted, s.now + cfg.refreshTtlDays * DAY) else reply
  }

  function SignIn(user: UserId, minted: Secret, between: seq<Sql>, action: string, client: Client): (th: Thread)
  {
    Script([AddToken(user, minted, client)] + between + [Note(Some(user), action, client)], C.NoContent)
  }

  function Refuse(user: Option<UserId>, action: string, client: Client, error: string): (th: Thread)
  {
    Script([Note(user, action, client)], C.Rejected(error))
  }

  // ---- First statements ---------------------------------------------------------------------

  function BeginRegister(s: Store, call: RegisterCall): (th: Thread)
  {
    if !C.PasswordPolicy(call.password) then Finished(C.Rejected("invalid_password"))
    else if FindUser(s.users, call.email).Some? then Finished(C.Rejected("email_taken"))
    else RegisterFree(call)
  }

  function BeginLogin(s: Store, call: LoginCall): (th: Thread)
  {
    match FindUser(s.users, call.email)
    case None => Refuse(None, "auth.login_failed", call.client, "invalid_credentials")
    case Some(user) =>
      if !s.users[user].isActive then Refuse(Some(user), "auth.login_failed", call.client, "invalid_credentials")
      else LoginRead(user, s.users[user].passwordHash, call)
  }

  function BeginRefresh(s: Store, call: RefreshCall): (th: Thread)
  {
    match FindRefresh(s.refresh, HashToken(call.presented))
    case None => Finished(C.Rejected("invalid_refresh"))
    case Some(id) =>
      var row := s.refresh[id];
      if row.revokedAt.Some? then Refuse(Some(row.userId), "auth.refresh_reuse", call.client, "invalid_refresh")
      else if row.expiresAt <= s.now then Finished(C.Rejected("expired_refresh"))
      else RefreshFound(id, row.userId, call.minted, call.client)
  }

  function BeginRevocation(s: Store, call: RevocationCall): (th: Thread)
  {
    var refused := if call.Logout? then C.NoContent else C.Rejected("not_authenticated");
    if call.presented == "" then Finished(refused)
    else match FindRefresh(s.refresh, HashToken(call.presented))
      case None => Finished(refused)
      case Some(id) =>
        if call.Logout? then Script([RevokeOne(id), Note(Some(s.refresh[id].userId), "auth.logout", call.client)], C.NoContent)
        else if s.refresh[id].userId != call.caller then Finished(refused)
        else Script([RevokeMany(call.caller, Some(id)), Note(Some(call.caller), "auth.revoke_other_sessions", call.client)], C.NoContent)
  }

  /** Who a one-time token is issued to, if anyone. */
  function Addressee(s: Store, email: string, kind: TokenType): (r: Option<UserId>)
    ensures r.Some? ==> r.value < |s.users|
  {
    var found := FindUser(s.users, email);
    if found.None? then None
    else if kind == VerifyEmailToken then (if s.users[found.value].isEmailVerified then None else found)
    else if s.users[found.value].isActive then found else None
  }

  function BeginIssue(s: Store, email: string, minted: Secret, kind: TokenType, ttlMinutes: int): (th: Thread)
  {
    var user := Addressee(s, email, kind);
    if user.None? then Finished(C.NoContent) else Script([AddOneTime(user.value, minted, kind, ttlMinutes)], C.NoContent)
  }

  function BeginRedemption(s: Store, call: RedemptionCall): (th: Thread)
  {
    if call.presented == "" then Finished(C.Rejected("invalid_token"))
    else if call.ResetPassword? && !C.PasswordPolicy(call.password) then Finished(C.Rejected("invalid_password"))
    else match C.Redeemable(s, call.presented, if call.VerifyEmail? then VerifyEmailToken else PasswordResetToken)
      case None => Finished(C.Rejected("invalid_token"))
      case Some(id) =>
        var user := s.oneTime[id].userId.value;
        if call.VerifyEmail? then Script([MarkVerified(user), Consume(id)], C.Done(user))
        else Script([StoreHash(user, HashOf(call.password)), Consume(id), RevokeMany(user, None)], C.Done(user))
  }

  function BeginChangeEmail(s: Store, call: EmailCall): (th: Thread)
  {
    if call.email == "" then Finished(C.Rejected("email_required"))
    else if EmailTaken(s.users, call.caller, call.email) then Finished(C.Rejected("email_taken"))
    else EmailFree(call)
  }

  /** Every call starts with a SELECT, or is refused before it. */
  function Started(s: Store, call: C.Call): (th: Thread)
  {
    match call
    case Register(_, _, _, _) => BeginRegister(s, call)
    case Login(_, _, _, _) => BeginLogin(s, call)
    case OAuth(sub, _, _, _, _) => if sub in s.oauth then OAuthLinked(s.oauth[sub], call) else OAuthUnlinked(call)
    case Refresh(_, _, _) => BeginRefresh(s, call)
    case Logout(_, _) => BeginRevocation(s, call)
    case RevokeOthers(_, _, _) => BeginRevocation(s, call)
    case IssueVerifyEmail(email, minted, ttl) => BeginIssue(s, email, minted, VerifyEmailToken, ttl)
    case VerifyEmail(_) => BeginRedemption(s, call)
    case IssuePasswordReset(email, minted, ttl) => BeginIssue(s, email, minted, PasswordResetToken, ttl)
    case ResetPassword(_, _) => BeginRedemption(s, call)
    case ChangeEmail(_, _, _, _) => BeginChangeEmail(s, call)
  }

  // ---- Later statements -----------------------------------------------------------------------

  function OAuthSignIn(user: UserId, active: bool, before: seq<Sql>, call: OAuthCall): (th: Thread)
  {
    if active then
      Script(before + [AddToken(user, call.minted, call.client), Note(Some(user), "auth.oauth_login", call.client)], C.NoContent)
    else if before == [] then Finished(C.Rejected("oauth_rejected"))
    else Script(before, C.Rejected("oauth_rejected"))
  }

  /** The SELECT by email of a sign-in whose provider account is not linked. */
  function OAuthByEmail(s: Store, call: OAuthCall): (th: Thread)
  {
    match FindUser(s.users, call.email)
    case None => OAuthFree(call)
    case Some(user) =>
      if s.users[user].isEmailVerified || call.emailVerified
      then OAuthSignIn(user, s.users[user].isActive, [Link(call.sub, user)], call)
      else Refuse(Some(user), "auth.oauth_link_rejected", call.client, "oauth_rejected")
  }

  /** INSERT of a user: the column's uniqueness makes it fail on an email in use. */
  function InsertNewUser(s: Store, call: NewUserCall): (r: (Store, Thread))
  {
    var user := |s.users|;
    if FindUser(s.users, call.email).Some? then (s, Finished(C.Rejected("failed")))
    else if call.Register? then
      (InsertUser(s, call.email, HashOf(call.password)), SignIn(user, call.minted, [], "user.register", call.client))
    else
      var verified := if call.emailVerified then [MarkVerified(user)] else [];
      (InsertUser(s, call.email, Unusable), OAuthSignIn(user, true, verified + [Link(call.sub, user)], call))
  }

  /** The SELECT of the lock state, and the checks that follow it. */
  function LoginChecked(s: Store, user: UserId, hash: PasswordHash, call: LoginCall): (th: Thread)
  {
    if user < |s.users| && C.Locked(s.users[user], s.now)
    then Refuse(Some(user), "auth.login_locked", call.client, "invalid_credentials")
    else if !VerifyPassword(call.password, hash) then LoginWrong(user, call.client)
    else SignIn(user, call.minted, [ClearFailures(user)], "auth.login", call.client)
  }

  function FailureCounted(cfg: C.Config, s: Store, user: UserId, client: Client): (r: (Store, Thread))
  {
    var s1 := RegisterLoginFailure(s, user, cfg.maxFailures, cfg.lockMinutes);
    (s1,
     if user < |s1.users| && s1.users[user].lockedUntil.Some? && s1.users[user].failedLoginAttempts >= cfg.maxFailures
     then Refuse(Some(user), "auth.account_locked", client, "invalid_credentials")
     else Finished(C.Rejected("invalid_credentials")))
  }

  function EmailUpdated(s: Store, call: EmailCall): (r: (Store, Thread))
  {
    if call.caller >= |s.users| || EmailTaken(s.users, call.caller, call.email) then (s, Finished(C.Rejected("invalid_request")))
    else (UpdateUserEmail(s, call.caller, call.email), EmailSet(call))
  }

  /** The SELECT of the new address, whose owner gets a verification token. */
  function EmailSelected(s: Store, call: EmailCall): (th: Thread)
  {
    var user := Addressee(s, call.email, VerifyEmailToken);
    var note := Note(Some(call.caller), "user.email_change_requested", call.client);
    Script(if user.None? then [note] else [AddOneTime(user.value, call.minted, VerifyEmailToken, C.VERIFY_TTL), note], C.Done(call.caller))
  }

  /** Runs the thread up to and including its next statement. */
  function Statement(cfg: C.Config, s: Store, th: Thread): (r: (Store, Thread))
  {
    match th
    case Begin(call) => (s, Started(s, call))
    case RegisterFree(call) => InsertNewUser(s, call)
    case LoginRead(user, hash, call) => (s, LoginChecked(s, user, hash, call))
    case LoginWrong(user, client) => (InsertAudit(s, Some(user), "auth.login_failed", client), LoginNoted(user, client))
    case LoginNoted(user, client) => FailureCounted(cfg, s, user, client)
    case OAuthLinked(user, call) =>
      (s, if user < |s.users| then OAuthSignIn(user, s.users[user].isActive, [], call) else OAuthUnlinked(call))
    case OAuthUnlinked(call) => (s, OAuthByEmail(s, call))
    case OAuthFree(call) => InsertNewUser(s, call)
    case RefreshFound(id, owner, minted, client) =>
      (s, if owner >= |s.users| then Finished(C.Rejected("invalid_refresh")) else RefreshChecked(id, owner, minted, client))
    case RefreshChecked(id, owner, minted, client) =>
      (TouchRefresh(s, id, client), RefreshTouched(id, owner, minted, client))
    case RefreshTouched(id, owner, minted, client) =>
      (InsertRefresh(s, owner, HashToken(minted), cfg.refreshTtlDays, client),
       RefreshInserted(id, |s.refresh|, owner, C.SignedIn(owner, minted, s.now + cfg.refreshTtlDays * DAY), client))
    case RefreshInserted(id, newId, owner, reply, client) =>
      (RevokeRefresh(s, id, Some(newId)), Script([Note(Some(owner), "auth.refresh", client)], reply))
    case EmailFree(call) => EmailUpdated(s, call)
    case EmailSet(call) => (s, EmailSelected(s, call))
    case Script(rest, reply) =>
      var after := ReplyAfter(cfg, s, rest[0], reply);
      (Execute(cfg, s, rest[0]), if |rest| == 1 then Finished(after) else Script(rest[1..], after))
    case Finished(_) => (s, th)
  }

  datatype System = System(store: Store, threads: seq<Thread>)

  /** Time passes, or one call runs its next statement. A call that arrives late is one
      that has not run its first statement yet. */
  datatype Move = Wait(time: nat) | Advance(k: nat)

  function Next(cfg: C.Config, sys: System, move: Move): (next: System)
    ensures |next.threads| == |sys.threads|
  {
    match move
    case Wait(time) => sys.(store := sys.store.(now := sys.store.now + time))
    case Advance(k) =>
      if k >= |sys.threads| then sys
      else
        var (s, th) := Statement(cfg, sys.store, sys.threads[k]);
        System(s, sys.threads[k := th])
  }

  function Schedule(cfg: C.Config, sys: System, moves: seq<Move>): (end: System)
    ensures |end.threads| == |sys.threads|
    decreases |moves|
  {
    if moves == [] then sys else Schedule(cfg, Next(cfg, sys, moves[0]), moves[1..])
  }

  // ---- What every schedule keeps -------------------------------------------------

  predicate Holds(s: Store, id: TokenId, owner: UserId) {
    id < |s.refresh| && s.refresh[id].userId == owner && owner < |s.users|
  }

  predicate SqlOk(s: Store, sql: Sql) {
    sql.AddToken? || sql.AddOneTime? ==> sql.user < |s.users|
  }

  /** What a thread's locals still mean, whatever others did since it read them. */
  predicate ThreadOk(s: Store, th: Thread) {
    match th
    case LoginRead(user, _, _) => user < |s.users|
    case RefreshFound(id, owner, _, _) => Holds(s, id, owner)
    case RefreshChecked(id, owner, _, _) => Holds(s, id, owner)
    case RefreshTouched(id, owner, _, _) => Holds(s, id, owner)
    case RefreshInserted(id, newId, owner, _, _) => Holds(s, id, owner) && ValidLink(s, id, Some(newId))
    case Script(rest, _) => forall i :: 0 <= i < |rest| ==> SqlOk(s, rest[i])
    case _ => true
  }

  predicate SystemOk(sys: System) {
    && Shape(sys.store) && UniqueEmails(sys.store.users)
    && forall k :: 0 <= k < |sys.threads| ==> ThreadOk(sys.store, sys.threads[k])
  }

  /** One statement's effect, for the thread that ran it. */
  predicate StatementKeeps(s: Store, t: Store, th: Thread) {
    KeepsShape(s, t) && ThreadOk(t, th) && (UniqueEmails(s.users) ==> UniqueEmails(t.users))
  }

  lemma ThreadOkIsStable(s: Store, t: Store, th: Thread)
    requires ThreadOk(s, th) && Grows(s, t)
    ensures ThreadOk(t, th)
  {
    match th
    case RefreshInserted(id, newId, _, _, _) =>
      assert RefreshGrows(s.refresh[id], t.refresh[id]) && RefreshGrows(s.refresh[newId], t.refresh[newId]);
    case _ =>
  }

  lemma ExecuteKeeps(cfg: C.Config, s: Store, sql: Sql)
    requires Shape(s) && SqlOk(s, sql)
    ensures KeepsShape(s, Execute(cfg, s, sql))
    ensures UniqueEmails(s.users) ==> UniqueEmails(Execute(cfg, s, sql).users)
  {
    match sql
    case AddToken(user, minted, client) => InsertRefreshSafe(s, user, minted, cfg.refreshTtlDays, client);
    case AddOneTime(user, minted, kind, ttlMinutes) => InsertOneTimeSafe(s, user, minted, kind, ttlMinutes);
    case RevokeOne(id) => RevokeRefreshSafe(s, id, None);
    case RevokeMany(user, keep) => RevokeAllSafe(s, user, keep);
    case Consume(id) => ConsumeOneTimeSafe(s, id);
    case _ => UserStatementSafe(s, Execute(cfg, s, sql));
  }

  lemma IssueStartedOk(s: Store, email: string, minted: Secret, kind: TokenType, ttlMinutes: int)
    ensures ThreadOk(s, BeginIssue(s, email, minted, kind, ttlMinutes))
  {
  }

  lemma RefreshStartedOk(s: Store, call: RefreshCall)
    requires Shape(s)
    ensures ThreadOk(s, BeginRefresh(s, call))
  {
  }

  lemma SignInStartedOk(s: Store, call: C.Call)
    requires call.Register? || call.Login? || call.OAuth? || call.ChangeEmail?
    ensures ThreadOk(s, Started(s, call))
  {
  }

  lemma TokenStartedOk(s: Store, call: C.Call)
    requires call.Logout? || call.RevokeOthers? || call.VerifyEmail? || call.ResetPassword?
    ensures ThreadOk(s, Started(s, call))
  {
  }

  lemma StartedOk(s: Store, call: C.Call)
    requires Shape(s)
    ensures ThreadOk(s, Started(s, call))
  {
    match call
    case Refresh(_, _, _) => RefreshStartedOk(s, call);
    case IssueVerifyEmail(email, minted, ttl) => IssueStartedOk(s, email, minted, VerifyEmailToken, ttl);
    case IssuePasswordReset(email, minted, ttl) => IssueStartedOk(s, email, minted, PasswordResetToken, ttl);
    case Register(_, _, _, _) => SignInStartedOk(s, call);
    case Login(_, _, _, _) => SignInStartedOk(s, call);
    case OAuth(_, _, _, _, _) => SignInStartedOk(s, call);
    case ChangeEmail(_, _, _, _) => SignInStartedOk(s, call);
    case _ => TokenStartedOk(s, call);
  }

  lemma InsertNewUserKeeps(s: Store, call: NewUserCall)
    ensures StatementKeeps(s, InsertNewUser(s, call).0, InsertNewUser(s, call).1)
  {
    UserStatementSafe(s, InsertNewUser(s, call).0);
  }

  lemma EmailUpdatedKeeps(s: Store, call: EmailCall)
    ensures StatementKeeps(s, EmailUpdated(s, call).0, EmailUpdated(s, call).1)
  {
    UserStatementSafe(s, EmailUpdated(s, call).0);
  }

  lemma FailureCountedKeeps(cfg: C.Config, s: Store, user: UserId, client: Client)
    ensures StatementKeeps(s, FailureCounted(cfg, s, user, client).0, FailureCounted(cfg, s, user, client).1)
  {
    UserStatementSafe(s, FailureCounted(cfg, s, user, client).0);
  }

  lemma OAuthSelectKeeps(s: Store, call: OAuthCall)
    ensures ThreadOk(s, OAuthByEmail(s, call))
    ensures forall user: UserId :: user < |s.users| ==> ThreadOk(s, OAuthSignIn(user, s.users[user].isActive, [], call))
  {
  }

  lemma LoginSelectKeeps(s: Store, user: UserId, hash: PasswordHash, call: LoginCall)
    requires user < |s.users|
    ensures ThreadOk(s, LoginChecked(s, user, hash, call))
  {
  }

  lemma EmailSelectKeeps(s: Store, call: EmailCall)
    ensures ThreadOk(s, EmailSelected(s, call))
  {
  }

  /** A statement that reads leaves the store, and locals that mean what they say. */
  lemma ReadKeeps(cfg: C.Config, s: Store, th: Thread)
    requires Shape(s) && ThreadOk(s, th)
    requires th.Begin? || th.LoginRead? || th.OAuthLinked? || th.OAuthUnlinked? || th.RefreshFound? || th.EmailSet? || th.Finished?
    ensures StatementKeeps(s, Statement(cfg, s, th).0, Statement(cfg, s, th).1)
  {
    UserStatementSafe(s, s);
    match th
    case Begin(call) => StartedOk(s, call);
    case LoginRead(user, hash, call) => LoginSelectKeeps(s, user, hash, call);
    case OAuthLinked(_, call) => OAuthSelectKeeps(s, call);
    case OAuthUnlinked(call) => OAuthSelectKeeps(s, call);
    case EmailSet(call) => EmailSelectKeeps(s, call);
    case _ =>
  }

  lemma StatementKeepsShape(cfg: C.Config, s: Store, th: Thread)
    requires Shape(s) && ThreadOk(s, th)
    ensures StatementKeeps(s, Statement(cfg, s, th).0, Statement(cfg, s, th).1)
  {
    match th
    case RegisterFree(call) => InsertNewUserKeeps(s, call);
    case LoginWrong(user, client) => UserStatementSafe(s, InsertAudit(s, Some(user), "auth.login_failed", client));
    case LoginNoted(user, client) => FailureCountedKeeps(cfg, s, user, client);
    case OAuthFree(call) => InsertNewUserKeeps(s, call);
    case EmailFree(call) => EmailUpdatedKeeps(s, call);
    case RefreshChecked(id, _, _, client) => TouchRefreshSafe(s, id, client);
    case RefreshTouched(_, owner, minted, client) => InsertRefreshSafe(s, owner, minted, cfg.refreshTtlDays, client);
    case RefreshInserted(id, newId, _, _, _) => RevokeRefreshSafe(s, id, Some(newId));
    case Script(rest, reply) => ScriptKeeps(cfg, s, rest, reply);
    case _ => ReadKeeps(cfg, s, th);
  }

  lemma ScriptKeeps(cfg: C.Config, s: Store, rest: seq<Sql>, reply: C.Reply)
    requires Shape(s) && rest != [] && ThreadOk(s, Script(rest, reply))
    ensures var (t, th) := Statement(cfg, s, Script(rest, reply)); StatementKeeps(s, t, th)
  {
    ExecuteKeeps(cfg, s, rest[0]);
    ThreadOkIsStable(s, Execute(cfg, s, rest[0]), Script(rest, reply));
  }

  lemma WaitKeepsShape(s: Store, time: nat)
    ensures KeepsShape(s, s.(now := s.now + time))
  {
    var t := s.(now := s.now + time);
    if Shape(s) {
      forall i | 0 <= i < |t.refresh| ensures LinkOk(t.refresh, i) {
        assert LinkOk(s.refresh, i);
      }
    }
  }

  lemma NextOk(cfg: C.Config, sys: System, move: Move)
    requires SystemOk(sys)
    ensures SystemOk(Next(cfg, sys, move)) && Grows(sys.store, Next(cfg, sys, move).store)
  {
    var next := Next(cfg, sys, move);
    match move {
      case Wait(time) => WaitKeepsShape(sys.store, time);
      case Advance(k) =>
        if k < |sys.threads| {
          StatementKeepsShape(cfg, sys.store, sys.threads[k]);
        } else {
          UserStatementSafe(sys.store, sys.store);
        }
    }
    forall j | 0 <= j < |sys.threads| ensures ThreadOk(next.store, sys.threads[j]) {
      ThreadOkIsStable(sys.store, next.store, sys.threads[j]);
    }
  }

  /** Under every interleaving of the statements of any calls: a revoked token stays
      revoked, a consumed timestamp stays as it is, every link names a later token of
      the same user, and no two accounts share an email. No freshness of secrets is
      needed. */
  lemma {:induction false} EveryScheduleKeepsShape(cfg: C.Config, sys: System, moves: seq<Move>)
    requires SystemOk(sys)
    ensures SystemOk(Schedule(cfg, sys, moves)) && Grows(sys.store, Schedule(cfg, sys, moves).store)
    decreases |moves|
  {
    if moves == [] {
      UserStatementSafe(sys.store, sys.store);
    } else {
      NextOk(cfg, sys, moves[0]);
      EveryScheduleKeepsShape(cfg, Next(cfg, sys, moves[0]), moves[1..]);
      GrowsTransitive(sys.store, Next(cfg, sys, moves[0]).store, Schedule(cfg, sys, moves).store);
    }
  }
}
