/** Rotation over runs of atomic calls: chains are finite, a refresh token is
    exchanged at most once, refresh conserves the number of unrevoked tokens, a
    one-time token is redeemed at most once. */
module AuthRotation {
  import opened Wrappers
  import opened AuthStore
  import opened AuthCalls
  import opened AuthInvariants

  // ---- Chains -----------------------------------------------------------------

  /** The tokens that successively replaced `id`. */
  function Chain(s: Store, id: TokenId): (chain: seq<TokenId>)
    requires Inv(s) && id < |s.refresh|
    ensures |chain| > 0 && chain[0] == id
    ensures forall k :: 0 <= k < |chain| ==> id <= chain[k] < |s.refresh| && s.refresh[chain[k]].userId == s.refresh[id].userId
    ensures forall j, k :: 0 <= j < k < |chain| ==> chain[j] < chain[k]
    ensures forall k :: 0 <= k < |chain| - 1 ==> s.refresh[chain[k]].replacedBy == Some(chain[k + 1]) && s.refresh[chain[k]].revokedAt.Some?
    ensures s.refresh[chain[|chain| - 1]].replacedBy.None?
    decreases |s.refresh| - id
  {
    assert LinkOk(s.refresh, id);
    if s.refresh[id].replacedBy.None? then [id]
    else [id] + Chain(s, s.refresh[id].replacedBy.value)
  }

  // ---- A token is exchanged at most once ----------------------------------------

  predicate ExchangesToken(cfg: Config, s: Store, e: Event, secret: Secret) {
    e.call.Refresh? && e.call.presented == secret && Answer(cfg, s, e).SignedIn?
  }

  function Exchanges(cfg: Config, s: Store, events: seq<Event>, secret: Secret): nat
    decreases |events|
  {
    if events == [] then 0
    else (if ExchangesToken(cfg, s, events[0], secret) then 1 else 0)
         + Exchanges(cfg, After(cfg, s, events[0]), events[1..], secret)
  }

  predicate Spent(s: Store, secret: Secret) {
    exists i :: 0 <= i < |s.refresh| && s.refresh[i].tokenHash == HashToken(secret) && s.refresh[i].revokedAt.Some?
  }

  lemma SpentStaysSpent(s: Store, t: Store, secret: Secret)
    requires Spent(s, secret) && Grows(s, t)
    ensures Spent(t, secret)
  {
    var i :| 0 <= i < |s.refresh| && s.refresh[i].tokenHash == HashToken(secret) && s.refresh[i].revokedAt.Some?;
    assert RefreshGrows(s.refresh[i], t.refresh[i]);
  }

  /** A spent secret takes the reuse branch: an audit entry and a refusal. */
  lemma SpentIsRefused(cfg: Config, s: Store, call: Call)
    requires Inv(s) && call.Refresh? && Spent(s, call.presented)
    ensures Step(cfg, s, call).1 == Rejected("invalid_refresh")
    ensures exists user :: Step(cfg, s, call).0 == InsertAudit(s, Some(user), "auth.refresh_reuse", call.client)
  {
    var i :| 0 <= i < |s.refresh| && s.refresh[i].tokenHash == HashToken(call.presented) && s.refresh[i].revokedAt.Some?;
    assert FindRefresh(s.refresh, HashToken(call.presented)) == Some(i);
  }

  lemma ExchangeSpends(cfg: Config, s: Store, e: Event, secret: Secret)
    requires ExchangesToken(cfg, s, e, secret)
    ensures Spent(After(cfg, s, e), secret)
  {
    var id := FindRefresh(s.refresh, HashToken(secret)).value;
    assert After(cfg, s, e).refresh[id].revokedAt.Some?;
  }

  lemma {:induction false} ExchangedAtMostOnce(cfg: Config, s: Store, events: seq<Event>, secret: Secret)
    requires Inv(s) && FreshRun(cfg, s, events)
    ensures Exchanges(cfg, s, events, secret) <= 1
    ensures Spent(s, secret) ==> Exchanges(cfg, s, events, secret) == 0
    decreases |events|
  {
    if events == [] {
    } else {
      var e, t := events[0], After(cfg, s, events[0]);
      EventSafe(cfg, s, e);
      ExchangedAtMostOnce(cfg, t, events[1..], secret);
      if ExchangesToken(cfg, s, e, secret) {
        ExchangeSpends(cfg, s, e, secret);
        if Spent(s, secret) {
          InvAt(s, e);
          assert Spent(At(s, e), secret);
          SpentIsRefused(cfg, At(s, e), e.call);
          assert false;
        }
      } else if Spent(s, secret) {
        SpentStaysSpent(s, t, secret);
      }
    }
  }

  lemma InvAt(s: Store, e: Event)
    requires Inv(s)
    ensures Inv(At(s, e))
  {
    forall i | 0 <= i < |s.refresh| ensures LinkOk(At(s, e).refresh, i) {
      assert LinkOk(s.refresh, i);
    }
  }

  // ---- Refresh conserves the number of unrevoked tokens -----------------------------

  function Live(rows: seq<RefreshToken>, user: UserId): nat {
    if rows == [] then 0
    else Live(rows[..|rows| - 1], user) + (if rows[|rows| - 1].userId == user && rows[|rows| - 1].revokedAt.None? then 1 else 0)
  }

  predicate Counts(row: RefreshToken, user: UserId) {
    row.userId == user && row.revokedAt.None?
  }

  lemma {:induction false} LiveUpdate(rows: seq<RefreshToken>, i: nat, row: RefreshToken, user: UserId)
    requires i < |rows|
    ensures Live(rows[i := row], user) == Live(rows, user)
      - (if Counts(rows[i], user) then 1 else 0) + (if Counts(row, user) then 1 else 0)
  {
    var updated := rows[i := row];
    if i == |rows| - 1 {
      assert updated[..|rows| - 1] == rows[..|rows| - 1];
    } else {
      assert updated[..|rows| - 1] == rows[..|rows| - 1][i := row];
      LiveUpdate(rows[..|rows| - 1], i, row, user);
    }
  }

  lemma LiveAppend(rows: seq<RefreshToken>, row: RefreshToken, user: UserId)
    ensures Live(rows + [row], user) == Live(rows, user) + (if Counts(row, user) then 1 else 0)
  {
    assert (rows + [row])[..|rows|] == rows;
  }

  lemma {:induction false} LiveShrinks(a: seq<RefreshToken>, b: seq<RefreshToken>, user: UserId)
    requires |a| == |b| && forall i :: 0 <= i < |a| ==> Counts(b[i], user) ==> Counts(a[i], user)
    ensures Live(b, user) <= Live(a, user)
  {
    if a == [] {
    } else {
      LiveShrinks(a[..|a| - 1], b[..|b| - 1], user);
    }
  }

  /** A call answered with tokens for `user` other than by rotating one. */
  predicate SignsIn(call: Call, reply: Reply, user: UserId) {
    reply.SignedIn? && reply.user == user && (call.Login? || call.Register? || call.OAuth?)
  }

  /** An exchange of row `id`: one unrevoked row more, one less. */
  lemma ExchangeConserves(s: Store, id: TokenId, digest: Digest, ttlDays: int, client: Client, user: UserId)
    requires id < |s.refresh| && s.refresh[id].revokedAt.None?
    ensures var s1 := TouchRefresh(s, id, client);
      var s2 := InsertRefresh(s1, s.refresh[id].userId, digest, ttlDays, client);
      Live(RevokeRefresh(s2, id, Some(|s.refresh|)).refresh, user) == Live(s.refresh, user)
  {
    var s1 := TouchRefresh(s, id, client);
    var s2 := InsertRefresh(s1, s.refresh[id].userId, digest, ttlDays, client);
    var s3 := RevokeRefresh(s2, id, Some(|s.refresh|));
    LiveUpdate(s.refresh, id, s1.refresh[id], user);
    LiveAppend(s1.refresh, s2.refresh[|s.refresh|], user);
    LiveUpdate(s2.refresh, id, s3.refresh[id], user);
  }

  /** Refresh conserves the count exactly, whoever refreshes and whatever the answer. */
  lemma RefreshConserves(cfg: Config, s: Store, call: Call, user: UserId)
    requires call.Refresh?
    ensures Live(Step(cfg, s, call).0.refresh, user) == Live(s.refresh, user)
  {
    if Step(cfg, s, call).1.SignedIn? {
      var id := FindRefresh(s.refresh, HashToken(call.presented)).value;
      ExchangeConserves(s, id, HashToken(call.minted), cfg.refreshTtlDays, call.client, user);
    }
  }

  /** The row tables other calls can leave: one appended row for the user who
      signed in, or the same rows with more of them revoked. */
  predicate AppendsOrRevokes(s: Store, t: Store, reply: Reply) {
    || (reply.SignedIn? && |t.refresh| == |s.refresh| + 1 && t.refresh[..|s.refresh|] == s.refresh
        && t.refresh[|s.refresh|].userId == reply.user)
    || (|t.refresh| == |s.refresh| && forall i :: 0 <= i < |s.refresh| ==>
          t.refresh[i].userId == s.refresh[i].userId && (s.refresh[i].revokedAt.Some? ==> t.refresh[i].revokedAt.Some?))
  }

  lemma SignInsAppend(cfg: Config, s: Store, call: Call)
    requires call.Register? || call.Login? || call.OAuth?
    ensures AppendsOrRevokes(s, Step(cfg, s, call).0, Step(cfg, s, call).1)
  {
    match call
    case Register(_, _, _, _) =>
    case Login(_, _, _, _) =>
    case OAuth(_, _, _, _, _) =>
  }

  lemma OthersOnlyRevoke(cfg: Config, s: Store, call: Call)
    requires !(call.Register? || call.Login? || call.OAuth? || call.Refresh?)
    ensures AppendsOrRevokes(s, Step(cfg, s, call).0, Step(cfg, s, call).1) && !Step(cfg, s, call).1.SignedIn?
  {
    match call
    case Logout(_, _) =>
    case RevokeOthers(_, _, _) =>
    case IssueVerifyEmail(_, _, _) =>
    case VerifyEmail(_) =>
    case IssuePasswordReset(_, _, _) =>
    case ResetPassword(_, _) =>
    case ChangeEmail(_, _, _, _) =>
  }

  lemma LiveAfter(s: Store, t: Store, reply: Reply, user: UserId)
    requires AppendsOrRevokes(s, t, reply)
    ensures Live(t.refresh, user) <= Live(s.refresh, user) + (if reply.SignedIn? && reply.user == user then 1 else 0)
  {
    if |t.refresh| > |s.refresh| {
      assert t.refresh == s.refresh + [t.refresh[|s.refresh|]];
      LiveAppend(s.refresh, t.refresh[|s.refresh|], user);
    } else {
      LiveShrinks(s.refresh, t.refresh, user);
    }
  }

  lemma StepLive(cfg: Config, s: Store, call: Call, user: UserId)
    ensures Live(Step(cfg, s, call).0.refresh, user)
      <= Live(s.refresh, user) + (if SignsIn(call, Step(cfg, s, call).1, user) then 1 else 0)
  {
    if call.Refresh? {
      RefreshConserves(cfg, s, call, user);
    } else {
      if call.Register? || call.Login? || call.OAuth? {
        SignInsAppend(cfg, s, call);
      } else {
        OthersOnlyRevoke(cfg, s, call);
      }
      LiveAfter(s, Step(cfg, s, call).0, Step(cfg, s, call).1, user);
    }
  }

  function SignIns(cfg: Config, s: Store, events: seq<Event>, user: UserId): nat
    decreases |events|
  {
    if events == [] then 0
    else (if SignsIn(events[0].call, Answer(cfg, s, events[0]), user) then 1 else 0)
         + SignIns(cfg, After(cfg, s, events[0]), events[1..], user)
  }

  /** A user's unrevoked tokens never outnumber that user's sign-ins. */
  lemma {:induction false} LiveTokensBoundedBySignIns(cfg: Config, s: Store, events: seq<Event>, user: UserId)
    ensures Live(Run(cfg, s, events).refresh, user) <= Live(s.refresh, user) + SignIns(cfg, s, events, user)
    ensures s.refresh == [] ==> Live(Run(cfg, s, events).refresh, user) <= SignIns(cfg, s, events, user)
    decreases |events|
  {
    if events == [] {
    } else {
      StepLive(cfg, At(s, events[0]), events[0].call, user);
      LiveTokensBoundedBySignIns(cfg, After(cfg, s, events[0]), events[1..], user);
    }
  }

  // ---- One-time tokens ------------------------------------------------------------------

  predicate Redeems(cfg: Config, s: Store, e: Event, secret: Secret) {
    (e.call.VerifyEmail? || e.call.ResetPassword?) && e.call.presented == secret && Answer(cfg, s, e).Done?
  }

  function Redemptions(cfg: Config, s: Store, events: seq<Event>, secret: Secret): nat
    decreases |events|
  {
    if events == [] then 0
    else (if Redeems(cfg, s, events[0], secret) then 1 else 0)
         + Redemptions(cfg, After(cfg, s, events[0]), events[1..], secret)
  }

  predicate Consumed(s: Store, secret: Secret) {
    exists i :: 0 <= i < |s.oneTime| && s.oneTime[i].tokenHash == HashToken(secret) && s.oneTime[i].consumedAt.Some?
  }

  predicate KindMatches(call: Call, kind: TokenType) {
    (call.VerifyEmail? ==> kind == VerifyEmailToken) && (call.ResetPassword? ==> kind == PasswordResetToken)
  }

  /** A success needs an unconsumed row of the matching type strictly before its
      expiry, and stamps it with the time of the call. */
  lemma RedeemedProperly(cfg: Config, s: Store, e: Event, secret: Secret) returns (id: TokenId)
    requires Redeems(cfg, s, e, secret)
    ensures id < |s.oneTime| && s.oneTime[id].tokenHash == HashToken(secret) && KindMatches(e.call, s.oneTime[id].kind)
    ensures s.oneTime[id].consumedAt.None? && s.now + e.wait < s.oneTime[id].expiresAt
    ensures id < |After(cfg, s, e).oneTime| && After(cfg, s, e).oneTime[id] == s.oneTime[id].(consumedAt := Some(s.now + e.wait))
  {
    id := Redeemable(At(s, e), secret, if e.call.VerifyEmail? then VerifyEmailToken else PasswordResetToken).value;
  }

  /** Acceptance, both ways: the call succeeds exactly when such a row exists. */
  lemma RedeemsExactly(cfg: Config, s: Store, call: Call)
    requires Inv(s) && (call.VerifyEmail? || call.ResetPassword?)
    ensures Step(cfg, s, call).1.Done? <==>
      && call.presented != ""
      && (call.ResetPassword? ==> PasswordPolicy(call.password))
      && exists i :: 0 <= i < |s.oneTime| && s.oneTime[i].tokenHash == HashToken(call.presented)
           && KindMatches(call, s.oneTime[i].kind) && s.oneTime[i].userId.Some?
           && s.oneTime[i].consumedAt.None? && s.now < s.oneTime[i].expiresAt
  {
    var kind := if call.VerifyEmail? then VerifyEmailToken else PasswordResetToken;
    var found := FindOneTime(s.oneTime, HashToken(call.presented), kind);
    forall i | 0 <= i < |s.oneTime| && s.oneTime[i].tokenHash == HashToken(call.presented)
      && KindMatches(call, s.oneTime[i].kind)
      ensures found == Some(i)
    {
    }
  }

  lemma {:induction false} RedeemedAtMostOnce(cfg: Config, s: Store, events: seq<Event>, secret: Secret)
    requires Inv(s) && FreshRun(cfg, s, events)
    ensures Redemptions(cfg, s, events, secret) <= 1
    ensures Consumed(s, secret) ==> Redemptions(cfg, s, events, secret) == 0
    decreases |events|
  {
    if events == [] {
    } else {
      var e, t := events[0], After(cfg, s, events[0]);
      EventSafe(cfg, s, e);
      RedeemedAtMostOnce(cfg, t, events[1..], secret);
      if Redeems(cfg, s, e, secret) {
        var id := RedeemedProperly(cfg, s, e, secret);
        assert Consumed(t, secret);
      } else if Consumed(s, secret) {
        var i :| 0 <= i < |s.oneTime| && s.oneTime[i].tokenHash == HashToken(secret) && s.oneTime[i].consumedAt.Some?;
        assert OneTimeGrows(s.oneTime[i], t.oneTime[i]);
      }
    }
  }
}
