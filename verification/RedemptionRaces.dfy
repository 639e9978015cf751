/** What interleaving does to one-time secrets: when one is redeemed more than once. */
module RedemptionRaces {
  import opened Wrappers
  import opened AuthStore
  import opened AuthInvariants
  import opened AuthInterleaving
  import opened AuthRaces
  import C = AuthCalls

  function KindOf(call: RedemptionCall): TokenType {
    if call.VerifyEmail? then VerifyEmailToken else PasswordResetToken
  }

  /** The call's SELECT finds a row to redeem, and nothing else speaks against it. */
  predicate Accepts(s: Store, call: RedemptionCall) {
    && (call.ResetPassword? ==> C.PasswordPolicy(call.password))
    && C.Redeemable(s, call.presented, KindOf(call)).Some?
  }

  // ---- Which redemptions succeed ------------------------------------------------------------

  /** The thread is a redemption that has not begun. */
  predicate Redeems(sys: System, k: nat, secret: Secret, kind: TokenType) {
    && k < |sys.threads| && sys.threads[k].Begin?
    && (sys.threads[k].call.VerifyEmail? || sys.threads[k].call.ResetPassword?)
    && sys.threads[k].call.presented == secret && KindOf(sys.threads[k].call) == kind
  }

  /** The thread runs its SELECT while the call is accepted. */
  predicate SelectsAccepted(cfg: C.Config, sys: System, moves: seq<Move>, k: nat)
    decreases |moves|
  {
    && moves != []
    && ((moves[0] == Advance(k) && k < |sys.threads| && sys.threads[k].Begin?
         && (sys.threads[k].call.VerifyEmail? || sys.threads[k].call.ResetPassword?) && Accepts(sys.store, sys.threads[k].call))
        || SelectsAccepted(cfg, Next(cfg, sys, moves[0]), moves[1..], k))
  }

  predicate Succeeding(th: Thread) {
    || (th.Finished? && th.reply.Done?)
    || (th.Script? && th.reply.Done? && forall i :: 0 <= i < |th.rest| ==> !th.rest[i].AddToken?)
  }

  predicate Failed(th: Thread) {
    th.Finished? && th.reply.Rejected?
  }

  lemma OutcomeFollows(cfg: C.Config, s: Store, th: Thread)
    ensures Succeeding(th) ==> Succeeding(Statement(cfg, s, th).1)
    ensures Failed(th) ==> Failed(Statement(cfg, s, th).1)
  {
  }

  lemma {:induction false} OutcomeStands(cfg: C.Config, sys: System, moves: seq<Move>, k: nat)
    requires k < |sys.threads|
    ensures Succeeding(sys.threads[k]) ==> Succeeding(Schedule(cfg, sys, moves).threads[k])
    ensures Failed(sys.threads[k]) ==> Failed(Schedule(cfg, sys, moves).threads[k])
    decreases |moves|
  {
    if moves == [] {
    } else {
      OutcomeFollows(cfg, sys.store, sys.threads[k]);
      OutcomeStands(cfg, Next(cfg, sys, moves[0]), moves[1..], k);
    }
  }

  lemma SelectDecides(s: Store, call: RedemptionCall)
    ensures if Accepts(s, call) then Succeeding(Started(s, call)) else Failed(Started(s, call))
  {
  }

  lemma {:induction false} NeverSelectsLater(cfg: C.Config, sys: System, moves: seq<Move>, k: nat)
    requires k < |sys.threads| && !sys.threads[k].Begin?
    ensures !SelectsAccepted(cfg, sys, moves, k)
    decreases |moves|
  {
    if moves == [] {
    } else {
      NeverSelectsLater(cfg, Next(cfg, sys, moves[0]), moves[1..], k);
    }
  }

  predicate Outcome(th: Thread, accepted: bool) {
    if accepted then Succeeding(th) else th.Begin? || Failed(th)
  }

  lemma {:induction false} SelectDecidesRedemption(cfg: C.Config, sys: System, moves: seq<Move>, k: nat, secret: Secret, kind: TokenType)
    requires Redeems(sys, k, secret, kind)
    ensures Outcome(Schedule(cfg, sys, moves).threads[k], SelectsAccepted(cfg, sys, moves, k))
    decreases |moves|
  {
    if moves == [] {
    } else {
      var next := Next(cfg, sys, moves[0]);
      if moves[0] == Advance(k) {
        SelectDecides(sys.store, sys.threads[k].call);
        OutcomeStands(cfg, next, moves[1..], k);
        NeverSelectsLater(cfg, next, moves[1..], k);
      } else {
        SelectDecidesRedemption(cfg, next, moves[1..], k, secret, kind);
      }
    }
  }

  /** The thread presented the secret and was told that it is done. */
  predicate Redeemed(sys: System, end: System, k: nat, secret: Secret, kind: TokenType) {
    Redeems(sys, k, secret, kind) && k < |end.threads| && end.threads[k].Finished? && end.threads[k].reply.Done?
  }

  predicate FinishesAccepted(cfg: C.Config, sys: System, moves: seq<Move>, k: nat, secret: Secret, kind: TokenType) {
    Redeems(sys, k, secret, kind) && Schedule(cfg, sys, moves).threads[k].Finished? && SelectsAccepted(cfg, sys, moves, k)
  }

  /** Under every schedule: a redemption succeeds exactly when it finishes and its SELECT
      ran while the call was accepted. */
  lemma RedeemedIff(cfg: C.Config, sys: System, moves: seq<Move>, k: nat, secret: Secret, kind: TokenType)
    ensures Redeemed(sys, Schedule(cfg, sys, moves), k, secret, kind) <==> FinishesAccepted(cfg, sys, moves, k, secret, kind)
  {
    if Redeems(sys, k, secret, kind) {
      SelectDecidesRedemption(cfg, sys, moves, k, secret, kind);
    }
  }

  ghost predicate RedeemedTwice(sys: System, end: System, secret: Secret, kind: TokenType) {
    exists j: nat, k: nat :: j < k && Redeemed(sys, end, j, secret, kind) && Redeemed(sys, end, k, secret, kind)
  }

  ghost predicate TwoFinishAccepted(cfg: C.Config, sys: System, moves: seq<Move>, secret: Secret, kind: TokenType) {
    exists j: nat, k: nat ::
      j < k && FinishesAccepted(cfg, sys, moves, j, secret, kind) && FinishesAccepted(cfg, sys, moves, k, secret, kind)
  }

  /** A one-time secret is redeemed more than once exactly when two of its redemptions
      finish whose SELECTs were both accepted. */
  lemma RedeemedTwiceIff(cfg: C.Config, sys: System, moves: seq<Move>, secret: Secret, kind: TokenType)
    ensures RedeemedTwice(sys, Schedule(cfg, sys, moves), secret, kind) <==> TwoFinishAccepted(cfg, sys, moves, secret, kind)
  {
    var end := Schedule(cfg, sys, moves);
    if RedeemedTwice(sys, end, secret, kind) {
      var j: nat, k: nat :| j < k && Redeemed(sys, end, j, secret, kind) && Redeemed(sys, end, k, secret, kind);
      RedeemedIff(cfg, sys, moves, j, secret, kind);
      RedeemedIff(cfg, sys, moves, k, secret, kind);
      assert FinishesAccepted(cfg, sys, moves, j, secret, kind) && FinishesAccepted(cfg, sys, moves, k, secret, kind);
    }
    if TwoFinishAccepted(cfg, sys, moves, secret, kind) {
      var j: nat, k: nat :|
        j < k && FinishesAccepted(cfg, sys, moves, j, secret, kind) && FinishesAccepted(cfg, sys, moves, k, secret, kind);
      RedeemedIff(cfg, sys, moves, j, secret, kind);
      RedeemedIff(cfg, sys, moves, k, secret, kind);
      assert Redeemed(sys, end, j, secret, kind) && Redeemed(sys, end, k, secret, kind);
    }
  }

  // ---- Nothing is accepted after the first consumption -----------------------------------------

  /** The thread will not insert a one-time row for this secret. */
  predicate NeverIssues(th: Thread, secret: Secret) {
    match th
    case Begin(call) => call.IssueVerifyEmail? || call.IssuePasswordReset? || call.ChangeEmail? ==> call.minted != secret
    case EmailFree(change) => change.minted != secret
    case EmailSet(change) => change.minted != secret
    case Script(rest, _) => forall i :: 0 <= i < |rest| && rest[i].AddOneTime? ==> rest[i].minted != secret
    case _ => true
  }

  predicate KeepsOneTimeDigests(a: seq<OneTimeToken>, b: seq<OneTimeToken>, digest: Digest) {
    && |a| <= |b|
    && (forall i :: 0 <= i < |a| ==> b[i].tokenHash == a[i].tokenHash && b[i].kind == a[i].kind)
    && (forall i :: |a| <= i < |b| ==> b[i].tokenHash != digest)
  }

  lemma {:induction false} FindOneTimeStays(a: seq<OneTimeToken>, b: seq<OneTimeToken>, digest: Digest, kind: TokenType)
    requires KeepsOneTimeDigests(a, b, digest)
    ensures FindOneTime(b, digest, kind) == FindOneTime(a, digest, kind)
    decreases |b|
  {
    if |b| > |a| {
      FindOneTimeStays(a, b[..|b| - 1], digest, kind);
    } else if a == [] {
    } else {
      FindOneTimeStays(a[..|a| - 1], b[..|b| - 1], digest, kind);
    }
  }

  lemma SqlKeepsDigests(cfg: C.Config, s: Store, sql: Sql, secret: Secret)
    requires sql.AddOneTime? ==> sql.minted != secret
    ensures KeepsOneTimeDigests(s.oneTime, Execute(cfg, s, sql).oneTime, HashToken(secret))
  {
  }

  lemma StatementKeepsDigests(cfg: C.Config, s: Store, th: Thread, secret: Secret)
    requires NeverIssues(th, secret)
    ensures KeepsOneTimeDigests(s.oneTime, Statement(cfg, s, th).0.oneTime, HashToken(secret))
  {
    if th.Script? {
      SqlKeepsDigests(cfg, s, th.rest[0], secret);
    }
  }

  lemma BeginNeverIssues(s: Store, call: C.Call, secret: Secret)
    requires NeverIssues(Begin(call), secret)
    ensures NeverIssues(Started(s, call), secret)
  {
  }

  lemma StatementNeverIssues(cfg: C.Config, s: Store, th: Thread, secret: Secret)
    requires NeverIssues(th, secret)
    ensures NeverIssues(Statement(cfg, s, th).1, secret)
  {
    if th.Begin? {
      BeginNeverIssues(s, th.call, secret);
    }
  }

  /** No thread issues the secret, and its row is consumed. */
  predicate Spent(sys: System, secret: Secret, kind: TokenType) {
    && (forall j :: 0 <= j < |sys.threads| ==> NeverIssues(sys.threads[j], secret))
    && var found := FindOneTime(sys.store.oneTime, HashToken(secret), kind);
       found.Some? && sys.store.oneTime[found.value].consumedAt.Some?
  }

  lemma SpentStays(cfg: C.Config, sys: System, move: Move, secret: Secret, kind: TokenType)
    requires SystemOk(sys) && Spent(sys, secret, kind)
    ensures Spent(Next(cfg, sys, move), secret, kind)
  {
    var next, id := Next(cfg, sys, move), FindOneTime(sys.store.oneTime, HashToken(secret), kind).value;
    NextOk(cfg, sys, move);
    assert OneTimeGrows(sys.store.oneTime[id], next.store.oneTime[id]);
    if move.Advance? && move.k < |sys.threads| {
      StatementKeepsDigests(cfg, sys.store, sys.threads[move.k], secret);
      StatementNeverIssues(cfg, sys.store, sys.threads[move.k], secret);
      FindOneTimeStays(sys.store.oneTime, next.store.oneTime, HashToken(secret), kind);
    }
  }

  /** So the SELECTs that are accepted come before the row is first consumed. */
  lemma {:induction false} NoneAfterConsumption(
    cfg: C.Config, sys: System, moves: seq<Move>, k: nat, secret: Secret, kind: TokenType)
    requires SystemOk(sys) && Spent(sys, secret, kind) && Redeems(sys, k, secret, kind)
    ensures !SelectsAccepted(cfg, sys, moves, k)
    decreases |moves|
  {
    if moves == [] {
    } else {
      var next := Next(cfg, sys, moves[0]);
      NextOk(cfg, sys, moves[0]);
      SpentStays(cfg, sys, moves[0], secret, kind);
      if moves[0] == Advance(k) {
        NeverSelectsLater(cfg, next, moves[1..], k);
      } else {
        NoneAfterConsumption(cfg, next, moves[1..], k, secret, kind);
      }
    }
  }

  // ---- Such schedules exist ---------------------------------------------------------------------

  function TwoResets(s: Store, secret: Secret, p: string, q: string): System {
    System(s, [Begin(C.ResetPassword(secret, p)), Begin(C.ResetPassword(secret, q))])
  }

  predicate DoneAfter(th: Thread, left: nat) {
    Succeeding(th) && (if th.Finished? then left == 0 else left == |th.rest|)
  }

  lemma DoneAdvances(cfg: C.Config, s: Store, th: Thread, left: nat)
    requires left > 0 && DoneAfter(th, left)
    ensures DoneAfter(Statement(cfg, s, th).1, left - 1)
  {
  }

  lemma {:induction false} ScriptFinishes(cfg: C.Config, sys: System, k: nat, left: nat) returns (end: System)
    requires k < |sys.threads| && DoneAfter(sys.threads[k], left)
    ensures end == Schedule(cfg, sys, Turns(k, left)) && OnlyMoves(sys, end, k) && DoneAfter(end.threads[k], 0)
    decreases left
  {
    if left == 0 {
      end := sys;
    } else {
      DoneAdvances(cfg, sys.store, sys.threads[k], left);
      end := ScriptFinishes(cfg, Next(cfg, sys, Advance(k)), k, left - 1);
      assert Turns(k, left)[1..] == Turns(k, left - 1);
    }
  }

  lemma BothSelected(cfg: C.Config, s: Store, secret: Secret, p: string, q: string) returns (read: System)
    requires Accepts(s, C.ResetPassword(secret, p)) && Accepts(s, C.ResetPassword(secret, q))
    ensures read == Schedule(cfg, TwoResets(s, secret, p, q), [Advance(0), Advance(1)])
    ensures |read.threads| == 2 && DoneAfter(read.threads[0], 3) && DoneAfter(read.threads[1], 3)
  {
    read := Next(cfg, Next(cfg, TwoResets(s, secret, p, q), Advance(0)), Advance(1));
    assert [Advance(0), Advance(1)][1..] == [Advance(1)] && [Advance(1)][1..] == [];
  }

  /** Two resets that both read the row before either consumes it both set a password. */
  lemma TwoResetsCanRace(cfg: C.Config, s: Store, secret: Secret, p: string, q: string)
    requires Accepts(s, C.ResetPassword(secret, p)) && Accepts(s, C.ResetPassword(secret, q))
    ensures var begun := TwoResets(s, secret, p, q);
      var end := Schedule(cfg, begun, [Advance(0), Advance(1)] + (Turns(0, 3) + Turns(1, 3)));
      Redeemed(begun, end, 0, secret, PasswordResetToken) && Redeemed(begun, end, 1, secret, PasswordResetToken)
  {
    var begun := TwoResets(s, secret, p, q);
    var read := BothSelected(cfg, s, secret, p, q);
    ScheduleSplits(cfg, begun, [Advance(0), Advance(1)], Turns(0, 3) + Turns(1, 3));
    ScheduleSplits(cfg, read, Turns(0, 3), Turns(1, 3));
    var mid := ScriptFinishes(cfg, read, 0, 3);
    var end := ScriptFinishes(cfg, mid, 1, 3);
  }
}
