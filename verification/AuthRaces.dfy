/** What interleaving breaks: when a refresh secret is exchanged more than once, and
    that a rotation link can be erased. */
module AuthRaces {
  import opened Wrappers
  import opened AuthStore
  import opened AuthInvariants
  import opened AuthInterleaving
  import C = AuthCalls

  // ---- The row of a secret ----------------------------------------------------------------

  /** The calls whose minted secret goes into the refresh table. */
  predicate MintsRefresh(call: C.Call) {
    call.Register? || call.Login? || call.OAuth? || call.Refresh?
  }

  /** The thread will not insert a refresh row for this secret. */
  predicate Avoids(th: Thread, secret: Secret) {
    match th
    case Begin(call) => MintsRefresh(call) ==> call.minted != secret
    case RegisterFree(call) => MintsRefresh(call) ==> call.minted != secret
    case LoginRead(_, _, call) => MintsRefresh(call) ==> call.minted != secret
    case OAuthLinked(_, call) => MintsRefresh(call) ==> call.minted != secret
    case OAuthUnlinked(call) => MintsRefresh(call) ==> call.minted != secret
    case OAuthFree(call) => MintsRefresh(call) ==> call.minted != secret
    case RefreshFound(_, _, minted, _) => minted != secret
    case RefreshChecked(_, _, minted, _) => minted != secret
    case RefreshTouched(_, _, minted, _) => minted != secret
    case Script(rest, _) => forall i :: 0 <= i < |rest| && rest[i].AddToken? ==> rest[i].minted != secret
    case _ => true
  }

  /** Rows keep their digests, and new rows have other ones. */
  predicate KeepsDigests(a: seq<RefreshToken>, b: seq<RefreshToken>, digest: Digest) {
    && |a| <= |b|
    && (forall i :: 0 <= i < |a| ==> b[i].tokenHash == a[i].tokenHash)
    && (forall i :: |a| <= i < |b| ==> b[i].tokenHash != digest)
  }

  lemma {:induction false} FindStays(a: seq<RefreshToken>, b: seq<RefreshToken>, digest: Digest)
    requires KeepsDigests(a, b, digest)
    ensures FindRefresh(b, digest) == FindRefresh(a, digest)
    decreases |b|
  {
    if |b| > |a| {
      FindStays(a, b[..|b| - 1], digest);
    } else if a == [] {
    } else {
      FindStays(a[..|a| - 1], b[..|b| - 1], digest);
    }
  }

  lemma BeginAvoids(s: Store, call: C.Call, secret: Secret)
    requires Avoids(Begin(call), secret)
    ensures Avoids(Started(s, call), secret)
  {
  }

  lemma OAuthAvoids(s: Store, user: UserId, active: bool, before: seq<Sql>, call: OAuthCall, secret: Secret)
    requires call.minted != secret && forall i :: 0 <= i < |before| ==> !before[i].AddToken?
    ensures Avoids(OAuthSignIn(user, active, before, call), secret)
  {
  }

  lemma InsertAvoids(s: Store, call: NewUserCall, secret: Secret)
    requires call.minted != secret
    ensures Avoids(InsertNewUser(s, call).1, secret) && InsertNewUser(s, call).0.refresh == s.refresh
  {
  }

  lemma SqlAvoids(cfg: C.Config, s: Store, sql: Sql, secret: Secret)
    requires sql.AddToken? ==> sql.minted != secret
    ensures KeepsDigests(s.refresh, Execute(cfg, s, sql).refresh, HashToken(secret))
  {
  }

  lemma RestAvoids(cfg: C.Config, s: Store, rest: Statements, reply: C.Reply, secret: Secret)
    requires Avoids(Script(rest, reply), secret)
    ensures Avoids(Statement(cfg, s, Script(rest, reply)).1, secret)
  {
  }

  lemma ScriptAvoids(cfg: C.Config, s: Store, rest: Statements, reply: C.Reply, secret: Secret)
    requires Avoids(Script(rest, reply), secret)
    ensures var (t, th) := Statement(cfg, s, Script(rest, reply));
      KeepsDigests(s.refresh, t.refresh, HashToken(secret)) && Avoids(th, secret)
  {
    SqlAvoids(cfg, s, rest[0], secret);
    RestAvoids(cfg, s, rest, reply, secret);
  }

  lemma RefreshAvoids(cfg: C.Config, s: Store, th: Thread, secret: Secret)
    requires th.RefreshFound? || th.RefreshChecked? || th.RefreshTouched? || th.RefreshInserted?
    requires Avoids(th, secret)
    ensures var (t, next) := Statement(cfg, s, th);
      KeepsDigests(s.refresh, t.refresh, HashToken(secret)) && Avoids(next, secret)
  {
  }

  lemma StatementAvoids(cfg: C.Config, s: Store, th: Thread, secret: Secret)
    requires Avoids(th, secret)
    ensures var (t, next) := Statement(cfg, s, th);
      KeepsDigests(s.refresh, t.refresh, HashToken(secret)) && Avoids(next, secret)
  {
    match th
    case Begin(call) => BeginAvoids(s, call, secret);
    case RegisterFree(call) => InsertAvoids(s, call, secret);
    case OAuthFree(call) => InsertAvoids(s, call, secret);
    case OAuthLinked(user, call) =>
      if user < |s.users| {
        OAuthAvoids(s, user, s.users[user].isActive, [], call, secret);
      }
    case RefreshFound(_, _, _, _) => RefreshAvoids(cfg, s, th, secret);
    case RefreshChecked(_, _, _, _) => RefreshAvoids(cfg, s, th, secret);
    case RefreshTouched(_, _, _, _) => RefreshAvoids(cfg, s, th, secret);
    case RefreshInserted(_, _, _, _, _) => RefreshAvoids(cfg, s, th, secret);
    case Script(rest, reply) => ScriptAvoids(cfg, s, rest, reply, secret);
    case _ =>
  }

  /** No thread mints the secret, and the SELECT by its digest finds row `id`. */
  predicate Finds(sys: System, secret: Secret, id: TokenId) {
    && FindRefresh(sys.store.refresh, HashToken(secret)) == Some(id)
    && forall j :: 0 <= j < |sys.threads| ==> Avoids(sys.threads[j], secret)
  }

  lemma NextFinds(cfg: C.Config, sys: System, move: Move, secret: Secret, id: TokenId)
    requires Finds(sys, secret, id)
    ensures Finds(Next(cfg, sys, move), secret, id)
  {
    if move.Advance? && move.k < |sys.threads| {
      StatementAvoids(cfg, sys.store, sys.threads[move.k], secret);
      FindStays(sys.store.refresh, Next(cfg, sys, move).store.refresh, HashToken(secret));
    }
  }

  // ---- Which refreshes succeed ----------------------------------------------------------------

  predicate RowLive(s: Store, id: TokenId) {
    id < |s.refresh| && s.refresh[id].revokedAt.None? && s.refresh[id].expiresAt > s.now
  }

  /** The thread runs its SELECT while row `id` is neither revoked nor expired. */
  predicate SelectsLive(cfg: C.Config, sys: System, moves: seq<Move>, k: nat, id: TokenId)
    decreases |moves|
  {
    && moves != []
    && ((moves[0] == Advance(k) && k < |sys.threads| && sys.threads[k].Begin? && RowLive(sys.store, id))
        || SelectsLive(cfg, Next(cfg, sys, moves[0]), moves[1..], k, id))
  }

  /** The thread is a refresh past its SELECT, or answered with tokens. */
  predicate SigningIn(th: Thread) {
    || th.RefreshFound? || th.RefreshChecked? || th.RefreshTouched?
    || (th.RefreshInserted? && th.reply.SignedIn?)
    || ((th.Script? || th.Finished?) && th.reply.SignedIn?)
  }

  predicate Refusing(th: Thread) {
    || (th.Finished? && !th.reply.SignedIn?)
    || (th.Script? && !th.reply.SignedIn? && forall i :: 0 <= i < |th.rest| ==> !th.rest[i].AddToken?)
  }

  lemma OutcomeStays(cfg: C.Config, s: Store, th: Thread)
    requires ThreadOk(s, th)
    ensures SigningIn(th) ==> SigningIn(Statement(cfg, s, th).1)
    ensures Refusing(th) ==> Refusing(Statement(cfg, s, th).1)
  {
  }

  lemma {:induction false} OutcomeKept(cfg: C.Config, sys: System, moves: seq<Move>, k: nat)
    requires SystemOk(sys) && k < |sys.threads|
    ensures SigningIn(sys.threads[k]) ==> SigningIn(Schedule(cfg, sys, moves).threads[k])
    ensures Refusing(sys.threads[k]) ==> Refusing(Schedule(cfg, sys, moves).threads[k])
    decreases |moves|
  {
    if moves == [] {
    } else {
      OutcomeStays(cfg, sys.store, sys.threads[k]);
      NextOk(cfg, sys, moves[0]);
      OutcomeKept(cfg, Next(cfg, sys, moves[0]), moves[1..], k);
    }
  }

  /** The thread is a refresh with this secret that has not begun. */
  predicate Presents(sys: System, k: nat, secret: Secret) {
    k < |sys.threads| && sys.threads[k].Begin? && sys.threads[k].call.Refresh? && sys.threads[k].call.presented == secret
  }

  lemma SelectDecides(s: Store, call: RefreshCall, id: TokenId)
    requires FindRefresh(s.refresh, HashToken(call.presented)) == Some(id)
    ensures if RowLive(s, id) then SigningIn(Started(s, call)) else Refusing(Started(s, call))
  {
  }

  lemma {:induction false} NeverSelectsAgain(cfg: C.Config, sys: System, moves: seq<Move>, k: nat, id: TokenId)
    requires k < |sys.threads| && !sys.threads[k].Begin?
    ensures !SelectsLive(cfg, sys, moves, k, id)
    decreases |moves|
  {
    if moves == [] {
    } else {
      NeverSelectsAgain(cfg, Next(cfg, sys, moves[0]), moves[1..], k, id);
    }
  }

  /** Where a refresh stands after a schedule depends on its SELECT alone. */
  predicate Decided(th: Thread, selectsLive: bool) {
    if selectsLive then SigningIn(th) else th.Begin? || Refusing(th)
  }

  lemma {:induction false} SelectDecidesRefresh(cfg: C.Config, sys: System, moves: seq<Move>, k: nat, secret: Secret, id: TokenId)
    requires SystemOk(sys) && Presents(sys, k, secret) && Finds(sys, secret, id)
    ensures Decided(Schedule(cfg, sys, moves).threads[k], SelectsLive(cfg, sys, moves, k, id))
    decreases |moves|
  {
    if moves == [] {
    } else {
      var next := Next(cfg, sys, moves[0]);
      NextOk(cfg, sys, moves[0]);
      NextFinds(cfg, sys, moves[0], secret, id);
      if moves[0] == Advance(k) {
        SelectDecides(sys.store, sys.threads[k].call, id);
        OutcomeKept(cfg, next, moves[1..], k);
        NeverSelectsAgain(cfg, next, moves[1..], k, id);
      } else {
        SelectDecidesRefresh(cfg, next, moves[1..], k, secret, id);
      }
    }
  }

  /** The thread exchanged the secret: it presented it and finished with tokens. */
  predicate Exchanged(sys: System, end: System, k: nat, secret: Secret) {
    Presents(sys, k, secret) && k < |end.threads| && end.threads[k].Finished? && end.threads[k].reply.SignedIn?
  }

  /** A refresh that finishes exchanges its secret exactly when its SELECT ran while the
      row was live. */
  lemma ExchangedIff(cfg: C.Config, sys: System, moves: seq<Move>, k: nat, secret: Secret, id: TokenId)
    requires SystemOk(sys) && Finds(sys, secret, id)
    ensures Exchanged(sys, Schedule(cfg, sys, moves), k, secret) <==>
      && Presents(sys, k, secret) && Schedule(cfg, sys, moves).threads[k].Finished?
      && SelectsLive(cfg, sys, moves, k, id)
  {
    if Presents(sys, k, secret) {
      SelectDecidesRefresh(cfg, sys, moves, k, secret, id);
    }
  }

  /** A row once revoked is live for no later SELECT, so the SELECTs that find it live
      come before its first revocation. */
  lemma {:induction false} NoneAfterRevocation(cfg: C.Config, sys: System, moves: seq<Move>, k: nat, id: TokenId)
    requires SystemOk(sys) && id < |sys.store.refresh| && sys.store.refresh[id].revokedAt.Some?
    ensures !SelectsLive(cfg, sys, moves, k, id)
    decreases |moves|
  {
    if moves == [] {
    } else {
      var next := Next(cfg, sys, moves[0]);
      NextOk(cfg, sys, moves[0]);
      assert RefreshGrows(sys.store.refresh[id], next.store.refresh[id]);
      NoneAfterRevocation(cfg, next, moves[1..], k, id);
    }
  }

  /** The thread's refresh finishes, having run its SELECT while the row was live. */
  predicate FinishesFromLive(cfg: C.Config, sys: System, moves: seq<Move>, k: nat, secret: Secret, id: TokenId)
  {
    Presents(sys, k, secret) && Schedule(cfg, sys, moves).threads[k].Finished? && SelectsLive(cfg, sys, moves, k, id)
  }

  /** Two threads have exchanged the secret. */
  ghost predicate ExchangedTwice(sys: System, end: System, secret: Secret) {
    exists j: nat, k: nat :: j < k && Exchanged(sys, end, j, secret) && Exchanged(sys, end, k, secret)
  }

  ghost predicate TwoFinishFromLive(cfg: C.Config, sys: System, moves: seq<Move>, secret: Secret, id: TokenId)
  {
    exists j: nat, k: nat ::
      j < k && FinishesFromLive(cfg, sys, moves, j, secret, id) && FinishesFromLive(cfg, sys, moves, k, secret, id)
  }

  /** A secret is exchanged more than once exactly when two of its refreshes run their
      SELECT before the row is first revoked or expires, and both finish. */
  lemma ExchangedTwiceIff(cfg: C.Config, sys: System, moves: seq<Move>, secret: Secret, id: TokenId)
    requires SystemOk(sys) && Finds(sys, secret, id)
    ensures ExchangedTwice(sys, Schedule(cfg, sys, moves), secret) <==> TwoFinishFromLive(cfg, sys, moves, secret, id)
  {
    var end := Schedule(cfg, sys, moves);
    if ExchangedTwice(sys, end, secret) {
      var j: nat, k: nat :| j < k && Exchanged(sys, end, j, secret) && Exchanged(sys, end, k, secret);
      ExchangedIff(cfg, sys, moves, j, secret, id);
      ExchangedIff(cfg, sys, moves, k, secret, id);
      assert FinishesFromLive(cfg, sys, moves, j, secret, id) && FinishesFromLive(cfg, sys, moves, k, secret, id);
    }
    if TwoFinishFromLive(cfg, sys, moves, secret, id) {
      var j: nat, k: nat :|
        j < k && FinishesFromLive(cfg, sys, moves, j, secret, id) && FinishesFromLive(cfg, sys, moves, k, secret, id);
      ExchangedIff(cfg, sys, moves, j, secret, id);
      ExchangedIff(cfg, sys, moves, k, secret, id);
      assert Exchanged(sys, end, j, secret) && Exchanged(sys, end, k, secret);
    }
  }

  // ---- Such schedules exist ---------------------------------------------------------------------

  /** The next n statements of one thread. */
  function Turns(k: nat, n: nat): seq<Move> {
    if n == 0 then [] else [Advance(k)] + Turns(k, n - 1)
  }

  function TwoRefreshes(s: Store, presented: Secret, a: Secret, b: Secret, client: Client): System {
    System(s, [Begin(C.Refresh(presented, a, client)), Begin(C.Refresh(presented, b, client))])
  }

  /** Two refresh requests that both read the token before either revokes it are
      both answered with new tokens. */
  lemma TwoRefreshesCanRace(cfg: C.Config, s: Store, presented: Secret, a: Secret, b: Secret, client: Client)
    requires Inv(s) && C.RefreshTokens(cfg, s, presented, a, client).1.SignedIn?
    ensures var begun := TwoRefreshes(s, presented, a, b, client);
      var end := Schedule(cfg, begun, [Advance(0), Advance(1)] + (Turns(0, 5) + Turns(1, 5)));
      Exchanged(begun, end, 0, presented) && Exchanged(begun, end, 1, presented)
  {
    var begun := TwoRefreshes(s, presented, a, b, client);
    var read := BothRead(cfg, s, presented, a, b, client);
    ScheduleSplits(cfg, begun, [Advance(0), Advance(1)], Turns(0, 5) + Turns(1, 5));
    ScheduleSplits(cfg, read, Turns(0, 5), Turns(1, 5));
    var mid := FoundFinishes(cfg, read, 0, 5);
    var end := FoundFinishes(cfg, mid, 1, 5);
  }

  lemma BothRead(cfg: C.Config, s: Store, presented: Secret, a: Secret, b: Secret, client: Client) returns (read: System)
    requires Inv(s) && C.RefreshTokens(cfg, s, presented, a, client).1.SignedIn?
    ensures read == Schedule(cfg, TwoRefreshes(s, presented, a, b, client), [Advance(0), Advance(1)])
    ensures read.store == s && |read.threads| == 2
    ensures read.threads[0].RefreshFound? && read.threads[0].owner < |s.users|
    ensures read.threads[1].RefreshFound? && read.threads[1].owner < |s.users|
  {
    read := Next(cfg, Next(cfg, TwoRefreshes(s, presented, a, b, client), Advance(0)), Advance(1));
    assert [Advance(0), Advance(1)][1..] == [Advance(1)] && [Advance(1)][1..] == [];
  }

  lemma {:induction false} ScheduleSplits(cfg: C.Config, sys: System, a: seq<Move>, b: seq<Move>)
    ensures Schedule(cfg, sys, a + b) == Schedule(cfg, Schedule(cfg, sys, a), b)
    decreases |a|
  {
    if a == [] {
      assert a + b == b;
    } else {
      assert (a + b)[1..] == a[1..] + b;
      ScheduleSplits(cfg, Next(cfg, sys, a[0]), a[1..], b);
    }
  }

  /** A refresh past its SELECT, with `left` statements to go. */
  predicate Refreshing(s: Store, th: Thread, left: nat) {
    match th
    case RefreshFound(_, owner, _, _) => left == 5 && owner < |s.users|
    case RefreshChecked(_, owner, _, _) => left == 4 && owner < |s.users|
    case RefreshTouched(_, owner, _, _) => left == 3 && owner < |s.users|
    case RefreshInserted(_, _, _, reply, _) => left == 2 && reply.SignedIn?
    case Script(rest, reply) => left == 1 && |rest| == 1 && rest[0].Note? && reply.SignedIn?
    case Finished(reply) => left == 0 && reply.SignedIn?
    case _ => false
  }

  lemma RefreshingAdvances(cfg: C.Config, s: Store, th: Thread, left: nat)
    requires left > 0 && Refreshing(s, th, left)
    ensures var (t, next) := Statement(cfg, s, th); Refreshing(t, next, left - 1) && |t.users| == |s.users|
  {
  }

  predicate OnlyMoves(sys: System, end: System, k: nat) {
    |end.threads| == |sys.threads| && forall j :: 0 <= j < |sys.threads| && j != k ==> end.threads[j] == sys.threads[j]
  }

  /** Once past its SELECT, a refresh finishes whatever the row has become. */
  lemma {:induction false} FoundFinishes(cfg: C.Config, sys: System, k: nat, left: nat) returns (end: System)
    requires k < |sys.threads| && Refreshing(sys.store, sys.threads[k], left)
    ensures end == Schedule(cfg, sys, Turns(k, left)) && OnlyMoves(sys, end, k)
    ensures end.threads[k].Finished? && end.threads[k].reply.SignedIn? && |end.store.users| == |sys.store.users|
    decreases left
  {
    if left == 0 {
      end := sys;
    } else {
      var next := Next(cfg, sys, Advance(k));
      RefreshingAdvances(cfg, sys.store, sys.threads[k], left);
      end := FoundFinishes(cfg, next, k, left - 1);
      assert Turns(k, left)[1..] == Turns(k, left - 1);
    }
  }

  // ---- Links are not write-once -----------------------------------------------------------------

  /** In every reachable state: exchange a token, which links it to its successor, and
      log out with it. The link is gone, and the revocation time has moved. */
  lemma LogoutErasesTheLink(
    cfg: C.Config, start: Time, events: seq<C.Event>, refresh: C.Event, logout: C.Event) returns (id: TokenId)
    requires C.FreshRun(cfg, C.EmptyStore(start), events)
    requires var s := C.Run(cfg, C.EmptyStore(start), events);
      refresh.call.Refresh? && C.FreshCall(s, refresh.call) && C.Answer(cfg, s, refresh).SignedIn?
    requires logout.call.Logout? && logout.call.presented == refresh.call.presented != ""
    ensures var s := C.Run(cfg, C.EmptyStore(start), events);
      var t := C.After(cfg, s, refresh);
      var u := C.After(cfg, t, logout);
      && id < |s.refresh| < |t.refresh| == |u.refresh|
      && t.refresh[id].replacedBy == Some(|s.refresh|)
      && u.refresh[id] == t.refresh[id].(revokedAt := Some(u.now), replacedBy := None)
  {
    var s := C.Run(cfg, C.EmptyStore(start), events);
    RunSafe(cfg, C.EmptyStore(start), events);
    var t := C.After(cfg, s, refresh);
    id := FindRefresh(s.refresh, HashToken(refresh.call.presented)).value;
    EventSafe(cfg, s, refresh);
    assert FindRefresh(t.refresh, HashToken(refresh.call.presented)) == Some(id);
  }
}
