/** The tenant limiter with its TTL read and its pipeline as separate steps. A key
    can then be left without an expiry; the next call that starts gives it one. */
module TenantInterleaving {
  import opened Wrappers
  import opened ExpiringStore
  import Limits
  import TenantWindow

  /** A call between its TTL read and its pipeline, or finished. */
  datatype Thread = Read(key: string, needExpiry: bool, windowMs: int) | Finished

  datatype System = System(db: Db, now: int, threads: seq<Thread>)

  /** Every move may let time pass first. */
  datatype Move =
    | ReadTtl(wait: nat, key: string, windowMs: int)
    | RunPipeline(wait: nat, thread: nat)

  function Next(sys: System, move: Move): System {
    var now := sys.now + move.wait;
    match move
    case ReadTtl(_, key, windowMs) =>
      System(sys.db, now, sys.threads + [Read(key, TtlOf(sys.db, key, now) < 0, windowMs)])
    case RunPipeline(_, i) =>
      if i < |sys.threads| && sys.threads[i].Read? then
        var th := sys.threads[i];
        System(TenantWindow.Pipeline(sys.db, th.key, th.needExpiry, th.windowMs, now), now, sys.threads[i := Finished])
      else sys.(now := now)
  }

  /** The two steps back to back are the single-step call. */
  lemma UninterruptedIsTheCall(db: Db, now: int, prefix: string, limit: Limits.Limit, scope: string, tenant: string)
    requires limit.windowMs > 0 && tenant != ""
    ensures var k := TenantWindow.KeyFor(prefix, scope, limit.windowMs, tenant);
      Next(Next(System(db, now, []), ReadTtl(0, k, limit.windowMs)), RunPipeline(0, 0)).db
        == TenantWindow.Check(prefix, limit, db, TenantWindow.Hit(now, scope, tenant)).0
  {
    var k := TenantWindow.KeyFor(prefix, scope, limit.windowMs, tenant);
    assert Next(System(db, now, []), ReadTtl(0, k, limit.windowMs)).threads == [Read(k, TtlOf(db, k, now) < 0, limit.windowMs)];
  }

  predicate Lasting(db: Db, key: string) {
    key in db.entries && db.entries[key].expireAt.None?
  }

  predicate Expiring(db: Db, key: string) {
    key in db.entries && db.entries[key].expireAt.Some?
  }

  predicate WindowsPositive(sys: System) {
    forall i :: 0 <= i < |sys.threads| && sys.threads[i].Read? ==> sys.threads[i].windowMs > 0
  }

  predicate MovePositive(move: Move) {
    move.ReadTtl? ==> move.windowMs > 0
  }

  /** The move runs a pipeline on `key`. */
  predicate Counts(sys: System, move: Move, key: string) {
    && move.RunPipeline? && move.thread < |sys.threads|
    && sys.threads[move.thread].Read? && sys.threads[move.thread].key == key
  }

  /** Exactly how a key comes to lack an expiry: a pipeline whose TTL read saw one finds
      the key expired, or it lacked one already and no pipeline has given it one. */
  lemma PipelineLeavesLasting(sys: System, move: Move, key: string)
    requires WindowsPositive(sys)
    ensures Lasting(Next(sys, move).db, key) <==>
      if Counts(sys, move, key)
      then !sys.threads[move.thread].needExpiry && (!Live(sys.db, key, sys.now + move.wait) || Lasting(sys.db, key))
      else Lasting(sys.db, key)
  {
  }

  /** The window between the two steps is real: a read just before the expiry and
      a pipeline after it leave a counter that would never reset. */
  lemma ExpiryCanBeLost(db: Db, key: string, windowMs: int, now: int)
    requires Expiring(db, key) && Live(db, key, now) && db.entries[key].expireAt.value >= now && windowMs > 0
    ensures var late := db.entries[key].expireAt.value + db.grace - now;
      Lasting(Next(Next(System(db, now, []), ReadTtl(0, key, windowMs)), RunPipeline(late, 0)).db, key)
  {
    var late := db.entries[key].expireAt.value + db.grace - now;
    var read := Next(System(db, now, []), ReadTtl(0, key, windowMs));
    assert read.threads == [Read(key, false, windowMs)];
    PipelineLeavesLasting(read, RunPipeline(late, 0), key);
  }

  // ---- Repair -------------------------------------------------------------------------

  /** The key has an expiry at this state or at some later state of the run. */
  predicate GetsExpiry(sys: System, moves: seq<Move>, key: string)
    decreases |moves|
  {
    Expiring(sys.db, key) || (moves != [] && GetsExpiry(Next(sys, moves[0]), moves[1..], key))
  }

  function Schedule(sys: System, moves: seq<Move>): System
    decreases |moves|
  {
    if moves == [] then sys else Schedule(Next(sys, moves[0]), moves[1..])
  }

  lemma NextKeepsPositive(sys: System, move: Move)
    requires WindowsPositive(sys) && MovePositive(move)
    ensures WindowsPositive(Next(sys, move))
  {
  }

  /** A key without expiry stays that way until a pipeline gives it one. */
  lemma LastingUntilExpiring(sys: System, move: Move, key: string)
    requires WindowsPositive(sys) && MovePositive(move) && Lasting(sys.db, key)
    ensures Lasting(Next(sys, move).db, key) || Expiring(Next(sys, move).db, key)
  {
  }

  predicate Pending(sys: System, i: nat, key: string) {
    i < |sys.threads| && sys.threads[i].Read? && sys.threads[i].key == key && sys.threads[i].needExpiry
  }

  /** A pending call that saw no expiry repairs the key when its pipeline runs, if
      no other call has by then. */
  lemma {:induction false} PendingCallRepairs(sys: System, moves: seq<Move>, key: string, i: nat)
    requires WindowsPositive(sys) && Lasting(sys.db, key) && Pending(sys, i, key)
    requires forall m :: m in moves ==> MovePositive(m)
    requires exists m :: m in moves && m.RunPipeline? && m.thread == i
    ensures GetsExpiry(sys, moves, key)
    decreases |moves|
  {
    var first, next := moves[0], Next(sys, moves[0]);
    assert first in moves && moves == [first] + moves[1..];
    NextKeepsPositive(sys, first);
    LastingUntilExpiring(sys, first, key);
    if first.RunPipeline? && first.thread == i {
      assert Expiring(next.db, key);
      assert GetsExpiry(next, moves[1..], key);
    } else if Lasting(next.db, key) {
      var m :| m in moves && m.RunPipeline? && m.thread == i;
      assert m in moves[1..];
      assert Pending(next, i, key);
      PendingCallRepairs(next, moves[1..], key, i);
    } else {
      assert GetsExpiry(next, moves[1..], key);
    }
  }

  /** From any state where the key lacks an expiry: after any moves, let a call on
      the key start and later run its pipeline. Somewhere on the way the key has an
      expiry again. */
  lemma {:induction false} NextCallRestoresExpiry(
    sys: System, before: seq<Move>, wait: nat, windowMs: int, after: seq<Move>, key: string)
    requires WindowsPositive(sys) && Lasting(sys.db, key) && windowMs > 0
    requires (forall m :: m in before ==> MovePositive(m)) && (forall m :: m in after ==> MovePositive(m))
    requires exists m :: m in after && m.RunPipeline? && m.thread == |Schedule(sys, before).threads|
    ensures GetsExpiry(sys, before + [ReadTtl(wait, key, windowMs)] + after, key)
    decreases |before|
  {
    var moves := before + [ReadTtl(wait, key, windowMs)] + after;
    var next := Next(sys, moves[0]);
    if before == [] {
      assert moves[0] == ReadTtl(wait, key, windowMs) && moves[1..] == after;
      NextKeepsPositive(sys, moves[0]);
      assert Pending(next, |sys.threads|, key);
      PendingCallRepairs(next, after, key, |sys.threads|);
    } else {
      assert before[0] in before && before == [before[0]] + before[1..];
      assert moves[0] == before[0] && moves[1..] == before[1..] + [ReadTtl(wait, key, windowMs)] + after;
      NextKeepsPositive(sys, before[0]);
      LastingUntilExpiring(sys, before[0], key);
      if Lasting(next.db, key) {
        NextCallRestoresExpiry(next, before[1..], wait, windowMs, after, key);
      } else {
        assert GetsExpiry(next, moves[1..], key);
      }
    }
  }
}
