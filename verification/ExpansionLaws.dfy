/** What five rounds of expansion amount to, and what the unresolved check finds. */
module ExpansionLaws {
  import opened Wrappers
  import opened EnvText
  import opened EnvExpansion
  import opened PieceReplacement
  import opened ReferencePaths
  import opened Sequences

  // ---- Rounds on pieces ----------------------------------------------------------------------

  function RoundsOf(ps: seq<Piece>, env: map<string, string>, n: nat): seq<Piece>
    decreases n
  {
    if n == 0 then ps else RoundsOf(Round(ps, env), env, n - 1)
  }

  /** On sealed texts, rounds of text replacement are rounds on pieces. */
  lemma {:induction false} RoundsArePieceRounds(s: string, env: map<string, string>, n: nat)
    requires Sealed(s) && ClosedAhead(Pieces(s), env)
    ensures Sealed(Rounds(s, env, n)) && Pieces(Rounds(s, env, n)) == RoundsOf(Pieces(s), env, n)
    decreases n
  {
    if n == 0 {
    } else {
      AheadIsNames(Pieces(s), env);
      RoundIsPieceRound(s, env);
      AheadAfterRound(Pieces(s), env);
      RoundsArePieceRounds(Replace(s, env), env, n - 1);
    }
  }

  lemma {:induction false} RoundConcat(a: seq<Piece>, b: seq<Piece>, env: map<string, string>)
    ensures Round(a + b, env) == Round(a, env) + Round(b, env)
  {
    if a == [] {
      assert a + b == b;
    } else {
      RoundConcat(a[1..], b, env);
      ConcatTail(a, b);
      Associative(Step(a[0], env), Round(a[1..], env), Round(b, env));
    }
  }

  lemma {:induction false} RoundsConcat(a: seq<Piece>, b: seq<Piece>, env: map<string, string>, n: nat)
    ensures RoundsOf(a + b, env, n) == RoundsOf(a, env, n) + RoundsOf(b, env, n)
    decreases n
  {
    if n == 0 {
    } else {
      RoundConcat(a, b, env);
      RoundsConcat(Round(a, env), Round(b, env), env, n - 1);
    }
  }

  lemma {:induction false} RoundsOfNothing(env: map<string, string>, n: nat)
    ensures RoundsOf([], env, n) == []
  {
    if n == 0 {
    } else {
      RoundsOfNothing(env, n - 1);
    }
  }

  /** A single piece: one name deeper for a defined name, else unchanged. */
  lemma {:induction false} RoundsOfOne(p: Piece, env: map<string, string>, n: nat)
    ensures RoundsOf([p], env, n) ==
      if n > 0 && p.Ref? && p.name in env then RoundsOf(Pieces(env[p.name]), env, n - 1) else [p]
    decreases n
  {
    if n == 0 {
    } else {
      assert [p][1..] == [] && Round([p], env) == Step(p, env);
      if !(p.Ref? && p.name in env) {
        RoundsOfOne(p, env, n - 1);
      }
    }
  }

  // ---- Full substitution -------------------------------------------------------------------

  function Write(p: Piece): string {
    match p
    case Lit(c) => [c]
    case Ref(name) => Quote(name)
  }

  function Flatten(ps: seq<Piece>): string {
    if ps == [] then "" else Write(ps[0]) + Flatten(ps[1..])
  }

  lemma {:induction false} FlattenConcat(a: seq<Piece>, b: seq<Piece>)
    ensures Flatten(a + b) == Flatten(a) + Flatten(b)
  {
    if a == [] {
      assert a + b == b;
    } else {
      FlattenConcat(a[1..], b);
      ConcatTail(a, b);
      Associative(Write(a[0]), Flatten(a[1..]), Flatten(b));
    }
  }

  /** Writing a text's pieces gives the text back. */
  lemma {:induction false} FlattenPieces(s: string)
    ensures Flatten(Pieces(s)) == s
    decreases |s|
  {
    if s == "" {
    } else {
      var r := RefAt(s);
      var p := if r.Some? then Ref(r.value) else Lit(s[0]);
      var rest := if r.Some? then s[|r.value| + 3..] else s[1..];
      FlattenPieces(rest);
      assert ([p] + Pieces(rest))[1..] == Pieces(rest);
    }
  }

  /** Every defined name's value refers only to names of lower rank, or undefined ones. */
  ghost predicate Ranked(env: map<string, string>, rank: string -> nat) {
    forall k, m :: k in env && m in env && m in Names(Pieces(env[k])) ==> rank(m) < rank(k)
  }

  /** One more than the highest rank of a defined name referred to. */
  function Height(ps: seq<Piece>, env: map<string, string>, rank: string -> nat): (h: nat)
    ensures forall m :: m in env && m in Names(ps) ==> rank(m) < h
  {
    if ps == [] then 0
    else
      var h := Height(ps[1..], env, rank);
      if ps[0].Ref? && ps[0].name in env && h <= rank(ps[0].name) then rank(ps[0].name) + 1 else h
  }

  lemma {:induction false} HeightBounded(ps: seq<Piece>, env: map<string, string>, rank: string -> nat, h: nat)
    requires forall m :: m in env && m in Names(ps) ==> rank(m) < h
    ensures Height(ps, env, rank) <= h
  {
    if ps == [] {
    } else {
      HeightBounded(ps[1..], env, rank, h);
    }
  }

  /** The full recursive substitution of defined names. */
  ghost function Full(ps: seq<Piece>, env: map<string, string>, rank: string -> nat): string
    requires Ranked(env, rank)
    decreases Height(ps, env, rank), |ps|
  {
    if ps == [] then ""
    else
      var rest := Full(ps[1..], env, rank);
      match ps[0]
      case Lit(c) => [c] + rest
      case Ref(name) =>
        if name in env then
          HeightBounded(Pieces(env[name]), env, rank, rank(name));
          Full(Pieces(env[name]), env, rank) + rest
        else Quote(name) + rest
  }

  lemma FlattenRounds(ps: seq<Piece>, env: map<string, string>, n: nat)
    requires ps != []
    ensures Flatten(RoundsOf(ps, env, n)) == Flatten(RoundsOf([ps[0]], env, n)) + Flatten(RoundsOf(ps[1..], env, n))
  {
    assert ps == [ps[0]] + ps[1..];
    RoundsConcat([ps[0]], ps[1..], env, n);
    FlattenConcat(RoundsOf([ps[0]], env, n), RoundsOf(ps[1..], env, n));
  }

  lemma {:induction false} RoundsAreFull(ps: seq<Piece>, env: map<string, string>, rank: string -> nat, n: nat)
    requires Ranked(env, rank) && Height(ps, env, rank) <= n
    ensures Flatten(RoundsOf(ps, env, n)) == Full(ps, env, rank)
    decreases n, |ps|
  {
    if ps == [] {
      RoundsOfNothing(env, n);
    } else {
      FlattenRounds(ps, env, n);
      RoundsAreFull(ps[1..], env, rank, n);
      RoundsOfOne(ps[0], env, n);
      if ps[0].Ref? && ps[0].name in env {
        var name := ps[0].name;
        HeightBounded(Pieces(env[name]), env, rank, rank(name));
        RoundsAreFull(Pieces(env[name]), env, rank, n - 1);
      } else {
        FlattenOne(ps[0]);
      }
    }
  }

  lemma FlattenOne(p: Piece)
    ensures Flatten([p]) == Write(p)
  {
    assert [p][1..] == [];
  }

  /** Five rounds are the full recursive substitution when the value's own names have
      rank at most four. */
  lemma ExpansionIsFull(value: string, env: map<string, string>, rank: string -> nat)
    requires Sealed(value) && ClosedAhead(Pieces(value), env) && Ranked(env, rank)
    requires forall m :: m in env && m in Names(Pieces(value)) ==> rank(m) <= 4
    ensures Rounds(value, env, 5) == Full(Pieces(value), env, rank)
  {
    HeightBounded(Pieces(value), env, rank, 5);
    RoundsArePieceRounds(value, env, 5);
    RoundsAreFull(Pieces(value), env, rank, 5);
    FlattenPieces(Rounds(value, env, 5));
  }
}
