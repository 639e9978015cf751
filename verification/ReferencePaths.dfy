/** Chains of references from value to value, and what a round does to them. */
module ReferencePaths {
  import opened EnvText
  import opened EnvExpansion
  import opened PieceReplacement
  import opened Sequences

  // ---- Reference paths -------------------------------------------------------------------

  /** A chain of names: the first referred to here, each next one by the value of the
      name before it. */
  predicate RefPath(ps: seq<Piece>, env: map<string, string>, p: seq<string>)
    decreases |p|
  {
    p != [] && p[0] in Names(ps) && (|p| > 1 ==> p[0] in env && RefPath(Pieces(env[p[0]]), env, p[1..]))
  }

  function Last(p: seq<string>): string
    requires p != []
  {
    p[|p| - 1]
  }

  /** Some path meets an undefined name or has more than `n` names. */
  ghost predicate Unresolvable(ps: seq<Piece>, env: map<string, string>, n: nat) {
    exists p :: RefPath(ps, env, p) && (Last(p) !in env || |p| > n)
  }

  lemma {:induction false} PathPrefix(ps: seq<Piece>, env: map<string, string>, p: seq<string>, k: nat)
    requires RefPath(ps, env, p) && 1 <= k <= |p|
    ensures RefPath(ps, env, p[..k])
    decreases |p|
  {
    if k <= 1 {
    } else {
      PathPrefix(Pieces(env[p[0]]), env, p[1..], k - 1);
      assert p[..k][1..] == p[1..][..k - 1];
    }
  }

  lemma {:induction false} PathSuffix(ps: seq<Piece>, env: map<string, string>, p: seq<string>, k: nat)
    requires RefPath(ps, env, p) && 1 <= k < |p|
    ensures p[k - 1] in env && RefPath(Pieces(env[p[k - 1]]), env, p[k..])
    decreases |p|
  {
    if k <= 1 {
    } else {
      PathSuffix(Pieces(env[p[0]]), env, p[1..], k - 1);
      assert p[1..][k - 1..] == p[k..];
    }
  }

  lemma {:induction false} PathJoin(ps: seq<Piece>, env: map<string, string>, p: seq<string>, q: seq<string>)
    requires RefPath(ps, env, p) && Last(p) in env && RefPath(Pieces(env[Last(p)]), env, q)
    ensures RefPath(ps, env, p + q)
    decreases |p|
  {
    ConcatTail(p, q);
    if |p| > 1 {
      PathJoin(Pieces(env[p[0]]), env, p[1..], q);
    } else {
      assert p[1..] + q == q;
    }
  }

  /** A path that meets the same name twice can be made as long as you like. */
  lemma {:induction false} CycleGrows(ps: seq<Piece>, env: map<string, string>, p: seq<string>, i: nat, j: nat, n: nat)
    requires RefPath(ps, env, p) && i < j < |p| && p[i] == p[j]
    ensures Unresolvable(ps, env, n)
    decreases n - |p|
  {
    if n < |p| {
    } else {
      var head := p[..j + 1];
      PathPrefix(ps, env, p, j + 1);
      PathSuffix(ps, env, p, i + 1);
      PathPrefix(Pieces(env[p[i]]), env, p[i + 1..], |p| - i - 1);
      var tail := p[i + 1..];
      PathJoin(ps, env, head, tail);
      assert (head + tail)[i] == p[i] && (head + tail)[j] == p[j];
      CycleGrows(ps, env, head + tail, i, j, n);
    }
  }

  // ---- One round --------------------------------------------------------------------------

  lemma {:induction false} NamesConcat(a: seq<Piece>, b: seq<Piece>)
    ensures Names(a + b) == Names(a) + Names(b)
  {
    if a == [] {
      assert a + b == b;
    } else {
      NamesConcat(a[1..], b);
      ConcatTail(a, b);
      if a[0].Ref? {
        Associative([a[0].name], Names(a[1..]), Names(b));
      }
    }
  }

  ghost predicate Reached(ps: seq<Piece>, env: map<string, string>, y: string) {
    || (y in Names(ps) && y !in env)
    || exists z :: z in Names(ps) && z in env && y in Names(Pieces(env[z]))
  }

  lemma StepNames(p: Piece, env: map<string, string>, y: string)
    ensures y in Names(Step(p, env)) <==> Reached([p], env, y)
  {
    assert [p][1..] == [];
    if p.Ref? {
      assert Names([p]) == [p.name];
    }
  }

  lemma ReachedConcat(p: Piece, ps: seq<Piece>, env: map<string, string>, y: string)
    ensures Reached([p] + ps, env, y) <==> Reached([p], env, y) || Reached(ps, env, y)
  {
    NamesConcat([p], ps);
  }

  lemma {:induction false} RoundNames(ps: seq<Piece>, env: map<string, string>, y: string)
    ensures y in Names(Round(ps, env)) <==> Reached(ps, env, y)
  {
    if ps == [] {
    } else {
      RoundNames(ps[1..], env, y);
      NamesConcat(Step(ps[0], env), Round(ps[1..], env));
      StepNames(ps[0], env, y);
      ReachedConcat(ps[0], ps[1..], env, y);
      assert ps == [ps[0]] + ps[1..];
    }
  }

  /** A path after a round is one name longer before it, or a single undefined name. */
  lemma PathBeforeRound(ps: seq<Piece>, env: map<string, string>, p: seq<string>) returns (q: seq<string>)
    requires RefPath(Round(ps, env), env, p)
    ensures RefPath(ps, env, q) && Last(q) == Last(p) && (|q| == |p| + 1 || (|q| == |p| == 1 && Last(p) !in env))
  {
    RoundNames(ps, env, p[0]);
    if p[0] in Names(ps) && p[0] !in env {
      q := p;
    } else {
      var z :| z in Names(ps) && z in env && p[0] in Names(Pieces(env[z]));
      q := [z] + p;
      assert q[1..] == p;
    }
  }

  lemma PathAfterRound(ps: seq<Piece>, env: map<string, string>, p: seq<string>)
    requires RefPath(ps, env, p) && |p| > 1
    ensures RefPath(Round(ps, env), env, p[1..])
  {
    var q := p[1..];
    assert RefPath(Pieces(env[p[0]]), env, q);
    assert p[0] in Names(ps) && q[0] in Names(Pieces(env[p[0]]));
    RoundNames(ps, env, q[0]);
  }

  // ---- Names that stay in sight -----------------------------------------------------------------

  lemma Without(u: string, k: nat, mid: string, v: string)
    requires k <= |u|
    ensures (u + mid + v)[k..] == u[k..] + mid + v
  {
  }

  /** A reference written anywhere in a text is found there. */
  lemma {:induction false} QuoteIsFound(u: string, x: string, v: string)
    requires ValidName(x)
    ensures x in Names(Pieces(u + Quote(x) + v))
    decreases |u|
  {
    var s := u + Quote(x) + v;
    if u == "" {
      assert s == Quote(x) + v;
      PiecesOfQuote(x, v);
    } else if RefAt(s).None? {
      LitFirst(s, map[]);
      Without(u, 1, Quote(x), v);
      QuoteIsFound(u[1..], x, v);
    } else {
      var name, rest := RefFirst(s, map[]);
      QuoteBeforeQuote(u, x, v, name, rest);
      Without(u, |name| + 3, Quote(x), v);
      assert rest == s[|name| + 3..];
      QuoteIsFound(u[|name| + 3..], x, v);
    }
  }

  /** No reference holds the '$' of another one. */
  lemma QuoteBeforeQuote(u: string, x: string, v: string, name: string, rest: string)
    requires u != "" && ValidName(name) && u + Quote(x) + v == Quote(name) + rest
    ensures |name| + 3 <= |u|
  {
    forall i | 1 <= i < |name| + 3 ensures (Quote(name) + rest)[i] != '$' {
      assert i < |name| + 2 && i > 1 ==> NameChar(name[i - 2]);
    }
    assert (u + Quote(x) + v)[|u|] == '$';
  }

  lemma {:induction false} NamesAreValid(s: string, x: string)
    requires x in Names(Pieces(s))
    ensures ValidName(x) && |x| < |s|
    decreases |s|
  {
    if RefAt(s).None? {
      LitFirst(s, map[]);
      NamesAreValid(s[1..], x);
    } else {
      var name, rest := RefFirst(s, map[]);
      if x != name {
        NamesAreValid(rest, x);
      }
    }
  }

  /** The value of a name referred to stands in the text after a round. */
  lemma {:induction false} ReplacedAround(ps: seq<Piece>, env: map<string, string>, m: string) returns (u: string, v: string)
    requires m in Names(ps)
    ensures ReplacePieces(ps, env) == u + ReplacePiece(Ref(m), env) + v
  {
    if ps[0] == Ref(m) {
      u, v := "", ReplacePieces(ps[1..], env);
    } else {
      u, v := ReplacedAround(ps[1..], env, m);
      var first := ReplacePiece(ps[0], env);
      Regroup(first, u, ReplacePiece(Ref(m), env), v, "");
      u := first + u;
    }
  }

  lemma WrittenSomewhere(s: string, x: string) returns (u: string, v: string)
    requires x in Names(Pieces(s))
    ensures s == u + Quote(x) + v
  {
    NothingReplaced(s);
    u, v := ReplacedAround(Pieces(s), map[], x);
  }

  lemma Regroup(u: string, a: string, mid: string, b: string, v: string)
    ensures u + (a + mid + b) + v == u + a + mid + (b + v)
  {
  }

  lemma FoundInside(u: string, s: string, v: string, x: string)
    requires x in Names(Pieces(s))
    ensures x in Names(Pieces(u + s + v))
  {
    NamesAreValid(s, x);
    var a, b := WrittenSomewhere(s, x);
    Regroup(u, a, Quote(x), b, v);
    QuoteIsFound(u + a, x, b + v);
  }

  /** Whatever else a round forms, it keeps undefined names and follows defined ones. */
  lemma ReachedIsFound(s: string, env: map<string, string>, y: string)
    requires Reached(Pieces(s), env, y)
    ensures y in Names(Pieces(Replace(s, env)))
  {
    if y in Names(Pieces(s)) && y !in env {
      NamesAreValid(s, y);
      var u, v := ReplacedAround(Pieces(s), env, y);
      QuoteIsFound(u, y, v);
    } else {
      var z :| z in Names(Pieces(s)) && z in env && y in Names(Pieces(env[z]));
      var u, v := ReplacedAround(Pieces(s), env, z);
      FoundInside(u, env[z], v, y);
    }
  }

  /** A path through a text leads on through what a round makes of it. */
  lemma PathIsFollowed(s: string, env: map<string, string>, p: seq<string>) returns (q: seq<string>)
    requires RefPath(Pieces(s), env, p) && (|p| > 1 || p[0] !in env)
    ensures RefPath(Pieces(Replace(s, env)), env, q) && Last(q) == Last(p)
    ensures q == if |p| > 1 then p[1..] else p
  {
    q := if |p| > 1 then p[1..] else p;
    if |p| > 1 {
      assert RefPath(Pieces(env[p[0]]), env, q);
    }
    ReachedIsFound(s, env, q[0]);
  }

  // ---- Closed values along paths ---------------------------------------------------------------

  /** Every name that a path from here meets has a closed value, or none. */
  ghost predicate ClosedAhead(ps: seq<Piece>, env: map<string, string>) {
    forall p :: RefPath(ps, env, p) && Last(p) in env ==> Closed(env[Last(p)])
  }

  lemma AheadIsNames(ps: seq<Piece>, env: map<string, string>)
    requires ClosedAhead(ps, env)
    ensures ClosedNames(ps, env)
  {
    forall m | m in Names(ps) && m in env ensures Closed(env[m]) {
      assert RefPath(ps, env, [m]) && Last([m]) == m;
    }
  }

  lemma AheadAfterRound(ps: seq<Piece>, env: map<string, string>)
    requires ClosedAhead(ps, env)
    ensures ClosedAhead(Round(ps, env), env)
  {
    forall p | RefPath(Round(ps, env), env, p) && Last(p) in env ensures Closed(env[Last(p)]) {
      var q := PathBeforeRound(ps, env, p);
    }
  }
}
