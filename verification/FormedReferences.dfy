/** Where a reference is begun before another one or the end, some env or continuation
    completes it: the unresolved check then reports a name that no path leads to. */
module FormedReferences {
  import opened Wrappers
  import opened EnvText
  import opened EnvExpansion
  import opened PieceReplacement
  import opened ReferencePaths
  import opened ExpansionLaws
  import opened UnresolvedLaws
  import opened Sequences

  // ---- The text that a state stands for ------------------------------------------------------

  predicate Begins(g: string, b: Begun) {
    match b
    case Nothing => g == ""
    case Dollar => g == "$"
    case Brace => g == "${"
    case InName => |g| > 2 && g[..2] == "${" && ValidName(g[2..])
  }

  function Lits(g: string): (ps: seq<Piece>)
    ensures |ps| == |g| && forall i :: 0 <= i < |g| ==> ps[i] == Lit(g[i])
  {
    seq(|g|, i requires 0 <= i < |g| => Lit(g[i]))
  }

  lemma {:induction false} ReplacedConcat(a: seq<Piece>, b: seq<Piece>, env: map<string, string>)
    ensures ReplacePieces(a + b, env) == ReplacePieces(a, env) + ReplacePieces(b, env)
  {
    if a == [] {
      assert a + b == b;
    } else {
      ReplacedConcat(a[1..], b, env);
      ConcatTail(a, b);
      Associative(ReplacePiece(a[0], env), ReplacePieces(a[1..], env), ReplacePieces(b, env));
    }
  }

  lemma {:induction false} ReplacedLits(g: string, env: map<string, string>)
    ensures ReplacePieces(Lits(g), env) == g
  {
    if g == "" {
    } else {
      ReplacedLits(g[1..], env);
      assert Lits(g)[1..] == Lits(g[1..]);
    }
  }

  lemma {:induction false} BegunTail(ps: seq<Piece>) returns (before: seq<Piece>, g: string)
    requires Ending(ps, Nothing) != Nothing
    ensures ps == before + Lits(g) && Begins(g, Ending(ps, Nothing))
  {
    var front, last := ps[..|ps| - 1], ps[|ps| - 1];
    assert ps == front + [last];
    EndingConcat(front, [last], Nothing);
    assert Ending([last], Ending(front, Nothing)) == AfterPiece(Ending(front, Nothing), last);
    if last == Lit('$') {
      before, g := front, "$";
    } else {
      var shorter;
      before, shorter := BegunTail(front);
      g := shorter + [last.c];
      assert Lits(g) == Lits(shorter) + [last];
      assert |shorter| > 2 ==> g[2..] == shorter[2..] + [last.c];
    }
  }

  // ---- Completing it -----------------------------------------------------------------------------

  function Run(n: nat): string {
    seq(n, _ => 'A')
  }

  function Completion(b: Begun, n: nat): string {
    (if b == Dollar then "{" else "") + Run(n) + "}"
  }

  predicate NoDollar(s: string) {
    forall i :: 0 <= i < |s| ==> s[i] != '$'
  }

  lemma Completes(g: string, b: Begun, n: nat) returns (x: string)
    requires Begins(g, b) && b != Nothing && n > 0
    ensures ValidName(x) && |x| >= n && g + Completion(b, n) == Quote(x)
  {
    x := (if b == InName then g[2..] else "") + Run(n);
    if b == InName {
      assert g == "${" + g[2..];
    }
  }

  lemma {:induction false} PlainIsClosed(s: string)
    requires NoDollar(s)
    ensures Closed(s) && Names(Pieces(s)) == []
  {
    PlainStays(s, map[]);
    PlainPieces(s);
    CleanIsClosed(s);
  }

  lemma {:induction false} PlainPieces(s: string)
    requires NoDollar(s)
    ensures Clean(s)
  {
    if s == "" {
    } else {
      PlainPieces(s[1..]);
      LitFirst(s, map[]);
    }
  }

  /** A reference standing where another one is begun. */
  lemma {:induction false} BegunBefore(ps: seq<Piece>, b: Begun) returns (j: nat)
    requires !SealedFrom(ps, b)
    ensures j < |ps| && ps[j].Ref? && Ending(ps[..j], b) != Nothing
  {
    if ps[0].Ref? && b != Nothing {
      j := 0;
    } else {
      var k := BegunBefore(ps[1..], AfterPiece(b, ps[0]));
      j := k + 1;
      assert ps[..j][1..] == ps[1..][..k];
    }
  }

  lemma {:induction false} NameOfPiece(ps: seq<Piece>, j: nat)
    requires j < |ps| && ps[j].Ref?
    ensures ps[j].name in Names(ps)
  {
    if j == 0 {
    } else {
      NameOfPiece(ps[1..], j - 1);
    }
  }

  /** The value of one name completes what is begun before it, whatever the other values. */
  lemma FormedBefore(s: string, n: nat) returns (name: string, w: string, x: string)
    requires !Sealed(s) && n > 0
    ensures name in Names(Pieces(s)) && NoDollar(w) && |x| >= n
    ensures forall env :: name in env && env[name] == w ==> x in Names(Pieces(Replace(s, env)))
  {
    var ps := Pieces(s);
    var j := BegunBefore(ps, Nothing);
    var before, g := BegunTail(ps[..j]);
    var b := Ending(ps[..j], Nothing);
    NameOfPiece(ps, j);
    name, w := ps[j].name, Completion(b, n);
    x := Completes(g, b, n);
    assert ps == before + Lits(g) + [ps[j]] + ps[j + 1..];
    forall env: map<string, string> | name in env && env[name] == w ensures x in Names(Pieces(Replace(s, env))) {
      CompletedAt(before, g, ps[j], ps[j + 1..], env, x);
    }
  }

  lemma CompletedAt(before: seq<Piece>, g: string, p: Piece, rest: seq<Piece>, env: map<string, string>, x: string)
    requires ValidName(x) && g + ReplacePiece(p, env) == Quote(x)
    ensures x in Names(Pieces(ReplacePieces(before + Lits(g) + [p] + rest, env)))
  {
    ReplacedAtReference(before, g, p, rest, env);
    QuoteIsFound(ReplacePieces(before, env), x, ReplacePieces(rest, env));
  }

  lemma ReplacedAtReference(before: seq<Piece>, g: string, p: Piece, rest: seq<Piece>, env: map<string, string>)
    ensures ReplacePieces(before + Lits(g) + [p] + rest, env)
      == ReplacePieces(before, env) + (g + ReplacePiece(p, env)) + ReplacePieces(rest, env)
  {
    ReplacedConcat(before + Lits(g) + [p], rest, env);
    ReplacedConcat(before + Lits(g), [p], env);
    ReplacedConcat(before, Lits(g), env);
    ReplacedLits(g, env);
    assert [p][1..] == [] && ReplacePieces([p], env) == ReplacePiece(p, env);
    Associative(ReplacePieces(before, env), g, ReplacePiece(p, env));
  }

  /** What follows completes what is begun at the end. */
  lemma FormedAtEnd(s: string, n: nat) returns (w: string, x: string)
    requires Ending(Pieces(s), Nothing) != Nothing && n > 0
    ensures NoDollar(w) && |x| >= n && x in Names(Pieces(s + w))
  {
    var u, g := BegunText(s);
    var b := Ending(Pieces(s), Nothing);
    w := Completion(b, n);
    x := Completes(g, b, n);
    Glue(u, g, w, Quote(x));
    QuoteIsFound(u, x, "");
  }

  lemma Glue(u: string, g: string, w: string, both: string)
    requires g + w == both
    ensures u + g + w == u + both + ""
  {
  }

  lemma BegunText(s: string) returns (u: string, g: string)
    requires Ending(Pieces(s), Nothing) != Nothing
    ensures s == u + g && Begins(g, Ending(Pieces(s), Nothing))
  {
    var before;
    before, g := BegunTail(Pieces(s));
    u := ReplacePieces(before, map[]);
    NothingReplaced(s);
    ReplacedConcat(before, Lits(g), map[]);
    ReplacedLits(g, map[]);
  }

  // ---- The conditions are exact --------------------------------------------------------------------

  /** A text splits off whatever follows it exactly when nothing is begun at its end. */
  lemma SplitsOffIff(s: string)
    ensures Ending(Pieces(s), Nothing) == Nothing <==> forall w :: Pieces(s + w) == Pieces(s) + Pieces(w)
  {
    if Ending(Pieces(s), Nothing) == Nothing {
      forall w ensures Pieces(s + w) == Pieces(s) + Pieces(w) {
        PiecesConcat(s, w);
      }
    } else {
      var w, x := FormedAtEnd(s, |s| + 1);
      PlainIsClosed(w);
      NamesConcat(Pieces(s), Pieces(w));
      LongIsNew(s, x);
    }
  }

  /** What is left after the five rounds tells whether the value can be resolved. */
  ghost predicate Exact(s: string, env: map<string, string>) {
    Names(Pieces(Rounds(s, env, 5))) != [] <==> Unresolvable(Pieces(s), env, 5)
  }

  predicate ClosedEnv(env: map<string, string>) {
    forall k :: k in env ==> Closed(env[k])
  }

  lemma SealedIsExact(s: string, env: map<string, string>)
    requires Sealed(s) && ClosedAhead(Pieces(s), env)
    ensures Exact(s, env)
  {
    RoundsArePieceRounds(s, env, 5);
    UnresolvedIff(Pieces(s), env, 5);
  }

  /** The text's names all have values without '$'. */
  ghost predicate PlainNames(ps: seq<Piece>, env: map<string, string>) {
    forall m :: m in Names(ps) ==> m in env && NoDollar(env[m])
  }

  lemma PlainPath(ps: seq<Piece>, env: map<string, string>, p: seq<string>)
    requires PlainNames(ps, env) && RefPath(ps, env, p)
    ensures |p| == 1 && Last(p) in env
  {
    PlainIsClosed(env[p[0]]);
  }

  lemma UndefinedIsLeft(s: string, env: map<string, string>, x: string, n: nat)
    requires x in Names(Pieces(s)) && x !in env
    ensures Names(Pieces(Rounds(s, env, n))) != []
  {
    PathEndIsLeft(s, env, [x], n, x);
  }

  lemma LongIsNew(s: string, x: string)
    requires |x| >= |s|
    ensures x !in Names(Pieces(s))
  {
    if x in Names(Pieces(s)) {
      NamesAreValid(s, x);
    }
  }

  /** Values for a text's names: one as given, the others empty. */
  function OneValue(s: string, name: string, w: string): (env: map<string, string>)
    ensures forall m :: m in env <==> m in Names(Pieces(s))
    ensures forall m :: m in env ==> env[m] == if m == name then w else ""
  {
    map m | m in Names(Pieces(s)) :: if m == name then w else ""
  }

  /** Of a value: the check is exact under every env of closed values exactly when
      nothing is begun where it has a reference. */
  lemma SealedIff(s: string)
    ensures Sealed(s) <==> forall env :: ClosedEnv(env) ==> Exact(s, env)
  {
    if Sealed(s) {
      forall env | ClosedEnv(env) ensures Exact(s, env) {
        SealedIsExact(s, env);
      }
    } else {
      var name, w, x := FormedBefore(s, |s| + 1);
      var env := OneValue(s, name, w);
      LongIsNew(s, x);
      NotExactAt(s, env, x);
      forall k | k in env ensures Closed(env[k]) {
        PlainIsClosed(env[k]);
      }
    }
  }

  lemma NotExactAt(s: string, env: map<string, string>, x: string)
    requires PlainNames(Pieces(s), env) && x in Names(Pieces(Replace(s, env))) && x !in env
    ensures !Exact(s, env)
  {
    UndefinedIsLeft(Replace(s, env), env, x, 4);
    forall p | RefPath(Pieces(s), env, p) ensures Last(p) in env && |p| <= 5 {
      PlainPath(Pieces(s), env, p);
    }
  }

  /** The name has this value, all others closed ones. */
  predicate ValueOf(k: string, v: string, env: map<string, string>) {
    k in env && env[k] == v && forall m :: m in env && m != k ==> Closed(env[m])
  }

  /** Of a value in the env: the check is exact for every sealed text exactly when
      nothing is begun where the value has a reference, nor at its end. */
  lemma ClosedIff(v: string)
    ensures Closed(v) <==> forall k, s, env :: ValueOf(k, v, env) && Sealed(s) ==> Exact(s, env)
  {
    if Closed(v) {
      forall k, s, env | ValueOf(k, v, env) && Sealed(s) ensures Exact(s, env) {
        assert ClosedEnv(env);
        SealedIsExact(s, env);
      }
    } else {
      var k, s, env := NotExactThrough(v);
      assert ValueOf(k, v, env) && Sealed(s) && !Exact(s, env);
    }
  }

  /** Some text that refers to a value which is not closed is misjudged. */
  lemma NotExactThrough(v: string) returns (k: string, s: string, env: map<string, string>)
    requires !Closed(v)
    ensures ValueOf(k, v, env) && Sealed(s) && !Exact(s, env)
  {
    k := Run(|v| + 1);
    LongIsNew(v, k);
    var name, w, x, tail := "", "", "", "";
    if !Sealed(v) {
      name, w, x := FormedBefore(v, |v| + 2);
    } else {
      tail, x := FormedAtEnd(v, |v| + 2);
    }
    LongIsNew(v, x);
    s, env := Quote(k) + tail, OneValue(v, name, w)[k := v];
    forall m | m in env && m != k ensures Closed(env[m]) {
      PlainIsClosed(env[m]);
    }
    NamesOfOne(k, tail);
    OneMoreThrough(k, v, tail, s, env, x);
  }

  lemma NamesOfOne(k: string, tail: string)
    requires ValidName(k) && NoDollar(tail)
    ensures Names(Pieces(Quote(k) + tail)) == [k] && Sealed(Quote(k) + tail)
    ensures forall env :: k in env ==> Replace(Quote(k) + tail, env) == env[k] + tail
  {
    SealedQuote(k, tail);
    QuoteThenPlain(k, tail, map[]);
    forall env: map<string, string> | k in env ensures Replace(Quote(k) + tail, env) == env[k] + tail {
      QuoteThenPlain(k, tail, env);
    }
  }

  lemma OneMoreThrough(k: string, v: string, tail: string, s: string, env: map<string, string>, x: string)
    requires k in env && env[k] == v && PlainNames(Pieces(v), env) && x !in env
    requires Names(Pieces(s)) == [k] && Replace(s, env) == v + tail
    requires x in Names(Pieces(v + tail)) || (tail == "" && x in Names(Pieces(Replace(v, env))))
    ensures !Exact(s, env)
  {
    forall p | RefPath(Pieces(s), env, p) ensures Last(p) in env && |p| <= 2 {
      if |p| > 1 {
        PathSuffix(Pieces(s), env, p, 1);
        PlainPath(Pieces(v), env, p[1..]);
      }
    }
    if x in Names(Pieces(v + tail)) {
      UndefinedIsLeft(v + tail, env, x, 4);
    } else {
      assert v + tail == v;
      UndefinedIsLeft(Replace(v, env), env, x, 3);
    }
  }

  lemma SealedQuote(k: string, tail: string)
    requires ValidName(k) && NoDollar(tail)
    ensures Sealed(Quote(k) + tail)
  {
    PiecesOfQuote(k, tail);
    PlainIsClosed(tail);
    assert ([Ref(k)] + Pieces(tail))[1..] == Pieces(tail);
  }
}
