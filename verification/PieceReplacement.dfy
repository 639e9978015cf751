/** When replacing references in a text is the same as replacing them in its pieces:
    exactly when no reference is begun where another one, or the end, stands. */
module PieceReplacement {
  import opened Wrappers
  import opened EnvText
  import opened EnvExpansion
  import opened Sequences

  // ---- Begun references --------------------------------------------------------------------

  /** How much of "${NAME" the characters just read could be. */
  datatype Begun = Nothing | Dollar | Brace | InName

  function AfterPiece(b: Begun, p: Piece): Begun {
    match p
    case Ref(_) => Nothing
    case Lit(c) =>
      if c == '$' then Dollar
      else if b == Dollar && c == '{' then Brace
      else if (b == Brace && NameStart(c)) || (b == InName && NameChar(c)) then InName
      else Nothing
  }

  function Ending(ps: seq<Piece>, b: Begun): Begun {
    if ps == [] then b else Ending(ps[1..], AfterPiece(b, ps[0]))
  }

  /** Nothing is begun where a reference stands. */
  predicate SealedFrom(ps: seq<Piece>, b: Begun) {
    ps == [] || ((ps[0].Ref? ==> b == Nothing) && SealedFrom(ps[1..], AfterPiece(b, ps[0])))
  }

  predicate Sealed(s: string) {
    SealedFrom(Pieces(s), Nothing)
  }

  /** Nor where the text ends. */
  predicate Closed(s: string) {
    Sealed(s) && Ending(Pieces(s), Nothing) == Nothing
  }

  lemma {:induction false} EndingConcat(a: seq<Piece>, b: seq<Piece>, from: Begun)
    ensures Ending(a + b, from) == Ending(b, Ending(a, from))
    ensures SealedFrom(a + b, from) <==> SealedFrom(a, from) && SealedFrom(b, Ending(a, from))
  {
    if a == [] {
      assert a + b == b;
    } else {
      ConcatTail(a, b);
      EndingConcat(a[1..], b, AfterPiece(from, a[0]));
    }
  }

  // ---- Pieces of a text -----------------------------------------------------------------------

  lemma RefAtQuote(name: string, rest: string)
    requires ValidName(name)
    ensures RefAt(Quote(name) + rest) == Some(name) && (Quote(name) + rest)[|name| + 3..] == rest
  {
    var s := Quote(name) + rest;
    assert s[2..] == name + ("}" + rest);
    NameLengthOf(name, "}" + rest);
    assert s[2..|name| + 2] == name;
    assert s[|name| + 3..] == rest;
  }

  lemma PiecesOfQuote(name: string, rest: string)
    requires ValidName(name)
    ensures Pieces(Quote(name) + rest) == [Ref(name)] + Pieces(rest)
  {
    RefAtQuote(name, rest);
  }

  lemma PiecesOfLit(c: char, rest: string)
    requires RefAt([c] + rest).None?
    ensures Pieces([c] + rest) == [Lit(c)] + Pieces(rest)
  {
    assert ([c] + rest)[1..] == rest;
  }

  /** A text that starts with no reference: its first character, and what is left. */
  lemma LitFirst(s: string, env: map<string, string>)
    requires s != "" && RefAt(s).None?
    ensures Pieces(s) == [Lit(s[0])] + Pieces(s[1..]) && Replace(s, env) == [s[0]] + Replace(s[1..], env)
    ensures Pieces(s)[1..] == Pieces(s[1..])
  {
    assert ([Lit(s[0])] + Pieces(s[1..]))[1..] == Pieces(s[1..]);
  }

  lemma RefFirst(s: string, env: map<string, string>) returns (name: string, rest: string)
    requires RefAt(s).Some?
    ensures ValidName(name) && s == Quote(name) + rest && RefAt(s) == Some(name) && |rest| < |s|
    ensures Pieces(s) == [Ref(name)] + Pieces(rest) && Pieces(s)[1..] == Pieces(rest)
    ensures Replace(s, env) == ReplacePiece(Ref(name), env) + Replace(rest, env)
  {
    name := RefAt(s).value;
    rest := s[|name| + 3..];
    assert ([Ref(name)] + Pieces(rest))[1..] == Pieces(rest);
  }

  // ---- Appending and replacing -----------------------------------------------------------------

  function Step(p: Piece, env: map<string, string>): seq<Piece> {
    if p.Ref? && p.name in env then Pieces(env[p.name]) else [p]
  }

  function Round(ps: seq<Piece>, env: map<string, string>): seq<Piece> {
    if ps == [] then [] else Step(ps[0], env) + Round(ps[1..], env)
  }

  /** No character of a reference that has begun. */
  predicate Stops(c: char) {
    c != '{' && c != '}' && !NameChar(c)
  }

  /** The text stays apart from what its references become, and from what follows it. */
  predicate Apart(s: string, env: map<string, string>, after: string, b: Begun) {
    && (env == map[] || SealedFrom(Pieces(s), b))
    && (after == "" || Stops(after[0]) || Ending(Pieces(s), b) == Nothing)
  }

  lemma LitThen(s: string, env: map<string, string>, after: string)
    requires s != "" && RefAt(s).None?
    ensures (Replace(s, env) + after)[0] == s[0] && (Replace(s, env) + after)[1..] == Replace(s[1..], env) + after
  {
    LitFirst(s, env);
    FirstOff(s[0], Replace(s[1..], env), after);
  }

  lemma FirstOff(c: char, rest: string, after: string)
    ensures ([c] + rest + after)[0] == c && ([c] + rest + after)[1..] == rest + after
  {
  }

  lemma ApartLit(s: string, env: map<string, string>, after: string, b: Begun)
    requires s != "" && RefAt(s).None? && Apart(s, env, after, b)
    ensures Apart(s[1..], env, after, AfterPiece(b, Lit(s[0])))
    ensures (Replace(s, env) + after)[0] == s[0] && (Replace(s, env) + after)[1..] == Replace(s[1..], env) + after
  {
    LitFirst(s, env);
    LitThen(s, env, after);
  }

  /** While something is begun, what comes next starts as the text does. */
  lemma SameFirst(s: string, env: map<string, string>, after: string, b: Begun)
    requires Apart(s, env, after, b) && b != Nothing
    ensures var r := Replace(s, env) + after;
      if s == "" then r == "" || Stops(r[0]) else r != "" && r[0] == s[0]
  {
    if s != "" && RefAt(s).None? {
      LitFirst(s, env);
    } else if s != "" {
      var name, rest := RefFirst(s, env);
    }
  }

  predicate ClosesAt(s: string, n: nat) {
    n < |s| && s[n] == '}'
  }

  lemma ClosesLater(s: string, n: nat)
    requires s != "" && n > 0
    ensures ClosesAt(s, n) <==> ClosesAt(s[1..], n - 1)
  {
  }

  /** The same name characters come next, and the same end of a reference. */
  predicate NamedAlike(s: string, r: string) {
    NameLength(r) == NameLength(s) && (ClosesAt(r, NameLength(s)) <==> ClosesAt(s, NameLength(s)))
  }

  lemma NamedAlikeLater(s: string, r: string)
    requires s != "" && r != "" && r[0] == s[0] && NameChar(s[0]) && NamedAlike(s[1..], r[1..])
    ensures NamedAlike(s, r)
  {
    ClosesLater(r, NameLength(s));
    ClosesLater(s, NameLength(s));
  }

  lemma NoNameNext(s: string, r: string)
    requires s == "" || !NameChar(s[0])
    requires if s == "" then r == "" || Stops(r[0]) else r != "" && r[0] == s[0]
    ensures NamedAlike(s, r)
  {
  }

  lemma {:induction false} SameName(s: string, r: string, env: map<string, string>, after: string)
    requires Apart(s, env, after, InName) && r == Replace(s, env) + after
    ensures NamedAlike(s, r)
    decreases |s|
  {
    SameFirst(s, env, after, InName);
    if s == "" || !NameChar(s[0]) {
      NoNameNext(s, r);
    } else {
      ApartLit(s, env, after, InName);
      SameName(s[1..], r[1..], env, after);
      NamedAlikeLater(s, r);
    }
  }

  /** A '$' that starts no reference starts none afterwards. */
  lemma StillPlain(s: string, env: map<string, string>, after: string, b: Begun)
    requires s != "" && RefAt(s).None? && Apart(s, env, after, b)
    ensures RefAt(Replace(s, env) + after).None?
  {
    var r := Replace(s, env) + after;
    ApartLit(s, env, after, b);
    if s[0] == '$' {
      SameFirst(s[1..], env, after, Dollar);
      if |s| > 1 && s[1] == '{' {
        ApartLit(s[1..], env, after, Dollar);
        assert s[1..][1..] == s[2..] && r[1..][1..] == r[2..];
        SameFirst(s[2..], env, after, Brace);
        if |s| > 2 && NameStart(s[2]) {
          StillNoName(s, r, env, after);
        }
      }
    }
  }

  lemma StillNoName(s: string, r: string, env: map<string, string>, after: string)
    requires |s| > 2 && s[..2] == "${" && NameStart(s[2]) && RefAt(s).None?
    requires |r| > 2 && r[..2] == "${" && r[2..] == Replace(s[2..], env) + after
    requires Apart(s[2..], env, after, Brace)
    ensures RefAt(r).None?
  {
    assert Apart(s[2..], env, after, InName) by {
      LitFirst(s[2..], env);
    }
    SameName(s[2..], r[2..], env, after);
    var n := NameLength(s[2..]);
    assert !ClosesAt(s[2..], n);
    assert !ClosesAt(r[2..], n);
  }

  /** Every name referred to has a closed value, or none. */
  predicate ClosedNames(ps: seq<Piece>, env: map<string, string>) {
    forall m :: m in Names(ps) && m in env ==> Closed(env[m])
  }

  /** Replacing in a text is replacing in its pieces, whatever follows. */
  lemma {:induction false} PieceByPiece(s: string, env: map<string, string>, after: string, b: Begun)
    requires Apart(s, env, after, b) && ClosedNames(Pieces(s), env)
    ensures Pieces(Replace(s, env) + after) == Round(Pieces(s), env) + Pieces(after)
    decreases |env|, |s|
  {
    if s == "" {
      assert Replace(s, env) + after == after;
      assert Round([], env) + Pieces(after) == Pieces(after);
    } else if RefAt(s).None? {
      var rest := Replace(s[1..], env) + after;
      LitFirst(s, env);
      ApartLit(s, env, after, b);
      StillPlain(s, env, after, b);
      PieceByPiece(s[1..], env, after, AfterPiece(b, Lit(s[0])));
      assert Replace(s, env) + after == [s[0]] + rest;
      PiecesOfLit(s[0], rest);
      Associative([Lit(s[0])], Round(Pieces(s[1..]), env), Pieces(after));
    } else {
      var name, rest := RefFirst(s, env);
      assert name in Names(Pieces(s));
      PieceByPiece(rest, env, after, Nothing);
      var tail := Replace(rest, env) + after;
      Associative(ReplacePiece(Ref(name), env), Replace(rest, env), after);
      Associative(Step(Ref(name), env), Round(Pieces(rest), env), Pieces(after));
      if name in env {
        NothingReplaced(env[name]);
        PieceByPiece(env[name], map[], tail, Nothing);
      } else {
        PiecesOfQuote(name, tail);
      }
    }
  }

  lemma {:induction false} NothingReplaced(s: string)
    ensures Replace(s, map[]) == s && Round(Pieces(s), map[]) == Pieces(s)
    decreases |s|
  {
    if s == "" {
    } else if RefAt(s).None? {
      LitFirst(s, map[]);
      NothingReplaced(s[1..]);
    } else {
      var name, rest := RefFirst(s, map[]);
      NothingReplaced(rest);
    }
  }

  /** A text that ends with nothing begun splits off whatever follows it, and any text
      what starts with a character that ends what was begun. */
  lemma PiecesConcat(a: string, b: string)
    requires Ending(Pieces(a), Nothing) == Nothing || b == "" || Stops(b[0])
    ensures Pieces(a + b) == Pieces(a) + Pieces(b)
  {
    NothingReplaced(a);
    PieceByPiece(a, map[], b, Nothing);
  }

  /** The condition survives a round. */
  lemma {:induction false} RoundSealed(ps: seq<Piece>, env: map<string, string>, b: Begun)
    requires SealedFrom(ps, b) && ClosedNames(ps, env)
    ensures SealedFrom(Round(ps, env), b) && Ending(Round(ps, env), b) == Ending(ps, b)
  {
    if ps == [] {
    } else {
      RoundSealed(ps[1..], env, AfterPiece(b, ps[0]));
      EndingConcat(Step(ps[0], env), Round(ps[1..], env), b);
    }
  }

  /** In a sealed text one round on the text is one round on its pieces. */
  lemma RoundIsPieceRound(s: string, env: map<string, string>)
    requires Sealed(s) && ClosedNames(Pieces(s), env)
    ensures Pieces(Replace(s, env)) == Round(Pieces(s), env) && Sealed(Replace(s, env))
  {
    PieceByPiece(s, env, "", Nothing);
    assert Replace(s, env) + "" == Replace(s, env);
    RoundSealed(Pieces(s), env, Nothing);
  }

  // ---- Which texts these are ---------------------------------------------------------------------

  /** Every '$' belongs to a complete reference. */
  predicate Clean(s: string) {
    forall i :: 0 <= i < |Pieces(s)| ==> Pieces(s)[i] != Lit('$')
  }

  lemma {:induction false} CleanFrom(ps: seq<Piece>)
    requires forall i :: 0 <= i < |ps| ==> ps[i] != Lit('$')
    ensures SealedFrom(ps, Nothing) && Ending(ps, Nothing) == Nothing
  {
    if ps == [] {
    } else {
      CleanFrom(ps[1..]);
    }
  }

  lemma CleanIsClosed(s: string)
    requires Clean(s)
    ensures Closed(s)
  {
    CleanFrom(Pieces(s));
  }
}
