/** The unresolved check on a file that holds the credentials of `ensureBasicAuth`:
    escaped hashes are full of '$' and disturb nothing. */
module SetupCheck {
  import opened Wrappers
  import opened EnvText
  import opened EnvExpansion
  import opened PieceReplacement
  import opened ReferencePaths
  import opened UnresolvedLaws
  import opened FormedReferences
  import opened DollarEscaping
  import opened SetupFilling
  import opened SetupLaws
  import opened Sequences

  /** As the hashes of an htpasswd file: '$' anywhere but at the end, and no '{'. */
  predicate DollarsInside(s: string) {
    s != "" && s[|s| - 1] != '$' && '{' !in s
  }

  /** Without '{' at most a '$' at the very end is begun. */
  lemma {:induction false} NoBraceEnding(s: string, b: Begun)
    requires s != "" && '{' !in s && (b == Nothing || b == Dollar)
    ensures Names(Pieces(s)) == [] && SealedFrom(Pieces(s), b)
    ensures Ending(Pieces(s), b) == if s[|s| - 1] == '$' then Dollar else Nothing
  {
    LitFirst(s, map[]);
    if |s| == 1 {
    } else {
      NoBraceEnding(s[1..], AfterPiece(b, Lit(s[0])));
    }
  }

  lemma {:induction false} EscapedDollarsInside(s: string)
    requires DollarsInside(s)
    ensures DollarsInside(Escape(s))
    decreases |s|
  {
    if |s| == 1 {
      assert s[1..] == "" && Escape("") == "";
    } else if s[0] == '$' && s[1] == '$' {
      EscapedDollarsInside(s[2..]);
    } else {
      EscapedDollarsInside(s[1..]);
    }
  }

  lemma EscapedIsClosed(hash: string)
    requires DollarsInside(hash)
    ensures Closed(Escape(hash)) && Names(Pieces(Escape(hash))) == []
  {
    EscapedDollarsInside(hash);
    NoBraceEnding(Escape(hash), Nothing);
  }

  /** Behind the colon nothing is begun, whatever was before it. */
  lemma ColonIsClosed(tail: string, escaped: string, hash: string)
    requires DollarsInside(hash) && escaped == Escape(hash) && tail == ":" + escaped
    ensures Names(Pieces(tail)) == [] && Stops(tail[0])
    ensures forall b :: SealedFrom(Pieces(tail), b) && Ending(Pieces(tail), b) == Nothing
  {
    EscapedIsClosed(hash);
    LitFirst(tail, map[]);
    assert tail[1..] == escaped;
  }

  /** A generated line refers to what its user name refers to, and is closed. */
  lemma HtpasswdIsClosed(user: string, hash: string)
    requires Sealed(user) && DollarsInside(hash)
    ensures Closed(HtpasswdLine(user, hash)) && Names(Pieces(HtpasswdLine(user, hash))) == Names(Pieces(user))
  {
    var tail := ":" + Escape(hash);
    Associative(user, ":", Escape(hash));
    ColonIsClosed(tail, Escape(hash), hash);
    PiecesConcat(user, tail);
    NamesConcat(Pieces(user), Pieces(tail));
    EndingConcat(Pieces(user), Pieces(tail), Nothing);
  }

  // ---- What a pass writes ------------------------------------------------------------------------

  ghost predicate HashesFit(g: Generator) {
    forall p :: DollarsInside(g.hash(p)) && DollarsInside(g.flowerHash(p))
  }

  /** No reference is begun before another one in the user names of generated lines,
      and stored lines are hashes with closed user names. */
  predicate CredentialsFit(a: Setup, g: Generator) {
    && (if Unset(a.env, PRIMARY) then Sealed(UserName(a.env)) else PRIMARY in a.env && DollarsInside(a.env[PRIMARY]))
    && (if Unset(a.env, FLOWER) then Sealed(FlowerOwner(a, g).user) else FLOWER in a.env && Closed(a.env[FLOWER]))
  }

  /** Generated, escaped or kept: both lines are closed after the pass. */
  lemma CredentialsAreClosed(a: Setup, g: Generator)
    requires HashesFit(g) && CredentialsFit(a, g)
    ensures var env := WithBasicAuth(a, g).env;
      PRIMARY in env && FLOWER in env && Closed(env[PRIMARY]) && Closed(env[FLOWER])
  {
    BasicAuthKeeps(a, g, PRIMARY);
    FlowerGet(a, g);
    if Unset(a.env, PRIMARY) {
      HtpasswdIsClosed(UserName(a.env), g.hash(PrimaryPassword(a.env, g)));
    } else {
      EscapedIsClosed(a.env[PRIMARY]);
    }
    if Unset(a.env, FLOWER) {
      HtpasswdIsClosed(FlowerOwner(a, g).user, g.flowerHash(FlowerOwner(a, g).password));
    }
  }

  /** Lines whose values are sealed, or the credentials as they stand in the env. */
  predicate SealedOrCredential(line: string, env: map<string, string>) {
    var m := MatchAssign(line);
    m.Some? ==> Sealed(m.value.value)
                || (m.value.key in {PRIMARY, FLOWER} && m.value.key in env && env[m.value.key] == m.value.value)
  }

  lemma ClosedEnvAhead(ps: seq<Piece>, env: map<string, string>)
    requires ClosedEnv(env)
    ensures ClosedAhead(ps, env)
  {
  }

  /** The check of a setup run is exact for a file that holds the lines the run has
      just filled in, under the shell's variables and the env map with these lines. */
  lemma SetupCheckIsExact(content: string, shell: map<string, string>, a: Setup, g: Generator)
    requires HashesFit(g) && CredentialsFit(a, g)
    requires var env := shell + WithBasicAuth(a, g).env;
      && SingleLines(SplitLines(content)) && SingleLineEnv(env)
      && (forall k :: k in env && k !in {PRIMARY, FLOWER} ==> Closed(env[k]))
      && (forall line :: line in SplitLines(content) ==> SealedOrCredential(line, env))
    ensures ChecksExactly(content, shell + WithBasicAuth(a, g).env)
  {
    var env := shell + WithBasicAuth(a, g).env;
    CredentialsAreClosed(a, g);
    assert ClosedEnv(env);
    forall line | line in SplitLines(content) ensures SealedLine(line, env) {
      assert SealedOrCredential(line, env);
      if MatchAssign(line).Some? {
        ClosedEnvAhead(Pieces(MatchAssign(line).value.value), env);
      }
    }
    CheckIsExact(content, env);
  }

  /** A credential line for a user name without '$' is left alone and not reported. */
  lemma CredentialPasses(key: string, user: string, hash: string, env: map<string, string>)
    requires ValidName(key) && NoDollar(user) && DollarsInside(hash) && SingleLine(HtpasswdLine(user, hash))
    ensures var line := Render(key, HtpasswdLine(user, hash));
      ExpandLine(line, env) == line && ReportOf(line).None?
  {
    var value := HtpasswdLine(user, hash);
    PlainIsClosed(user);
    HtpasswdIsClosed(user, hash);
    MatchRendered(key, value);
    NamelessStays(value, env);
    RoundsStay(value, env, 5);
  }

  lemma {:induction false} NamelessStays(s: string, env: map<string, string>)
    requires Names(Pieces(s)) == []
    ensures Replace(s, env) == s
    decreases |s|
  {
    if s == "" {
    } else if RefAt(s).None? {
      LitFirst(s, env);
      NamelessStays(s[1..], env);
    } else {
      var name, rest := RefFirst(s, env);
      assert false;
    }
  }
}
