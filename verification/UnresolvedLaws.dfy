/** The unresolved check is exact: an assignment is reported after expansion exactly
    when some chain of references from its value meets an undefined name or is longer
    than the expander follows. */
module UnresolvedLaws {
  import opened Wrappers
  import opened EnvText
  import opened EnvExpansion
  import opened PieceReplacement
  import opened ReferencePaths
  import opened ExpansionLaws
  import opened Sequences

  // ---- The names left after n rounds ---------------------------------------------------------

  /** Names met after exactly n + 1 names, or undefined ones met before. */
  ghost predicate LeftAfter(ps: seq<Piece>, env: map<string, string>, n: nat, x: string) {
    exists p :: RefPath(ps, env, p) && Last(p) == x && (|p| == n + 1 || (|p| <= n && x !in env))
  }

  lemma LeftBefore(ps: seq<Piece>, env: map<string, string>, n: nat, x: string)
    requires n > 0 && LeftAfter(Round(ps, env), env, n - 1, x)
    ensures LeftAfter(ps, env, n, x)
  {
    var p :| RefPath(Round(ps, env), env, p) && Last(p) == x && (|p| == n || (|p| <= n - 1 && x !in env));
    var q := PathBeforeRound(ps, env, p);
  }

  lemma LeftLater(ps: seq<Piece>, env: map<string, string>, n: nat, x: string)
    requires n > 0 && LeftAfter(ps, env, n, x)
    ensures LeftAfter(Round(ps, env), env, n - 1, x)
  {
    var p :| RefPath(ps, env, p) && Last(p) == x && (|p| == n + 1 || (|p| <= n && x !in env));
    if |p| > 1 {
      PathAfterRound(ps, env, p);
      assert Last(p[1..]) == x;
    } else {
      RoundNames(ps, env, p[0]);
      assert RefPath(Round(ps, env), env, p);
    }
  }

  /** The references left after n rounds are exactly the ends of such paths. */
  lemma {:induction false} NamesAfterRounds(ps: seq<Piece>, env: map<string, string>, n: nat, x: string)
    ensures x in Names(RoundsOf(ps, env, n)) <==> LeftAfter(ps, env, n, x)
    decreases n
  {
    if n == 0 {
      if x in Names(ps) {
        assert RefPath(ps, env, [x]);
      }
    } else {
      NamesAfterRounds(Round(ps, env), env, n - 1, x);
      if LeftAfter(Round(ps, env), env, n - 1, x) {
        LeftBefore(ps, env, n, x);
      }
      if LeftAfter(ps, env, n, x) {
        LeftLater(ps, env, n, x);
      }
    }
  }

  /** Of any text: the ends of these paths are left, whatever else the rounds form. */
  lemma {:induction false} PathEndIsLeft(s: string, env: map<string, string>, p: seq<string>, n: nat, x: string)
    requires RefPath(Pieces(s), env, p) && Last(p) == x && (|p| == n + 1 || (|p| <= n && x !in env))
    ensures x in Names(Pieces(Rounds(s, env, n)))
    decreases n
  {
    if n == 0 {
      assert p[0] == x;
    } else {
      var q := PathIsFollowed(s, env, p);
      PathEndIsLeft(Replace(s, env), env, q, n - 1, x);
    }
  }

  lemma UnresolvableIsLeft(s: string, env: map<string, string>, n: nat)
    requires Unresolvable(Pieces(s), env, n)
    ensures Names(Pieces(Rounds(s, env, n))) != []
  {
    var p :| RefPath(Pieces(s), env, p) && (Last(p) !in env || |p| > n);
    var q := if |p| > n then p[..n + 1] else p;
    PathPrefix(Pieces(s), env, p, |q|);
    PathEndIsLeft(s, env, q, n, Last(q));
  }

  lemma UnresolvedIff(ps: seq<Piece>, env: map<string, string>, n: nat)
    ensures Names(RoundsOf(ps, env, n)) != [] <==> Unresolvable(ps, env, n)
  {
    var left := Names(RoundsOf(ps, env, n));
    if left != [] {
      assert left[0] in left;
      NamesAfterRounds(ps, env, n, left[0]);
    }
    if Unresolvable(ps, env, n) {
      var p :| RefPath(ps, env, p) && (Last(p) !in env || |p| > n);
      var q := if |p| > n then p[..n + 1] else p;
      PathPrefix(ps, env, p, |q|);
      NamesAfterRounds(ps, env, n, Last(q));
    }
  }

  // ---- Lines and whole files --------------------------------------------------------------------

  predicate SingleLineEnv(env: map<string, string>) {
    forall k :: k in env ==> SingleLine(env[k])
  }

  lemma {:induction false} ReplacedSingleLine(ps: seq<Piece>, env: map<string, string>)
    requires SingleLineEnv(env) && SingleLine(Flatten(ps))
    ensures SingleLine(ReplacePieces(ps, env))
  {
    if ps == [] {
    } else {
      assert Flatten(ps) == Write(ps[0]) + Flatten(ps[1..]);
      SingleLineParts(Write(ps[0]), Flatten(ps[1..]));
      ReplacedSingleLine(ps[1..], env);
      assert SingleLine(ReplacePiece(ps[0], env));
    }
  }

  lemma SingleLineParts(a: string, b: string)
    requires SingleLine(a + b)
    ensures SingleLine(a) && SingleLine(b)
  {
    forall i | 0 <= i < |a| ensures !LineTerminator(a[i]) {
      assert (a + b)[i] == a[i];
    }
    forall i | 0 <= i < |b| ensures !LineTerminator(b[i]) {
      assert (a + b)[|a| + i] == b[i];
    }
  }

  lemma {:induction false} RoundsSingleLine(s: string, env: map<string, string>, n: nat)
    requires SingleLineEnv(env) && SingleLine(s)
    ensures SingleLine(Rounds(s, env, n))
    decreases n
  {
    if n == 0 {
    } else {
      FlattenPieces(s);
      ReplacedSingleLine(Pieces(s), env);
      RoundsSingleLine(Replace(s, env), env, n - 1);
    }
  }

  /** Nothing is begun where the assignment's value has a reference, nor where one or
      the end stands in a value that it leads to. */
  ghost predicate SealedLine(line: string, env: map<string, string>) {
    var m := MatchAssign(line);
    m.Some? ==> Sealed(m.value.value) && ClosedAhead(Pieces(m.value.value), env)
  }

  ghost predicate UnresolvableLine(line: string, env: map<string, string>) {
    var m := MatchAssign(line);
    m.Some? && Unresolvable(Pieces(m.value.value), env, 5)
  }

  lemma ReportedLine(line: string, env: map<string, string>)
    requires SingleLineEnv(env) && MatchAssign(line).Some?
    ensures ReportOf(ExpandLine(line, env)).Some? <==> Names(Pieces(Rounds(MatchAssign(line).value.value, env, 5))) != []
  {
    var m := MatchAssign(line).value;
    RoundsSingleLine(m.value, env, 5);
    MatchRendered(m.key, Rounds(m.value, env, 5));
  }

  /** Whatever the text: a value from which a reference path meets an undefined name or
      has more than five names is reported. */
  lemma UnresolvableIsReported(line: string, env: map<string, string>)
    requires SingleLineEnv(env) && UnresolvableLine(line, env)
    ensures ReportOf(ExpandLine(line, env)).Some?
  {
    ReportedLine(line, env);
    UnresolvableIsLeft(MatchAssign(line).value.value, env, 5);
  }

  /** An expanded line is reported exactly when a reference path from its value meets
      an undefined name or has more than five names. */
  lemma ReportedIff(line: string, env: map<string, string>)
    requires SealedLine(line, env) && SingleLineEnv(env)
    ensures ReportOf(ExpandLine(line, env)).Some? <==> UnresolvableLine(line, env)
  {
    var m := MatchAssign(line);
    if m.Some? {
      ReportedLine(line, env);
      RoundsArePieceRounds(m.value.value, env, 5);
      UnresolvedIff(Pieces(m.value.value), env, 5);
    }
  }

  predicate NothingReported(lines: seq<string>) {
    forall i :: 0 <= i < |lines| ==> ReportOf(lines[i]).None?
  }

  lemma NothingReportedSnoc(lines: seq<string>)
    requires lines != []
    ensures NothingReported(lines) <==> NothingReported(lines[..|lines| - 1]) && ReportOf(lines[|lines| - 1]).None?
  {
  }

  lemma {:induction false} ReportsNothingIff(lines: seq<string>)
    ensures Reports(lines) == [] <==> NothingReported(lines)
  {
    if lines == [] {
    } else {
      NothingReportedSnoc(lines);
      ReportsNothingIff(lines[..|lines| - 1]);
    }
  }

  lemma ExpandedText(lines: seq<string>, env: map<string, string>)
    requires lines != [] && SingleLines(lines) && SingleLineEnv(env)
    ensures SplitLines(JoinLines(ExpandLines(lines, env))) == ExpandLines(lines, env)
  {
    var out := ExpandLines(lines, env);
    forall i | 0 <= i < |out| ensures SingleLine(out[i]) {
      var m := MatchAssign(lines[i]);
      if m.Some? {
        RoundsSingleLine(m.value.value, env, 5);
        RenderedSingleLine(m.value.key, Rounds(m.value.value, env, 5));
      }
    }
    SplitJoin(out);
  }

  /** Line by line the check after expansion reports exactly the unresolvable ones, and
      so it fails exactly when there is one. */
  ghost predicate ChecksExactly(content: string, env: map<string, string>) {
    var lines := SplitLines(content);
    var checked := SplitLines(JoinLines(ExpandLines(lines, env)));
    && |checked| == |lines|
    && (forall i :: 0 <= i < |lines| ==> (ReportOf(checked[i]).Some? <==> UnresolvableLine(lines[i], env)))
    && (Reports(checked) != [] <==> exists i :: 0 <= i < |lines| && UnresolvableLine(lines[i], env))
  }

  /** For a whole file of sealed lines; in particular every cycle is found. */
  lemma CheckIsExact(content: string, env: map<string, string>)
    requires SingleLines(SplitLines(content)) && SingleLineEnv(env)
    requires forall line :: line in SplitLines(content) ==> SealedLine(line, env)
    ensures ChecksExactly(content, env)
  {
    var lines := SplitLines(content);
    ExpandedText(lines, env);
    forall i | 0 <= i < |lines| ensures ReportOf(ExpandLine(lines[i], env)).Some? <==> UnresolvableLine(lines[i], env) {
      assert lines[i] in lines;
      ReportedIff(lines[i], env);
    }
    ReportsNothingIff(ExpandLines(lines, env));
  }

  /** Whatever the text: a value that reaches a cycle is reported. */
  lemma CyclesAreReported(line: string, env: map<string, string>, p: seq<string>, i: nat, j: nat)
    requires SingleLineEnv(env) && MatchAssign(line).Some?
    requires RefPath(Pieces(MatchAssign(line).value.value), env, p) && i < j < |p| && p[i] == p[j]
    ensures ReportOf(ExpandLine(line, env)).Some?
  {
    CycleGrows(Pieces(MatchAssign(line).value.value), env, p, i, j, 5);
    UnresolvableIsReported(line, env);
  }

  /** Under ranks, only undefined names are left. */
  lemma RankedLeavesUndefined(value: string, env: map<string, string>, rank: string -> nat, x: string)
    requires Sealed(value) && ClosedAhead(Pieces(value), env) && Ranked(env, rank)
    requires forall m :: m in env && m in Names(Pieces(value)) ==> rank(m) <= 4
    requires x in Names(Pieces(Rounds(value, env, 5)))
    ensures x !in env
  {
    RoundsArePieceRounds(value, env, 5);
    NamesAfterRounds(Pieces(value), env, 5, x);
    if x in env {
      var p :| RefPath(Pieces(value), env, p) && Last(p) == x && |p| == 6;
      PathRanks(Pieces(value), env, rank, p, 4);
    }
  }

  /** Ranks fall along a path, so a path of defined names is short. */
  lemma {:induction false} PathRanks(ps: seq<Piece>, env: map<string, string>, rank: string -> nat, p: seq<string>, top: nat)
    requires Ranked(env, rank) && RefPath(ps, env, p) && Last(p) in env
    requires forall m :: m in env && m in Names(ps) ==> rank(m) <= top
    ensures |p| <= top + 1
    decreases |p|
  {
    if |p| <= 1 {
    } else {
      assert p[1] in Names(Pieces(env[p[0]]));
      assert p[1] in env;
      PathRanks(Pieces(env[p[0]]), env, rank, p[1..], rank(p[0]) - 1);
    }
  }

  lemma {:induction false} PlainStays(s: string, env: map<string, string>)
    requires forall i :: 0 <= i < |s| ==> s[i] != '$'
    ensures Names(Pieces(s)) == [] && ReplacePieces(Pieces(s), env) == s
  {
    if s == "" {
    } else {
      PlainStays(s[1..], env);
      assert ([Lit(s[0])] + Pieces(s[1..]))[1..] == Pieces(s[1..]);
    }
  }

  lemma QuoteThenPlain(name: string, rest: string, env: map<string, string>)
    requires ValidName(name) && forall i :: 0 <= i < |rest| ==> rest[i] != '$'
    ensures Names(Pieces(Quote(name) + rest)) == [name]
    ensures Replace(Quote(name) + rest, env) == ReplacePiece(Ref(name), env) + rest
  {
    PiecesOfQuote(name, rest);
    PlainStays(rest, env);
    assert ([Ref(name)] + Pieces(rest))[1..] == Pieces(rest);
  }

  /** The condition on '$' is needed: a lone '$' in a value can complete a reference
      that no text held, and the check then reports a name no path leads to. */
  lemma LoneDollarCounterexample()
    ensures var value, env := Quote("A") + "{B}", map["A" := "$"];
      !Unresolvable(Pieces(value), env, 5) && Names(Pieces(Rounds(value, env, 5))) == ["B"]
  {
    var value, env := Quote("A") + "{B}", map["A" := "$"];
    QuoteThenPlain("A", "{B}", env);
    assert "$" + "{B}" == Quote("B");
    assert Names(Pieces(Quote("B"))) == ["B"] && Replace(Quote("B"), env) == Quote("B") by {
      QuoteThenPlain("B", "", env);
      assert Quote("B") + "" == Quote("B");
    }
    RoundsStay(Quote("B"), env, 4);
    assert Names(Pieces("$")) == [] by {
      assert Pieces("$") == [Lit('$')] && [Lit('$')][1..] == [];
    }
    NoPath(Pieces(value), env);
  }

  lemma NoPath(ps: seq<Piece>, env: map<string, string>)
    requires env == map["A" := "$"] && Names(ps) == ["A"] && Names(Pieces("$")) == []
    ensures !Unresolvable(ps, env, 5)
  {
    forall p | RefPath(ps, env, p) ensures p == ["A"] {
      if |p| > 1 {
        PathSuffix(ps, env, p, 1);
      }
    }
  }

  /** What is reported of an assignment: its key, its value as expanded, and the names it
      still refers to, in order. */
  lemma ReportIs(key: string, value: string)
    requires ValidName(key) && SingleLine(value)
    ensures ReportOf(Render(key, value)) ==
      if Names(Pieces(value)) == [] then None else Some(Report(key, value, Names(Pieces(value))))
  {
    MatchRendered(key, value);
  }

  /** Names are found in the order in which they are written. */
  lemma NamesInOrder(before: string, name: string, after: string)
    requires ValidName(name) && Ending(Pieces(before), Nothing) == Nothing
    ensures Names(Pieces(before + (Quote(name) + after))) == Names(Pieces(before)) + [name] + Names(Pieces(after))
  {
    PiecesConcat(before, Quote(name) + after);
    PiecesOfQuote(name, after);
    NamesConcat(Pieces(before), [Ref(name)] + Pieces(after));
    assert ([Ref(name)] + Pieces(after))[1..] == Pieces(after);
    Associative(Names(Pieces(before)), [name], Names(Pieces(after)));
  }
}
