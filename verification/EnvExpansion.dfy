/** `${NAME}` references in env values: `expandEnvValue`, `expandEnvContent` and
    `findUnresolvedPlaceholders` of scripts/lib/envFile.js, and the same expander in
    digital_ocean/scripts/python/orchestrate_deploy.py. */
module EnvExpansion {
  import opened Wrappers
  import opened EnvText
  import opened KeyedLines

  datatype Piece = Lit(c: char) | Ref(name: string)

  function Quote(name: string): string {
    "${" + name + "}"
  }

  /** The reference a text starts with, if any. */
  function RefAt(s: string): (r: Option<string>)
    ensures r.Some? ==> ValidName(r.value) && |s| >= |r.value| + 3 && s == Quote(r.value) + s[|r.value| + 3..]
  {
    if |s| < 2 || s[0] != '$' || s[1] != '{' then None
    else
      var n := NameLength(s[2..]);
      if n > 0 && NameStart(s[2]) && n + 2 < |s| && s[n + 2] == '}' then Some(s[2..n + 2]) else None
  }

  /** A text cut into references, found from left to right, and single characters. */
  function Pieces(s: string): seq<Piece> {
    if s == "" then []
    else
      var r := RefAt(s);
      if r.Some? then [Ref(r.value)] + Pieces(s[|r.value| + 3..]) else [Lit(s[0])] + Pieces(s[1..])
  }

  function Names(ps: seq<Piece>): seq<string> {
    if ps == [] then []
    else if ps[0].Ref? then [ps[0].name] + Names(ps[1..])
    else Names(ps[1..])
  }

  // ---- Expansion -----------------------------------------------------------------------

  function ReplacePiece(p: Piece, env: map<string, string>): string {
    match p
    case Lit(c) => [c]
    case Ref(name) => if name in env then env[name] else Quote(name)
  }

  function ReplacePieces(ps: seq<Piece>, env: map<string, string>): string {
    if ps == [] then "" else ReplacePiece(ps[0], env) + ReplacePieces(ps[1..], env)
  }

  /** `current.replace(ENV_VAR_PATTERN, …)`. */
  function Replace(s: string, env: map<string, string>): string {
    ReplacePieces(Pieces(s), env)
  }

  function Rounds(s: string, env: map<string, string>, n: nat): string
    decreases n
  {
    if n == 0 then s else Rounds(Replace(s, env), env, n - 1)
  }

  lemma {:induction false} RoundsStay(s: string, env: map<string, string>, n: nat)
    requires Replace(s, env) == s
    ensures Rounds(s, env, n) == s
  {
    if n == 0 {
    } else {
      RoundsStay(s, env, n - 1);
    }
  }

  /** Stopping at the first round that changes nothing loses no later round. */
  method ExpandUpTo(value: string, env: map<string, string>, rounds: nat) returns (current: string)
    ensures current == Rounds(value, env, rounds)
  {
    current := value;
    for i := 0 to rounds
      invariant Rounds(current, env, rounds - i) == Rounds(value, env, rounds)
    {
      var next := Replace(current, env);
      if next == current {
        RoundsStay(current, env, rounds - i);
        break;
      }
      current := next;
    }
  }

  method ExpandEnvValue(value: string, env: map<string, string>) returns (current: string)
    ensures current == Rounds(value, env, 5)
  {
    current := ExpandUpTo(value, env, 5);
  }

  function ExpandLine(line: string, env: map<string, string>): string {
    var m := MatchAssign(line);
    if m.None? then line else Render(m.value.key, Rounds(m.value.value, env, 5))
  }

  function ExpandLines(lines: seq<string>, env: map<string, string>): (out: seq<string>)
    ensures |out| == |lines| && forall i :: 0 <= i < |lines| ==> out[i] == ExpandLine(lines[i], env)
  {
    seq(|lines|, i requires 0 <= i < |lines| => ExpandLine(lines[i], env))
  }

  method ExpandOneLine(line: string, env: map<string, string>) returns (out: string)
    ensures out == ExpandLine(line, env)
  {
    var m := MatchAssign(line);
    if m.None? {
      return line;
    }
    var expanded := ExpandEnvValue(m.value.value, env);
    out := Render(m.value.key, expanded);
  }

  method ExpandEachLine(lines: seq<string>, env: map<string, string>) returns (out: seq<string>)
    ensures out == ExpandLines(lines, env)
  {
    out := [];
    for i := 0 to |lines|
      invariant |out| == i && forall k :: 0 <= k < i ==> out[k] == ExpandLine(lines[k], env)
    {
      var line := ExpandOneLine(lines[i], env);
      out := out + [line];
    }
    assert out == ExpandLines(lines, env);
  }

  method ExpandEnvContent(content: string, env: map<string, string>) returns (text: string)
    ensures text == JoinLines(ExpandLines(SplitLines(content), env))
  {
    var out := ExpandEachLine(SplitLines(content), env);
    text := JoinLines(out);
  }

  // ---- The unresolved check ---------------------------------------------------------------

  datatype Report = Report(key: string, value: string, placeholders: seq<string>)

  function ReportOf(line: string): Option<Report> {
    var m := MatchAssign(line);
    if m.None? || Names(Pieces(m.value.value)) == [] then None
    else Some(Report(m.value.key, m.value.value, Names(Pieces(m.value.value))))
  }

  function Reports(lines: seq<string>): seq<Report> {
    if lines == [] then []
    else
      var before, r := Reports(lines[..|lines| - 1]), ReportOf(lines[|lines| - 1]);
      if r.Some? then before + [r.value] else before
  }

  /** The names referred to from an index on. */
  function NamesFrom(s: string, from: nat): seq<string>
    requires from <= |s|
  {
    Names(Pieces(s[from..]))
  }

  lemma NamesAtPlain(s: string, from: nat)
    requires from < |s| && RefAt(s[from..]).None?
    ensures NamesFrom(s, from) == NamesFrom(s, from + 1)
  {
    assert s[from..][1..] == s[from + 1..];
    var rest := Pieces(s[from + 1..]);
    assert ([Lit(s[from])] + rest)[1..] == rest;
  }

  lemma NamesAtRef(s: string, from: nat)
    requires from < |s| && RefAt(s[from..]).Some?
    ensures var name := RefAt(s[from..]).value;
      from + |name| + 3 <= |s| && NamesFrom(s, from) == [name] + NamesFrom(s, from + |name| + 3)
  {
    var name := RefAt(s[from..]).value;
    assert s[from..][|name| + 3..] == s[from + |name| + 3..];
    var rest := Pieces(s[from + |name| + 3..]);
    assert ([Ref(name)] + rest)[1..] == rest;
  }

  datatype Match = NoMatch | Match(name: string, next: nat)

  /** One `exec` call: the leftmost reference at or after `from`. */
  method Exec(s: string, from: nat) returns (m: Match)
    requires from <= |s|
    ensures m.NoMatch? ==> NamesFrom(s, from) == []
    ensures m.Match? ==> from < m.next <= |s| && NamesFrom(s, from) == [m.name] + NamesFrom(s, m.next)
  {
    var i := from;
    while i < |s|
      invariant from <= i <= |s| && NamesFrom(s, i) == NamesFrom(s, from)
    {
      var r := RefAt(s[i..]);
      if r.Some? {
        NamesAtRef(s, i);
        return Match(r.value, i + |r.value| + 3);
      }
      NamesAtPlain(s, i);
      i := i + 1;
    }
    m := NoMatch;
  }

  /** The `exec` loop over one value. */
  method Placeholders(value: string) returns (names: seq<string>)
    ensures names == NamesFrom(value, 0)
  {
    names := [];
    var lastIndex := 0;
    while true
      invariant lastIndex <= |value|
      invariant names + NamesFrom(value, lastIndex) == NamesFrom(value, 0)
      decreases |value| - lastIndex
    {
      var m := Exec(value, lastIndex);
      if m.NoMatch? {
        break;
      }
      assert names + ([m.name] + NamesFrom(value, m.next)) == names + [m.name] + NamesFrom(value, m.next);
      names := names + [m.name];
      lastIndex := m.next;
    }
  }

  lemma NamesFromStart(s: string)
    ensures NamesFrom(s, 0) == Names(Pieces(s))
  {
    assert s[0..] == s;
  }

  method FindUnresolvedPlaceholders(content: string) returns (unresolved: seq<Report>)
    ensures unresolved == Reports(SplitLines(content))
  {
    unresolved := [];
    var lines := SplitLines(content);
    for i := 0 to |lines|
      invariant unresolved == Reports(lines[..i])
    {
      assert lines[..i + 1][..i] == lines[..i];
      var m := MatchAssign(lines[i]);
      if m.None? {
        continue;
      }
      var placeholders := Placeholders(m.value.value);
      NamesFromStart(m.value.value);
      if |placeholders| > 0 {
        unresolved := unresolved + [Report(m.value.key, m.value.value, placeholders)];
      }
    }
    assert lines[..|lines|] == lines;
  }
}
