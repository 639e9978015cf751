/** Env files as text: line splitting, the assignment pattern and `parseEnv` of
    scripts/lib/envFile.js. */
module EnvText {
  import opened Wrappers
  import opened Text
  import opened KeyedLines
  import opened Sequences

  // ---- Lines --------------------------------------------------------------------------

  /** The characters `.` does not match in a JavaScript regular expression. */
  predicate LineTerminator(c: char) {
    c == '\n' || c == '\r' || c == '\U{2028}' || c == '\U{2029}'
  }

  predicate SingleLine(s: string) {
    forall i :: 0 <= i < |s| ==> !LineTerminator(s[i])
  }

  predicate SingleLines(lines: seq<string>) {
    forall i :: 0 <= i < |lines| ==> SingleLine(lines[i])
  }

  function DropCr(line: string): string {
    if line != "" && line[|line| - 1] == '\r' then line[..|line| - 1] else line
  }

  function NewlineAt(s: string): (i: nat)
    ensures i <= |s| && (i < |s| ==> s[i] == '\n') && forall k :: 0 <= k < i ==> s[k] != '\n'
  {
    if s == "" || s[0] == '\n' then 0 else 1 + NewlineAt(s[1..])
  }

  /** `content.split(/\r?\n/)`. */
  function SplitLines(s: string): (lines: seq<string>)
    ensures lines != []
    decreases |s|
  {
    var i := NewlineAt(s);
    if i == |s| then [s] else [DropCr(s[..i])] + SplitLines(s[i + 1..])
  }

  /** `lines.join('\n')`. */
  function JoinLines(lines: seq<string>): string {
    if lines == [] then "" else if |lines| == 1 then lines[0] else lines[0] + "\n" + JoinLines(lines[1..])
  }

  lemma {:induction false} NewlineAtFirst(a: string, b: string)
    requires SingleLine(a)
    ensures NewlineAt(a) == |a| && NewlineAt(a + "\n" + b) == |a|
  {
    if a == "" {
    } else {
      NewlineAtFirst(a[1..], b);
      assert (a + "\n" + b)[1..] == a[1..] + "\n" + b;
    }
  }

  lemma {:induction false} SplitJoin(lines: seq<string>)
    requires lines != [] && SingleLines(lines)
    ensures SplitLines(JoinLines(lines)) == lines
  {
    NewlineAtFirst(lines[0], JoinLines(lines[1..]));
    if |lines| <= 1 {
    } else {
      SplitJoin(lines[1..]);
      var text := JoinLines(lines);
      assert text[..|lines[0]|] == lines[0] && text[|lines[0]| + 1..] == JoinLines(lines[1..]);
    }
  }

  // ---- Assignments ---------------------------------------------------------------------

  predicate NameStart(c: char) {
    'A' <= c <= 'Z' || 'a' <= c <= 'z' || c == '_'
  }

  predicate NameChar(c: char) {
    NameStart(c) || '0' <= c <= '9'
  }

  predicate ValidName(s: string) {
    s != "" && NameStart(s[0]) && forall i :: 0 <= i < |s| ==> NameChar(s[i])
  }

  /** Length of the longest prefix of name characters. */
  function NameLength(s: string): (n: nat)
    ensures n <= |s| && (n < |s| ==> !NameChar(s[n])) && forall i :: 0 <= i < n ==> NameChar(s[i])
  {
    if s == "" || !NameChar(s[0]) then 0 else 1 + NameLength(s[1..])
  }

  /** `/^([A-Za-z_][A-Za-z0-9_]*)=/`, with everything after the sign. */
  function MatchKey(line: string): (r: Option<Assignment>)
    ensures r.Some? ==> ValidName(r.value.key) && line == Render(r.value.key, r.value.value)
  {
    var n := NameLength(line);
    if n > 0 && NameStart(line[0]) && n < |line| && line[n] == '=' then Some(Assignment(line[..n], line[n + 1..])) else None
  }

  /** The full pattern `/^([A-Za-z_][A-Za-z0-9_]*)=(.*)$/`. */
  function MatchAssign(line: string): (r: Option<Assignment>)
    ensures r.Some? ==> ValidName(r.value.key) && SingleLine(r.value.value) && line == Render(r.value.key, r.value.value)
  {
    var m := MatchKey(line);
    if m.Some? && SingleLine(m.value.value) then m else None
  }

  function Render(key: string, value: string): string {
    key + "=" + value
  }

  lemma {:induction false} NameLengthOf(name: string, rest: string)
    requires (forall i :: 0 <= i < |name| ==> NameChar(name[i])) && (rest == "" || !NameChar(rest[0]))
    ensures NameLength(name + rest) == |name|
  {
    if name != "" {
      NameLengthOf(name[1..], rest);
      assert (name + rest)[1..] == name[1..] + rest;
    } else {
      assert name + rest == rest;
    }
  }

  /** The pattern reads back what `Render` writes. */
  lemma MatchRendered(key: string, value: string)
    requires ValidName(key)
    ensures MatchKey(Render(key, value)) == Some(Assignment(key, value))
    ensures SingleLine(value) ==> MatchAssign(Render(key, value)) == Some(Assignment(key, value))
  {
    NameLengthOf(key, "=" + value);
    assert Render(key, value) == key + ("=" + value);
    assert Render(key, value)[..|key|] == key && Render(key, value)[|key| + 1..] == value;
  }

  lemma RenderedSingleLine(key: string, value: string)
    requires ValidName(key) && SingleLine(value)
    ensures SingleLine(Render(key, value))
  {
    forall i | 0 <= i < |key| ensures !LineTerminator(key[i]) {
      assert NameChar(key[i]);
    }
  }

  // ---- parseEnv ----------------------------------------------------------------------------

  /** What one line defines: blank lines and comments nothing. */
  function ParseLine(line: string): (r: Option<Assignment>)
    ensures r.Some? ==> ValidName(r.value.key) && SingleLine(r.value.value)
  {
    var trimmed := Trim(line, JsSpace);
    if trimmed == "" || trimmed[0] == '#' then None else MatchAssign(trimmed)
  }

  /** Last definition wins. */
  function Parse(content: string): map<string, string> {
    LastWins(SplitLines(content), ParseLine)
  }

  method ReadLine(line: string) returns (r: Option<Assignment>)
    ensures r == ParseLine(line)
  {
    var trimmed := Trim(line, JsSpace);
    if trimmed == "" || trimmed[0] == '#' {
      return None;
    }
    r := MatchAssign(trimmed);
  }

  method ParseEnv(content: string) returns (env: map<string, string>)
    ensures env == Parse(content)
  {
    env := ReadLines(SplitLines(content));
  }

  method ReadLines(lines: seq<string>) returns (env: map<string, string>)
    ensures env == LastWins(lines, ParseLine)
  {
    env := map[];
    for i := 0 to |lines|
      invariant env == LastWins(lines[..i], ParseLine)
    {
      assert lines[..i + 1][..i] == lines[..i];
      var r := ReadLine(lines[i]);
      if r.Some? {
        env := env[r.value.key := r.value.value];
      }
    }
    assert lines[..|lines|] == lines;
  }

  // ---- Trimming around assignments ----------------------------------------------------------

  lemma {:induction false} TrimEndAfter(head: string, tail: string)
    requires head != "" && !JsSpace(head[|head| - 1])
    ensures TrimEnd(head + tail, JsSpace) == head + TrimEnd(tail, JsSpace)
  {
    if tail == "" {
      assert head + tail == head;
    } else if JsSpace(tail[|tail| - 1]) {
      TrimEndAfter(head, tail[..|tail| - 1]);
      assert (head + tail)[..|head + tail| - 1] == head + tail[..|tail| - 1];
    }
  }

  lemma TrimRendered(key: string, value: string)
    requires ValidName(key)
    ensures Trim(Render(key, value), JsSpace) == Render(key, TrimEnd(value, JsSpace))
  {
    var line := Render(key, value);
    assert NameChar(line[0]);
    TrimEndAfter(key + "=", value);
    assert TrimStart(line, JsSpace) == line;
  }

  /** A written assignment parses to its value without trailing space. */
  lemma ParseRendered(key: string, value: string)
    requires ValidName(key) && SingleLine(value)
    ensures ParseLine(Render(key, value)) == Some(Assignment(key, TrimEnd(value, JsSpace)))
  {
    var trimmed := TrimEnd(value, JsSpace);
    TrimRendered(key, value);
    MatchRendered(key, trimmed);
    assert NameChar(Render(key, trimmed)[0]);
  }

  /** Indented lines are not assignments once trimmed. */
  predicate FlushLeft(line: string) {
    line == "" || !JsSpace(line[0]) || ParseLine(line).None?
  }

  lemma RenderThen(key: string, value: string, tail: string)
    ensures Render(key, value) + tail == Render(key, value + tail)
  {
  }

  lemma SingleLineTail(key: string, value: string)
    requires SingleLine(Render(key, value))
    ensures SingleLine(value)
  {
    forall i | 0 <= i < |value| ensures !LineTerminator(value[i]) {
      assert Render(key, value)[|key| + 1 + i] == value[i];
    }
  }

  /** A parsed line that starts in column one matches untrimmed as well. */
  lemma ParsedMatches(line: string)
    requires SingleLine(line) && line != "" && !JsSpace(line[0]) && ParseLine(line).Some?
    ensures MatchAssign(line).Some?
  {
    var p := ParseLine(line).value;
    var trimmed := TrimEnd(line, JsSpace);
    var tail := line[|trimmed|..];
    assert trimmed == Render(p.key, p.value) && line == trimmed + tail;
    RenderThen(p.key, p.value, tail);
    SingleLineTail(p.key, p.value + tail);
    MatchRendered(p.key, p.value + tail);
  }

  /** On flush-left single lines the untrimmed pattern and the parser agree on
      which lines define which key. */
  lemma FlushLeftAgrees(line: string)
    requires SingleLine(line) && FlushLeft(line)
    ensures ParseLine(line).Some? <==> MatchAssign(line).Some?
    ensures MatchAssign(line).Some? ==>
      ParseLine(line) == Some(Assignment(MatchAssign(line).value.key, TrimEnd(MatchAssign(line).value.value, JsSpace)))
  {
    if MatchAssign(line).Some? {
      ParseRendered(MatchAssign(line).value.key, MatchAssign(line).value.value);
    } else if ParseLine(line).Some? {
      ParsedMatches(line);
    }
  }

  // ---- The syntax, spelled out -----------------------------------------------------------------------

  /** `lines.join('\r\n')`. */
  function JoinCrLf(lines: seq<string>): string {
    if lines == [] then "" else if |lines| == 1 then lines[0] else lines[0] + "\r\n" + JoinCrLf(lines[1..])
  }

  lemma NewlineAfterCr(a: string, b: string)
    requires SingleLine(a)
    ensures NewlineAt(a + "\r\n" + b) == |a| + 1
    decreases |a|
  {
    if a == "" {
      assert ("\r\n" + b)[1..] == "\n" + b;
      assert a + "\r\n" + b == "\r\n" + b;
    } else {
      NewlineAfterCr(a[1..], b);
      assert (a + "\r\n" + b)[1..] == a[1..] + "\r\n" + b;
    }
  }

  /** Files with CRLF line ends split into the same lines. */
  lemma {:induction false} SplitCrLf(lines: seq<string>)
    requires lines != [] && SingleLines(lines)
    ensures SplitLines(JoinCrLf(lines)) == lines
  {
    if |lines| <= 1 {
      NewlineAtFirst(lines[0], "");
    } else {
      var first, rest := lines[0], JoinCrLf(lines[1..]);
      SplitCrLf(lines[1..]);
      NewlineAfterCr(first, rest);
      var text := first + "\r\n" + rest;
      assert text[..|first| + 1] == first + "\r" && text[|first| + 2..] == rest;
      assert (first + "\r")[..|first|] == first;
    }
  }

  /** An assignment is a name, '=' and the rest of one line, and nothing else is. */
  lemma MatchIff(line: string, key: string, value: string)
    ensures MatchAssign(line) == Some(Assignment(key, value)) <==> ValidName(key) && SingleLine(value) && line == key + "=" + value
  {
    if ValidName(key) && SingleLine(value) && line == key + "=" + value {
      MatchRendered(key, value);
    }
  }

  const LETTERS: string := "ABCDEFGHIJKLM" + "NOPQRSTUVWXYZ" + "abcdefghijklm" + "nopqrstuvwxyz"

  /** A name: letters, digits and '_', no digit first. */
  lemma NamesAre(name: string)
    ensures ValidName(name) <==>
      && name != "" && name[0] !in "0123456789"
      && forall i :: 0 <= i < |name| ==> name[i] in LETTERS || name[i] in "0123456789" || name[i] == '_'
  {
    forall i | 0 <= i < |name|
      ensures NameStart(name[i]) <==> name[i] in LETTERS || name[i] == '_'
      ensures NameChar(name[i]) <==> name[i] in LETTERS || name[i] in "0123456789" || name[i] == '_'
    {
      LettersAre(name[i]);
    }
  }

  lemma InConcat(c: char, a: string, b: string)
    ensures c in a + b <==> c in a || c in b
  {
  }

  lemma CapitalsAre(c: char)
    ensures c in "ABCDEFGHIJKLM" <==> 'A' <= c <= 'M'
    ensures c in "NOPQRSTUVWXYZ" <==> 'N' <= c <= 'Z'
  {
    assert 'A' <= c <= 'M' ==> "ABCDEFGHIJKLM"[c as int - 'A' as int] == c;
    assert 'N' <= c <= 'Z' ==> "NOPQRSTUVWXYZ"[c as int - 'N' as int] == c;
  }

  lemma SmallLettersAre(c: char)
    ensures c in "abcdefghijklm" <==> 'a' <= c <= 'm'
    ensures c in "nopqrstuvwxyz" <==> 'n' <= c <= 'z'
  {
    assert 'a' <= c <= 'm' ==> "abcdefghijklm"[c as int - 'a' as int] == c;
    assert 'n' <= c <= 'z' ==> "nopqrstuvwxyz"[c as int - 'n' as int] == c;
  }

  lemma DigitsAre(c: char)
    ensures c in "0123456789" <==> '0' <= c <= '9'
  {
    assert '0' <= c <= '9' ==> "0123456789"[c as int - '0' as int] == c;
  }

  lemma LettersAre(c: char)
    ensures c in LETTERS <==> 'A' <= c <= 'Z' || 'a' <= c <= 'z'
    ensures c in "0123456789" <==> '0' <= c <= '9'
  {
    var p, q, r, s := "ABCDEFGHIJKLM", "NOPQRSTUVWXYZ", "abcdefghijklm", "nopqrstuvwxyz";
    InConcat(c, p + q + r, s);
    InConcat(c, p + q, r);
    InConcat(c, p, q);
    CapitalsAre(c);
    SmallLettersAre(c);
    DigitsAre(c);
  }

  lemma {:induction false} TrimStartAfter(indent: string, s: string)
    requires (forall i :: 0 <= i < |indent| ==> JsSpace(indent[i])) && s != "" && !JsSpace(s[0])
    ensures TrimStart(indent + s, JsSpace) == s
    decreases |indent|
  {
    if indent == "" {
      assert indent + s == s;
    } else {
      ConcatTail(indent, s);
      TrimStartAfter(indent[1..], s);
    }
  }

  lemma TrimIndented(indent: string, line: string)
    requires (forall i :: 0 <= i < |indent| ==> JsSpace(indent[i])) && line != "" && !JsSpace(line[0])
    ensures Trim(indent + line, JsSpace) == Trim(line, JsSpace)
  {
    TrimStartAfter(indent, line);
    assert TrimStart(line, JsSpace) == line;
  }

  lemma SameTrimmed(a: string, b: string)
    requires Trim(a, JsSpace) == Trim(b, JsSpace)
    ensures ParseLine(a) == ParseLine(b)
  {
  }

  /** The parser reads an indented assignment as the flush-left one. */
  lemma ParseIndented(indent: string, key: string, value: string)
    requires (forall i :: 0 <= i < |indent| ==> JsSpace(indent[i])) && ValidName(key) && SingleLine(value)
    ensures ParseLine(indent + Render(key, value)) == Some(Assignment(key, TrimEnd(value, JsSpace)))
  {
    assert NameChar(key[0]) && Render(key, value)[0] == key[0];
    TrimIndented(indent, Render(key, value));
    SameTrimmed(indent + Render(key, value), Render(key, value));
    ParseRendered(key, value);
  }
}
