/** White space and trimming as the two host languages define them. */
module Text {

  /** What JavaScript's `String.prototype.trim` removes. */
  predicate JsSpace(c: char) {
    || '\t' <= c <= '\r' || c == ' ' || c == '\U{00a0}' || c == '\U{1680}' || '\U{2000}' <= c <= '\U{200a}'
    || c == '\U{2028}' || c == '\U{2029}' || c == '\U{202f}' || c == '\U{205f}' || c == '\U{3000}' || c == '\U{feff}'
  }

  /** What Python's `str.strip` removes. */
  predicate PySpace(c: char) {
    || '\t' <= c <= '\r' || '\U{001c}' <= c <= ' ' || c == '\U{0085}' || c == '\U{00a0}' || c == '\U{1680}'
    || '\U{2000}' <= c <= '\U{200a}' || c == '\U{2028}' || c == '\U{2029}' || c == '\U{202f}' || c == '\U{205f}' || c == '\U{3000}'
  }

  const JS_SPACES := "\t\n\U{000b}\U{000c}\r \U{00a0}\U{1680}\U{2000}\U{2001}\U{2002}\U{2003}\U{2004}\U{2005}\U{2006}"
    + "\U{2007}\U{2008}\U{2009}\U{200a}\U{2028}\U{2029}\U{202f}\U{205f}\U{3000}\U{feff}"

  lemma JsSpacesAre(c: char)
    ensures c in JS_SPACES <==> JsSpace(c)
  {
  }

  /** The two differ on the byte order mark, which only JavaScript strips, and on five
      control characters, which only Python does. */
  lemma SpacesDiffer(c: char)
    ensures JsSpace(c) && !PySpace(c) <==> c == '\U{feff}'
    ensures PySpace(c) && !JsSpace(c) <==> c in ['\U{001c}', '\U{001d}', '\U{001e}', '\U{001f}', '\U{0085}']
  {
  }

  function TrimStart(s: string, space: char -> bool): (r: string)
    ensures |r| <= |s| && (r == "" || !space(r[0])) && r == s[|s| - |r|..]
    ensures s == "" || !space(s[0]) ==> r == s
  {
    if s == "" || !space(s[0]) then s else TrimStart(s[1..], space)
  }

  function TrimEnd(s: string, space: char -> bool): (r: string)
    ensures r <= s && (r == "" || !space(r[|r| - 1]))
    ensures s == "" || !space(s[|s| - 1]) ==> r == s
  {
    if s == "" || !space(s[|s| - 1]) then s else TrimEnd(s[..|s| - 1], space)
  }

  function Trim(s: string, space: char -> bool): (r: string)
    ensures r == "" || (!space(r[0]) && !space(r[|r| - 1]))
  {
    TrimEnd(TrimStart(s, space), space)
  }

  /** Substring search, as `includes` and Python's `in` do it. */
  predicate Contains(text: string, part: string) {
    part <= text || (text != [] && Contains(text[1..], part))
  }

  predicate StandsAt(text: string, part: string, i: nat) {
    i + |part| <= |text| && text[i..i + |part|] == part
  }

  ghost predicate Holds(text: string, part: string) {
    exists i: nat :: StandsAt(text, part, i)
  }

  lemma {:induction false} ContainsIff(text: string, part: string)
    ensures Contains(text, part) <==> Holds(text, part)
  {
    assert part <= text <==> StandsAt(text, part, 0);
    if text == "" {
    } else {
      ContainsIff(text[1..], part);
      forall i: nat ensures StandsAt(text, part, i + 1) <==> StandsAt(text[1..], part, i) {
        StandsLater(text, part, i);
      }
      if Holds(text, part) {
        var i: nat :| StandsAt(text, part, i);
        assert i > 0 ==> StandsAt(text[1..], part, i - 1);
      }
    }
  }

  lemma StandsLater(text: string, part: string, i: nat)
    requires text != ""
    ensures StandsAt(text, part, i + 1) <==> StandsAt(text[1..], part, i)
  {
    if i + |part| <= |text[1..]| {
      assert text[1..][i..i + |part|] == text[i + 1..i + 1 + |part|];
    }
  }
}
