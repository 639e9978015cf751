/** scripts/lib/placeholders.js: which env values count as not filled in. */
module Placeholders {
  import opened Wrappers
  import opened Text
  import opened Sequences
  import opened DollarEscaping
  import Decimals

  // ---- Patterns ----------------------------------------------------------------------------

  function Lower(c: char): char {
    if 'A' <= c <= 'Z' then (c as int + 32) as char else c
  }

  /** `p`, in lower case, stands at `i`, letter case aside. */
  predicate MatchAt(s: string, i: nat, p: string) {
    i + |p| <= |s| && forall k :: 0 <= k < |p| ==> Lower(s[i + k]) == p[k]
  }

  predicate Has(s: string, p: string) {
    exists i :: 0 <= i <= |s| && MatchAt(s, i, p)
  }

  predicate EndsWith(s: string, p: string) {
    |p| <= |s| && MatchAt(s, |s| - |p|, p)
  }

  predicate Whole(s: string, p: string) {
    |s| == |p| && MatchAt(s, 0, p)
  }

  predicate StartPattern(v: string) {
    MatchAt(v, 0, "changeme") || MatchAt(v, 0, "change_me") || MatchAt(v, 0, "change-me") || MatchAt(v, 0, "your")
  }

  predicate InnerPattern(v: string) {
    Has(v, "placeholder") || Has(v, "bcrypt_hash_here") || Has(v, "generated_password_here")
  }

  predicate PatternMatches(v: string) {
    StartPattern(v) || EndsWith(v, "_here") || InnerPattern(v) || Whole(v, "example")
  }

  predicate UpperNameChar(c: char) {
    'A' <= c <= 'Z' || '0' <= c <= '9' || c == '_'
  }

  /** `/^\$\{TP_[A-Z0-9_]+\}$/`. */
  predicate TemplateDefault(v: string) {
    && |v| >= 7 && v[..5] == "${TP_" && v[|v| - 1] == '}'
    && forall i :: 5 <= i < |v| - 1 ==> UpperNameChar(v[i])
  }

  // ---- Allowlists ------------------------------------------------------------------------------

  predicate DigitsUpTo(s: string, width: nat) {
    1 <= |s| <= width && Decimals.AllDigits(s)
  }

  predicate Octet(s: string) {
    DigitsUpTo(s, 3) && Decimals.ValueOf(s) <= 255
  }

  /** How many digits a text starts with. */
  function DigitRun(s: string): (n: nat)
    ensures n <= |s|
  {
    if s == "" || !Decimals.IsDigit(s[0]) then 0 else 1 + DigitRun(s[1..])
  }

  /** `n` octets up to 255 followed by '.', one by '/', and a mask up to 32, each in few
      digits. */
  predicate Octets(p: string, n: nat) {
    var i := DigitRun(p);
    && i < |p| && Octet(p[..i])
    && if n > 0 then p[i] == '.' && Octets(p[i + 1..], n - 1)
       else p[i] == '/' && DigitsUpTo(p[i + 1..], 2) && Decimals.ValueOf(p[i + 1..]) <= 32
  }

  predicate Cidr(p: string) {
    Octets(p, 3)
  }

  /** v[i..j] is what stands between two commas, or one and an end. */
  predicate Slice(v: string, i: nat, j: nat) {
    && i <= j <= |v| && (forall k :: i <= k < j ==> v[k] != ',')
    && (i == 0 || v[i - 1] == ',') && (j == |v| || v[j] == ',')
  }

  /** One of the items between commas, and not blank. */
  predicate Item(v: string, i: nat, j: nat) {
    Slice(v, i, j) && Trim(v[i..j], JsSpace) != ""
  }

  predicate CidrList(v: string) {
    && (exists i, j :: 0 <= i <= j <= |v| && Item(v, i, j))
    && (forall i, j :: 0 <= i <= j <= |v| && Item(v, i, j) ==> Cidr(Trim(v[i..j], JsSpace)))
  }

  const OWN_ADDRESS := "${TP_USER_IP_ADDRESS}/"

  predicate OwnAddressRange(v: string) {
    && |OWN_ADDRESS| < |v| <= |OWN_ADDRESS| + 2 && v[..|OWN_ADDRESS|] == OWN_ADDRESS
    && Decimals.AllDigits(v[|OWN_ADDRESS|..])
  }

  predicate AllowlistPlaceholder(value: string) {
    var v := Trim(value, JsSpace);
    || v == ""
    || Has(v, "your_ip_address_here")
    || (!OwnAddressRange(v) && v != "0.0.0.0/0" && !CidrList(v))
  }

  predicate AllowlistKey(key: string) {
    EndsWith(key, "allowlist")
  }

  predicate ExactName(v: string) {
    v == "your" || v == "your_username_here" || v == "your_email_here"
  }

  predicate OrdinaryPlaceholder(v: string) {
    PatternMatches(v) || TemplateDefault(v) || ExactName(v)
  }

  predicate Placeholder(value: Option<string>, key: string) {
    || value.None?
    || var v := Trim(value.value, JsSpace);
       if v == "" then true
       else if AllowlistKey(key) then AllowlistPlaceholder(v)
       else OrdinaryPlaceholder(v)
  }

  // ---- Escaping makes no placeholders --------------------------------------------------------

  predicate DollarFree(p: string) {
    forall k :: 0 <= k < |p| ==> p[k] != '$'
  }

  lemma MatchShift(a: string, b: string, i: nat, p: string)
    ensures MatchAt(a + b, |a| + i, p) <==> MatchAt(b, i, p)
  {
    if MatchAt(a + b, |a| + i, p) {
      forall k | 0 <= k < |p| ensures Lower(b[i + k]) == p[k] {
        assert (a + b)[|a| + i + k] == b[i + k];
      }
    }
    if MatchAt(b, i, p) {
      forall k | 0 <= k < |p| ensures Lower((a + b)[|a| + i + k]) == p[k] {
        assert (a + b)[|a| + i + k] == b[i + k];
      }
    }
  }

  lemma MatchHead(c: char, rest: string, p: string)
    requires p != ""
    ensures MatchAt([c] + rest, 0, p) <==> Lower(c) == p[0] && MatchAt(rest, 0, p[1..])
  {
    var s := [c] + rest;
    if Lower(c) == p[0] && MatchAt(rest, 0, p[1..]) {
      forall k | 0 <= k < |p| ensures Lower(s[k]) == p[k] {
        if k > 0 {
          assert s[k] == rest[k - 1] && p[k] == p[1..][k - 1];
        }
      }
    }
    if MatchAt(s, 0, p) {
      forall k | 0 <= k < |p| - 1 ensures Lower(rest[k]) == p[1..][k] {
        assert s[k + 1] == rest[k];
      }
    }
  }

  /** `j` in the text is as near to either end as `i` in the escaped text. */
  predicate SameEnds(s: string, p: string, i: nat, j: nat) {
    (i == 0 ==> j == 0) && (i + |p| == |Escape(s)| ==> j + |p| == |s|)
  }

  /** A '$'-free pattern in an escaped text is in the text already, and at the start or
      the end of the one if it is at the start or the end of the other. */
  lemma {:induction false} OccursBefore(s: string, p: string, i: nat) returns (j: nat)
    requires DollarFree(p) && MatchAt(Escape(s), i, p)
    ensures MatchAt(s, j, p) && SameEnds(s, p, i, j)
    decreases |s|, 1
  {
    if p == "" {
      j := if i == 0 then 0 else |s|;
    } else if s[0] == '$' {
      j := OccursAfterDollar(s, p, i);
    } else {
      j := OccursFromPlain(s, p, i);
    }
  }

  lemma {:induction false} OccursAfterDollar(s: string, p: string, i: nat) returns (j: nat)
    requires DollarFree(p) && p != "" && MatchAt(Escape(s), i, p) && s != "" && s[0] == '$'
    ensures MatchAt(s, j, p) && SameEnds(s, p, i, j)
    decreases |s|, 0
  {
    var step := if |s| > 1 && s[1] == '$' then 2 else 1;
    var rest := s[step..];
    assert Escape(s) == "$$" + Escape(rest);
    MatchInsideTail(Escape(rest), p, i);
    var r := OccursBefore(rest, p, i - 2);
    assert s == s[..step] + rest;
    MatchShift(s[..step], rest, r, p);
    j := r + step;
  }

  lemma {:induction false} OccursFromPlain(s: string, p: string, i: nat) returns (j: nat)
    requires DollarFree(p) && p != "" && MatchAt(Escape(s), i, p) && s != "" && s[0] != '$'
    ensures MatchAt(s, j, p) && SameEnds(s, p, i, j)
    decreases |s|, 0
  {
    var rest := s[1..];
    assert s == [s[0]] + rest;
    if i > 0 {
      MatchShift([s[0]], Escape(rest), i - 1, p);
      var r := OccursBefore(rest, p, i - 1);
      MatchShift([s[0]], rest, r, p);
      j := r + 1;
    } else {
      MatchHead(s[0], Escape(rest), p);
      j := OccursBefore(rest, p[1..], 0);
      MatchHead(s[0], rest, p);
    }
  }

  lemma MatchInsideTail(tail: string, p: string, i: nat)
    requires DollarFree(p) && p != "" && MatchAt("$$" + tail, i, p)
    ensures i >= 2 && MatchAt(tail, i - 2, p)
  {
    assert Lower(("$$" + tail)[i]) == p[0];
    MatchShift("$$", tail, i - 2, p);
  }

  lemma HasBefore(s: string, p: string)
    requires DollarFree(p) && Has(Escape(s), p)
    ensures Has(s, p)
  {
    var i :| 0 <= i <= |Escape(s)| && MatchAt(Escape(s), i, p);
    var j := OccursBefore(s, p, i);
  }

  lemma StartsBefore(s: string, p: string)
    requires DollarFree(p) && MatchAt(Escape(s), 0, p)
    ensures MatchAt(s, 0, p)
  {
    var j := OccursBefore(s, p, 0);
  }

  lemma EndsBefore(s: string, p: string)
    requires DollarFree(p) && EndsWith(Escape(s), p)
    ensures EndsWith(s, p)
  {
    var j := OccursBefore(s, p, |Escape(s)| - |p|);
  }

  lemma WholeBefore(s: string, p: string)
    requires DollarFree(p) && Whole(Escape(s), p)
    ensures Whole(s, p)
  {
    var j := OccursBefore(s, p, 0);
  }

  lemma StartPatternBefore(v: string)
    requires StartPattern(Escape(v))
    ensures StartPattern(v)
  {
    var e := Escape(v);
    if MatchAt(e, 0, "changeme") {
      StartsBefore(v, "changeme");
    } else if MatchAt(e, 0, "change_me") {
      StartsBefore(v, "change_me");
    } else if MatchAt(e, 0, "change-me") {
      StartsBefore(v, "change-me");
    } else {
      StartsBefore(v, "your");
    }
  }

  lemma InnerPatternBefore(v: string)
    requires InnerPattern(Escape(v))
    ensures InnerPattern(v)
  {
    if Has(Escape(v), "placeholder") {
      HasBefore(v, "placeholder");
    } else if Has(Escape(v), "bcrypt_hash_here") {
      HasBefore(v, "bcrypt_hash_here");
    } else {
      HasBefore(v, "generated_password_here");
    }
  }

  lemma PatternsBefore(v: string)
    requires PatternMatches(Escape(v))
    ensures PatternMatches(v)
  {
    if StartPattern(Escape(v)) {
      StartPatternBefore(v);
    } else if InnerPattern(Escape(v)) {
      InnerPatternBefore(v);
    } else if EndsWith(Escape(v), "_here") {
      EndsBefore(v, "_here");
    } else {
      WholeBefore(v, "example");
    }
  }

  lemma {:induction false} EscapeSnoc(s: string, c: char)
    requires c != '$'
    ensures Escape(s + [c]) == Escape(s) + [c]
    decreases |s|
  {
    if s == "" {
      assert s + [c] == [c] && [c][1..] == "";
    } else {
      var step := if |s| > 1 && s[0] == '$' && s[1] == '$' then 2 else 1;
      var head := if s[0] == '$' then "$$" else [s[0]];
      EscapeSnoc(s[step..], c);
      assert (s + [c])[step..] == s[step..] + [c];
      assert Escape(s + [c]) == head + Escape(s[step..] + [c]);
      Associative(head, Escape(s[step..]), [c]);
    }
  }

  lemma {:induction false} EscapeEnds(s: string)
    requires s != ""
    ensures Escape(s) != "" && Escape(s)[0] == s[0] && Escape(s)[|Escape(s)| - 1] == s[|s| - 1]
    decreases |s|
  {
    var step := if |s| > 1 && s[0] == '$' && s[1] == '$' then 2 else 1;
    var head := if s[0] == '$' then "$$" else [s[0]];
    assert Escape(s) == head + Escape(s[step..]);
    if step < |s| {
      EscapeEnds(s[step..]);
    }
  }

  lemma {:induction false} TrimStartEscaped(s: string)
    ensures TrimStart(Escape(s), JsSpace) == Escape(TrimStart(s, JsSpace))
  {
    if s == "" {
    } else {
      EscapeEnds(s);
      if JsSpace(s[0]) {
        TrimStartEscaped(s[1..]);
        assert Escape(s)[1..] == Escape(s[1..]);
      }
    }
  }

  lemma TrimEndSnoc(s: string, c: char)
    requires JsSpace(c)
    ensures TrimEnd(s + [c], JsSpace) == TrimEnd(s, JsSpace)
  {
    assert (s + [c])[..|s|] == s;
  }

  lemma {:induction false} TrimEndEscaped(s: string)
    ensures TrimEnd(Escape(s), JsSpace) == Escape(TrimEnd(s, JsSpace))
  {
    if s == "" {
    } else {
      EscapeEnds(s);
      var before, c := s[..|s| - 1], s[|s| - 1];
      if JsSpace(c) {
        assert Escape(s) == Escape(before) + [c] by {
          assert s == before + [c];
          EscapeSnoc(before, c);
        }
        TrimEndSnoc(Escape(before), c);
        TrimEndSnoc(before, c);
        TrimEndEscaped(before);
      }
    }
  }

  lemma TrimEscaped(s: string)
    ensures Trim(Escape(s), JsSpace) == Escape(Trim(s, JsSpace))
  {
    TrimStartEscaped(s);
    TrimEndEscaped(TrimStart(s, JsSpace));
  }

  lemma ExactNamesMatch(v: string)
    requires ExactName(v)
    ensures PatternMatches(v)
  {
    assert MatchAt(v, 0, "your");
    assert StartPattern(v);
  }

  lemma EscapedIsNoTemplate(v: string)
    ensures !TemplateDefault(Escape(v))
  {
    if v != "" {
      EscapeStart(v);
      assert "${TP_"[0] == '$' && "${TP_"[1] == '{';
    }
  }

  lemma EscapeStart(v: string)
    requires v != ""
    ensures Escape(v) != "" && (Escape(v)[0] == '$' ==> |Escape(v)| > 1 && Escape(v)[1] == '$')
  {
  }

  lemma OrdinaryBefore(v: string)
    requires OrdinaryPlaceholder(Escape(v))
    ensures OrdinaryPlaceholder(v)
  {
    EscapedIsNoTemplate(v);
    if ExactName(Escape(v)) {
      ExactNamesMatch(Escape(v));
    }
    PatternsBefore(v);
  }

  /** Escaping a filled-in value never turns it into a placeholder. */
  lemma EscapeStaysFilled(value: string, key: string)
    requires !AllowlistKey(key) && !Placeholder(Some(value), key)
    ensures !Placeholder(Some(Escape(value)), key)
  {
    var v := Trim(value, JsSpace);
    TrimEscaped(value);
    EscapeEnds(v);
    if OrdinaryPlaceholder(Escape(v)) {
      OrdinaryBefore(v);
    }
  }

  // ---- The patterns, spelled out ---------------------------------------------------------------------

  function LowerText(s: string): (t: string)
    ensures |t| == |s| && forall i :: 0 <= i < |s| ==> t[i] == Lower(s[i])
  {
    seq(|s|, i requires 0 <= i < |s| => Lower(s[i]))
  }

  lemma MatchIsLower(s: string, i: nat, p: string)
    ensures MatchAt(s, i, p) <==> StandsAt(LowerText(s), p, i)
  {
    var t := LowerText(s);
    if MatchAt(s, i, p) {
      assert t[i..i + |p|] == p;
    }
    if StandsAt(t, p, i) {
      forall k | 0 <= k < |p| ensures Lower(s[i + k]) == p[k] {
        assert t[i..i + |p|][k] == t[i + k];
      }
    }
  }

  lemma HasIsLower(s: string, p: string)
    ensures Has(s, p) <==> Holds(LowerText(s), p)
  {
    if Has(s, p) {
      var i :| 0 <= i <= |s| && MatchAt(s, i, p);
      MatchIsLower(s, i, p);
    }
    if Holds(LowerText(s), p) {
      var i: nat :| StandsAt(LowerText(s), p, i);
      MatchIsLower(s, i, p);
    }
  }

  predicate EndsIn(t: string, p: string) {
    |p| <= |t| && t[|t| - |p|..] == p
  }

  /** In small letters the text starts, ends or contains what the template's values do, or
      is "example". */
  ghost predicate LooksUnfilled(low: string) {
    || "changeme" <= low || "change_me" <= low || "change-me" <= low || "your" <= low
    || EndsIn(low, "_here")
    || Holds(low, "placeholder") || Holds(low, "bcrypt_hash_here") || Holds(low, "generated_password_here")
    || low == "example"
  }

  lemma StartsAt(low: string, p: string)
    ensures StandsAt(low, p, 0) <==> p <= low
  {
  }

  lemma EndsAt(s: string, p: string)
    ensures EndsWith(s, p) <==> EndsIn(LowerText(s), p)
  {
    if |p| <= |s| {
      MatchIsLower(s, |s| - |p|, p);
      TailStands(LowerText(s), p);
    }
  }

  lemma TailStands(t: string, p: string)
    requires |p| <= |t|
    ensures StandsAt(t, p, |t| - |p|) <==> EndsIn(t, p)
  {
    assert t[|t| - |p|..|t| - |p| + |p|] == t[|t| - |p|..];
  }

  lemma WholeIs(s: string, p: string)
    ensures Whole(s, p) <==> LowerText(s) == p
  {
    MatchIsLower(s, 0, p);
    if Whole(s, p) {
      assert LowerText(s)[0..|p|] == LowerText(s);
    }
    if LowerText(s) == p {
      assert p[0..|p|] == p;
    }
  }

  lemma PatternsAre(v: string)
    ensures PatternMatches(v) <==> LooksUnfilled(LowerText(v))
  {
    var low := LowerText(v);
    MatchIsLower(v, 0, "changeme");
    MatchIsLower(v, 0, "change_me");
    MatchIsLower(v, 0, "change-me");
    MatchIsLower(v, 0, "your");
    StartsAt(low, "changeme");
    StartsAt(low, "change_me");
    StartsAt(low, "change-me");
    StartsAt(low, "your");
    EndsAt(v, "_here");
    HasIsLower(v, "placeholder");
    HasIsLower(v, "bcrypt_hash_here");
    HasIsLower(v, "generated_password_here");
    WholeIs(v, "example");
  }

  const NAME_CHARS := "ABCDEFGHIJKLMNOPQRSTUVWXYZ0123456789_"

  /** A reference to a template default: "${TP_", capitals, digits or '_', and "}". */
  ghost predicate RefersToDefault(v: string) {
    exists name :: name != "" && v == "${TP_" + name + "}" && forall i :: 0 <= i < |name| ==> name[i] in NAME_CHARS
  }

  lemma NameCharsAre(c: char)
    ensures UpperNameChar(c) <==> c in NAME_CHARS
  {
  }

  lemma DefaultHasName(v: string) returns (name: string)
    requires TemplateDefault(v)
    ensures name != "" && v == "${TP_" + name + "}" && forall i :: 0 <= i < |name| ==> UpperNameChar(name[i])
  {
    name := v[5..|v| - 1];
    assert v == v[..5] + name + v[|v| - 1..];
  }

  lemma NameMakesDefault(v: string, name: string)
    requires name != "" && v == "${TP_" + name + "}" && forall i :: 0 <= i < |name| ==> UpperNameChar(name[i])
    ensures TemplateDefault(v)
  {
    assert v[..5] == "${TP_";
    forall i | 5 <= i < |v| - 1 ensures UpperNameChar(v[i]) {
      assert v[i] == name[i - 5];
    }
  }

  lemma DefaultsAre(v: string)
    ensures TemplateDefault(v) <==> RefersToDefault(v)
  {
    forall c ensures UpperNameChar(c) <==> c in NAME_CHARS {
      NameCharsAre(c);
    }
    if TemplateDefault(v) {
      var name := DefaultHasName(v);
    }
    if RefersToDefault(v) {
      var name :| name != "" && v == "${TP_" + name + "}" && forall i :: 0 <= i < |name| ==> name[i] in NAME_CHARS;
      NameMakesDefault(v, name);
    }
  }

  /** When an ordinary value counts as not filled in. */
  lemma UnfilledIff(value: string, key: string)
    requires !AllowlistKey(key)
    ensures var v := Trim(value, JsSpace);
      Placeholder(Some(value), key) <==> v == "" || LooksUnfilled(LowerText(v)) || RefersToDefault(v)
  {
    OrdinaryIff(Trim(value, JsSpace));
  }

  lemma OrdinaryIff(v: string)
    ensures OrdinaryPlaceholder(v) <==> LooksUnfilled(LowerText(v)) || RefersToDefault(v)
  {
    PatternsAre(v);
    DefaultsAre(v);
    if ExactName(v) {
      YourStarts(v);
    }
  }

  lemma YourStarts(v: string)
    requires ExactName(v)
    ensures "your" <= LowerText(v)
  {
    assert v[0] == 'y' && v[1] == 'o' && v[2] == 'u' && v[3] == 'r';
  }

  // ---- Address ranges ------------------------------------------------------------------------------------

  lemma {:induction false} DigitRunIs(u: string, c: char, v: string)
    requires Decimals.AllDigits(u) && !Decimals.IsDigit(c)
    ensures DigitRun(u + [c] + v) == |u|
  {
    if u == "" {
    } else {
      DigitRunIs(u[1..], c, v);
      assert (u + [c] + v)[1..] == u[1..] + [c] + v;
    }
  }

  lemma CutBack(x: string, c: char, y: string)
    ensures var s := x + [c] + y; s[|x|] == c && s[..|x|] == x && s[|x| + 1..] == y
  {
  }

  lemma MoreOctets(p: string, x: string, rest: string, n: nat)
    requires p == x + ['.'] + rest && Decimals.AllDigits(x) && n > 0
    ensures Octets(p, n) <==> Octet(x) && Octets(rest, n - 1)
  {
    CutBack(x, '.', rest);
    DigitRunIs(x, '.', rest);
  }

  lemma LastOctet(p: string, x: string, mask: string)
    requires p == x + ['/'] + mask && Decimals.AllDigits(x)
    ensures Octets(p, 0) <==> Octet(x) && DigitsUpTo(mask, 2) && Decimals.ValueOf(mask) <= 32
  {
    CutBack(x, '/', mask);
    DigitRunIs(x, '/', mask);
  }

  /** At least one and at most `width` digits, and at most `most`. */
  predicate UpTo(x: string, width: nat, most: nat) {
    1 <= |x| <= width && Decimals.AllDigits(x) && Decimals.ValueOf(x) <= most
  }

  /** Of texts a.b.c.d/mask exactly those with octets of at most three digits and 255, and
      a mask of at most two digits and 32, are address ranges. */
  lemma CidrIff(a: string, b: string, c: string, d: string, mask: string)
    requires Decimals.AllDigits(a) && Decimals.AllDigits(b) && Decimals.AllDigits(c) && Decimals.AllDigits(d)
    ensures Cidr(a + ['.'] + (b + ['.'] + (c + ['.'] + (d + ['/'] + mask)))) <==>
      && UpTo(a, 3, 255) && UpTo(b, 3, 255) && UpTo(c, 3, 255) && UpTo(d, 3, 255) && UpTo(mask, 2, 32)
  {
    CidrOf(a, b, c, d, mask, d + ['/'] + mask, c + ['.'] + (d + ['/'] + mask), b + ['.'] + (c + ['.'] + (d + ['/'] + mask)));
  }

  lemma CidrOf(a: string, b: string, c: string, d: string, mask: string, p4: string, p3: string, p2: string)
    requires Decimals.AllDigits(a) && Decimals.AllDigits(b) && Decimals.AllDigits(c) && Decimals.AllDigits(d)
    requires p4 == d + ['/'] + mask && p3 == c + ['.'] + p4 && p2 == b + ['.'] + p3
    ensures Cidr(a + ['.'] + p2) <==>
      && UpTo(a, 3, 255) && UpTo(b, 3, 255) && UpTo(c, 3, 255) && UpTo(d, 3, 255) && UpTo(mask, 2, 32)
  {
    MoreOctets(a + ['.'] + p2, a, p2, 3);
    MoreOctets(p2, b, p3, 2);
    MoreOctets(p3, c, p4, 1);
    LastOctet(p4, d, mask);
  }
}
