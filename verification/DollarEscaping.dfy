/** `escapeDollarsPreserveDoubles` of scripts/complete-setup.js: every '$' run is
    brought to even length, and nothing else changes. */
module DollarEscaping {
  import opened Sequences

  function Escape(s: string): (out: string)
    ensures |out| >= |s|
  {
    if s == "" then ""
    else if s[0] != '$' then [s[0]] + Escape(s[1..])
    else if |s| > 1 && s[1] == '$' then "$$" + Escape(s[2..])
    else "$$" + Escape(s[1..])
  }

  method EscapeDollarsPreserveDoubles(s: string) returns (out: string)
    ensures out == Escape(s)
  {
    out := "";
    var i := 0;
    assert s[0..] == s;
    while i < |s|
      invariant i <= |s| && out + Escape(s[i..]) == Escape(s)
    {
      assert s[i..][1..] == s[i + 1..];
      if s[i] != '$' {
        Associative(out, [s[i]], Escape(s[i + 1..]));
        out := out + [s[i]];
        i := i + 1;
        continue;
      }
      if i + 1 < |s| && s[i + 1] == '$' {
        assert s[i..][2..] == s[i + 2..];
        Associative(out, "$$", Escape(s[i + 2..]));
        out := out + "$$";
        i := i + 2;
        continue;
      }
      Associative(out, "$$", Escape(s[i + 1..]));
      out := out + "$$";
      i := i + 1;
    }
  }

  // ---- Runs ------------------------------------------------------------------------------

  /** s[i..j] is a maximal run of '$'. */
  predicate MaximalRun(s: string, i: nat, j: nat) {
    && i < j <= |s|
    && (forall k :: i <= k < j ==> s[k] == '$')
    && (i == 0 || s[i - 1] != '$')
    && (j == |s| || s[j] != '$')
  }

  ghost predicate EvenRuns(s: string) {
    forall i: nat, j: nat :: MaximalRun(s, i, j) ==> (j - i) % 2 == 0
  }

  /** The same, read off from the front. */
  predicate Paired(s: string) {
    s == "" || (if s[0] != '$' then Paired(s[1..]) else |s| > 1 && s[1] == '$' && Paired(s[2..]))
  }

  lemma RunAfterPlain(s: string, i: nat, j: nat)
    requires s != "" && s[0] != '$'
    ensures MaximalRun(s[1..], i, j) <==> MaximalRun(s, i + 1, j + 1)
  {
    var t := s[1..];
    assert forall k :: 0 <= k < |t| ==> t[k] == s[k + 1];
    if MaximalRun(t, i, j) {
      assert forall k :: i + 1 <= k < j + 1 ==> s[k] == t[k - 1];
    }
    if MaximalRun(s, i + 1, j + 1) {
      assert forall k :: i <= k < j ==> t[k] == s[k + 1];
    }
  }

  lemma RunAfterPair(s: string, i: nat, j: nat)
    requires |s| > 1 && s[0] == '$' && s[1] == '$'
    ensures MaximalRun(s[2..], i, j) <==> if i == 0 then 0 < j && MaximalRun(s, 0, j + 2) else MaximalRun(s, i + 2, j + 2)
  {
    var t := s[2..];
    assert forall k :: 0 <= k < |t| ==> t[k] == s[k + 2];
    var start := if i == 0 then 0 else i + 2;
    if MaximalRun(t, i, j) {
      forall k | start <= k < j + 2 ensures s[k] == '$' {
        if k >= 2 {
          assert s[k] == t[k - 2];
        }
      }
    }
    if 0 < j && MaximalRun(s, start, j + 2) {
      assert forall k :: i <= k < j ==> t[k] == s[k + 2];
    }
  }

  lemma EvenAfterPlain(s: string)
    requires s != "" && s[0] != '$'
    ensures EvenRuns(s) <==> EvenRuns(s[1..])
  {
    if EvenRuns(s) {
      forall i: nat, j: nat | MaximalRun(s[1..], i, j) ensures (j - i) % 2 == 0 {
        RunAfterPlain(s, i, j);
      }
    }
    if EvenRuns(s[1..]) {
      forall i: nat, j: nat | MaximalRun(s, i, j) ensures (j - i) % 2 == 0 {
        RunAfterPlain(s, i - 1, j - 1);
      }
    }
  }

  lemma EvenAfterPair(s: string)
    requires |s| > 1 && s[0] == '$' && s[1] == '$'
    ensures EvenRuns(s) <==> EvenRuns(s[2..])
  {
    if EvenRuns(s) {
      forall i: nat, j: nat | MaximalRun(s[2..], i, j) ensures (j - i) % 2 == 0 {
        RunAfterPair(s, i, j);
      }
    }
    if EvenRuns(s[2..]) {
      forall i: nat, j: nat | MaximalRun(s, i, j) ensures (j - i) % 2 == 0 {
        if i > 1 {
          RunAfterPair(s, i - 2, j - 2);
        } else if j > 2 {
          RunAfterPair(s, 0, j - 2);
        }
      }
    }
  }

  lemma {:induction false} PairedIsEven(s: string)
    ensures Paired(s) <==> EvenRuns(s)
    decreases |s|
  {
    if s == "" {
    } else {
      if s[0] != '$' {
        PairedIsEven(s[1..]);
        EvenAfterPlain(s);
      } else if |s| > 1 && s[1] == '$' {
        PairedIsEven(s[2..]);
        EvenAfterPair(s);
      } else {
        assert MaximalRun(s, 0, 1);
      }
    }
  }

  // ---- Laws ----------------------------------------------------------------------------------

  lemma {:induction false} EscapePairs(s: string)
    ensures Paired(Escape(s)) && (Escape(s) == s <==> Paired(s))
    decreases |s|
  {
    if s == "" {
    } else {
      if s[0] != '$' {
        EscapePairs(s[1..]);
        assert Escape(s)[1..] == Escape(s[1..]);
      } else if |s| > 1 && s[1] == '$' {
        EscapePairs(s[2..]);
        assert Escape(s)[2..] == Escape(s[2..]);
        assert s == "$$" + s[2..];
      } else {
        EscapePairs(s[1..]);
        assert Escape(s)[2..] == Escape(s[1..]);
      }
    }
  }

  /** Escaping makes every maximal run even, keeps exactly the texts whose runs are
      even already, and so escaping twice is escaping once. */
  lemma EscapeEvensRuns(s: string)
    ensures EvenRuns(Escape(s))
    ensures Escape(s) == s <==> EvenRuns(s)
    ensures Escape(Escape(s)) == Escape(s)
  {
    EscapePairs(s);
    EscapePairs(Escape(s));
    PairedIsEven(s);
    PairedIsEven(Escape(s));
  }

  function Dollars(n: nat): (s: string)
    ensures |s| == n && forall i :: 0 <= i < n ==> s[i] == '$'
  {
    seq(n, i requires 0 <= i < n => '$')
  }

  lemma OneDollar()
    ensures Dollars(1) == "$" && Dollars(2) == "$$"
  {
  }

  lemma TwoDollars(n: nat)
    ensures Dollars(n + 2) == "$$" + Dollars(n)
  {
  }

  lemma EscapePair(rest: string)
    ensures Escape("$$" + rest) == "$$" + Escape(rest)
  {
    assert ("$$" + rest)[2..] == rest;
  }

  lemma EscapeSingle(rest: string)
    requires rest == "" || rest[0] != '$'
    ensures Escape("$" + rest) == "$$" + Escape(rest)
  {
    assert ("$" + rest)[1..] == rest;
  }

  /** Two more '$' in front of a run, for runs `d` that become `e`. */
  lemma EscapeRunStep(d: string, e: string, rest: string)
    requires Escape(d + rest) == e + Escape(rest)
    ensures Escape("$$" + d + rest) == "$$" + e + Escape(rest)
  {
    EscapePair(d + rest);
    Associative("$$", d, rest);
    Associative("$$", e, Escape(rest));
  }

  lemma {:induction false} EscapeRun(n: nat, rest: string)
    requires rest == "" || rest[0] != '$'
    ensures Escape(Dollars(n) + rest) == Dollars(n + n % 2) + Escape(rest)
    decreases n
  {
    if n == 0 {
      EscapeNoRun(rest);
    } else if n == 1 {
      EscapeSingle(rest);
      OneDollar();
    } else {
      EscapeRun(n - 2, rest);
      var evened := n - 2 + n % 2;
      TwoDollars(n - 2);
      TwoDollars(evened);
      assert (n - 2) % 2 == n % 2;
      EscapeRunStep(Dollars(n - 2), Dollars(evened), rest);
    }
  }

  lemma EscapeNoRun(rest: string)
    ensures Escape(Dollars(0) + rest) == Dollars(0) + Escape(rest)
  {
    assert Dollars(0) + rest == rest && Dollars(0) + Escape(rest) == Escape(rest);
  }

  /** Only the lengths of '$' runs change: a run between other text grows by its
      parity, and the text on both sides is escaped on its own. */
  lemma {:induction false} EscapeChangesOnlyRuns(before: string, n: nat, after: string)
    requires before == "" || before[|before| - 1] != '$'
    requires after == "" || after[0] != '$'
    ensures Escape(before + Dollars(n) + after) == Escape(before) + Dollars(n + n % 2) + Escape(after)
    decreases |before|
  {
    var run, evened := Dollars(n), Dollars(n + n % 2);
    Associative(before, run, after);
    Associative(Escape(before), evened, Escape(after));
    EscapeRun(n, after);
    if before == "" {
      assert before + (run + after) == run + after;
    } else {
      EscapeBoundary(before, run + after);
    }
  }

  /** Text that does not end in '$' is escaped on its own. */
  lemma {:induction false} EscapeBoundary(before: string, rest: string)
    requires before != "" && before[|before| - 1] != '$'
    ensures Escape(before + rest) == Escape(before) + Escape(rest)
    decreases |before|
  {
    var step := if before[0] == '$' && before[1] == '$' then 2 else 1;
    assert (before + rest)[step..] == before[step..] + rest;
    if step < |before| {
      EscapeBoundary(before[step..], rest);
    } else {
      assert before[step..] == "" && "" + rest == rest && Escape("") + Escape(rest) == Escape(rest);
    }
    Associative(if before[0] == '$' then "$$" else [before[0]], Escape(before[step..]), Escape(rest));
  }

  // ---- Undoing ---------------------------------------------------------------------------------

  /** Compose's reading of an escaped value: `$$` stands for '$'. */
  function Collapse(s: string): string {
    if |s| < 2 then s
    else if s[0] == '$' && s[1] == '$' then "$" + Collapse(s[2..])
    else [s[0]] + Collapse(s[1..])
  }

  predicate NoAdjacentDollars(s: string) {
    forall i :: 0 <= i < |s| - 1 ==> !(s[i] == '$' && s[i + 1] == '$')
  }

  lemma CollapseOne(c: char, rest: string)
    ensures c != '$' ==> Collapse([c] + rest) == [c] + Collapse(rest)
    ensures Collapse("$$" + rest) == "$" + Collapse(rest)
  {
    assert ([c] + rest)[1..] == rest && ("$$" + rest)[2..] == rest;
    if rest == "" {
      assert [c] + rest == [c];
    }
  }

  /** Collapsing undoes escaping exactly for texts without adjacent '$'. */
  lemma {:induction false} CollapseUndoesEscape(s: string)
    ensures Collapse(Escape(s)) == s <==> NoAdjacentDollars(s)
    ensures |Collapse(Escape(s))| <= |s|
    decreases |s|
  {
    if s == "" {
    } else {
      if s[0] != '$' {
        CollapseUndoesEscape(s[1..]);
        CollapseOne(s[0], Escape(s[1..]));
        NoAdjacentTail(s);
      } else if |s| > 1 && s[1] == '$' {
        CollapseUndoesEscape(s[2..]);
        CollapseOne('$', Escape(s[2..]));
      } else {
        CollapseUndoesEscape(s[1..]);
        CollapseOne('$', Escape(s[1..]));
        NoAdjacentTail(s);
      }
    }
  }

  lemma NoAdjacentTail(s: string)
    requires s != "" && (s[0] != '$' || |s| == 1 || s[1] != '$')
    ensures NoAdjacentDollars(s) <==> NoAdjacentDollars(s[1..])
  {
    if NoAdjacentDollars(s[1..]) {
      forall i | 0 <= i < |s| - 1 ensures !(s[i] == '$' && s[i + 1] == '$') {
        if i > 0 {
          assert s[1..][i - 1] == s[i] && s[1..][i] == s[i + 1];
        }
      }
    }
  }

  /** Even runs on both sides of another character. */
  lemma {:induction false} PairedAround(a: string, c: char, b: string)
    requires c != '$'
    ensures Paired(a + [c] + b) <==> Paired(a) && Paired(b)
    decreases |a|
  {
    var s := a + [c] + b;
    if a == "" {
      assert s[1..] == b;
    } else {
      var step := if a[0] == '$' && |a| > 1 && a[1] == '$' then 2 else 1;
      assert s[step..] == a[step..] + [c] + b;
      PairedAround(a[step..], c, b);
    }
  }
}
