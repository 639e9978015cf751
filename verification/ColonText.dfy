/** Splitting colon-joined keys: a colon-free part is found again. */
module ColonText {

  predicate NoColon(s: string) {
    forall i :: 0 <= i < |s| ==> s[i] != ':'
  }

  function HeadLength(s: string): nat {
    if s == "" || s[0] == ':' then 0 else 1 + HeadLength(s[1..])
  }

  function TailLength(s: string): nat {
    if s == "" || s[|s| - 1] == ':' then 0 else 1 + TailLength(s[..|s| - 1])
  }

  lemma {:induction false} HeadEndsAtColon(a: string, x: string)
    requires NoColon(a)
    ensures HeadLength(a + ":" + x) == |a|
  {
    if a == "" {
    } else {
      HeadEndsAtColon(a[1..], x);
      assert (a + ":" + x)[1..] == a[1..] + ":" + x;
    }
  }

  lemma {:induction false} TailStartsAtColon(a: string, x: string)
    requires NoColon(x)
    ensures TailLength(a + ":" + x) == |x|
  {
    if x == "" {
      assert a + ":" + x == a + ":";
    } else {
      TailStartsAtColon(a, x[..|x| - 1]);
      assert (a + ":" + x)[..|a + ":" + x| - 1] == a + ":" + x[..|x| - 1];
    }
  }

  lemma SameSplit(a: string, x: string, b: string, y: string)
    requires a + ":" + x == b + ":" + y && |a| == |b|
    ensures a == b && x == y
  {
    var whole := a + ":" + x;
    assert whole == b + ":" + y;
    assert whole[..|a|] == a && whole[..|b|] == b;
    assert whole[|a| + 1..] == x && whole[|b| + 1..] == y;
  }

  /** Colon-free heads of equal strings are equal. */
  lemma SplitAtColon(a: string, x: string, b: string, y: string)
    requires NoColon(a) && NoColon(b) && a + ":" + x == b + ":" + y
    ensures a == b && x == y
  {
    HeadEndsAtColon(a, x);
    HeadEndsAtColon(b, y);
    SameSplit(a, x, b, y);
  }

  /** Colon-free tails of equal strings are equal. */
  lemma SplitAtLastColon(a: string, x: string, b: string, y: string)
    requires NoColon(x) && NoColon(y) && a + ":" + x == b + ":" + y
    ensures a == b && x == y
  {
    TailStartsAtColon(a, x);
    TailStartsAtColon(b, y);
    assert |a + ":" + x| == |b + ":" + y|;
    SameSplit(a, x, b, y);
  }
}
