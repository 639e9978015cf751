/** `applyToTemplate` and `removeDuplicateTemplateHeader` of scripts/lib/envFile.js:
    merging updates into a template env file. */
module TemplateMerge {
  import opened Wrappers
  import opened Text
  import opened EnvText
  import opened KeyedLines
  import opened Sequences

  // Long lines are given in parts, which proofs can look at one at a time.
  const BAR := "# ====" + "========================================"
  const TITLE := "# Template Defaults (Sensitive)"
  const HINT := "# Edit these once; " + "values are referenced" + " in service sections below."
  const ADDED := "# Added by setup tooling"

  const HEADER: seq<string> := [BAR, TITLE, HINT, BAR]

  // ---- The rewriting loop ---------------------------------------------------------------

  function KeyOf(line: string): (r: Option<string>)
    ensures r.Some? <==> MatchAssign(line).Some?
  {
    var m := MatchAssign(line);
    if m.Some? then Some(m.value.key) else None
  }

  /** The line written for each update. */
  function WrittenLines(updates: map<string, string>): (written: map<string, string>)
    ensures written.Keys == updates.Keys
  {
    map k | k in updates :: Render(k, updates[k])
  }

  function RewriteAll(lines: seq<string>, updates: map<string, string>): Rewriting<string> {
    Rewrite(lines, KeyOf, WrittenLines(updates))
  }

  // ---- Keys the template lacks --------------------------------------------------------------

  ghost predicate Enumerates(order: seq<string>, keys: set<string>) {
    && (forall k :: k in order <==> k in keys)
    && (forall i, j :: 0 <= i < j < |order| ==> order[i] != order[j])
  }

  predicate NeedsBlank(out: seq<string>) {
    out != [] && Trim(out[|out| - 1], JsSpace) != ""
  }

  function Heading(out: seq<string>): seq<string> {
    if NeedsBlank(out) then ["", ADDED] else [ADDED]
  }

  /** The lines appended for keys missing from the template, in some order. */
  function Appendix(out: seq<string>, order: seq<string>, updates: map<string, string>): seq<string>
    requires forall k :: k in order ==> k in updates
  {
    if order == [] then [] else Heading(out) + Select(order, WrittenLines(updates))
  }

  // ---- Repeated headers ------------------------------------------------------------------------

  predicate KeyLine(line: string) {
    MatchKey(line).Some?
  }

  function RemoveDuplicateHeader(lines: seq<string>): seq<string> {
    Kept(lines, HEADER, KeyLine, 0, false, false)
  }

  method RemoveDuplicateTemplateHeader(lines: seq<string>) returns (out: seq<string>)
    ensures out == RemoveDuplicateHeader(lines)
  {
    out := [];
    var header := HEADER;
    var lastHeaderIndex := -1;
    var sawKeySinceHeader := false;
    var i := 0;
    while i < |lines|
      invariant i <= |lines|
      invariant out + Kept(lines, header, KeyLine, i, lastHeaderIndex >= 0, sawKeySinceHeader) == RemoveDuplicateHeader(lines)
    {
      if HeaderAt(lines, header, i) {
        if lastHeaderIndex >= 0 && !sawKeySinceHeader {
          i := i + 4;
          continue;
        }
        Associative(out, lines[i..i + 4], Kept(lines, header, KeyLine, i + 4, true, false));
        assert lines[i..i + 4] == header;
        lastHeaderIndex := |out|;
        sawKeySinceHeader := false;
        out := out + header;
        i := i + 4;
        continue;
      }
      ghost var saw := sawKeySinceHeader || KeyLine(lines[i]);
      Associative(out, [lines[i]], Kept(lines, header, KeyLine, i + 1, lastHeaderIndex >= 0, saw));
      if KeyLine(lines[i]) {
        sawKeySinceHeader := true;
      }
      out := out + [lines[i]];
      i := i + 1;
    }
  }

  // ---- The whole merge -----------------------------------------------------------------------------

  /** The merged lines before repeated headers go, for one order of missing keys. */
  function MergedLines(lines: seq<string>, updates: map<string, string>, order: seq<string>): seq<string>
    requires forall k :: k in order ==> k in updates
  {
    var out := RewriteAll(lines, updates).out;
    out + Appendix(out, order, updates)
  }

  ghost predicate MissingOrder(order: seq<string>, lines: seq<string>, updates: map<string, string>) {
    Enumerates(order, updates.Keys - RewriteAll(lines, updates).seen)
  }

  function Merge(template: string, updates: map<string, string>, order: seq<string>): string
    requires forall k :: k in order ==> k in updates
  {
    JoinLines(RemoveDuplicateHeader(MergedLines(SplitLines(template), updates, order)))
  }

  predicate LexLeq(a: string, b: string) {
    a == "" || (b != "" && (a[0] < b[0] || (a[0] == b[0] && LexLeq(a[1..], b[1..]))))
  }

  predicate LexSorted(order: seq<string>) {
    forall i :: 0 <= i < |order| - 1 ==> LexLeq(order[i], order[i + 1])
  }

  method InsertKey(order: seq<string>, k: string) returns (out: seq<string>)
    requires LexSorted(order)
    ensures LexSorted(out)
    ensures exists p: nat :: p <= |order| && out == order[..p] + [k] + order[p..]
  {
    var p := 0;
    while p < |order| && LexLeq(order[p], k)
      invariant p <= |order|
      invariant p > 0 ==> LexLeq(order[p - 1], k)
    {
      p := p + 1;
    }
    if p < |order| {
      LexTotal(order[p], k);
    }
    out := order[..p] + [k] + order[p..];
    assert forall i :: 0 <= i < |out| ==> out[i] == if i < p then order[i] else if i == p then k else order[i - 1];
  }

  /** `missing.sort()`, as an insertion sort. */
  method SortKeys(keys: set<string>) returns (order: seq<string>)
    ensures Enumerates(order, keys) && LexSorted(order)
  {
    order := [];
    var todo := keys;
    ghost var done: set<string> := {};
    while todo != {}
      invariant done + todo == keys && done !! todo
      invariant Enumerates(order, done) && LexSorted(order)
      decreases |todo|
    {
      var k :| k in todo;
      todo := todo - {k};
      var longer := InsertKey(order, k);
      ghost var p: nat :| p <= |order| && longer == order[..p] + [k] + order[p..];
      InsertEnumerates(order, done, p, k);
      done := done + {k};
      order := longer;
    }
  }

  lemma {:induction false} LexTotal(a: string, b: string)
    ensures LexLeq(a, b) || LexLeq(b, a)
  {
    if a == "" || b == "" {
    } else {
      LexTotal(a[1..], b[1..]);
    }
  }

  lemma InsertEnumerates(order: seq<string>, keys: set<string>, p: nat, k: string)
    requires Enumerates(order, keys) && p <= |order| && k !in keys
    ensures Enumerates(order[..p] + [k] + order[p..], keys + {k})
  {
    var out := order[..p] + [k] + order[p..];
    assert order == order[..p] + order[p..];
    forall i, j | 0 <= i < j < |out| ensures out[i] != out[j] {
      if i == p || j == p {
        assert forall x :: x in order[..p] || x in order[p..] ==> x in order;
      }
    }
  }

  method RewriteTemplate(lines: seq<string>, updates: map<string, string>) returns (out: seq<string>, seen: set<string>)
    ensures Rewriting(out, seen) == RewriteAll(lines, updates)
  {
    seen, out := {}, [];
    for i := 0 to |lines|
      invariant Rewriting(out, seen) == RewriteAll(lines[..i], updates)
    {
      assert lines[..i + 1][..i] == lines[..i];
      var m := MatchAssign(lines[i]);
      if m.None? {
        out := out + [lines[i]];
        continue;
      }
      var key := m.value.key;
      if key in seen {
        continue;
      }
      seen := seen + {key};
      if key in updates {
        out := out + [Render(key, updates[key])];
      } else {
        out := out + [lines[i]];
      }
    }
    assert lines[..|lines|] == lines;
  }

  method AppendRendered(head: seq<string>, missing: seq<string>, updates: map<string, string>) returns (all: seq<string>)
    requires forall k :: k in missing ==> k in updates
    ensures all == head + Select(missing, WrittenLines(updates))
  {
    all := head;
    ghost var rendered := Select(missing, WrittenLines(updates));
    for i := 0 to |missing|
      invariant all == head + rendered[..i]
    {
      assert missing[i] in missing;
      var line := Render(missing[i], updates[missing[i]]);
      assert rendered[..i + 1] == rendered[..i] + [line];
      all := all + [line];
    }
    assert rendered[..|missing|] == rendered;
  }

  method AppendHeading(out: seq<string>) returns (all: seq<string>)
    ensures all == out + Heading(out)
  {
    all := out;
    if NeedsBlank(out) {
      all := all + [""];
    }
    all := all + [ADDED];
  }

  method AppendMissing(out: seq<string>, missing: seq<string>, updates: map<string, string>) returns (all: seq<string>)
    requires forall k :: k in missing ==> k in updates
    ensures all == out + Appendix(out, missing, updates)
  {
    all := out;
    if |missing| > 0 {
      all := AppendHeading(out);
      all := AppendRendered(all, missing, updates);
      Associative(out, Heading(out), Select(missing, WrittenLines(updates)));
    }
  }

  /** The merged text, the missing keys appended in sorted order. */
  ghost predicate IsMerge(text: string, template: string, updates: map<string, string>, order: seq<string>) {
    && MissingOrder(order, SplitLines(template), updates) && LexSorted(order)
    && (forall k :: k in order ==> k in updates) && text == Merge(template, updates, order)
  }

  method ApplyToTemplate(template: string, updates: map<string, string>) returns (text: string)
    ensures exists order :: IsMerge(text, template, updates, order)
  {
    var lines := SplitLines(template);
    var out, seen := RewriteTemplate(lines, updates);
    var missing := SortKeys(updates.Keys - seen);
    var all := AppendMissing(out, missing, updates);
    var kept := RemoveDuplicateTemplateHeader(all);
    text := JoinLines(kept);
    assert IsMerge(text, template, updates, missing);
  }
}
