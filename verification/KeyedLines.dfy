/** Merging lines that define keys, for any kind of line: how the text of a line
    yields a key or a definition is left to function parameters. */
module KeyedLines {
  import opened Wrappers

  datatype Assignment = Assignment(key: string, value: string)

  // ---- Reading definitions --------------------------------------------------------------

  function LastWins<L>(lines: seq<L>, read: L -> Option<Assignment>): map<string, string> {
    if lines == [] then map[]
    else
      var env, r := LastWins(lines[..|lines| - 1], read), read(lines[|lines| - 1]);
      if r.Some? then env[r.value.key := r.value.value] else env
  }

  function FirstWins<L>(lines: seq<L>, read: L -> Option<Assignment>): map<string, string> {
    if lines == [] then map[]
    else
      var env, r := FirstWins(lines[..|lines| - 1], read), read(lines[|lines| - 1]);
      if r.Some? && r.value.key !in env then env[r.value.key := r.value.value] else env
  }

  /** Each key is defined as `env` says, whichever definition is taken to win. */
  predicate Defines<L>(lines: seq<L>, read: L -> Option<Assignment>, env: map<string, string>) {
    LastWins(lines, read) == env && FirstWins(lines, read) == env
  }

  lemma {:induction false} WinsConcat<L>(a: seq<L>, b: seq<L>, read: L -> Option<Assignment>)
    ensures LastWins(a + b, read) == LastWins(a, read) + LastWins(b, read)
    ensures FirstWins(a + b, read) == FirstWins(b, read) + FirstWins(a, read)
  {
    if b == [] {
      assert a + b == a;
    } else {
      assert (a + b)[..|a + b| - 1] == a + b[..|b| - 1];
      WinsConcat(a, b[..|b| - 1], read);
    }
  }

  lemma WinsSnoc<L>(lines: seq<L>, line: L, read: L -> Option<Assignment>)
    ensures LastWins(lines + [line], read) ==
      if read(line).Some? then LastWins(lines, read)[read(line).value.key := read(line).value.value] else LastWins(lines, read)
    ensures FirstWins(lines + [line], read) ==
      if read(line).Some? && read(line).value.key !in FirstWins(lines, read)
      then FirstWins(lines, read)[read(line).value.key := read(line).value.value] else FirstWins(lines, read)
  {
    assert (lines + [line])[..|lines|] == lines;
  }

  lemma {:induction false} WinsNothing<L>(lines: seq<L>, read: L -> Option<Assignment>)
    requires forall i :: 0 <= i < |lines| ==> read(lines[i]).None?
    ensures Defines(lines, read, map[])
  {
    if lines == [] {
    } else {
      WinsNothing(lines[..|lines| - 1], read);
    }
  }

  // ---- Rewriting ---------------------------------------------------------------------------

  datatype Rewriting<L> = Rewriting(out: seq<L>, seen: set<string>)

  /** The first line of a key is replaced or kept; later ones are dropped. */
  function RewriteLine<L>(r: Rewriting<L>, line: L, key: L -> Option<string>, written: map<string, L>): Rewriting<L> {
    match key(line)
    case None => r.(out := r.out + [line])
    case Some(k) =>
      if k in r.seen then r else Rewriting(r.out + [if k in written then written[k] else line], r.seen + {k})
  }

  function Rewrite<L>(lines: seq<L>, key: L -> Option<string>, written: map<string, L>): Rewriting<L> {
    if lines == [] then Rewriting([], {})
    else RewriteLine(Rewrite(lines[..|lines| - 1], key, written), lines[|lines| - 1], key, written)
  }

  /** Definitions after rewriting: written values first, else the first ones read. */
  function Chosen(first: map<string, string>, values: map<string, string>): map<string, string> {
    map k | k in first :: if k in values then values[k] else first[k]
  }

  /** Keys and definitions agree on these lines, and written lines read back. */
  ghost predicate Coherent<L>(
    lines: seq<L>, key: L -> Option<string>, read: L -> Option<Assignment>, written: map<string, L>, values: map<string, string>) {
    && (forall i :: 0 <= i < |lines| ==> key(lines[i]) == if read(lines[i]).Some? then Some(read(lines[i]).value.key) else None)
    && written.Keys == values.Keys
    && (forall k :: k in written ==> read(written[k]) == Some(Assignment(k, values[k])))
  }

  lemma ChosenSnoc(first: map<string, string>, values: map<string, string>, k: string, value: string)
    requires k !in first
    ensures Chosen(first[k := value], values) == Chosen(first, values)[k := if k in values then values[k] else value]
  {
  }

  lemma WrittenLineDefines<L>(
    r: Rewriting<L>, line: L, k: string, value: string, read: L -> Option<Assignment>, values: map<string, string>, first: map<string, string>)
    requires r.seen == first.Keys && Defines(r.out, read, Chosen(first, values)) && k !in first
    requires read(line) == Some(Assignment(k, if k in values then values[k] else value))
    ensures Defines(r.out + [line], read, Chosen(first[k := value], values))
  {
    WinsSnoc(r.out, line, read);
    ChosenSnoc(first, values, k, value);
  }

  lemma {:induction false} RewriteDefines<L>(
    lines: seq<L>, key: L -> Option<string>, read: L -> Option<Assignment>, written: map<string, L>, values: map<string, string>)
    requires Coherent(lines, key, read, written, values)
    ensures var r := Rewrite(lines, key, written);
      r.seen == FirstWins(lines, read).Keys && Defines(r.out, read, Chosen(FirstWins(lines, read), values))
  {
    if lines == [] {
    } else {
      var before, line := lines[..|lines| - 1], lines[|lines| - 1];
      RewriteDefines(before, key, read, written, values);
      var r := Rewrite(before, key, written);
      var first := FirstWins(before, read);
      if key(line).None? {
        WinsSnoc(r.out, line, read);
      } else if key(line).value !in r.seen {
        var k := key(line).value;
        WrittenLineDefines(r, if k in written then written[k] else line, k, read(line).value.value, read, values, first);
      }
    }
  }

  lemma {:induction false} RewriteOrigins<L>(lines: seq<L>, key: L -> Option<string>, written: map<string, L>)
    ensures var r := Rewrite(lines, key, written);
      && (forall i :: 0 <= i < |r.out| ==>
            r.out[i] in lines || exists k :: k in written && r.out[i] == written[k])
      && (lines != [] ==> r.out != [])
  {
    if lines == [] {
    } else {
      var before := lines[..|lines| - 1];
      RewriteOrigins(before, key, written);
      assert forall x :: x in before ==> x in lines;
      assert lines[|lines| - 1] in lines;
      if before == [] {
        assert Rewrite(before, key, written).seen == {};
      }
    }
  }

  // ---- Lines the parser reads and the pattern misses -------------------------------------------

  /** Lines the pattern takes are read under the same key; others may be read too. */
  ghost predicate Consistent<L>(
    lines: seq<L>, key: L -> Option<string>, read: L -> Option<Assignment>, written: map<string, L>, values: map<string, string>) {
    && (forall i :: 0 <= i < |lines| && key(lines[i]).Some? ==> read(lines[i]).Some? && read(lines[i]).value.key == key(lines[i]).value)
    && written.Keys == values.Keys
    && (forall k :: k in written ==> read(written[k]) == Some(Assignment(k, values[k])))
  }

  predicate HasKey<L>(lines: seq<L>, key: L -> Option<string>, k: string) {
    exists i :: 0 <= i < |lines| && key(lines[i]) == Some(k)
  }

  /** The last definition of `k` that only the parser sees, after one the pattern sees. */
  function Shadow<L>(lines: seq<L>, key: L -> Option<string>, read: L -> Option<Assignment>, k: string): Option<string> {
    if lines == [] then None
    else
      var before, line := lines[..|lines| - 1], lines[|lines| - 1];
      if key(line).None? && read(line).Some? && read(line).value.key == k && HasKey(before, key, k)
      then Some(read(line).value.value)
      else Shadow(before, key, read, k)
  }

  lemma HasKeySnoc<L>(lines: seq<L>, key: L -> Option<string>, k: string)
    requires lines != []
    ensures HasKey(lines, key, k) <==> HasKey(lines[..|lines| - 1], key, k) || key(lines[|lines| - 1]) == Some(k)
  {
    var before := lines[..|lines| - 1];
    if HasKey(before, key, k) {
      var i :| 0 <= i < |before| && key(before[i]) == Some(k);
      assert key(lines[i]) == Some(k);
    }
  }

  lemma {:induction false} SeenIsHasKey<L>(lines: seq<L>, key: L -> Option<string>, written: map<string, L>, k: string)
    ensures k in Rewrite(lines, key, written).seen <==> HasKey(lines, key, k)
  {
    if lines == [] {
    } else {
      SeenIsHasKey(lines[..|lines| - 1], key, written, k);
      HasKeySnoc(lines, key, k);
    }
  }

  function Lookup(env: map<string, string>, k: string): Option<string> {
    if k in env then Some(env[k]) else None
  }

  /** What the pattern sees of a line. */
  function KeyedRead<L>(key: L -> Option<string>, read: L -> Option<Assignment>): L -> Option<Assignment> {
    line => if key(line).Some? then read(line) else None
  }

  /** What a key reads as once the lines are rewritten. */
  function AfterRewrite<L>(
    lines: seq<L>, key: L -> Option<string>, read: L -> Option<Assignment>, values: map<string, string>, k: string): Option<string> {
    if !HasKey(lines, key, k) then Lookup(LastWins(lines, read), k)
    else if Shadow(lines, key, read, k).Some? then Shadow(lines, key, read, k)
    else if k in values then Some(values[k])
    else Lookup(FirstWins(lines, KeyedRead(key, read)), k)
  }

  lemma {:induction false} ShadowNeedsKey<L>(lines: seq<L>, key: L -> Option<string>, read: L -> Option<Assignment>, k: string)
    requires !HasKey(lines, key, k)
    ensures Shadow(lines, key, read, k).None?
  {
    if lines == [] {
    } else {
      HasKeySnoc(lines, key, k);
      ShadowNeedsKey(lines[..|lines| - 1], key, read, k);
    }
  }

  lemma {:induction false} KeyedHas<L>(
    lines: seq<L>, key: L -> Option<string>, read: L -> Option<Assignment>, written: map<string, L>, values: map<string, string>, k: string)
    requires Consistent(lines, key, read, written, values)
    ensures k in FirstWins(lines, KeyedRead(key, read)) <==> HasKey(lines, key, k)
  {
    if lines == [] {
    } else {
      KeyedHas(lines[..|lines| - 1], key, read, written, values, k);
      HasKeySnoc(lines, key, k);
    }
  }

  lemma LookupSnoc<L>(out: seq<L>, line: L, read: L -> Option<Assignment>, k: string)
    ensures Lookup(LastWins(out + [line], read), k) ==
      if read(line).Some? && read(line).value.key == k then Some(read(line).value.value) else Lookup(LastWins(out, read), k)
  {
    WinsSnoc(out, line, read);
  }

  /** A line that does not carry the key, or repeats it, is passed on or dropped. */
  lemma OtherLine<L>(
    lines: seq<L>, key: L -> Option<string>, read: L -> Option<Assignment>, written: map<string, L>, values: map<string, string>, k: string)
    requires lines != [] && Consistent(lines, key, read, written, values)
    requires key(lines[|lines| - 1]) != Some(k) || HasKey(lines[..|lines| - 1], key, k)
    ensures var line := lines[|lines| - 1];
      AfterRewrite(lines, key, read, values, k) ==
        if key(line).None? && read(line).Some? && read(line).value.key == k then Some(read(line).value.value)
        else AfterRewrite(lines[..|lines| - 1], key, read, values, k)
  {
    var before := lines[..|lines| - 1];
    HasKeySnoc(lines, key, k);
    KeyedHas(before, key, read, written, values, k);
    assert lines == before + [lines[|lines| - 1]];
    LookupSnoc(before, lines[|lines| - 1], read, k);
  }

  lemma FirstKeyLine<L>(
    lines: seq<L>, key: L -> Option<string>, read: L -> Option<Assignment>, written: map<string, L>, values: map<string, string>, k: string)
    requires lines != [] && Consistent(lines, key, read, written, values)
    requires key(lines[|lines| - 1]) == Some(k) && !HasKey(lines[..|lines| - 1], key, k)
    ensures AfterRewrite(lines, key, read, values, k) ==
      Some(if k in values then values[k] else read(lines[|lines| - 1]).value.value)
  {
    var before := lines[..|lines| - 1];
    HasKeySnoc(lines, key, k);
    ShadowNeedsKey(before, key, read, k);
    KeyedHas(before, key, read, written, values, k);
  }

  /** Every key after rewriting, whether the pattern sees its lines or only the parser. */
  lemma {:induction false} RewrittenReads<L>(
    lines: seq<L>, key: L -> Option<string>, read: L -> Option<Assignment>, written: map<string, L>, values: map<string, string>, k: string)
    requires Consistent(lines, key, read, written, values)
    ensures Lookup(LastWins(Rewrite(lines, key, written).out, read), k) == AfterRewrite(lines, key, read, values, k)
  {
    if lines == [] {
    } else {
      var before, line := lines[..|lines| - 1], lines[|lines| - 1];
      RewrittenReads(before, key, read, written, values, k);
      SeenIsHasKey(before, key, written, k);
      var r := Rewrite(before, key, written);
      if key(line) == Some(k) && k !in r.seen {
        FirstKeyLine(lines, key, read, written, values, k);
        LookupSnoc(r.out, if k in written then written[k] else line, read, k);
      } else {
        OtherLine(lines, key, read, written, values, k);
        if key(line).None? {
          LookupSnoc(r.out, line, read, k);
        } else if key(line).value !in r.seen {
          LookupSnoc(r.out, if key(line).value in written then written[key(line).value] else line, read, k);
        }
      }
    }
  }

  // ---- Selected lines and mapped values ------------------------------------------------------

  predicate Distinct(order: seq<string>) {
    forall i, j :: 0 <= i < j < |order| ==> order[i] != order[j]
  }

  function Select<L>(order: seq<string>, written: map<string, L>): (lines: seq<L>)
    requires forall k :: k in order ==> k in written
    ensures |lines| == |order| && forall i :: 0 <= i < |order| ==> lines[i] == written[order[i]]
  {
    seq(|order|, i requires 0 <= i < |order| => written[order[i]])
  }

  function Restricted(order: seq<string>, values: map<string, string>): map<string, string>
    requires forall k :: k in order ==> k in values
  {
    map k | k in order :: values[k]
  }

  lemma LastIsNew(order: seq<string>)
    requires order != [] && Distinct(order)
    ensures var shorter := order[..|order| - 1];
      Distinct(shorter) && order[|order| - 1] !in shorter && order[|order| - 1] in order && forall x :: x in shorter ==> x in order
  {
  }

  lemma SelectSnoc<L>(order: seq<string>, written: map<string, L>)
    requires order != [] && forall k :: k in order ==> k in written
    ensures var shorter, k := order[..|order| - 1], order[|order| - 1];
      (forall x :: x in shorter ==> x in written) && k in written && Select(order, written) == Select(shorter, written) + [written[k]]
  {
    assert order[|order| - 1] in order && forall x :: x in order[..|order| - 1] ==> x in order;
  }

  lemma {:induction false} SelectDefines<L>(
    order: seq<string>, read: L -> Option<Assignment>, written: map<string, L>, values: map<string, string>)
    requires written.Keys == values.Keys && (forall k :: k in order ==> k in written) && Distinct(order)
    requires forall k :: k in written ==> read(written[k]) == Some(Assignment(k, values[k]))
    ensures Defines(Select(order, written), read, Restricted(order, values))
  {
    if order == [] {
    } else {
      var before, k := order[..|order| - 1], order[|order| - 1];
      LastIsNew(order);
      SelectSnoc(order, written);
      SelectDefines(before, read, written, values);
      WinsSnoc(Select(before, written), written[k], read);
      RestrictedSnoc(order, values);
    }
  }

  lemma RestrictedSnoc(order: seq<string>, values: map<string, string>)
    requires order != [] && forall k :: k in order ==> k in values
    ensures var before, k := order[..|order| - 1], order[|order| - 1];
      (forall x :: x in before ==> x in values) && k in values && Restricted(order, values) == Restricted(before, values)[k := values[k]]
  {
    var before, k := order[..|order| - 1], order[|order| - 1];
    assert k in order && forall x :: x in order <==> x in before || x == k;
  }

  lemma ChosenPlusMissing(first: map<string, string>, values: map<string, string>, order: seq<string>)
    requires forall k :: k in order <==> k in values.Keys - first.Keys
    ensures Chosen(first, values) + Restricted(order, values) == first + values
    ensures Restricted(order, values) + Chosen(first, values) == first + values
  {
  }

  function MapValues(m: map<string, string>, f: string -> string): (r: map<string, string>)
    ensures r.Keys == m.Keys
  {
    map k | k in m :: f(m[k])
  }

  lemma OverrideComposes(first: map<string, string>, u1: map<string, string>, u2: map<string, string>, f: string -> string)
    ensures first + MapValues(u1, f) + MapValues(u2, f) == first + MapValues(u1 + u2, f)
  {
  }

  ghost predicate All<L>(lines: seq<L>, p: L -> bool) {
    forall i :: 0 <= i < |lines| ==> p(lines[i])
  }

  lemma AllConcat<L>(a: seq<L>, b: seq<L>, p: L -> bool)
    requires All(a, p) && All(b, p)
    ensures All(a + b, p)
  {
  }

  lemma SelectAll<L>(order: seq<string>, written: map<string, L>, p: L -> bool)
    requires (forall k :: k in order ==> k in written) && (forall k :: k in written ==> p(written[k]))
    ensures All(Select(order, written), p)
  {
    forall i | 0 <= i < |order| ensures p(written[order[i]]) {
      assert order[i] in order;
    }
  }

  lemma RewriteAllLines<L>(lines: seq<L>, key: L -> Option<string>, written: map<string, L>, p: L -> bool)
    requires All(lines, p) && forall k :: k in written ==> p(written[k])
    ensures All(Rewrite(lines, key, written).out, p)
  {
    RewriteOrigins(lines, key, written);
  }

  /** Silent lines before definitions change nothing. */
  lemma SilentBefore<L>(silent: seq<L>, lines: seq<L>, read: L -> Option<Assignment>, env: map<string, string>)
    requires Defines(silent, read, map[]) && Defines(lines, read, env)
    ensures Defines(silent + lines, read, env)
  {
    WinsConcat(silent, lines, read);
    assert map[] + env == env && env + map[] == env;
  }

  lemma KeptAll<L>(lines: seq<L>, header: seq<L>, keyLine: L -> bool, p: L -> bool)
    requires |header| == 4 && All(lines, p)
    ensures All(Kept(lines, header, keyLine, 0, false, false), p)
  {
    KeptOrigins(lines, header, keyLine, 0, false, false);
    var kept := Kept(lines, header, keyLine, 0, false, false);
    forall i | 0 <= i < |kept| ensures p(kept[i]) {
      assert kept[i] in lines;
    }
  }

  // ---- Repeated headers ------------------------------------------------------------------------

  predicate HeaderAt<L(==)>(lines: seq<L>, header: seq<L>, i: nat)
    requires |header| == 4
  {
    i + 3 < |lines| && lines[i] == header[0] && lines[i + 1] == header[1] && lines[i + 2] == header[2] && lines[i + 3] == header[3]
  }

  /** What the header pass keeps of lines[i..]: a block is dropped when an earlier
      one was kept and no key line came between. */
  function Kept<L(==)>(lines: seq<L>, header: seq<L>, keyLine: L -> bool, i: nat, hadHeader: bool, sawKey: bool): seq<L>
    requires i <= |lines| && |header| == 4
    decreases |lines| - i
  {
    if i == |lines| then []
    else if HeaderAt(lines, header, i) then
      if hadHeader && !sawKey then Kept(lines, header, keyLine, i + 4, true, false)
      else lines[i..i + 4] + Kept(lines, header, keyLine, i + 4, true, false)
    else [lines[i]] + Kept(lines, header, keyLine, i + 1, hadHeader, sawKey || keyLine(lines[i]))
  }

  ghost predicate SilentHeader<L>(header: seq<L>, read: L -> Option<Assignment>) {
    |header| == 4 && forall j :: 0 <= j < 4 ==> read(header[j]).None?
  }

  lemma SilentBlock<L>(lines: seq<L>, header: seq<L>, i: nat, rest: seq<L>, read: L -> Option<Assignment>)
    requires SilentHeader(header, read) && HeaderAt(lines, header, i)
    ensures LastWins(lines[i..i + 4] + rest, read) == LastWins(rest, read)
    ensures FirstWins(lines[i..i + 4] + rest, read) == FirstWins(rest, read)
  {
    var block := lines[i..i + 4];
    assert block == header;
    WinsNothing(block, read);
    WinsConcat(block, rest, read);
  }

  lemma SameLine<L>(line: L, a: seq<L>, b: seq<L>, read: L -> Option<Assignment>)
    requires LastWins(a, read) == LastWins(b, read) && FirstWins(a, read) == FirstWins(b, read)
    ensures LastWins([line] + a, read) == LastWins([line] + b, read)
    ensures FirstWins([line] + a, read) == FirstWins([line] + b, read)
  {
    WinsConcat([line], a, read);
    WinsConcat([line], b, read);
  }

  lemma {:induction false} KeptDefines<L>(
    lines: seq<L>, header: seq<L>, keyLine: L -> bool, i: nat, hadHeader: bool, sawKey: bool, read: L -> Option<Assignment>)
    requires i <= |lines| && SilentHeader(header, read)
    ensures var kept := Kept(lines, header, keyLine, i, hadHeader, sawKey);
      LastWins(kept, read) == LastWins(lines[i..], read) && FirstWins(kept, read) == FirstWins(lines[i..], read)
    decreases |lines| - i
  {
    if i == |lines| {
    } else {
      if HeaderAt(lines, header, i) {
        KeptDefines(lines, header, keyLine, i + 4, true, false, read);
        assert lines[i..] == lines[i..i + 4] + lines[i + 4..];
        SilentBlock(lines, header, i, lines[i + 4..], read);
        SilentBlock(lines, header, i, Kept(lines, header, keyLine, i + 4, true, false), read);
      } else {
        var saw := sawKey || keyLine(lines[i]);
        KeptDefines(lines, header, keyLine, i + 1, hadHeader, saw, read);
        assert lines[i..] == [lines[i]] + lines[i + 1..];
        SameLine(lines[i], lines[i + 1..], Kept(lines, header, keyLine, i + 1, hadHeader, saw), read);
      }
    }
  }

  lemma {:induction false} KeptOrigins<L>(lines: seq<L>, header: seq<L>, keyLine: L -> bool, i: nat, hadHeader: bool, sawKey: bool)
    requires i <= |lines| && |header| == 4
    ensures forall x :: x in Kept(lines, header, keyLine, i, hadHeader, sawKey) ==> x in lines
    decreases |lines| - i
  {
    if i == |lines| {
    } else {
      if HeaderAt(lines, header, i) {
        KeptOrigins(lines, header, keyLine, i + 4, true, false);
      } else {
        KeptOrigins(lines, header, keyLine, i + 1, hadHeader, sawKey || keyLine(lines[i]));
      }
    }
  }

  lemma KeptSome<L>(lines: seq<L>, header: seq<L>, keyLine: L -> bool)
    requires lines != [] && |header| == 4
    ensures Kept(lines, header, keyLine, 0, false, false) != []
  {
  }

  // ---- A second pass ----------------------------------------------------------------------------

  /** The lines that carry a key, in order. */
  function KeyLines<L>(lines: seq<L>, key: L -> Option<string>): seq<L> {
    if lines == [] then []
    else
      var before := KeyLines(lines[..|lines| - 1], key);
      if key(lines[|lines| - 1]).Some? then before + [lines[|lines| - 1]] else before
  }

  lemma {:induction false} KeyLinesConcat<L>(a: seq<L>, b: seq<L>, key: L -> Option<string>)
    ensures KeyLines(a + b, key) == KeyLines(a, key) + KeyLines(b, key)
  {
    if b == [] {
      assert a + b == a;
    } else {
      assert (a + b)[..|a + b| - 1] == a + b[..|b| - 1];
      KeyLinesConcat(a, b[..|b| - 1], key);
    }
  }

  lemma {:induction false} NoKeyLines<L>(lines: seq<L>, key: L -> Option<string>)
    requires forall i :: 0 <= i < |lines| ==> key(lines[i]).None?
    ensures KeyLines(lines, key) == []
  {
    if lines == [] {
    } else {
      NoKeyLines(lines[..|lines| - 1], key);
    }
  }

  /** Key lines with distinct keys, each already the written line of its key. */
  ghost predicate Settled<L>(keyLines: seq<L>, key: L -> Option<string>, written: map<string, L>, keys: set<string>) {
    && (forall i :: 0 <= i < |keyLines| ==> key(keyLines[i]).Some? && key(keyLines[i]).value in keys)
    && (forall i :: 0 <= i < |keyLines| && key(keyLines[i]).value in written ==> keyLines[i] == written[key(keyLines[i]).value])
    && (forall i, j :: 0 <= i < j < |keyLines| ==> key(keyLines[i]) != key(keyLines[j]))
    && (forall k :: k in keys ==> exists i :: 0 <= i < |keyLines| && key(keyLines[i]) == Some(k))
  }

  ghost predicate WrittenHaveKeys<L>(written: map<string, L>, key: L -> Option<string>) {
    forall k :: k in written ==> key(written[k]) == Some(k)
  }

  lemma SettledSnoc<L>(keyLines: seq<L>, line: L, key: L -> Option<string>, written: map<string, L>, keys: set<string>)
    requires Settled(keyLines, key, written, keys) && key(line).Some? && key(line).value !in keys
    requires key(line).value in written ==> line == written[key(line).value]
    ensures Settled(keyLines + [line], key, written, keys + {key(line).value})
  {
    var more, all := keyLines + [line], keys + {key(line).value};
    forall k | k in all ensures exists i :: 0 <= i < |more| && key(more[i]) == Some(k) {
      if k in keys {
        var i :| 0 <= i < |keyLines| && key(keyLines[i]) == Some(k);
        assert key(more[i]) == Some(k);
      } else {
        assert key(more[|keyLines|]) == Some(k);
      }
    }
  }

  lemma RewriteLineSettles<L>(r: Rewriting<L>, line: L, key: L -> Option<string>, written: map<string, L>)
    requires WrittenHaveKeys(written, key) && Settled(KeyLines(r.out, key), key, written, r.seen)
    ensures var t := RewriteLine(r, line, key, written); Settled(KeyLines(t.out, key), key, written, t.seen)
  {
    if key(line).None? {
      assert (r.out + [line])[..|r.out|] == r.out;
    } else if key(line).value !in r.seen {
      var k := key(line).value;
      var chosen := if k in written then written[k] else line;
      assert (r.out + [chosen])[..|r.out|] == r.out;
      SettledSnoc(KeyLines(r.out, key), chosen, key, written, r.seen);
    }
  }

  lemma {:induction false} RewriteSettles<L>(lines: seq<L>, key: L -> Option<string>, written: map<string, L>)
    requires WrittenHaveKeys(written, key)
    ensures var r := Rewrite(lines, key, written); Settled(KeyLines(r.out, key), key, written, r.seen)
  {
    if lines == [] {
    } else {
      var before := lines[..|lines| - 1];
      RewriteSettles(before, key, written);
      RewriteLineSettles(Rewrite(before, key, written), lines[|lines| - 1], key, written);
    }
  }

  /** Rewriting settled lines changes nothing. */
  lemma {:induction false} RewriteSettled<L>(lines: seq<L>, key: L -> Option<string>, written: map<string, L>, keys: set<string>)
    requires Settled(KeyLines(lines, key), key, written, keys)
    ensures Rewrite(lines, key, written) == Rewriting(lines, keys)
  {
    if lines == [] {
      assert forall k :: k !in keys;
    } else {
      var before, line := lines[..|lines| - 1], lines[|lines| - 1];
      assert lines == before + [line];
      var all := KeyLines(lines, key);
      if key(line).None? {
        RewriteSettled(before, key, written, keys);
      } else {
        var k := key(line).value;
        assert all[|all| - 1] == line && all[..|all| - 1] == KeyLines(before, key);
        SettledPrefix(all, key, written, keys);
        RewriteSettled(before, key, written, keys - {k});
        assert keys - {k} + {k} == keys;
      }
    }
  }

  lemma SettledPrefix<L>(keyLines: seq<L>, key: L -> Option<string>, written: map<string, L>, keys: set<string>)
    requires Settled(keyLines, key, written, keys) && keyLines != []
    ensures Settled(keyLines[..|keyLines| - 1], key, written, keys - {key(keyLines[|keyLines| - 1]).value})
  {
    var last := keyLines[|keyLines| - 1];
    var before := keyLines[..|keyLines| - 1];
    forall k | k in keys - {key(last).value} ensures exists i :: 0 <= i < |before| && key(before[i]) == Some(k) {
      var i :| 0 <= i < |keyLines| && key(keyLines[i]) == Some(k);
      assert key(before[i]) == Some(k);
    }
  }

  lemma KeylessBlock<L>(lines: seq<L>, header: seq<L>, i: nat, rest: seq<L>, key: L -> Option<string>)
    requires |header| == 4 && (forall j :: 0 <= j < 4 ==> key(header[j]).None?) && HeaderAt(lines, header, i)
    ensures KeyLines(lines[i..i + 4] + rest, key) == KeyLines(rest, key)
  {
    var block := lines[i..i + 4];
    assert block == header;
    NoKeyLines(block, key);
    KeyLinesConcat(block, rest, key);
    assert [] + KeyLines(rest, key) == KeyLines(rest, key);
  }

  function Names(order: seq<string>): set<string> {
    set k | k in order
  }

  /** One more selected line. */
  lemma WrittenSettles<L>(
    keyLines: seq<L>, order: seq<string>, k: string, key: L -> Option<string>, written: map<string, L>, keys: set<string>)
    requires WrittenHaveKeys(written, key) && k in written && k !in keys && k !in order
    requires Settled(keyLines, key, written, keys + Names(order))
    ensures Settled(keyLines + [written[k]], key, written, keys + Names(order + [k]))
  {
    SettledSnoc(keyLines, written[k], key, written, keys + Names(order));
    assert keys + Names(order + [k]) == keys + Names(order) + {k};
  }

  lemma KeyLinesSnoc<L>(lines: seq<L>, line: L, key: L -> Option<string>, before: seq<L>)
    requires key(line).Some?
    ensures before + KeyLines(lines + [line], key) == before + KeyLines(lines, key) + [line]
  {
    assert (lines + [line])[..|lines|] == lines;
  }

  lemma {:induction false} SelectSettles<L>(
    order: seq<string>, key: L -> Option<string>, written: map<string, L>, keys: set<string>, before: seq<L>)
    requires WrittenHaveKeys(written, key) && Distinct(order) && (forall k :: k in order ==> k in written && k !in keys)
    requires Settled(before, key, written, keys)
    ensures Settled(before + KeyLines(Select(order, written), key), key, written, keys + Names(order))
  {
    if order == [] {
      assert before + [] == before;
      assert keys + Names(order) == keys;
    } else {
      var shorter, k := order[..|order| - 1], order[|order| - 1];
      SelectSnoc(order, written);
      LastIsNew(order);
      SelectSettles(shorter, key, written, keys, before);
      KeyLinesSnoc(Select(shorter, written), written[k], key, before);
      WrittenSettles(before + KeyLines(Select(shorter, written), key), shorter, k, key, written, keys);
      assert order == shorter + [k];
    }
  }

  lemma SelectHasNo<L>(order: seq<string>, key: L -> Option<string>, written: map<string, L>, line: L)
    requires WrittenHaveKeys(written, key) && (forall k :: k in order ==> k in written) && key(line).None?
    ensures Occurrences(Select(order, written), line) == 0
  {
    forall i | 0 <= i < |order| ensures written[order[i]] != line {
      assert order[i] in order;
    }
    NoOccurrences(Select(order, written), line);
  }

  lemma {:induction false} KeptKeyLines<L>(
    lines: seq<L>, header: seq<L>, keyLine: L -> bool, i: nat, hadHeader: bool, sawKey: bool, key: L -> Option<string>)
    requires i <= |lines| && |header| == 4 && forall j :: 0 <= j < 4 ==> key(header[j]).None?
    ensures KeyLines(Kept(lines, header, keyLine, i, hadHeader, sawKey), key) == KeyLines(lines[i..], key)
    decreases |lines| - i
  {
    if i == |lines| {
    } else {
      if HeaderAt(lines, header, i) {
        KeptKeyLines(lines, header, keyLine, i + 4, true, false, key);
        assert lines[i..] == lines[i..i + 4] + lines[i + 4..];
        KeylessBlock(lines, header, i, lines[i + 4..], key);
        KeylessBlock(lines, header, i, Kept(lines, header, keyLine, i + 4, true, false), key);
      } else {
        var saw := sawKey || keyLine(lines[i]);
        KeptKeyLines(lines, header, keyLine, i + 1, hadHeader, saw, key);
        assert lines[i..] == [lines[i]] + lines[i + 1..];
        KeyLinesConcat([lines[i]], lines[i + 1..], key);
        KeyLinesConcat([lines[i]], Kept(lines, header, keyLine, i + 1, hadHeader, saw), key);
      }
    }
  }

  function Occurrences<L(==)>(lines: seq<L>, line: L): nat {
    if lines == [] then 0 else Occurrences(lines[..|lines| - 1], line) + (if lines[|lines| - 1] == line then 1 else 0)
  }

  lemma {:induction false} OccurrencesConcat<L>(a: seq<L>, b: seq<L>, line: L)
    ensures Occurrences(a + b, line) == Occurrences(a, line) + Occurrences(b, line)
  {
    if b == [] {
      assert a + b == a;
    } else {
      assert (a + b)[..|a + b| - 1] == a + b[..|b| - 1];
      OccurrencesConcat(a, b[..|b| - 1], line);
    }
  }

  lemma OccurrencesSnoc<L>(lines: seq<L>, last: L, line: L)
    ensures Occurrences(lines + [last], line) == Occurrences(lines, line) + (if last == line then 1 else 0)
  {
    assert (lines + [last])[..|lines|] == lines;
  }

  lemma {:induction false} NoOccurrences<L>(lines: seq<L>, line: L)
    requires forall i :: 0 <= i < |lines| ==> lines[i] != line
    ensures Occurrences(lines, line) == 0
  {
    if lines == [] {
    } else {
      NoOccurrences(lines[..|lines| - 1], line);
    }
  }

  lemma {:induction false} RewriteOccurrences<L>(lines: seq<L>, key: L -> Option<string>, written: map<string, L>, line: L)
    requires key(line).None? && WrittenHaveKeys(written, key)
    ensures Occurrences(Rewrite(lines, key, written).out, line) == Occurrences(lines, line)
  {
    if lines == [] {
    } else {
      var before, last := lines[..|lines| - 1], lines[|lines| - 1];
      RewriteOccurrences(before, key, written, line);
      var r := Rewrite(before, key, written);
      if key(last).None? {
        OccurrencesSnoc(r.out, last, line);
      } else if key(last).value !in r.seen {
        var k := key(last).value;
        OccurrencesSnoc(r.out, if k in written then written[k] else last, line);
      }
    }
  }

  /** A title line that occurs at most once leaves no block to drop. */
  lemma {:induction false} KeptWhole<L>(lines: seq<L>, header: seq<L>, keyLine: L -> bool, i: nat, hadHeader: bool, sawKey: bool)
    requires i <= |lines| && |header| == 4 && header[0] != header[1]
    requires Occurrences(lines[i..], header[1]) + (if hadHeader then 1 else 0) <= 1
    ensures Kept(lines, header, keyLine, i, hadHeader, sawKey) == lines[i..]
    decreases |lines| - i
  {
    if i == |lines| {
    } else {
      if HeaderAt(lines, header, i) {
        var block, rest := lines[i..i + 4], lines[i + 4..];
        assert lines[i..] == block + rest && block == [lines[i]] + [lines[i + 1]] + [lines[i + 2], lines[i + 3]];
        OccurrencesConcat(block, rest, header[1]);
        OccurrencesConcat([lines[i]] + [lines[i + 1]], [lines[i + 2], lines[i + 3]], header[1]);
        OccurrencesConcat([lines[i]], [lines[i + 1]], header[1]);
        assert Occurrences([lines[i + 1]], header[1]) == 1;
        KeptWhole(lines, header, keyLine, i + 4, true, false);
      } else {
        assert lines[i..] == [lines[i]] + lines[i + 1..];
        OccurrencesConcat([lines[i]], lines[i + 1..], header[1]);
        KeptWhole(lines, header, keyLine, i + 1, hadHeader, sawKey || keyLine(lines[i]));
      }
    }
  }
}
