/** When `removeDuplicateTemplateHeader` of scripts/lib/envFile.js changes nothing,
    and that one pass may leave work for the next. */
module HeaderPass {
  import opened KeyedLines

  /** A block shaped like the four-line header: equal bars around two other lines,
      none of them a key line. */
  predicate HeaderShape<L(==)>(header: seq<L>, keyLine: L -> bool) {
    && |header| == 4 && header[0] == header[3]
    && header[1] != header[0] && header[2] != header[0] && header[1] != header[2]
    && !keyLine(header[0]) && !keyLine(header[1]) && !keyLine(header[2])
  }

  ghost predicate NoKeyBetween<L>(lines: seq<L>, keyLine: L -> bool, i: nat, j: nat) {
    forall k :: i <= k < j && k < |lines| ==> !keyLine(lines[k])
  }

  /** Some header block ends at or before `j` with no key line since. */
  ghost predicate Armed<L>(lines: seq<L>, header: seq<L>, keyLine: L -> bool, j: nat)
    requires |header| == 4
  {
    exists i: nat :: HeaderAt(lines, header, i) && i + 4 <= j && NoKeyBetween(lines, keyLine, i + 4, j)
  }

  /** Two header blocks, one after the other from `p` on, with no key line between. */
  ghost predicate CloseHeaders<L>(lines: seq<L>, header: seq<L>, keyLine: L -> bool, p: nat)
    requires |header| == 4
  {
    exists j: nat :: p <= j && HeaderAt(lines, header, j) && Armed(lines, header, keyLine, j)
  }

  /** What the scan knows at a line it stops at: the flags say whether a block is
      armed, and a block cut by the scan overlaps an earlier one. */
  ghost predicate ScanAt<L>(lines: seq<L>, header: seq<L>, keyLine: L -> bool, p: nat, hadHeader: bool, sawKey: bool)
    requires |header| == 4
  {
    && (hadHeader && !sawKey <==> Armed(lines, header, keyLine, p))
    && (forall q: nat :: q < p < q + 4 && HeaderAt(lines, header, q) ==> 3 <= q && HeaderAt(lines, header, q - 3))
  }

  lemma BlocksOverlapByBars<L>(lines: seq<L>, header: seq<L>, keyLine: L -> bool, p: nat, q: nat)
    requires HeaderShape(header, keyLine) && HeaderAt(lines, header, p) && HeaderAt(lines, header, q) && p < q
    ensures q >= p + 3
  {
  }

  /** A block that the scan jumped into is part of an armed stretch all the same. */
  lemma ArmedBefore<L>(lines: seq<L>, header: seq<L>, keyLine: L -> bool, p: nat, i: nat, hadHeader: bool, sawKey: bool)
    requires HeaderShape(header, keyLine) && ScanAt(lines, header, keyLine, p, hadHeader, sawKey)
    requires HeaderAt(lines, header, i) && i < p && NoKeyBetween(lines, keyLine, i + 4, p)
    ensures Armed(lines, header, keyLine, p)
  {
    if p < i + 4 {
      assert HeaderAt(lines, header, i - 3);
      assert NoKeyBetween(lines, keyLine, i + 1, p);
    }
  }

  lemma ScanPlain<L>(lines: seq<L>, header: seq<L>, keyLine: L -> bool, p: nat, hadHeader: bool, sawKey: bool)
    requires HeaderShape(header, keyLine) && p < |lines| && !HeaderAt(lines, header, p)
    requires ScanAt(lines, header, keyLine, p, hadHeader, sawKey)
    ensures ScanAt(lines, header, keyLine, p + 1, hadHeader, sawKey || keyLine(lines[p]))
  {
    if Armed(lines, header, keyLine, p) && !keyLine(lines[p]) {
      var i: nat :| HeaderAt(lines, header, i) && i + 4 <= p && NoKeyBetween(lines, keyLine, i + 4, p);
      assert NoKeyBetween(lines, keyLine, i + 4, p + 1);
    }
    if Armed(lines, header, keyLine, p + 1) {
      var i: nat :| HeaderAt(lines, header, i) && i + 4 <= p + 1 && NoKeyBetween(lines, keyLine, i + 4, p + 1);
      ArmedBefore(lines, header, keyLine, p, i, hadHeader, sawKey);
      assert !keyLine(lines[p]);
    }
  }

  lemma ScanHeader<L>(lines: seq<L>, header: seq<L>, keyLine: L -> bool, p: nat)
    requires HeaderShape(header, keyLine) && HeaderAt(lines, header, p)
    ensures ScanAt(lines, header, keyLine, p + 4, true, false)
  {
    assert NoKeyBetween(lines, keyLine, p + 4, p + 4);
    forall q: nat | q < p + 4 < q + 4 && HeaderAt(lines, header, q) ensures 3 <= q && HeaderAt(lines, header, q - 3) {
      BlocksOverlapByBars(lines, header, keyLine, p, q);
    }
  }

  /** From a header block that is kept, the next close pair starts behind it. */
  lemma NextCloseHeaders<L>(lines: seq<L>, header: seq<L>, keyLine: L -> bool, p: nat, hadHeader: bool, sawKey: bool)
    requires HeaderShape(header, keyLine) && HeaderAt(lines, header, p)
    requires ScanAt(lines, header, keyLine, p, hadHeader, sawKey) && !(hadHeader && !sawKey)
    ensures CloseHeaders(lines, header, keyLine, p) <==> CloseHeaders(lines, header, keyLine, p + 4)
  {
    if CloseHeaders(lines, header, keyLine, p) {
      var j: nat :| p <= j && HeaderAt(lines, header, j) && Armed(lines, header, keyLine, j);
      var i: nat :| HeaderAt(lines, header, i) && i + 4 <= j && NoKeyBetween(lines, keyLine, i + 4, j);
      if j < p + 4 {
        if p < j {
          BlocksOverlapByBars(lines, header, keyLine, p, j);
        }
        ArmedBefore(lines, header, keyLine, p, i, hadHeader, sawKey);
        assert false;
      }
    }
  }

  lemma KeptShorter<L>(lines: seq<L>, header: seq<L>, keyLine: L -> bool, p: nat, hadHeader: bool, sawKey: bool)
    requires p <= |lines| && |header| == 4
    ensures |Kept(lines, header, keyLine, p, hadHeader, sawKey)| <= |lines| - p
    decreases |lines| - p
  {
    if p == |lines| {
    } else {
      if HeaderAt(lines, header, p) {
        KeptShorter(lines, header, keyLine, p + 4, true, false);
      } else {
        KeptShorter(lines, header, keyLine, p + 1, hadHeader, sawKey || keyLine(lines[p]));
      }
    }
  }

  lemma NextCloseHeadersPlain<L>(lines: seq<L>, header: seq<L>, keyLine: L -> bool, p: nat)
    requires |header| == 4 && !HeaderAt(lines, header, p)
    ensures CloseHeaders(lines, header, keyLine, p) <==> CloseHeaders(lines, header, keyLine, p + 1)
  {
  }

  lemma KeptPlain<L>(lines: seq<L>, header: seq<L>, keyLine: L -> bool, p: nat, hadHeader: bool, sawKey: bool)
    requires |header| == 4 && p < |lines| && !HeaderAt(lines, header, p)
    ensures Kept(lines, header, keyLine, p, hadHeader, sawKey) == lines[p..]
      <==> Kept(lines, header, keyLine, p + 1, hadHeader, sawKey || keyLine(lines[p])) == lines[p + 1..]
  {
    assert lines[p..] == [lines[p]] + lines[p + 1..];
    SamePrefix([lines[p]], Kept(lines, header, keyLine, p + 1, hadHeader, sawKey || keyLine(lines[p])), lines[p + 1..]);
  }

  lemma KeptBlock<L>(lines: seq<L>, header: seq<L>, keyLine: L -> bool, p: nat, hadHeader: bool, sawKey: bool)
    requires |header| == 4 && HeaderAt(lines, header, p) && !(hadHeader && !sawKey)
    ensures Kept(lines, header, keyLine, p, hadHeader, sawKey) == lines[p..]
      <==> Kept(lines, header, keyLine, p + 4, true, false) == lines[p + 4..]
  {
    assert lines[p..] == lines[p..p + 4] + lines[p + 4..];
    SamePrefix(lines[p..p + 4], Kept(lines, header, keyLine, p + 4, true, false), lines[p + 4..]);
  }

  lemma DroppedBlock<L>(lines: seq<L>, header: seq<L>, keyLine: L -> bool, p: nat)
    requires |header| == 4 && HeaderAt(lines, header, p)
    ensures |Kept(lines, header, keyLine, p, true, false)| < |lines| - p
  {
    KeptShorter(lines, header, keyLine, p + 4, true, false);
  }

  lemma {:induction false} ScanDropsNothing<L>(
    lines: seq<L>, header: seq<L>, keyLine: L -> bool, p: nat, hadHeader: bool, sawKey: bool)
    requires p <= |lines| && HeaderShape(header, keyLine)
    requires ScanAt(lines, header, keyLine, p, hadHeader, sawKey)
    ensures Kept(lines, header, keyLine, p, hadHeader, sawKey) == lines[p..] <==> !CloseHeaders(lines, header, keyLine, p)
    decreases |lines| - p
  {
    if p == |lines| {
    } else if !HeaderAt(lines, header, p) {
      ScanPlain(lines, header, keyLine, p, hadHeader, sawKey);
      ScanDropsNothing(lines, header, keyLine, p + 1, hadHeader, sawKey || keyLine(lines[p]));
      KeptPlain(lines, header, keyLine, p, hadHeader, sawKey);
      NextCloseHeadersPlain(lines, header, keyLine, p);
    } else if hadHeader && !sawKey {
      DroppedBlock(lines, header, keyLine, p);
    } else {
      ScanHeader(lines, header, keyLine, p);
      ScanDropsNothing(lines, header, keyLine, p + 4, true, false);
      KeptBlock(lines, header, keyLine, p, hadHeader, sawKey);
      NextCloseHeaders(lines, header, keyLine, p, hadHeader, sawKey);
    }
  }

  lemma SamePrefix<L>(a: seq<L>, b: seq<L>, c: seq<L>)
    ensures a + b == a + c <==> b == c
  {
    if a + b == a + c {
      assert b == (a + b)[|a|..] && c == (a + c)[|a|..];
    }
  }

  /** The pass changes nothing exactly when no two header blocks stand one after the
      other without a key line between them. */
  lemma UnchangedIff<L>(lines: seq<L>, header: seq<L>, keyLine: L -> bool)
    requires HeaderShape(header, keyLine)
    ensures Kept(lines, header, keyLine, 0, false, false) == lines <==> !CloseHeaders(lines, header, keyLine, 0)
  {
    ScanDropsNothing(lines, header, keyLine, 0, false, false);
    assert lines[0..] == lines;
  }

  // ---- A second pass -------------------------------------------------------------------------

  /** From `p` on, with whole header blocks passed over, the lines begin with `word`. */
  predicate Spells<L(==)>(lines: seq<L>, header: seq<L>, p: nat, word: seq<L>)
    requires |header| == 4
    decreases |lines| - p
  {
    || word == []
    || (p < |lines| && if HeaderAt(lines, header, p) then Spells(lines, header, p + 4, word)
                       else lines[p] == word[0] && Spells(lines, header, p + 1, word[1..]))
  }

  /** The scan from `p` on stops, behind a header and before any key line, at a line of
      its own from which the lines spell the header across blocks that it drops. */
  predicate Rejoins<L(==)>(lines: seq<L>, header: seq<L>, keyLine: L -> bool, p: nat, hadHeader: bool, sawKey: bool)
    requires |header| == 4
    decreases |lines| - p
  {
    && p < |lines|
    && if HeaderAt(lines, header, p) then Rejoins(lines, header, keyLine, p + 4, true, false)
       else (hadHeader && !sawKey && Spells(lines, header, p, header))
            || Rejoins(lines, header, keyLine, p + 1, hadHeader, sawKey || keyLine(lines[p]))
  }

  predicate StartsWith<L(==)>(lines: seq<L>, word: seq<L>) {
    |word| <= |lines| && forall i :: 0 <= i < |word| ==> lines[i] == word[i]
  }

  lemma StartsWithMore<L>(line: L, rest: seq<L>, word: seq<L>)
    requires word != []
    ensures StartsWith([line] + rest, word) <==> line == word[0] && StartsWith(rest, word[1..])
  {
    if line == word[0] && StartsWith(rest, word[1..]) {
      forall i | 0 <= i < |word| ensures ([line] + rest)[i] == word[i] {
        if i > 0 {
          assert word[i] == word[1..][i - 1];
        }
      }
    }
    if StartsWith([line] + rest, word) {
      forall i | 0 <= i < |word| - 1 ensures rest[i] == word[1..][i] {
        assert ([line] + rest)[i + 1] == word[i + 1];
      }
    }
  }

  /** While blocks are dropped, what is kept begins with a word exactly when the lines
      spell it. */
  lemma {:induction false} SpellsIsKept<L>(lines: seq<L>, header: seq<L>, keyLine: L -> bool, p: nat, word: seq<L>)
    requires p <= |lines| && |header| == 4 && forall i :: 0 <= i < |word| ==> !keyLine(word[i])
    ensures StartsWith(Kept(lines, header, keyLine, p, true, false), word) <==> Spells(lines, header, p, word)
    decreases |lines| - p
  {
    if word == [] || p == |lines| {
    } else if HeaderAt(lines, header, p) {
      SpellsIsKept(lines, header, keyLine, p + 4, word);
    } else {
      var rest := Kept(lines, header, keyLine, p + 1, true, keyLine(lines[p]));
      StartsWithMore(lines[p], rest, word);
      if lines[p] == word[0] {
        SpellsIsKept(lines, header, keyLine, p + 1, word[1..]);
      }
    }
  }

  /** Where no block is dropped, a header among the kept lines was one before. */
  lemma KeptHeaderWasThere<L>(lines: seq<L>, header: seq<L>, keyLine: L -> bool, p: nat, hadHeader: bool, sawKey: bool)
    requires HeaderShape(header, keyLine) && p < |lines| && !(hadHeader && !sawKey)
    requires StartsWith(Kept(lines, header, keyLine, p, hadHeader, sawKey), header)
    ensures HeaderAt(lines, header, p)
  {
    if !HeaderAt(lines, header, p) {
      var saw := sawKey || keyLine(lines[p]);
      KeptLine(lines, header, keyLine, p, hadHeader, sawKey, header);
      KeptLine(lines, header, keyLine, p + 1, hadHeader, saw, header[1..]);
      KeptLine(lines, header, keyLine, p + 2, hadHeader, saw || keyLine(lines[p + 1]), header[2..]);
    }
  }

  /** One line of a word read from the kept lines, where no block is dropped. */
  lemma KeptLine<L>(lines: seq<L>, header: seq<L>, keyLine: L -> bool, p: nat, hadHeader: bool, sawKey: bool, word: seq<L>)
    requires HeaderShape(header, keyLine) && p <= |lines| && !(hadHeader && !sawKey) && |word| > 1
    requires StartsWith(Kept(lines, header, keyLine, p, hadHeader, sawKey), word) && (HeaderAt(lines, header, p) ==> word[0] != header[0])
    ensures p < |lines| && lines[p] == word[0] && !HeaderAt(lines, header, p)
    ensures StartsWith(Kept(lines, header, keyLine, p + 1, hadHeader, sawKey || keyLine(lines[p])), word[1..])
  {
    if p < |lines| && !HeaderAt(lines, header, p) {
      StartsWithMore(lines[p], Kept(lines, header, keyLine, p + 1, hadHeader, sawKey || keyLine(lines[p])), word);
    }
  }

  /** The scan of a suffix is the scan from that place. */
  lemma {:induction false} KeptShift<L>(
    before: seq<L>, lines: seq<L>, header: seq<L>, keyLine: L -> bool, i: nat, hadHeader: bool, sawKey: bool)
    requires i <= |lines| && |header| == 4
    ensures Kept(before + lines, header, keyLine, |before| + i, hadHeader, sawKey) == Kept(lines, header, keyLine, i, hadHeader, sawKey)
    decreases |lines| - i
  {
    if i == |lines| {
    } else {
      var all, at := before + lines, |before| + i;
      assert all[at] == lines[i] && (HeaderAt(all, header, at) <==> HeaderAt(lines, header, i));
      if HeaderAt(lines, header, i) {
        KeptShift(before, lines, header, keyLine, i + 4, true, false);
        assert all[at..at + 4] == lines[i..i + 4];
      } else {
        KeptShift(before, lines, header, keyLine, i + 1, hadHeader, sawKey || keyLine(lines[i]));
      }
    }
  }

  lemma StartsWithHeader<L>(lines: seq<L>, header: seq<L>)
    requires |header| == 4
    ensures StartsWith(lines, header) <==> HeaderAt(lines, header, 0)
  {
  }

  predicate Stable<L(==)>(rest: seq<L>, header: seq<L>, keyLine: L -> bool, hadHeader: bool, sawKey: bool)
    requires |header| == 4
  {
    Kept(rest, header, keyLine, 0, hadHeader, sawKey) == rest
  }

  lemma StablePlain<L>(line: L, rest: seq<L>, header: seq<L>, keyLine: L -> bool, hadHeader: bool, sawKey: bool)
    requires |header| == 4 && !HeaderAt([line] + rest, header, 0)
    ensures Stable([line] + rest, header, keyLine, hadHeader, sawKey)
      <==> Stable(rest, header, keyLine, hadHeader, sawKey || keyLine(line))
  {
    KeptShift([line], rest, header, keyLine, 0, hadHeader, sawKey || keyLine(line));
    SamePrefix([line], Kept(rest, header, keyLine, 0, hadHeader, sawKey || keyLine(line)), rest);
  }

  lemma StableBlock<L>(rest: seq<L>, header: seq<L>, keyLine: L -> bool, hadHeader: bool, sawKey: bool)
    requires |header| == 4 && !(hadHeader && !sawKey)
    ensures Stable(header + rest, header, keyLine, hadHeader, sawKey) <==> Stable(rest, header, keyLine, true, false)
  {
    KeptShift(header, rest, header, keyLine, 0, true, false);
    assert (header + rest)[0..4] == header;
    SamePrefix(header, Kept(rest, header, keyLine, 0, true, false), rest);
  }

  lemma UnstableBlock<L>(rest: seq<L>, header: seq<L>, keyLine: L -> bool)
    requires |header| == 4 && HeaderAt(rest, header, 0)
    ensures !Stable(rest, header, keyLine, true, false)
  {
    KeptShorter(rest, header, keyLine, 4, true, false);
  }

  lemma {:induction false} SecondPassFrom<L>(lines: seq<L>, header: seq<L>, keyLine: L -> bool, p: nat, hadHeader: bool, sawKey: bool)
    requires HeaderShape(header, keyLine) && p <= |lines|
    ensures Stable(Kept(lines, header, keyLine, p, hadHeader, sawKey), header, keyLine, hadHeader, sawKey)
      <==> !Rejoins(lines, header, keyLine, p, hadHeader, sawKey)
    decreases |lines| - p
  {
    if p == |lines| {
    } else if HeaderAt(lines, header, p) {
      SecondPassFrom(lines, header, keyLine, p + 4, true, false);
      if !(hadHeader && !sawKey) {
        assert lines[p..p + 4] == header;
        StableBlock(Kept(lines, header, keyLine, p + 4, true, false), header, keyLine, hadHeader, sawKey);
      }
    } else {
      SecondPassPlain(lines, header, keyLine, p, hadHeader, sawKey);
      SecondPassFrom(lines, header, keyLine, p + 1, hadHeader, sawKey || keyLine(lines[p]));
    }
  }

  lemma SecondPassPlain<L>(lines: seq<L>, header: seq<L>, keyLine: L -> bool, p: nat, hadHeader: bool, sawKey: bool)
    requires HeaderShape(header, keyLine) && p < |lines| && !HeaderAt(lines, header, p)
    ensures var saw := sawKey || keyLine(lines[p]);
      Stable(Kept(lines, header, keyLine, p, hadHeader, sawKey), header, keyLine, hadHeader, sawKey)
      <==> Stable(Kept(lines, header, keyLine, p + 1, hadHeader, saw), header, keyLine, hadHeader, saw)
           && !(hadHeader && !sawKey && Spells(lines, header, p, header))
  {
    var rest := Kept(lines, header, keyLine, p, hadHeader, sawKey);
    StartsWithHeader(rest, header);
    if hadHeader && !sawKey {
      SpellsIsKept(lines, header, keyLine, p, header);
    } else if StartsWith(rest, header) {
      KeptHeaderWasThere(lines, header, keyLine, p, hadHeader, sawKey);
    }
    if HeaderAt(rest, header, 0) {
      UnstableBlock(rest, header, keyLine);
    } else {
      StablePlain(lines[p], Kept(lines, header, keyLine, p + 1, hadHeader, sawKey || keyLine(lines[p])), header, keyLine, hadHeader, sawKey);
    }
  }

  /** A second pass changes something exactly when the first one lets lines rejoin into
      a header across the blocks it drops. */
  lemma SecondPassIff<L>(lines: seq<L>, header: seq<L>, keyLine: L -> bool)
    requires HeaderShape(header, keyLine)
    ensures var once := Kept(lines, header, keyLine, 0, false, false);
      Kept(once, header, keyLine, 0, false, false) == once <==> !Rejoins(lines, header, keyLine, 0, false, false)
  {
    SecondPassFrom(lines, header, keyLine, 0, false, false);
  }

  /** A pass can leave a new pair behind: in H h0 h1 H h2 h3 the middle block goes,
      its neighbours close up, and a second pass drops them too. */
  lemma SecondPassDropsMore<L>(header: seq<L>, keyLine: L -> bool)
    requires HeaderShape(header, keyLine)
    ensures var lines := header + header[..2] + header + header[2..];
      var once := Kept(lines, header, keyLine, 0, false, false);
      once == header + header && Kept(once, header, keyLine, 0, false, false) == header
  {
    var lines := header + header[..2] + header + header[2..];
    assert Kept(lines, header, keyLine, 12, true, false) == [];
    assert Kept(lines, header, keyLine, 11, true, false) == [header[3]];
    assert Kept(lines, header, keyLine, 10, true, false) == header[2..];
    assert Kept(lines, header, keyLine, 6, true, false) == header[2..];
    assert Kept(lines, header, keyLine, 5, true, false) == header[1..];
    assert Kept(lines, header, keyLine, 4, true, false) == header;
    assert lines[..4] == header;
    var once := header + header;
    assert Kept(once, header, keyLine, 8, true, false) == [];
    assert Kept(once, header, keyLine, 4, true, false) == [];
    assert once[..4] == header;
  }

  /** Two headers with one line between. */
  lemma BetweenHeaders<L>(header: seq<L>, keyLine: L -> bool, line: L)
    requires HeaderShape(header, keyLine)
    ensures Kept(header + [line] + header, header, keyLine, 0, false, false) ==
      if keyLine(line) then header + [line] + header else header + [line]
  {
    var lines := header + [line] + header;
    assert Kept(lines, header, keyLine, 9, true, false) == [];
    assert lines[5..9] == header && lines[4] == line;
    assert !HeaderAt(lines, header, 4);
    assert Kept(lines, header, keyLine, 5, true, keyLine(line)) == if keyLine(line) then header else [];
    assert Kept(lines, header, keyLine, 4, true, false) == [line] + if keyLine(line) then header else [];
    assert lines[0..4] == header;
  }
}
