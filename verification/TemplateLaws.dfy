/** Laws of the template merge: what parsing a merged file gives, that merging
    composes, and when merging twice changes nothing. */
module TemplateLaws {
  import opened Wrappers
  import opened Text
  import opened KeyedLines
  import opened EnvText
  import opened TemplateMerge
  import opened HeaderPass

  predicate CleanLine(line: string) {
    SingleLine(line) && FlushLeft(line)
  }

  ghost predicate Clean(lines: seq<string>) {
    All(lines, CleanLine)
  }

  predicate ValidUpdates(updates: map<string, string>) {
    forall k :: k in updates ==> ValidName(k) && SingleLine(updates[k])
  }

  function TrimTail(value: string): string {
    TrimEnd(value, JsSpace)
  }

  function Trimmed(updates: map<string, string>): map<string, string> {
    MapValues(updates, TrimTail)
  }

  /** An update's value without trailing space, else the template's first one. */
  function Expected(first: map<string, string>, updates: map<string, string>): map<string, string> {
    first + Trimmed(updates)
  }

  // ---- What the concrete lines define ------------------------------------------------------

  lemma AssignmentStart(line: string)
    requires MatchKey(line).Some?
    ensures line != "" && !JsSpace(line[0]) && line[0] != '#'
  {
    assert NameChar(MatchKey(line).value.key[0]);
  }

  lemma RenderedClean(key: string, value: string)
    requires ValidName(key) && SingleLine(value)
    ensures CleanLine(Render(key, value)) && KeyOf(Render(key, value)) == Some(key)
  {
    RenderedSingleLine(key, value);
    MatchRendered(key, value);
    AssignmentStart(Render(key, value));
  }

  /** Blank lines and comments in column one. */
  predicate Silent(line: string) {
    line == "" || line[0] == '#'
  }

  lemma SilentDefinesNothing(line: string)
    requires Silent(line)
    ensures ParseLine(line).None? && FlushLeft(line) && KeyOf(line).None?
  {
    assert TrimStart(line, JsSpace) == line;
    assert Trim(line, JsSpace) <= line;
  }

  lemma SilentLines(lines: seq<string>)
    requires forall i :: 0 <= i < |lines| ==> Silent(lines[i])
    ensures Defines(lines, ParseLine, map[]) && KeyLines(lines, KeyOf) == []
    ensures |lines| == 4 ==> SilentHeader(lines, ParseLine) && forall j :: 0 <= j < 4 ==> KeyOf(lines[j]).None?
  {
    forall i | 0 <= i < |lines| ensures ParseLine(lines[i]).None? && KeyOf(lines[i]).None? {
      SilentDefinesNothing(lines[i]);
    }
    WinsNothing(lines, ParseLine);
    NoKeyLines(lines, KeyOf);
  }

  lemma HeaderIsSilent()
    ensures SilentHeader(HEADER, ParseLine) && forall j :: 0 <= j < 4 ==> KeyOf(HEADER[j]).None?
  {
    assert BAR[0] == '#' && TITLE[0] == '#' && HINT[0] == '#';
    SilentLines(HEADER);
  }

  lemma AddedIsSingle()
    ensures SingleLine(ADDED) && SingleLine("")
  {
    assert |ADDED| == 24;
  }

  lemma HeadingIsSilent(out: seq<string>)
    ensures Defines(Heading(out), ParseLine, map[]) && KeyLines(Heading(out), KeyOf) == []
  {
    assert Silent(ADDED) && Silent("");
    SilentLines(Heading(out));
  }

  lemma HeadingIsClean(out: seq<string>)
    ensures Clean(Heading(out))
  {
    AddedIsSingle();
    assert Silent(ADDED) && Silent("");
    forall i | 0 <= i < |Heading(out)| ensures CleanLine(Heading(out)[i]) {
      SilentDefinesNothing(Heading(out)[i]);
    }
  }

  lemma HeadingHasNoTitle(out: seq<string>)
    ensures Occurrences(Heading(out), TITLE) == 0
  {
    assert ADDED[2] == 'A' && TITLE[2] == 'T';
    NoOccurrences(Heading(out), TITLE);
  }

  lemma WrittenLinesRead(updates: map<string, string>)
    requires ValidUpdates(updates)
    ensures forall k :: k in updates ==> ParseLine(WrittenLines(updates)[k]) == Some(Assignment(k, Trimmed(updates)[k]))
    ensures WrittenHaveKeys(WrittenLines(updates), KeyOf)
    ensures forall k :: k in updates ==> CleanLine(WrittenLines(updates)[k])
  {
    forall k | k in updates
      ensures ParseLine(WrittenLines(updates)[k]) == Some(Assignment(k, Trimmed(updates)[k]))
      ensures KeyOf(WrittenLines(updates)[k]) == Some(k) && CleanLine(WrittenLines(updates)[k])
    {
      ParseRendered(k, updates[k]);
      RenderedClean(k, updates[k]);
    }
  }

  lemma CleanLineAgrees(line: string)
    requires CleanLine(line)
    ensures KeyOf(line) == if ParseLine(line).Some? then Some(ParseLine(line).value.key) else None
  {
    FlushLeftAgrees(line);
  }

  lemma CleanIsCoherent(lines: seq<string>, updates: map<string, string>)
    requires Clean(lines) && ValidUpdates(updates)
    ensures Coherent(lines, KeyOf, ParseLine, WrittenLines(updates), Trimmed(updates))
  {
    WrittenLinesRead(updates);
    forall i | 0 <= i < |lines|
      ensures KeyOf(lines[i]) == if ParseLine(lines[i]).Some? then Some(ParseLine(lines[i]).value.key) else None
    {
      CleanLineAgrees(lines[i]);
    }
  }

  // ---- The pieces of a merge -----------------------------------------------------------------

  lemma RewriteLaw(lines: seq<string>, updates: map<string, string>)
    requires Clean(lines) && ValidUpdates(updates)
    ensures var r := RewriteAll(lines, updates);
      && Clean(r.out) && r.seen == FirstWins(lines, ParseLine).Keys
      && Defines(r.out, ParseLine, Chosen(FirstWins(lines, ParseLine), Trimmed(updates)))
  {
    CleanIsCoherent(lines, updates);
    RewriteDefines(lines, KeyOf, ParseLine, WrittenLines(updates), Trimmed(updates));
    WrittenLinesRead(updates);
    RewriteAllLines(lines, KeyOf, WrittenLines(updates), CleanLine);
  }

  lemma AppendixLaw(out: seq<string>, order: seq<string>, updates: map<string, string>)
    requires ValidUpdates(updates) && (forall k :: k in order ==> k in updates) && Distinct(order)
    ensures Defines(Appendix(out, order, updates), ParseLine, Restricted(order, Trimmed(updates)))
  {
    if order != [] {
      HeadingIsSilent(out);
      WrittenLinesRead(updates);
      SelectDefines(order, ParseLine, WrittenLines(updates), Trimmed(updates));
      SilentBefore(Heading(out), Select(order, WrittenLines(updates)), ParseLine, Restricted(order, Trimmed(updates)));
    }
  }

  lemma AppendixClean(out: seq<string>, order: seq<string>, updates: map<string, string>)
    requires ValidUpdates(updates) && (forall k :: k in order ==> k in updates)
    ensures Clean(Appendix(out, order, updates))
  {
    if order != [] {
      HeadingIsClean(out);
      WrittenLinesRead(updates);
      SelectAll(order, WrittenLines(updates), CleanLine);
      AllConcat(Heading(out), Select(order, WrittenLines(updates)), CleanLine);
    }
  }

  lemma MergedLinesLaw(lines: seq<string>, updates: map<string, string>, order: seq<string>)
    requires Clean(lines) && ValidUpdates(updates)
    requires (forall k :: k in order ==> k in updates) && MissingOrder(order, lines, updates)
    ensures Clean(MergedLines(lines, updates, order))
    ensures Defines(MergedLines(lines, updates, order), ParseLine, Expected(FirstWins(lines, ParseLine), updates))
  {
    var out, first := RewriteAll(lines, updates).out, FirstWins(lines, ParseLine);
    RewriteLaw(lines, updates);
    AppendixLaw(out, order, updates);
    AppendixClean(out, order, updates);
    AllConcat(out, Appendix(out, order, updates), CleanLine);
    WinsConcat(out, Appendix(out, order, updates), ParseLine);
    ChosenPlusMissing(first, Trimmed(updates), order);
  }

  lemma RemoveHeaderLaw(lines: seq<string>)
    ensures LastWins(RemoveDuplicateHeader(lines), ParseLine) == LastWins(lines, ParseLine)
    ensures FirstWins(RemoveDuplicateHeader(lines), ParseLine) == FirstWins(lines, ParseLine)
    ensures lines != [] ==> RemoveDuplicateHeader(lines) != []
  {
    HeaderIsSilent();
    KeptDefines(lines, HEADER, KeyLine, 0, false, false, ParseLine);
    if lines != [] {
      KeptSome(lines, HEADER, KeyLine);
    }
    assert lines[0..] == lines;
  }

  lemma SingleLinesAreAll(lines: seq<string>)
    ensures All(lines, SingleLine) <==> SingleLines(lines)
    ensures Clean(lines) ==> SingleLines(lines)
  {
  }

  /** The merged text splits back into the merged lines. */
  lemma MergedText(template: string, updates: map<string, string>, order: seq<string>)
    requires (forall k :: k in order ==> k in updates) && All(MergedLines(SplitLines(template), updates, order), SingleLine)
    ensures SplitLines(Merge(template, updates, order)) == RemoveDuplicateHeader(MergedLines(SplitLines(template), updates, order))
  {
    var merged := MergedLines(SplitLines(template), updates, order);
    RewriteOrigins(SplitLines(template), KeyOf, WrittenLines(updates));
    RemoveHeaderLaw(merged);
    KeptAll(merged, HEADER, KeyLine, SingleLine);
    SingleLinesAreAll(RemoveDuplicateHeader(merged));
    SplitJoin(RemoveDuplicateHeader(merged));
  }

  // ---- The laws ----------------------------------------------------------------------------------

  /** Assignments start in column one and the text has no stray CR or Unicode line
      separator. */
  ghost predicate CleanTemplate(template: string) {
    Clean(SplitLines(template))
  }

  function TemplateDefs(template: string): map<string, string> {
    FirstWins(SplitLines(template), ParseLine)
  }

  /** `order` lists exactly the updated keys the template lacks, each once. */
  ghost predicate AppendOrder(order: seq<string>, template: string, updates: map<string, string>) {
    (forall k :: k in order ==> k in updates) && MissingOrder(order, SplitLines(template), updates)
  }

  /** Parsing a merged file gives exactly the updates, without trailing space, and
      the template's first definition of every other key, in whatever order missing
      keys were appended and whichever headers were dropped. */
  lemma MergeLaw(template: string, updates: map<string, string>, order: seq<string>)
    requires CleanTemplate(template) && ValidUpdates(updates)
    requires AppendOrder(order, template, updates)
    ensures Parse(Merge(template, updates, order)) == Expected(TemplateDefs(template), updates)
    ensures CleanTemplate(Merge(template, updates, order))
    ensures TemplateDefs(Merge(template, updates, order)) == Expected(TemplateDefs(template), updates)
  {
    var lines := SplitLines(template);
    var merged := MergedLines(lines, updates, order);
    MergedLinesLaw(lines, updates, order);
    RemoveHeaderLaw(merged);
    SingleLinesAreAll(merged);
    MergedText(template, updates, order);
    KeptAll(merged, HEADER, KeyLine, CleanLine);
  }

  lemma SingleIsConsistent(lines: seq<string>, updates: map<string, string>)
    requires SingleLines(lines) && ValidUpdates(updates)
    ensures Consistent(lines, KeyOf, ParseLine, WrittenLines(updates), Trimmed(updates))
  {
    WrittenLinesRead(updates);
    forall i | 0 <= i < |lines| && KeyOf(lines[i]).Some?
      ensures ParseLine(lines[i]).Some? && ParseLine(lines[i]).value.key == KeyOf(lines[i]).value
    {
      var m := MatchAssign(lines[i]).value;
      ParseRendered(m.key, m.value);
    }
  }

  /** The value an indented line leaves behind for a key that a flush-left line defines,
      if any. */
  function Leftover(template: string, k: string): Option<string> {
    Shadow(SplitLines(template), KeyOf, ParseLine, k)
  }

  /** The first flush-left definition of each key. */
  function FlushLeftDefs(template: string): map<string, string> {
    FirstWins(SplitLines(template), KeyedRead(KeyOf, ParseLine))
  }

  /** What a key of a merged file reads as: an indented leftover, the update, the first
      flush-left definition, or for a key that only indented lines define the last one. */
  function MergedValue(template: string, updates: map<string, string>, k: string): Option<string> {
    if k in FlushLeftDefs(template) && Leftover(template, k).Some? then Leftover(template, k)
    else if k in updates then Some(TrimTail(updates[k]))
    else if k in FlushLeftDefs(template) then Some(FlushLeftDefs(template)[k])
    else Lookup(Parse(template), k)
  }

  lemma AppendedReads(out: seq<string>, order: seq<string>, updates: map<string, string>, k: string)
    requires ValidUpdates(updates) && (forall x :: x in order ==> x in updates) && Distinct(order)
    ensures Lookup(LastWins(out + Appendix(out, order, updates), ParseLine), k) ==
      if k in order then Some(TrimTail(updates[k])) else Lookup(LastWins(out, ParseLine), k)
  {
    AppendixLaw(out, order, updates);
    WinsConcat(out, Appendix(out, order, updates), ParseLine);
  }

  lemma RewriteReads(lines: seq<string>, updates: map<string, string>, k: string)
    requires SingleLines(lines) && ValidUpdates(updates)
    ensures Lookup(LastWins(RewriteAll(lines, updates).out, ParseLine), k) == AfterRewrite(lines, KeyOf, ParseLine, Trimmed(updates), k)
    ensures k in RewriteAll(lines, updates).seen <==> k in FirstWins(lines, KeyedRead(KeyOf, ParseLine))
    ensures k in RewriteAll(lines, updates).seen <==> HasKey(lines, KeyOf, k)
  {
    SingleIsConsistent(lines, updates);
    RewrittenReads(lines, KeyOf, ParseLine, WrittenLines(updates), Trimmed(updates), k);
    SeenIsHasKey(lines, KeyOf, WrittenLines(updates), k);
    KeyedHas(lines, KeyOf, ParseLine, WrittenLines(updates), Trimmed(updates), k);
  }

  /** For every template of single lines and every key: what the merged file parses to. */
  lemma MergeReads(template: string, updates: map<string, string>, order: seq<string>, k: string)
    requires SingleLines(SplitLines(template)) && ValidUpdates(updates) && AppendOrder(order, template, updates)
    ensures Lookup(Parse(Merge(template, updates, order)), k) == MergedValue(template, updates, k)
  {
    var lines := SplitLines(template);
    RewriteReads(lines, updates, k);
    AppendedReads(RewriteAll(lines, updates).out, order, updates, k);
    MergedSingleLines(lines, updates, order);
    MergedText(template, updates, order);
    RemoveHeaderLaw(MergedLines(lines, updates, order));
  }

  /** So an update is what the merged file parses to exactly when no indented line
      defines its key otherwise after a flush-left one. */
  lemma UpdateIsReadIff(template: string, updates: map<string, string>, order: seq<string>, k: string)
    requires SingleLines(SplitLines(template)) && ValidUpdates(updates) && AppendOrder(order, template, updates) && k in updates
    ensures var env := Parse(Merge(template, updates, order));
      && k in env
      && (env[k] == TrimTail(updates[k]) <==> Leftover(template, k).None? || Leftover(template, k) == Some(TrimTail(updates[k])))
  {
    MergeReads(template, updates, order, k);
    RewriteReads(SplitLines(template), updates, k);
    if k !in FlushLeftDefs(template) {
      ShadowNeedsKey(SplitLines(template), KeyOf, ParseLine, k);
    }
  }

  lemma TrimmedOverride(first: map<string, string>, u1: map<string, string>, u2: map<string, string>)
    ensures Expected(Expected(first, u1), u2) == Expected(first, u1 + u2)
  {
    OverrideComposes(first, u1, u2, TrimTail);
  }

  /** Merging U1 and then U2 parses like merging U1 overridden by U2. */
  lemma MergeComposes(
    template: string, u1: map<string, string>, o1: seq<string>, u2: map<string, string>, o2: seq<string>, o12: seq<string>)
    requires CleanTemplate(template) && ValidUpdates(u1) && ValidUpdates(u2)
    requires AppendOrder(o1, template, u1) && AppendOrder(o2, Merge(template, u1, o1), u2) && AppendOrder(o12, template, u1 + u2)
    ensures Parse(Merge(Merge(template, u1, o1), u2, o2)) == Parse(Merge(template, u1 + u2, o12))
  {
    var defs, once := TemplateDefs(template), Merge(template, u1, o1);
    assert Parse(Merge(template, u1 + u2, o12)) == Expected(defs, u1 + u2) by {
      MergeLaw(template, u1 + u2, o12);
    }
    assert CleanTemplate(once) && TemplateDefs(once) == Expected(defs, u1) by {
      MergeLaw(template, u1, o1);
    }
    assert Parse(Merge(once, u2, o2)) == Expected(TemplateDefs(once), u2) by {
      MergeLaw(once, u2, o2);
    }
    TrimmedOverride(defs, u1, u2);
  }

  // ---- Merging twice --------------------------------------------------------------------------

  /** Every merged file is settled for its updates. */
  lemma MergedSettles(lines: seq<string>, updates: map<string, string>, order: seq<string>) returns (keys: set<string>)
    requires ValidUpdates(updates) && (forall k :: k in order ==> k in updates) && MissingOrder(order, lines, updates)
    ensures updates.Keys <= keys
    ensures Settled(KeyLines(MergedLines(lines, updates, order), KeyOf), KeyOf, WrittenLines(updates), keys)
  {
    var r, written := RewriteAll(lines, updates), WrittenLines(updates);
    WrittenLinesRead(updates);
    RewriteSettles(lines, KeyOf, written);
    keys := r.seen + Names(order);
    KeyLinesConcat(r.out, Appendix(r.out, order, updates), KeyOf);
    SelectSettles(order, KeyOf, written, r.seen, KeyLines(r.out, KeyOf));
    if order == [] {
      assert Select(order, written) == [];
    } else {
      HeadingIsSilent(r.out);
      KeyLinesConcat(Heading(r.out), Select(order, written), KeyOf);
      assert [] + KeyLines(Select(order, written), KeyOf) == KeyLines(Select(order, written), KeyOf);
    }
  }

  lemma MergedSingleLines(lines: seq<string>, updates: map<string, string>, order: seq<string>)
    requires SingleLines(lines) && ValidUpdates(updates) && (forall k :: k in order ==> k in updates)
    ensures All(MergedLines(lines, updates, order), SingleLine)
  {
    var out := RewriteAll(lines, updates).out;
    SingleLinesAreAll(lines);
    WrittenLinesRead(updates);
    RewriteAllLines(lines, KeyOf, WrittenLines(updates), SingleLine);
    AppendixClean(out, order, updates);
    SingleLinesAreAll(Appendix(out, order, updates));
    AllConcat(out, Appendix(out, order, updates), SingleLine);
  }

  lemma FirstIsIn(order: seq<string>)
    requires order != []
    ensures order[0] in order
  {
  }

  /** For every template: merging the same updates again only runs the header pass
      once more over the first result. */
  lemma SecondMergeOnlyRescansHeaders(template: string, updates: map<string, string>, o1: seq<string>, o2: seq<string>)
    requires SingleLines(SplitLines(template)) && ValidUpdates(updates)
    requires AppendOrder(o1, template, updates) && AppendOrder(o2, Merge(template, updates, o1), updates)
    ensures var first := SplitLines(Merge(template, updates, o1));
      && first == RemoveDuplicateHeader(MergedLines(SplitLines(template), updates, o1))
      && Merge(Merge(template, updates, o1), updates, o2) == JoinLines(RemoveDuplicateHeader(first))
  {
    var merged := MergedLines(SplitLines(template), updates, o1);
    MergedSingleLines(SplitLines(template), updates, o1);
    MergedText(template, updates, o1);
    var first := RemoveDuplicateHeader(merged);
    var keys := MergedSettles(SplitLines(template), updates, o1);
    HeaderIsSilent();
    KeptKeyLines(merged, HEADER, KeyLine, 0, false, false, KeyOf);
    assert merged[0..] == merged;
    RewriteSettled(first, KeyOf, WrittenLines(updates), keys);
    if o2 != [] {
      FirstIsIn(o2);
      assert false;
    }
    assert MergedLines(first, updates, o2) == first;
  }

  /** A line without a key that is not part of the heading stands as often as before. */
  lemma MergedOccurrences(lines: seq<string>, updates: map<string, string>, order: seq<string>, line: string)
    requires ValidUpdates(updates) && (forall k :: k in order ==> k in updates)
    requires KeyOf(line).None? && Occurrences(Heading(RewriteAll(lines, updates).out), line) == 0
    ensures Occurrences(MergedLines(lines, updates, order), line) == Occurrences(lines, line)
  {
    var out, written := RewriteAll(lines, updates).out, WrittenLines(updates);
    WrittenLinesRead(updates);
    RewriteOccurrences(lines, KeyOf, written, line);
    OccurrencesConcat(out, Appendix(out, order, updates), line);
    if order != [] {
      SelectHasNo(order, KeyOf, written, line);
      OccurrencesConcat(Heading(out), Select(order, written), line);
    }
  }

  lemma MergedTitles(lines: seq<string>, updates: map<string, string>, order: seq<string>)
    requires ValidUpdates(updates) && (forall k :: k in order ==> k in updates)
    ensures Occurrences(MergedLines(lines, updates, order), TITLE) == Occurrences(lines, TITLE)
  {
    assert Silent(TITLE);
    SilentDefinesNothing(TITLE);
    HeadingHasNoTitle(RewriteAll(lines, updates).out);
    MergedOccurrences(lines, updates, order, TITLE);
  }

  lemma TitleIsNotBar()
    ensures BAR != TITLE
  {
    assert BAR[2] == '=' && TITLE[2] == 'T';
  }

  lemma OneTitleKeepsAll(lines: seq<string>)
    requires Occurrences(lines, TITLE) <= 1
    ensures RemoveDuplicateHeader(lines) == lines
  {
    TitleIsNotBar();
    assert lines[0..] == lines;
    KeptWhole(lines, HEADER, KeyLine, 0, false, false);
  }

  /** Merging twice gives the identical text when the header's title line occurs at
      most once in the template. */
  lemma MergeIdempotent(template: string, updates: map<string, string>, o1: seq<string>, o2: seq<string>)
    requires SingleLines(SplitLines(template)) && ValidUpdates(updates)
    requires AppendOrder(o1, template, updates) && AppendOrder(o2, Merge(template, updates, o1), updates)
    requires Occurrences(SplitLines(template), TITLE) <= 1
    ensures Merge(Merge(template, updates, o1), updates, o2) == Merge(template, updates, o1)
  {
    var merged := MergedLines(SplitLines(template), updates, o1);
    MergedTitles(SplitLines(template), updates, o1);
    OneTitleKeepsAll(merged);
    SecondMergeOnlyRescansHeaders(template, updates, o1, o2);
  }

  lemma CommentIsNoKeyLine(line: string)
    requires line != "" && line[0] == '#'
    ensures !KeyLine(line)
  {
    if KeyLine(line) {
      AssignmentStart(line);
    }
  }

  lemma HeaderHasShape()
    ensures HeaderShape(HEADER, KeyLine)
  {
    assert BAR[0] == '#' && TITLE[0] == '#' && HINT[0] == '#';
    CommentIsNoKeyLine(BAR);
    CommentIsNoKeyLine(TITLE);
    CommentIsNoKeyLine(HINT);
    assert BAR[2] == '=' && TITLE[2] == 'T' && HINT[2] == 'E';
  }

  /** In general the second merge changes something exactly when header blocks that the
      first one drops from its merged lines had kept the lines of another block apart. */
  lemma MergeTwiceIff(template: string, updates: map<string, string>, o1: seq<string>, o2: seq<string>)
    requires SingleLines(SplitLines(template)) && ValidUpdates(updates)
    requires AppendOrder(o1, template, updates) && AppendOrder(o2, Merge(template, updates, o1), updates)
    ensures var first := Merge(template, updates, o1);
      Merge(first, updates, o2) == first
      <==> !Rejoins(MergedLines(SplitLines(template), updates, o1), HEADER, KeyLine, 0, false, false)
  {
    var merged, once := MergedLines(SplitLines(template), updates, o1), Merge(template, updates, o1);
    SecondMergeOnlyRescansHeaders(template, updates, o1, o2);
    HeaderHasShape();
    SecondPassIff(merged, HEADER, KeyLine);
    MergedSingleLines(SplitLines(template), updates, o1);
    KeptAll(merged, HEADER, KeyLine, SingleLine);
    SplitJoinRescanned(SplitLines(once));
  }

  lemma SplitJoinRescanned(lines: seq<string>)
    requires lines != [] && All(lines, SingleLine)
    ensures SplitLines(JoinLines(lines)) == lines
    ensures SplitLines(JoinLines(RemoveDuplicateHeader(lines))) == RemoveDuplicateHeader(lines)
  {
    KeptAll(lines, HEADER, KeyLine, SingleLine);
    KeptSome(lines, HEADER, KeyLine);
    SingleLinesAreAll(lines);
    SingleLinesAreAll(RemoveDuplicateHeader(lines));
    SplitJoin(lines);
    SplitJoin(RemoveDuplicateHeader(lines));
  }

  /** A header block inside another: dropping it leaves a second duplicate behind. */
  function NestedHeaders(): seq<string> {
    HEADER + HEADER[..2] + HEADER + HEADER[2..]
  }

  lemma SingleConcat(a: string, b: string)
    requires SingleLine(a) && SingleLine(b)
    ensures SingleLine(a + b)
  {
  }

  lemma BarIsSingle()
    ensures SingleLine(BAR)
  {
    SingleConcat("# ====", "========================================");
  }

  lemma TitleIsSingle()
    ensures SingleLine(TITLE)
  {
    assert TITLE == "# Template Defaul" + "ts (Sensitive)";
    SingleConcat("# Template Defaul", "ts (Sensitive)");
  }

  lemma HintIsSingle()
    ensures SingleLine(HINT)
  {
    var first, second, third := "# Edit these once; ", "values are referenced", " in service sections below.";
    SingleConcat(first, second);
    SingleConcat(first + second, third);
  }

  lemma HeaderLineShape(line: string)
    requires line in HEADER
    ensures SingleLine(line) && Silent(line)
  {
    BarIsSingle();
    TitleIsSingle();
    HintIsSingle();
    assert BAR[0] == '#' && TITLE[0] == '#' && HINT[0] == '#';
  }

  lemma HeaderLinesAreSilent(lines: seq<string>)
    requires forall i :: 0 <= i < |lines| ==> lines[i] in HEADER
    ensures SingleLines(lines) && KeyLines(lines, KeyOf) == []
  {
    forall i | 0 <= i < |lines| ensures SingleLine(lines[i]) && Silent(lines[i]) {
      HeaderLineShape(lines[i]);
    }
    SilentLines(lines);
  }

  lemma NothingAppended(template: string, lines: seq<string>)
    requires SplitLines(template) == lines && KeyLines(lines, KeyOf) == []
    ensures MergedLines(lines, map[], []) == lines && AppendOrder([], template, map[])
  {
    RewriteSettled(lines, KeyOf, WrittenLines(map[]), {});
  }

  lemma NestedIn(header: seq<string>, lines: seq<string>)
    requires |header| == 4 && lines == header + header[..2] + header + header[2..]
    ensures lines != [] && forall i :: 0 <= i < |lines| ==> lines[i] in header
  {
  }

  lemma MergedWithoutUpdates(lines: seq<string>)
    requires lines != [] && SingleLines(lines) && KeyLines(lines, KeyOf) == []
    ensures SplitLines(JoinLines(lines)) == lines && AppendOrder([], JoinLines(lines), map[])
    ensures Merge(JoinLines(lines), map[], []) == JoinLines(RemoveDuplicateHeader(lines))
  {
    SplitJoin(lines);
    NothingAppended(JoinLines(lines), lines);
  }

  lemma NestedMerge(once: string)
    requires once == JoinLines(HEADER + HEADER)
    requires RemoveDuplicateHeader(HEADER + HEADER) == HEADER
    ensures AppendOrder([], once, map[]) && Merge(once, map[], []) != once
  {
    HeaderLinesAreSilent(HEADER);
    HeaderLinesAreSilent(HEADER + HEADER);
    MergedWithoutUpdates(HEADER + HEADER);
    SplitJoin(HEADER + HEADER);
    SplitJoin(HEADER);
  }

  /** The bound on the title line is needed: on this template even a merge without
      updates changes what the same merge before it wrote. */
  lemma MergeTwiceCounterexample()
    ensures var template := JoinLines(NestedHeaders());
      var once := Merge(template, map[], []);
      && SingleLines(SplitLines(template))
      && AppendOrder([], template, map[]) && AppendOrder([], once, map[])
      && Merge(once, map[], []) != once
  {
    var lines := NestedHeaders();
    NestedIn(HEADER, lines);
    HeaderLinesAreSilent(lines);
    assert RemoveDuplicateHeader(lines) == HEADER + HEADER && RemoveDuplicateHeader(HEADER + HEADER) == HEADER by {
      HeaderHasShape();
      SecondPassDropsMore(HEADER, KeyLine);
    }
    MergedWithoutUpdates(lines);
    NestedMerge(JoinLines(HEADER + HEADER));
  }

  // ---- The parts of a merge, spelled out ---------------------------------------------------------------

  /** What separates one header from the next: an assignment, whatever its value. */
  lemma KeyLineIs(line: string)
    ensures KeyLine(line) <==> exists key, rest :: ValidName(key) && line == Render(key, rest)
  {
    if KeyLine(line) {
      var m := MatchKey(line).value;
      assert line == Render(m.key, m.value);
    }
    if exists key, rest :: ValidName(key) && line == Render(key, rest) {
      var key, rest :| ValidName(key) && line == Render(key, rest);
      MatchRendered(key, rest);
    }
  }

  /** A second header stays exactly when an assignment stands between. */
  lemma SeparatedHeaders(line: string)
    ensures RemoveDuplicateHeader(HEADER + [line] + HEADER) ==
      if KeyLine(line) then HEADER + [line] + HEADER else HEADER + [line]
  {
    HeaderHasShape();
    BetweenHeaders(HEADER, KeyLine, line);
  }

  function Assignments(order: seq<string>, updates: map<string, string>): (lines: seq<string>)
    requires forall k :: k in order ==> k in updates
    ensures |lines| == |order| && forall i :: 0 <= i < |order| ==> lines[i] == order[i] + "=" + updates[order[i]]
  {
    seq(|order|, i requires 0 <= i < |order| => order[i] + "=" + updates[order[i]])
  }

  lemma SelectIs(order: seq<string>, updates: map<string, string>)
    requires forall k :: k in order ==> k in updates
    ensures Select(order, WrittenLines(updates)) == Assignments(order, updates)
  {
    forall i | 0 <= i < |order| ensures Select(order, WrittenLines(updates))[i] == Assignments(order, updates)[i] {
      assert order[i] in order;
    }
  }

  /** What is appended: a blank line unless the text ends with one, the heading, and the
      missing assignments. */
  lemma AppendixIs(out: seq<string>, order: seq<string>, updates: map<string, string>)
    requires forall k :: k in order ==> k in updates
    ensures var separator := if out != [] && Trim(out[|out| - 1], JsSpace) != "" then [""] else [];
      Appendix(out, order, updates) ==
        if order == [] then [] else separator + ["# Added by setup tooling"] + Assignments(order, updates)
  {
    SelectIs(order, updates);
    HeadingIs(out);
  }

  lemma HeadingIs(out: seq<string>)
    ensures Heading(out) == (if out != [] && Trim(out[|out| - 1], JsSpace) != "" then [""] else []) + ["# Added by setup tooling"]
  {
  }

  /** At `i` the texts differ for the first time, and `a` has the smaller character. */
  predicate SmallerAt(a: string, b: string, i: nat) {
    i < |a| && i < |b| && a[..i] == b[..i] && a[i] < b[i]
  }

  lemma SmallerBehind(c: char, a: string, b: string, i: nat)
    ensures SmallerAt([c] + a, [c] + b, i + 1) <==> SmallerAt(a, b, i)
  {
    var x, y := [c] + a, [c] + b;
    if i < |a| && i < |b| {
      assert x[..i + 1] == [c] + a[..i] && y[..i + 1] == [c] + b[..i];
      assert x[..i + 1][1..] == a[..i] && y[..i + 1][1..] == b[..i];
    }
  }

  /** The order of missing keys: by the first character that differs, a prefix first. */
  lemma {:induction false} LexLeqIs(a: string, b: string)
    ensures LexLeq(a, b) <==> a <= b || exists i: nat :: SmallerAt(a, b, i)
  {
    if a == "" || b == "" {
    } else if a[0] != b[0] {
      assert a[0] < b[0] ==> SmallerAt(a, b, 0);
      assert forall i: nat :: SmallerAt(a, b, i) && i > 0 ==> a[..i][0] == a[0] && b[..i][0] == b[0];
    } else {
      var c, x, y := a[0], a[1..], b[1..];
      assert a == [c] + x && b == [c] + y;
      LexLeqIs(x, y);
      if i: nat :| SmallerAt(x, y, i) {
        SmallerBehind(c, x, y, i);
      }
      if i: nat :| SmallerAt(a, b, i) {
        assert i > 0;
        SmallerBehind(c, x, y, i - 1);
      }
    }
  }
}
