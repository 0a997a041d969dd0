/** Folding fragments as they come, and all at once. */
module Incremental {
  import opened Wrappers
  import opened Lines
  import opened Sections
  import opened Groups
  import opened Placement
  import opened Changelog

  // ----- The parts of a changelog -------------------------------------------

  ghost predicate Quiet(lines: seq<string>) {
    forall line | line in lines :: !OpensRelease(line)
  }

  /** The lines up to the Unreleased heading, its region, and the releases after it. */
  ghost predicate Shape(lines: seq<string>, pre: seq<string>, region: seq<string>, post: seq<string>) {
    && lines == pre + region + post
    && pre != [] && pre[|pre| - 1] == UNRELEASED && UNRELEASED !in pre[..|pre| - 1]
    && Quiet(region)
    && (post != [] ==> OpensRelease(post[0]))
  }

  lemma {:induction false} RegionLengthOf(region: seq<string>, post: seq<string>)
    requires Quiet(region) && (post != [] ==> OpensRelease(post[0]))
    ensures RegionLength(region + post) == |region|
  {
    if region == [] {
      assert region + post == post;
    } else {
      assert (region + post)[1..] == region[1..] + post;
      RegionLengthOf(region[1..], post);
    }
  }

  lemma {:induction false} RegionIsQuiet(lines: seq<string>)
    ensures Quiet(lines[..RegionLength(lines)])
    ensures RegionLength(lines) < |lines| ==> OpensRelease(lines[RegionLength(lines)])
  {
    if lines != [] && !OpensRelease(lines[0]) {
      RegionIsQuiet(lines[1..]);
      assert lines[..RegionLength(lines)] == [lines[0]] + lines[1..][..RegionLength(lines[1..])];
    }
  }

  /** The shape names the parts the fold finds. */
  lemma {:induction false} ShapeIsFound(lines: seq<string>, pre: seq<string>, region: seq<string>, post: seq<string>)
    requires Shape(lines, pre, region, post)
    ensures FirstAt(lines, UNRELEASED) == Some(|pre| - 1)
    ensures lines[|pre|..] == region + post && RegionLength(lines[|pre|..]) == |region|
  {
    assert lines == pre[..|pre| - 1] + [UNRELEASED] + (region + post);
    FirstAtBefore(pre[..|pre| - 1], UNRELEASED, region + post);
    RegionLengthOf(region, post);
  }

  lemma {:induction false} EveryChangelogHasAShape(lines: seq<string>)
    returns (pre: seq<string>, region: seq<string>, post: seq<string>)
    requires FirstAt(lines, UNRELEASED).Some?
    ensures Shape(lines, pre, region, post)
  {
    FirstAtIsFirst(lines, UNRELEASED);
    var start := FirstAt(lines, UNRELEASED).value;
    var rest := lines[start + 1..];
    RegionIsQuiet(rest);
    pre, region, post := lines[..start + 1], rest[..RegionLength(rest)], rest[RegionLength(rest)..];
    assert pre[..|pre| - 1] == lines[..start];
  }

  /** The lines a changelog's lines fold to, before the final newline is seen to. */
  function FoldLines(lines: seq<string>, entries: seq<Entry>): (folded: seq<string>)
    requires FirstAt(lines, UNRELEASED).Some?
    ensures folded != []
  {
    var start := FirstAt(lines, UNRELEASED).value;
    var end := start + 1 + RegionLength(lines[start + 1..]);
    GatheredHaveTexts(entries);
    FoldedLines(lines, start, end, Gathered(entries));
    FoldGroups(lines, start, end, Gathered(entries))
  }

  // ----- Entries that can be folded in any steps ----------------------------

  /** The entry's lines open no release, and its heading is one line. */
  ghost predicate QuietEntry(e: Entry) {
    Quiet(Split(e.text)) && OneLine(e.section)
  }

  /** Every entry is for one of the named sections and holds neither a heading of them nor a release's. */
  ghost predicate Foldable(entries: seq<Entry>, named: set<string>) {
    EntriesSuit(entries, named) && forall i :: 0 <= i < |entries| ==> QuietEntry(entries[i])
  }

  lemma {:induction false} InsertIsQuiet(lines: seq<string>, at: nat, added: seq<string>)
    requires Quiet(lines) && Quiet(added) && AllOneLine(lines) && AllOneLine(added)
    ensures Quiet(Insert(lines, at, added)) && AllOneLine(Insert(lines, at, added))
  {
    hide OpensRelease, OneLine;
    var p := if at <= |lines| then at else |lines|;
    assert forall line :: line in Insert(lines, at, added) ==> line in lines[..p] || line in added || line in lines[p..];
  }

  lemma {:induction false} PutIsQuiet(lines: seq<string>, heading: string, block: seq<string>)
    requires Quiet(lines) && Quiet(block) && !OpensRelease(heading)
    requires AllOneLine(lines) && AllOneLine(block) && OneLine(heading)
    ensures Quiet(Put(lines, heading, block)) && AllOneLine(Put(lines, heading, block))
  {
    var at := FirstAt(lines, heading);
    var added := if at.Some? then block + [""] else ["", heading, ""] + block;
    assert forall line :: line in added ==> line in block || line == "" || line == heading;
    hide Insert, FirstAt, Tail;
    InsertIsQuiet(lines, if at.Some? then at.value + 2 else Tail(lines), added);
  }

  lemma {:induction false} EntryPutIsQuiet(lines: seq<string>, e: Entry)
    requires Quiet(lines) && AllOneLine(lines) && QuietEntry(e)
    ensures Quiet(PutEntry(lines, e)) && AllOneLine(PutEntry(lines, e))
  {
    SplitGivesLines(e.text);
    hide Put, Quiet;
    assert Heading(e.section)[..3] == "###" != "## ";
    PutIsQuiet(lines, Heading(e.section), Split(e.text));
  }

  lemma {:induction false} OneByOneIsQuiet(lines: seq<string>, entries: seq<Entry>)
    requires Quiet(lines) && AllOneLine(lines)
    requires forall i :: 0 <= i < |entries| ==> QuietEntry(entries[i])
    ensures Quiet(OneByOne(lines, entries)) && AllOneLine(OneByOne(lines, entries))
    decreases |entries|
  {
    if entries != [] {
      hide Put, Quiet, AllOneLine, QuietEntry;
      EntryPutIsQuiet(lines, entries[|entries| - 1]);
      OneByOneIsQuiet(PutEntry(lines, entries[|entries| - 1]), entries[..|entries| - 1]);
    }
  }

  lemma {:induction false} ShapeOfAnother(
    pre: seq<string>, region: seq<string>, post: seq<string>, next: seq<string>)
    requires Shape(pre + region + post, pre, region, post) && AllOneLine(pre + region + post)
    requires Quiet(next) && AllOneLine(next)
    ensures Shape(pre + next + post, pre, next, post) && AllOneLine(pre + next + post)
  {
    hide Quiet;
    var lines := pre + region + post;
    assert forall i :: 0 <= i < |pre| ==> pre[i] == lines[i];
    assert forall i :: 0 <= i < |post| ==> post[i] == lines[|pre| + |region| + i];
  }

  lemma {:induction false} RegionIsOneLine(pre: seq<string>, region: seq<string>, post: seq<string>)
    requires AllOneLine(pre + region + post)
    ensures AllOneLine(region)
  {
    assert forall i :: 0 <= i < |region| ==> region[i] == (pre + region + post)[|pre| + i];
  }

  lemma {:induction false} FoldLinesAtShape(
    lines: seq<string>, pre: seq<string>, region: seq<string>, post: seq<string>, entries: seq<Entry>)
    requires Shape(lines, pre, region, post)
    ensures FirstAt(lines, UNRELEASED).Some? && NonEmptyGroups(Gathered(entries))
    ensures FoldLines(lines, entries) == FoldGroups(pre + region + post, |pre| - 1, |pre| + |region|, Gathered(entries))
  {
    ShapeIsFound(lines, pre, region, post);
    GatheredHaveTexts(entries);
    hide FoldGroups, Gathered, Quiet;
  }

  /** Folding rewrites the region entry by entry, and the result has the same shape. */
  lemma {:induction false} FoldLinesInRegion(
    lines: seq<string>, pre: seq<string>, region: seq<string>, post: seq<string>, entries: seq<Entry>, named: set<string>)
    requires Shape(lines, pre, region, post) && AllOneLine(lines)
    requires Foldable(entries, named) && Receives(region, named)
    ensures FirstAt(lines, UNRELEASED).Some?
    ensures FoldLines(lines, entries) == pre + OneByOne(region, entries) + post
    ensures Shape(FoldLines(lines, entries), pre, OneByOne(region, entries), post)
    ensures AllOneLine(FoldLines(lines, entries))
    ensures Receives(OneByOne(region, entries), named)
  {
    hide OneByOne, FoldGroups, Receives, EntrySuits, QuietEntry, Apply, Quiet, FoldLines, AllSuit, NonEmptyGroups, AllOneLine;
    FoldLinesAtShape(lines, pre, region, post, entries);
    GatheredSuit(entries, named);
    ReceivesIsTidy(region, named);
    FoldStaysInRegion(pre, region, post, Gathered(entries), named);
    BatchIsOneByOne(region, entries, named);
    OneByOneKeepsReceiving(region, entries, named);
    RegionIsOneLine(pre, region, post);
    OneByOneIsQuiet(region, entries);
    ShapeOfAnother(pre, region, post, OneByOne(region, entries));
  }

  // ----- Any fold, whichever sections stand ---------------------------------

  /**
   The frame: with every named section open or yet to be made, in any mix, a fold
   leaves the lines up to the Unreleased heading and from the next release on.
   */
  lemma {:induction false} FoldKeepsFrame(
    lines: seq<string>, pre: seq<string>, region: seq<string>, post: seq<string>, entries: seq<Entry>, named: set<string>)
    requires Shape(lines, pre, region, post) && EntriesSuit(entries, named) && Opens(region, named)
    ensures FirstAt(lines, UNRELEASED).Some? && NonEmptyGroups(Gathered(entries))
    ensures FoldLines(lines, entries) == pre + Apply(region, Gathered(entries)) + post
  {
    hide FoldGroups, Gathered, Quiet, EntrySuits, AllSuit, Opens, FoldLines, Apply, NonEmptyGroups;
    FoldLinesAtShape(lines, pre, region, post, entries);
    GatheredSuit(entries, named);
    FoldStaysInRegion(pre, region, post, Gathered(entries), named);
  }

  /** And for any entries at all: the frame is kept if and only if the fold does not overrun its region. */
  lemma {:induction false} FoldKeepsFrameExactly(
    lines: seq<string>, pre: seq<string>, region: seq<string>, post: seq<string>, entries: seq<Entry>)
    requires Shape(lines, pre, region, post)
    ensures FirstAt(lines, UNRELEASED).Some? && NonEmptyGroups(Gathered(entries))
    ensures KeptAround(FoldLines(lines, entries), pre, post) <==> post == [] || !Overruns(region, Gathered(entries))
  {
    hide FoldGroups, Gathered, Quiet, FoldLines, Overruns, KeptAround, NonEmptyGroups;
    FoldLinesAtShape(lines, pre, region, post, entries);
    FoldKeepsSurroundingsExactly(pre, region, post, Gathered(entries));
  }

  /** The old lines are all there after any fold, in their order. */
  lemma {:induction false} OldLinesStay(lines: seq<string>, entries: seq<Entry>)
    requires FirstAt(lines, UNRELEASED).Some?
    ensures Within(lines, FoldLines(lines, entries))
  {
    GatheredHaveTexts(entries);
    hide Within, Gathered, FoldGroups;
    var start := FirstAt(lines, UNRELEASED).value;
    FoldKeepsOldLines(lines, start, start + 1 + RegionLength(lines[start + 1..]), Gathered(entries));
  }

  /**
   A fold adds each section's block and a blank line, and two lines more for each
   section it makes, wherever its blocks go.
   */
  lemma {:induction false} LinesAddedExactly(
    lines: seq<string>, pre: seq<string>, region: seq<string>, post: seq<string>, entries: seq<Entry>, named: set<string>)
    requires Shape(lines, pre, region, post) && EntriesSuit(entries, named)
    ensures FirstAt(lines, UNRELEASED).Some? && NonEmptyGroups(Gathered(entries))
    ensures |FoldLines(lines, entries)| == |lines| + AddedByAll(region, Gathered(entries))
  {
    var sections := SectionNames(entries, named);
    GatheredSuit(entries, sections);
    GatheredAreDistinct(entries);
    hide Gathered, Quiet, EntriesSuit, FoldLines, NonEmptyGroups, AddedByAll, FoldGroups, OpensRelease, AllSuit, FirstAt,
      DistinctSections;
    FoldLinesAtShape(lines, pre, region, post, entries);
    AddedAround(pre, region, post, Gathered(entries), sections);
  }

  lemma AddedAround(pre: seq<string>, region: seq<string>, post: seq<string>, groups: seq<Group>, sections: set<string>)
    requires pre != [] && AllSuit(groups, sections) && DistinctSections(groups)
    requires "" !in sections && (post != [] ==> post[0] !in sections)
    ensures NonEmptyGroups(groups)
    ensures |FoldGroups(pre + region + post, |pre| - 1, |pre| + |region|, groups)|
         == |pre + region + post| + AddedByAll(region, groups)
  {
    hide AllSuit, DistinctSections, AddedByAll, FoldGroups, NonEmptyGroups;
    var lines := pre + region + post;
    assert post != [] ==> lines[|pre| + |region|] == post[0];
    assert lines[|pre|..|pre| + |region|] == region;
    FoldGroupsAdd(lines, |pre| - 1, |pre| + |region|, groups, sections);
  }

  /** The names that are of sections are as good as all. */
  lemma {:induction false} SectionNames(entries: seq<Entry>, named: set<string>) returns (sections: set<string>)
    requires EntriesSuit(entries, named)
    ensures EntriesSuit(entries, sections) && "" !in sections && forall h | h in sections :: !OpensRelease(h)
  {
    sections := set h | h in named && h != "" && !OpensRelease(h);
    forall i | 0 <= i < |entries| ensures EntrySuits(entries[i], sections) {
      assert EntrySuits(entries[i], named);
      assert Heading(entries[i].section)[..3] == "###" != "## ";
    }
  }

  /**
   Every section's entries stand contiguously and in order right under its heading
   and one line, in the region of the folded changelog: sections that stood and
   sections the fold made, in any mix.
   */
  lemma {:induction false} EntriesStandInFold(
    lines: seq<string>, pre: seq<string>, region: seq<string>, post: seq<string>,
    entries: seq<Entry>, named: set<string>, g: Group)
    requires Shape(lines, pre, region, post) && EntriesSuit(entries, named) && Tidy(region, named)
    requires forall i :: 0 <= i < |entries| ==> Solid(Split(entries[i].text))
    requires g in Gathered(entries)
    ensures FirstAt(lines, UNRELEASED).Some? && NonEmptyGroups(Gathered(entries)) && g.texts != []
    ensures FoldLines(lines, entries) == pre + Apply(region, Gathered(entries)) + post
    ensures var end := if FirstAt(region, Heading(g.section)).Some? then [""] else [];
      StandsUnder(Apply(region, Gathered(entries)), Heading(g.section),
                  NextLine(region, Heading(g.section)), Block(g.texts) + end)
  {
    TidyOpens(region, named);
    FoldKeepsFrame(lines, pre, region, post, entries, named);
    GatheredSuit(entries, named);
    GatheredAreDistinct(entries);
    GatheredAreSolid(entries);
    hide Gathered, Quiet, EntrySuits, FoldLines, Apply, Tidy, DistinctSections, StandsUnder, NextLine, Block;
    EachSectionStands(region, Gathered(entries), named, g);
  }

  lemma {:induction false} GatheredAreSolid(entries: seq<Entry>)
    requires forall i :: 0 <= i < |entries| ==> Solid(Split(entries[i].text))
    ensures forall i :: 0 <= i < |Gathered(entries)| ==> SolidTexts(Gathered(entries)[i].texts)
  {
    hide Solid;
    if entries != [] {
      var front, last := entries[..|entries| - 1], entries[|entries| - 1];
      assert forall i :: 0 <= i < |front| ==> front[i] == entries[i];
      GatheredAreSolid(front);
      AddToIsSolid(Gathered(front), last);
    }
  }

  lemma {:induction false} AddToIsSolid(groups: seq<Group>, e: Entry)
    requires Solid(Split(e.text)) && forall i :: 0 <= i < |groups| ==> SolidTexts(groups[i].texts)
    ensures forall i :: 0 <= i < |AddTo(groups, e)| ==> SolidTexts(AddTo(groups, e)[i].texts)
  {
    hide Solid;
    if groups != [] && groups[0].section != e.section {
      AddToIsSolid(groups[1..], e);
    } else if groups != [] {
      assert SolidTexts(groups[0].texts);
    }
  }

  // ----- The final newline --------------------------------------------------

  ghost predicate LastIsEmpty(lines: seq<string>) {
    lines != [] && lines[|lines| - 1] == ""
  }

  function FinishedLines(lines: seq<string>): seq<string> {
    if |lines| >= 2 && lines[|lines| - 1] == "" then lines else lines + [""]
  }

  lemma {:induction false} FinishedByLines(lines: seq<string>)
    requires lines != [] && AllOneLine(lines)
    ensures Finished(Join(lines)) == Join(FinishedLines(lines))
    ensures Split(Finished(Join(lines))) == FinishedLines(lines)
  {
    NewlineIsEmptyLastLine(lines);
    if FinishedLines(lines) != lines {
      JoinConcat(lines, [""]);
      assert Join(lines) + "\n" + "" == Join(lines) + "\n";
    }
    SplitOfJoin(FinishedLines(lines));
  }

  lemma {:induction false} FoldByLines(changelog: string, entries: seq<Entry>)
    requires entries != [] && FirstAt(Split(changelog), UNRELEASED).Some?
    ensures Fold(changelog, entries) == Ok(Finished(Join(FoldLines(Split(changelog), entries))))
  {
    hide Split, Join, FirstAt, FoldGroups, Gathered, RegionLength, Finished;
  }

  // ----- A blank line at the very end ---------------------------------------

  /** A put under a ready heading does not mind a further blank line at the end. */
  lemma {:induction false} PutWithTrailing(lines: seq<string>, h: string, named: set<string>, block: seq<string>)
    requires Ready(lines, h, named)
    ensures Put(lines + [""], h, block) == Put(lines, h, block) + [""]
    ensures Ready(lines + [""], h, named)
  {
    hide Put;
    var before, next, after := ReadyApart(lines, h, named);
    assert lines + [""] == before + [h] + ([next] + (after + [""]));
    PutUnder(before, h, next, after, block);
    PutUnder(before, h, next, after + [""], block);
    ReadyFromParts(before, h, next, after + [""], named);
  }

  lemma {:induction false} OneByOneWithTrailing(lines: seq<string>, entries: seq<Entry>, named: set<string>)
    requires EntriesSuit(entries, named) && AllReady(lines, named) && "" !in named
    ensures OneByOne(lines + [""], entries) == OneByOne(lines, entries) + [""]
    ensures AllReady(OneByOne(lines, entries), named)
    decreases |entries|
  {
    if entries != [] {
      var front, last := entries[..|entries| - 1], entries[|entries| - 1];
      assert forall i :: 0 <= i < |front| ==> front[i] == entries[i];
      assert EntrySuits(last, named);
      hide Put, Ready, CleanBlock;
      PutWithTrailing(lines, Heading(last.section), named, Split(last.text));
      PutKeepsAllReady(lines, named, Heading(last.section), Split(last.text));
      OneByOneWithTrailing(PutEntry(lines, last), front, named);
    }
  }

  /** Once anything is folded, every named section stands ready. */
  lemma {:induction false} ReadyOnceFolded(lines: seq<string>, entries: seq<Entry>, named: set<string>)
    requires EntriesSuit(entries, named) && Receives(lines, named) && entries != []
    ensures AllReady(OneByOne(lines, entries), named)
  {
    var front, last := entries[..|entries| - 1], entries[|entries| - 1];
    assert forall i :: 0 <= i < |front| ==> front[i] == entries[i];
    assert EntrySuits(last, named);
    var h := Heading(last.section);
    hide Put, CleanBlock;
    ReceivedHeading(lines, named, h);
    if h in lines {
      assert AllReady(lines, named);
      PutKeepsAllReady(lines, named, h, Split(last.text));
    } else {
      MadeIsReady(lines, h, named, Split(last.text));
    }
    OneByOneWithTrailing(PutEntry(lines, last), front, named);
  }

  // ----- Incremental folding is batch folding -------------------------------

  /** The changelog has an Unreleased region that can take the named sections. */
  ghost predicate Takes(changelog: string, named: set<string>) {
    exists pre, region, post :: Shape(Split(changelog), pre, region, post) && Receives(region, named)
  }

  /** Folding twice, and what of the final newline: the general fact behind the theorems below. */
  lemma {:induction false} TwoFolds(
    changelog: string, pre: seq<string>, region: seq<string>, post: seq<string>,
    earlier: seq<Entry>, later: seq<Entry>, named: set<string>)
    requires Shape(Split(changelog), pre, region, post) && Receives(region, named)
    requires Foldable(earlier, named) && Foldable(later, named) && earlier != [] && later != []
    ensures Fold(changelog, earlier).Ok?
    ensures var once := pre + OneByOne(region, earlier) + post;
      var both := pre + OneByOne(region, later + earlier) + post;
      AllOneLine(once) && AllOneLine(both)
      && Fold(changelog, later + earlier) == Ok(Finished(Join(both)))
      && Fold(Fold(changelog, earlier).value, later)
           == Ok(Finished(Join(if FinishedLines(once) == once then both else both + [""])))
  {
    hide Split, OneByOne, FoldLines, Fold, Receives, EntrySuits, QuietEntry;
    var lines := Split(changelog);
    SplitGivesLines(changelog);
    assert Foldable(later + earlier, named);
    FoldLinesInRegion(lines, pre, region, post, later + earlier, named);
    FoldLinesInRegion(lines, pre, region, post, earlier, named);
    FoldByLines(changelog, later + earlier);
    FoldByLines(changelog, earlier);
    OneByOneInTwo(region, later, earlier);
    var once, mid := pre + OneByOne(region, earlier) + post, OneByOne(region, earlier);
    FinishedByLines(once);
    var text := Fold(changelog, earlier).value;
    assert Split(text) == FinishedLines(once);
    SecondFold(text, once, pre, mid, post, later, named) by {
      ReadyOnceFolded(region, earlier, named);
    }
  }

  lemma {:induction false} SecondFold(
    text: string, once: seq<string>, pre: seq<string>, mid: seq<string>, post: seq<string>,
    later: seq<Entry>, named: set<string>)
    requires Shape(once, pre, mid, post) && Split(text) == FinishedLines(once) && AllOneLine(once)
    requires Foldable(later, named) && later != [] && Receives(mid, named) && AllReady(mid, named)
    ensures Fold(text, later) == Ok(Finished(Join(
      if FinishedLines(once) == once then pre + OneByOne(mid, later) + post
      else (pre + OneByOne(mid, later) + post) + [""])))
  {
    hide Split, OneByOne, FoldLines, Fold, EntrySuits, QuietEntry, Ready;
    if FinishedLines(once) == once {
      FoldLinesInRegion(once, pre, mid, post, later, named);
      FoldByLines(text, later);
    } else if post != [] {
      assert once + [""] == pre + mid + (post + [""]);
      FoldLinesInRegion(once + [""], pre, mid, post + [""], later, named);
      FoldByLines(text, later);
      assert pre + OneByOne(mid, later) + (post + [""]) == (pre + OneByOne(mid, later) + post) + [""];
    } else {
      OneByOneWithTrailing(mid, later, named);
      assert once + [""] == pre + (mid + [""]) + [];
      TrailingReady(mid, named);
      FoldLinesInRegion(once + [""], pre, mid + [""], [], later, named);
      FoldByLines(text, later);
      assert pre + (OneByOne(mid, later) + [""]) + [] == (pre + OneByOne(mid, later) + post) + [""];
    }
  }

  lemma {:induction false} TrailingReady(lines: seq<string>, named: set<string>)
    requires AllReady(lines, named) && "" !in named
    ensures AllReady(lines + [""], named)
  {
    hide Put;
    forall h | h in named ensures Ready(lines + [""], h, named) {
      PutWithTrailing(lines, h, named, []);
    }
  }

  /** A put keeps an empty last line, and makes one only under the heading whose line ends the region. */
  lemma {:induction false} PutAtTheEnd(lines: seq<string>, h: string, named: set<string>, block: seq<string>)
    requires Ready(lines, h, named)
    ensures LastIsEmpty(Put(lines, h, block)) <==> LastIsEmpty(lines) || EndsUnder(lines, h)
  {
    hide Put;
    var before, next, after := ReadyApart(lines, h, named);
    FirstAtBefore(before, h, [next] + after);
    PutUnder(before, h, next, after, block);
    var whole := before + [h] + ([next] + (block + [""]) + after);
    if after == [] {
      assert whole[|whole| - 1] == "";
    } else {
      assert whole[|whole| - 1] == after[|after| - 1] == lines[|lines| - 1];
    }
  }

  /** The line after the heading is the last there is. */
  ghost predicate EndsUnder(lines: seq<string>, h: string) {
    FirstAt(lines, h).Some? && FirstAt(lines, h).value + 2 == |lines|
  }

  lemma {:induction false} EndsUnderParts(before: seq<string>, h: string, next: string, after: seq<string>)
    requires h !in before
    ensures EndsUnder(before + [h] + ([next] + after), h) <==> after == []
  {
    FirstAtBefore(before, h, [next] + after);
  }

  /** A put under another heading does not change which heading the last line is under. */
  lemma {:induction false} EndsUnderThroughPut(lines: seq<string>, h: string, k: string, named: set<string>, block: seq<string>)
    requires h in named && k in named && h != k && "" !in named && CleanBlock(block, named)
    requires Ready(lines, h, named) && Ready(lines, k, named)
    ensures EndsUnder(Put(lines, k, block), h) <==> EndsUnder(lines, h)
  {
    AddsIsClean(lines, k, named, block, h);
    hide Adds, CleanBlock;
    FirstAtInsert(lines, PutAt(lines, k), Adds(lines, k, block), h);
  }

  /** Some entry goes under the heading whose line ends the region. */
  ghost predicate ReachesEnd(region: seq<string>, entries: seq<Entry>) {
    exists i :: 0 <= i < |entries| && EndsUnder(region, Heading(entries[i].section))
  }

  /** A fold leaves an empty last line exactly when there was one or an entry reached the end. */
  lemma {:induction false} FoldAtTheEnd(lines: seq<string>, entries: seq<Entry>, named: set<string>)
    requires EntriesSuit(entries, named) && AllReady(lines, named) && "" !in named
    ensures LastIsEmpty(OneByOne(lines, entries)) <==> LastIsEmpty(lines) || ReachesEnd(lines, entries)
    decreases |entries|
  {
    if entries != [] {
      hide Put, Ready, CleanBlock, EndsUnder;
      var front, last := entries[..|entries| - 1], entries[|entries| - 1];
      assert forall i :: 0 <= i < |front| ==> front[i] == entries[i];
      assert EntrySuits(last, named);
      var h, after := Heading(last.section), PutEntry(lines, last);
      PutAtTheEnd(lines, h, named, Split(last.text));
      PutKeepsAllReady(lines, named, h, Split(last.text));
      FoldAtTheEnd(after, front, named);
      forall i | 0 <= i < |front|
        ensures EndsUnder(after, Heading(front[i].section)) ==> EndsUnder(lines, Heading(front[i].section)) || EndsUnder(lines, h)
        ensures EndsUnder(lines, Heading(front[i].section)) ==>
          EndsUnder(after, Heading(front[i].section)) || EndsUnder(lines, h)
      {
        assert EntrySuits(front[i], named);
        var k := Heading(front[i].section);
        if k == h {
          PutOnceMore(lines, h, named, Split(last.text));
        } else {
          EndsUnderThroughPut(lines, k, h, named, Split(last.text));
        }
      }
      LastOfReach(lines, after, front, entries);
    }
  }

  lemma {:induction false} LastOfReach(lines: seq<string>, after: seq<string>, front: seq<Entry>, entries: seq<Entry>)
    requires entries != [] && front == entries[..|entries| - 1]
    requires forall i :: 0 <= i < |front| ==>
      (EndsUnder(after, Heading(front[i].section)) ==>
         EndsUnder(lines, Heading(front[i].section)) || EndsUnder(lines, Heading(entries[|entries| - 1].section)))
      && (EndsUnder(lines, Heading(front[i].section)) ==>
         EndsUnder(after, Heading(front[i].section)) || EndsUnder(lines, Heading(entries[|entries| - 1].section)))
    ensures ReachesEnd(lines, entries)
       <==> EndsUnder(lines, Heading(entries[|entries| - 1].section)) || ReachesEnd(after, front)
  {
    hide EndsUnder;
    assert forall i :: 0 <= i < |front| ==> front[i] == entries[i];
    if ReachesEnd(after, front) {
      var i :| 0 <= i < |front| && EndsUnder(after, Heading(front[i].section));
      assert EndsUnder(lines, Heading(entries[i].section)) || EndsUnder(lines, Heading(entries[|entries| - 1].section));
    }
    if ReachesEnd(lines, entries) {
      var i :| 0 <= i < |entries| && EndsUnder(lines, Heading(entries[i].section));
      if i < |front| {
        assert EndsUnder(after, Heading(front[i].section)) || EndsUnder(lines, Heading(entries[|entries| - 1].section));
      }
    }
  }

  lemma {:induction false} PutOnceMore(lines: seq<string>, h: string, named: set<string>, block: seq<string>)
    requires Ready(lines, h, named)
    ensures !EndsUnder(Put(lines, h, block), h)
  {
    hide Put, EndsUnder;
    var before, next, after := ReadyApart(lines, h, named);
    PutUnder(before, h, next, after, block);
    assert [next] + (block + [""]) + after == [next] + ((block + [""]) + after);
    EndsUnderParts(before, h, next, (block + [""]) + after);
  }

  // ----- The theorems -------------------------------------------------------

  /** The fold refuses nothing it can take. */
  lemma {:induction false} TakingIsOk(changelog: string, entries: seq<Entry>, named: set<string>)
    requires Takes(changelog, named)
    ensures Fold(changelog, entries).Ok?
  {
    hide Receives;
    var pre, region, post :| Shape(Split(changelog), pre, region, post) && Receives(region, named);
    ShapeIsFound(Split(changelog), pre, region, post);
  }

  lemma {:induction false} FoldKeepsEmptyLast(lines: seq<string>, entries: seq<Entry>, named: set<string>)
    requires EntriesSuit(entries, named) && Receives(lines, named) && LastIsEmpty(lines)
    ensures LastIsEmpty(OneByOne(lines, entries))
    decreases |entries|
  {
    if entries != [] {
      hide Put, Receives, CleanBlock, LastIsEmpty;
      var front, last := entries[..|entries| - 1], entries[|entries| - 1];
      assert forall i :: 0 <= i < |front| ==> front[i] == entries[i];
      assert EntrySuits(last, named);
      EntryKeepsReceiving(lines, last, named);
      FoldKeepsEmptyLast(PutEntry(lines, last), front, named);
    }
  }

  /** A changelog ends with a newline exactly when the last of its parts ends with an empty line. */
  lemma {:induction false} NewlineIsLast(changelog: string, pre: seq<string>, region: seq<string>, post: seq<string>)
    requires Shape(Split(changelog), pre, region, post)
    ensures EndsWithNewline(changelog) <==> if post != [] then LastIsEmpty(post) else LastIsEmpty(region)
  {
    var lines := Split(changelog);
    SplitGivesLines(changelog);
    JoinOfSplit(changelog);
    NewlineIsEmptyLastLine(lines);
    assert post != [] ==> lines[|lines| - 1] == post[|post| - 1];
    assert post == [] && region != [] ==> lines[|lines| - 1] == region[|region| - 1];
    assert post == [] && region == [] ==> lines == pre;
  }

  /** With a final newline, what is folded once still ends with an empty line. */
  lemma {:induction false} NewlineSurvives(
    changelog: string, pre: seq<string>, region: seq<string>, post: seq<string>, entries: seq<Entry>, named: set<string>)
    requires EndsWithNewline(changelog)
    requires Shape(Split(changelog), pre, region, post) && Receives(region, named)
    requires EntriesSuit(entries, named)
    ensures LastIsEmpty(pre + OneByOne(region, entries) + post) && |pre + OneByOne(region, entries) + post| >= 2
  {
    NewlineIsLast(changelog, pre, region, post);
    hide OneByOne, Receives, EntriesSuit, Shape;
    if post == [] {
      FoldKeepsEmptyLast(region, entries, named);
    }
    OneByOneGrows(region, entries);
    ThreeEnd(pre, OneByOne(region, entries), post);
  }

  lemma ThreeEnd(pre: seq<string>, middle: seq<string>, post: seq<string>)
    requires pre != [] && (if post != [] then LastIsEmpty(post) else LastIsEmpty(middle))
    ensures LastIsEmpty(pre + middle + post) && |pre + middle + post| >= 2
  {}

  /**
   Folding fragments as they arrive is folding them all at once, the later ones
   first: for a changelog that ends with a newline, when every named section has
   its heading and a line after it, or when only one section is named.
   */
  lemma {:induction false} IncrementalIsBatch(changelog: string, earlier: seq<Entry>, later: seq<Entry>, named: set<string>)
    requires Takes(changelog, named) && EndsWithNewline(changelog)
    requires Foldable(earlier, named) && Foldable(later, named)
    ensures Fold(changelog, earlier).Ok?
    ensures Fold(Fold(changelog, earlier).value, later) == Fold(changelog, later + earlier)
  {
    TakingIsOk(changelog, earlier, named);
    if earlier == [] {
      assert later + earlier == later;
    } else if later == [] {
      assert later + earlier == earlier;
    } else {
      hide Receives, Foldable, EntriesSuit, OneByOne, Fold;
      var pre, region, post :| Shape(Split(changelog), pre, region, post) && Receives(region, named);
      TwoFolds(changelog, pre, region, post, earlier, later, named);
      NewlineSurvives(changelog, pre, region, post, earlier, named) by { FoldableSuits(earlier, named); }
    }
  }

  lemma FoldableSuits(entries: seq<Entry>, named: set<string>)
    requires Foldable(entries, named)
    ensures EntriesSuit(entries, named)
  {}

  /**
   Without a final newline the two can differ by one, and this is exactly when:
   some later entry goes under a heading whose next line is the changelog's last,
   and no earlier one does.
   */
  lemma {:induction false} WithoutNewlineExactly(
    changelog: string, pre: seq<string>, region: seq<string>, post: seq<string>,
    earlier: seq<Entry>, later: seq<Entry>, named: set<string>)
    requires Shape(Split(changelog), pre, region, post) && Receives(region, named)
    requires Foldable(earlier, named) && Foldable(later, named) && earlier != [] && later != []
    requires !EndsWithNewline(changelog)
    ensures Fold(changelog, earlier).Ok?
    ensures Fold(Fold(changelog, earlier).value, later) == Fold(changelog, later + earlier)
       <==> post != [] || ReachesEnd(region, earlier) || !ReachesEnd(region, later)
  {
    FoldableSuits(earlier, named);
    FoldableSuits(later, named);
    if AllReady(region, named) {
      WithoutNewlineReady(changelog, pre, region, post, earlier, later, named);
    } else {
      var h :| named == {h} && h !in region;
      WithoutNewlineMissing(changelog, pre, region, post, earlier, later, h);
    }
  }

  lemma {:induction false} WithoutNewlineReady(
    changelog: string, pre: seq<string>, region: seq<string>, post: seq<string>,
    earlier: seq<Entry>, later: seq<Entry>, named: set<string>)
    requires Shape(Split(changelog), pre, region, post) && AllReady(region, named) && "" !in named
    requires Foldable(earlier, named) && Foldable(later, named) && earlier != [] && later != []
    requires !EndsWithNewline(changelog)
    ensures Fold(changelog, earlier).Ok?
    ensures Fold(Fold(changelog, earlier).value, later) == Fold(changelog, later + earlier)
       <==> post != [] || ReachesEnd(region, earlier) || !ReachesEnd(region, later)
  {
    FoldableSuits(earlier, named);
    FoldableSuits(later, named);
    assert EntriesSuit(later + earlier, named);
    assert Receives(region, named);
    hide Receives, Foldable, EntriesSuit, OneByOne, Fold, Ready, Quiet;
    TwoFolds(changelog, pre, region, post, earlier, later, named);
    var once := pre + OneByOne(region, earlier) + post;
    var both := pre + OneByOne(region, later + earlier) + post;
    EndOfFold(changelog, pre, region, post, earlier, named);
    EndOfFold(changelog, pre, region, post, later + earlier, named);
    ReachInTwo(region, later, earlier);
    FinishedByLines(both);
    if FinishedLines(once) != once {
      BlankLineShows(both);
    }
  }

  /** Where the two differ, folding in instalments leaves one newline more and nothing else. */
  lemma {:induction false} OneNewlineMore(
    changelog: string, pre: seq<string>, region: seq<string>, post: seq<string>,
    earlier: seq<Entry>, later: seq<Entry>, named: set<string>)
    requires Shape(Split(changelog), pre, region, post) && AllReady(region, named) && "" !in named
    requires Foldable(earlier, named) && Foldable(later, named) && earlier != [] && later != []
    requires !EndsWithNewline(changelog)
    requires post == [] && !ReachesEnd(region, earlier) && ReachesEnd(region, later)
    ensures Fold(changelog, earlier).Ok? && Fold(changelog, later + earlier).Ok?
    ensures Fold(Fold(changelog, earlier).value, later) == Ok(Fold(changelog, later + earlier).value + "\n")
  {
    FoldableSuits(earlier, named);
    FoldableSuits(later, named);
    assert EntriesSuit(later + earlier, named);
    assert Receives(region, named);
    hide Receives, Foldable, EntriesSuit, OneByOne, Fold, Ready, Quiet, Split, Join, Finished, ReachesEnd;
    TwoFolds(changelog, pre, region, post, earlier, later, named);
    var both := pre + OneByOne(region, later + earlier) + post;
    EndOfFold(changelog, pre, region, post, earlier, named);
    EndOfFold(changelog, pre, region, post, later + earlier, named);
    ReachInTwo(region, later, earlier);
    BlankLineIsANewline(both);
  }

  lemma {:induction false} BlankLineIsANewline(lines: seq<string>)
    requires |lines| >= 2 && LastIsEmpty(lines) && AllOneLine(lines)
    ensures Finished(Join(lines + [""])) == Finished(Join(lines)) + "\n"
  {
    FinishedByLines(lines);
    FinishedByLines(lines + [""]);
    assert FinishedLines(lines) == lines && FinishedLines(lines + [""]) == lines + [""];
    JoinConcat(lines, [""]);
    assert Join(lines) + "\n" + "" == Join(lines) + "\n";
  }

  /** A section made by a put does not end right under its heading, and no later put makes it so. */
  lemma {:induction false} NeverAtTheEnd(lines: seq<string>, entries: seq<Entry>, h: string)
    requires EntriesSuit(entries, {h}) && Ready(lines, h, {h}) && h != "" && !EndsUnder(lines, h)
    ensures !EndsUnder(OneByOne(lines, entries), h)
    decreases |entries|
  {
    if entries != [] {
      hide Put, Ready, CleanBlock, EndsUnder;
      var front, last := entries[..|entries| - 1], entries[|entries| - 1];
      assert forall i :: 0 <= i < |front| ==> front[i] == entries[i];
      assert EntrySuits(last, {h});
      PutOnceMore(lines, h, {h}, Split(last.text));
      PutKeepsAllReady(lines, {h}, h, Split(last.text));
      NeverAtTheEnd(PutEntry(lines, last), front, h);
    }
  }

  lemma {:induction false} MadeIsNotAtTheEnd(lines: seq<string>, h: string, block: seq<string>)
    requires h !in lines && h != "" && block != []
    ensures !EndsUnder(Put(lines, h, block), h) && Ready(Put(lines, h, block), h, {h})
  {
    MadeIsReady(lines, h, {h}, block);
    PutMakes(lines, h, block);
    hide Put, EndsUnder;
    EndsUnderParts(lines[..Tail(lines)] + [""], h, "", block + lines[Tail(lines)..]);
  }

  /** Where the section was missing, a further fold does not change whether the last line is empty. */
  lemma {:induction false} MissingKeepsTheEnd(region: seq<string>, earlier: seq<Entry>, later: seq<Entry>, h: string)
    requires EntriesSuit(earlier, {h}) && EntriesSuit(later, {h}) && earlier != [] && h !in region && h != ""
    ensures LastIsEmpty(OneByOne(region, later + earlier)) <==> LastIsEmpty(OneByOne(region, earlier))
  {
    var front, last := earlier[..|earlier| - 1], earlier[|earlier| - 1];
    assert forall i :: 0 <= i < |front| ==> front[i] == earlier[i];
    assert EntrySuits(last, {h});
    assert Receives(region, {h});
    var mid := OneByOne(region, earlier);
    assert mid == OneByOne(PutEntry(region, last), front);
    hide Put, EndsUnder, LastIsEmpty, OneByOne, Receives;
    MadeIsNotAtTheEnd(region, h, Split(last.text));
    NeverAtTheEnd(PutEntry(region, last), front, h);
    ReadyOnceFolded(region, earlier, {h});
    FoldAtTheEnd(mid, later, {h});
    OneByOneInTwo(region, later, earlier);
    forall i | 0 <= i < |later| ensures !EndsUnder(mid, Heading(later[i].section)) {
      assert EntrySuits(later[i], {h});
    }
  }

  /** Where the one section named is missing, the two agree with or without a final newline. */
  lemma {:induction false} WithoutNewlineMissing(
    changelog: string, pre: seq<string>, region: seq<string>, post: seq<string>,
    earlier: seq<Entry>, later: seq<Entry>, h: string)
    requires Shape(Split(changelog), pre, region, post) && h !in region && h != ""
    requires Foldable(earlier, {h}) && Foldable(later, {h}) && earlier != [] && later != []
    requires !EndsWithNewline(changelog)
    ensures Fold(changelog, earlier).Ok?
    ensures Fold(Fold(changelog, earlier).value, later) == Fold(changelog, later + earlier)
    ensures !ReachesEnd(region, later)
  {
    FoldableSuits(earlier, {h});
    FoldableSuits(later, {h});
    assert Receives(region, {h});
    NotReached(region, later, h);
    hide Receives, Foldable, EntriesSuit, OneByOne, Fold, Quiet;
    TwoFolds(changelog, pre, region, post, earlier, later, {h});
    MissingKeepsTheEnd(region, earlier, later, h);
    var once := pre + OneByOne(region, earlier) + post;
    var both := pre + OneByOne(region, later + earlier) + post;
    NoNewlineLast(changelog, pre, region, post);
    FoldedIsLonger(region, earlier);
    FoldedIsLonger(region, later + earlier);
    EndOfThree(pre, OneByOne(region, earlier), post);
    EndOfThree(pre, OneByOne(region, later + earlier), post);
    assert |once| >= 2 && |both| >= 2;
    assert LastIsEmpty(both) <==> LastIsEmpty(once);
    if FinishedLines(once) != once {
      BlankLineShows(both);
    }
  }

  lemma NotReached(region: seq<string>, entries: seq<Entry>, h: string)
    requires EntriesSuit(entries, {h}) && h !in region
    ensures !ReachesEnd(region, entries)
  {
    FirstAtIsFirst(region, h);
    forall i | 0 <= i < |entries| ensures !EndsUnder(region, Heading(entries[i].section)) {
      assert EntrySuits(entries[i], {h});
    }
  }

  lemma NoNewlineLast(changelog: string, pre: seq<string>, region: seq<string>, post: seq<string>)
    requires Shape(Split(changelog), pre, region, post) && !EndsWithNewline(changelog)
    ensures post != [] ==> post[|post| - 1] != ""
    ensures post == [] && region != [] ==> region[|region| - 1] != ""
  {
    var lines := Split(changelog);
    SplitGivesLines(changelog);
    JoinOfSplit(changelog);
    NewlineIsEmptyLastLine(lines);
    assert post != [] ==> lines[|lines| - 1] == post[|post| - 1];
    assert post == [] && region != [] ==> lines[|lines| - 1] == region[|region| - 1];
  }

  lemma FoldedIsLonger(region: seq<string>, entries: seq<Entry>)
    requires entries != []
    ensures OneByOne(region, entries) != []
  {
    hide Put;
    var last := entries[|entries| - 1];
    PutKeepsLines(region, Heading(last.section), Split(last.text));
    OneByOneGrows(PutEntry(region, last), entries[..|entries| - 1]);
  }

  lemma EndOfThree(pre: seq<string>, middle: seq<string>, post: seq<string>)
    requires pre != [] && middle != []
    ensures |pre + middle + post| >= 2
    ensures LastIsEmpty(pre + middle + post) <==> if post == [] then LastIsEmpty(middle) else LastIsEmpty(post)
  {}

  lemma {:induction false} ReachInTwo(region: seq<string>, later: seq<Entry>, earlier: seq<Entry>)
    ensures ReachesEnd(region, later + earlier) <==> ReachesEnd(region, later) || ReachesEnd(region, earlier)
  {
    hide EndsUnder;
    forall i | 0 <= i < |later| && EndsUnder(region, Heading(later[i].section)) ensures ReachesEnd(region, later + earlier) {
      assert (later + earlier)[i] == later[i];
    }
    forall i | 0 <= i < |earlier| && EndsUnder(region, Heading(earlier[i].section)) ensures ReachesEnd(region, later + earlier) {
      assert (later + earlier)[|later| + i] == earlier[i];
    }
  }

  /** Where the changelog has no final newline, the folded lines end in an empty one only if an entry reached the end. */
  lemma {:induction false} EndOfFold(
    changelog: string, pre: seq<string>, region: seq<string>, post: seq<string>, entries: seq<Entry>, named: set<string>)
    requires Shape(Split(changelog), pre, region, post) && AllReady(region, named) && "" !in named
    requires EntriesSuit(entries, named) && !EndsWithNewline(changelog) && entries != []
    ensures var folded := pre + OneByOne(region, entries) + post;
      |folded| >= 2 && (LastIsEmpty(folded) <==> post == [] && ReachesEnd(region, entries))
  {
    var lines := Split(changelog);
    assert region != [] by {
      assert EntrySuits(entries[0], named) && Ready(region, Heading(entries[0].section), named);
    }
    NoNewlineLast(changelog, pre, region, post);
    hide OneByOne, EntrySuits, Quiet, Ready, ReachesEnd;
    FoldAtTheEnd(region, entries, named);
    OneByOneGrows(region, entries);
    EndOfThree(pre, OneByOne(region, entries), post);
  }

  lemma {:induction false} OneByOneGrows(lines: seq<string>, entries: seq<Entry>)
    ensures |OneByOne(lines, entries)| >= |lines|
    decreases |entries|
  {
    if entries != [] {
      hide Put;
      var last := entries[|entries| - 1];
      PutKeepsLines(lines, Heading(last.section), Split(last.text));
      OneByOneGrows(PutEntry(lines, last), entries[..|entries| - 1]);
    }
  }

  /** A blank line at the end is seen in the text unless the text got its final newline from it. */
  lemma {:induction false} BlankLineShows(lines: seq<string>)
    requires |lines| >= 2 && AllOneLine(lines)
    ensures Finished(Join(lines + [""])) == Finished(Join(lines)) <==> !LastIsEmpty(lines)
  {
    FinishedByLines(lines);
    FinishedByLines(lines + [""]);
    assert FinishedLines(lines + [""]) == lines + [""];
    if LastIsEmpty(lines) {
      assert FinishedLines(lines) == lines;
      assert |lines + [""]| != |lines|;
    }
  }
}
