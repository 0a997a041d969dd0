/** A changelog folded twice, whatever its sections. */
module FoldTwice {
  // The theorem on instalments, on whole changelogs and their final newline.

  import opened Wrappers
  import opened Lines
  import opened Sections
  import opened Groups
  import opened Placement
  import opened Changelog
  import opened Incremental
  import opened Orders
  import opened Instalments
  import Sets

  // ----- Where an empty last line comes from --------------------------------

  /** Under a heading in front of all it makes, the order puts a block after the last line. */
  ghost predicate PutsLast(region: seq<string>, order: seq<string>) {
    exists h :: h in Front(region, order) && EndsUnder(region, h)
  }

  lemma {:induction false} MadeAtTheEnd(lines: seq<string>, named: set<string>, h: string, block: seq<string>)
    requires Tidy(lines, named) && TextNames(named) && h in named && Fits(block, named) && !Has(lines, h)
    ensures LastIsEmpty(Put(lines, h, block)) <==> LastIsEmpty(lines)
    ensures forall k | k in named :: !EndsUnder(Put(lines, h, block), k)
  {
    var made, t := Put(lines, h, block), Tail(lines);
    TailEndsText(lines);
    BlankIsBlank();
    hide Blank, Tail, FirstAt, Tidy, CleanBlock;
    assert made == lines[..t] + (["", h, ""] + block) + lines[t..];
    if t == |lines| {
      assert made[|made| - 1] == block[|block| - 1];
    } else {
      assert made[|made| - 1] == lines[|lines| - 1];
    }
    forall k | k in named ensures !EndsUnder(made, k) {
      OwnPlace(lines, named, h, block);
      if k != h && Has(lines, k) {
        HeadingIsText(lines, k);
        PlaceAfterPut(lines, named, h, block, k);
      } else if k != h {
        PlaceAfterPut(lines, named, h, block, k);
      }
    }
  }

  /** After a put under a heading that stands the others reach the end as they did, and it no more. */
  lemma {:induction false} EndsAfterPut(lines: seq<string>, named: set<string>, h: string, block: seq<string>, k: string)
    requires Tidy(lines, named) && h in named && k in named && Fits(block, named) && Has(lines, h)
    ensures LastIsEmpty(Put(lines, h, block)) <==> LastIsEmpty(lines) || EndsUnder(lines, h)
    ensures EndsUnder(Put(lines, h, block), k) <==> k != h && EndsUnder(lines, k)
  {
    assert Ready(lines, h, named);
    PutAtTheEnd(lines, h, named, block);
    if k == h {
      PutOnceMore(lines, h, named, block);
    } else if Has(lines, k) {
      assert Ready(lines, k, named);
      EndsUnderThroughPut(lines, k, h, named, block);
    } else {
      HasAfterPut(lines, named, h, block, k);
    }
  }

  lemma {:induction false} NeverLast(
    lines: seq<string>, named: set<string>, order: seq<string>, blocks: map<string, seq<string>>)
    requires Tidy(lines, named) && TextNames(named) && Suiting(blocks, named) && forall h | h in order :: h in blocks
    requires !LastIsEmpty(lines) && forall k | k in named :: !EndsUnder(lines, k)
    ensures !LastIsEmpty(PutAll(lines, order, blocks))
    decreases |order|
  {
    if order != [] {
      var h := order[0];
      assert h in order;
      BlockFits(blocks, named, h);
      KeepsTidy(lines, named, h, blocks[h]);
      hide Put, Tidy, Fits, Suiting, EndsUnder, LastIsEmpty, Has;
      if Has(lines, h) {
        forall k | k in named ensures !EndsUnder(Put(lines, h, blocks[h]), k) {
          EndsAfterPut(lines, named, h, blocks[h], k);
        }
        EndsAfterPut(lines, named, h, blocks[h], h);
      } else {
        MadeAtTheEnd(lines, named, h, blocks[h]);
      }
      NeverLast(Put(lines, h, blocks[h]), named, order[1..], blocks);
    }
  }

  lemma {:induction false} StaysLast(
    lines: seq<string>, named: set<string>, order: seq<string>, blocks: map<string, seq<string>>)
    requires Tidy(lines, named) && TextNames(named) && Suiting(blocks, named) && forall h | h in order :: h in blocks
    requires LastIsEmpty(lines)
    ensures LastIsEmpty(PutAll(lines, order, blocks))
    decreases |order|
  {
    if order != [] {
      var h := order[0];
      assert h in order;
      BlockFits(blocks, named, h);
      KeepsTidy(lines, named, h, blocks[h]);
      hide Put, Tidy, Fits, Suiting, EndsUnder, LastIsEmpty, Has;
      if Has(lines, h) {
        EndsAfterPut(lines, named, h, blocks[h], h);
      } else {
        MadeAtTheEnd(lines, named, h, blocks[h]);
      }
      StaysLast(Put(lines, h, blocks[h]), named, order[1..], blocks);
    }
  }

  /** Puts leave an empty last line exactly where one goes after the last line before any section is made. */
  lemma {:induction false} LastAfterPuts(
    lines: seq<string>, named: set<string>, order: seq<string>, blocks: map<string, seq<string>>)
    requires Tidy(lines, named) && TextNames(named) && Suiting(blocks, named) && forall h | h in order :: h in blocks
    requires !LastIsEmpty(lines) && Once(order)
    ensures LastIsEmpty(PutAll(lines, order, blocks)) <==> PutsLast(lines, order)
    decreases |order|
  {
    if order != [] {
      var h, rest := order[0], order[1..];
      var after := Put(lines, h, blocks[h]);
      assert h in order;
      assert h !in rest && Once(rest) by { assert forall i :: 0 <= i < |rest| ==> rest[i] == order[i + 1]; }
      BlockFits(blocks, named, h);
      KeepsTidy(lines, named, h, blocks[h]);
      if Has(lines, h) {
        hide Put, Tidy, Suiting, EndsUnder, LastIsEmpty, Has;
        EndsAfterPut(lines, named, h, blocks[h], h);
        if EndsUnder(lines, h) {
          assert h in Front(lines, order);
          StaysLast(after, named, rest, blocks);
        } else {
          SameFront(lines, named, h, blocks[h], rest);
          FrontIsOf(lines, rest);
          forall k | k in Front(lines, rest) ensures EndsUnder(after, k) <==> EndsUnder(lines, k) {
            InBlocks(order, blocks, named);
            assert k in order;
            EndsAfterPut(lines, named, h, blocks[h], k);
          }
          assert Front(lines, order) == [h] + Front(lines, rest);
          LastAfterPuts(after, named, rest, blocks);
        }
      } else {
        assert Front(lines, order) == [];
        MadeAtTheEnd(lines, named, h, blocks[h]);
        hide Put, Tidy, Suiting, EndsUnder, LastIsEmpty, Has;
        NeverLast(after, named, rest, blocks);
      }
    }
  }

  lemma {:induction false} SameFront(
    lines: seq<string>, named: set<string>, h: string, block: seq<string>, order: seq<string>)
    requires Tidy(lines, named) && h in named && Fits(block, named)
    requires h !in order && forall k | k in order :: k in named
    ensures Front(Put(lines, h, block), order) == Front(lines, order)
  {
    if order != [] {
      hide Put, Tidy, Has;
      HasAfterPut(lines, named, h, block, order[0]);
      SameFront(lines, named, h, block, order[1..]);
    }
  }

  // ----- As many lines either way -------------------------------------------

  /** The lines the order adds. */
  function Growth(lines: seq<string>, order: seq<string>, blocks: map<string, seq<string>>): nat
    requires forall h | h in order :: h in blocks
  {
    if order == [] then 0 else Added(lines, order[0], blocks[order[0]]) + Growth(lines, order[1..], blocks)
  }

  lemma {:induction false} GrowthStays(
    lines: seq<string>, named: set<string>, h: string, block: seq<string>, order: seq<string>, blocks: map<string, seq<string>>)
    requires Tidy(lines, named) && h in named && Fits(block, named) && forall k | k in order :: k in blocks
    requires h !in order && forall k | k in order :: k in named
    ensures Growth(Put(lines, h, block), order, blocks) == Growth(lines, order, blocks)
  {
    if order != [] {
      hide Put, Tidy, CleanBlock, Solid;
      HasAfterPut(lines, named, h, block, order[0]);
      GrowthStays(lines, named, h, block, order[1..], blocks);
    }
  }

  lemma {:induction false} GrowsBy(
    lines: seq<string>, named: set<string>, order: seq<string>, blocks: map<string, seq<string>>)
    requires Tidy(lines, named) && TextNames(named) && Suiting(blocks, named) && forall h | h in order :: h in blocks
    requires Once(order)
    ensures |PutAll(lines, order, blocks)| == |lines| + Growth(lines, order, blocks)
    decreases |order|
  {
    if order != [] {
      var h, rest := order[0], order[1..];
      assert h in order;
      assert h !in rest && Once(rest) by { assert forall i :: 0 <= i < |rest| ==> rest[i] == order[i + 1]; }
      BlockFits(blocks, named, h);
      InBlocks(order, blocks, named);
      hide Put, Tidy, Suiting, Added;
      KeepsTidy(lines, named, h, blocks[h]);
      PutKeepsLines(lines, h, blocks[h]);
      GrowthStays(lines, named, h, blocks[h], rest, blocks);
      GrowsBy(Put(lines, h, blocks[h]), named, rest, blocks);
    }
  }

  lemma {:induction false} GrowthInTwo(lines: seq<string>, a: seq<string>, b: seq<string>, blocks: map<string, seq<string>>)
    requires forall h | h in a + b :: h in blocks
    ensures Growth(lines, a + b, blocks) == Growth(lines, a, blocks) + Growth(lines, b, blocks)
  {
    if a == [] {
      assert a + b == b;
    } else {
      assert (a + b)[1..] == a[1..] + b;
      hide Added;
      GrowthInTwo(lines, a[1..], b, blocks);
    }
  }

  lemma {:induction false} GrowthWithout(
    lines: seq<string>, order: seq<string>, h: string, before: seq<string>, rest: seq<string>, blocks: map<string, seq<string>>)
    requires Without(order, h, before, rest) && h in order && forall k | k in order :: k in blocks
    ensures Growth(lines, order, blocks) == Added(lines, h, blocks[h]) + Growth(lines, rest, blocks)
  {
    hide Added, Growth, Once;
    var after :| order == before + [h] + after && rest == before + after;
    GrowthInTwo(lines, before + [h], after, blocks);
    GrowthInTwo(lines, before, [h], blocks);
    GrowthInTwo(lines, before, after, blocks);
    GrowthOfOne(lines, h, blocks);
  }

  lemma GrowthOfOne(lines: seq<string>, h: string, blocks: map<string, seq<string>>)
    requires h in blocks
    ensures Growth(lines, [h], blocks) == Added(lines, h, blocks[h])
  {
    assert [h][1..] == [];
  }

  lemma {:induction false} SameGrowth(
    lines: seq<string>, one: seq<string>, other: seq<string>, blocks: map<string, seq<string>>)
    requires Rearranged(one, other) && forall h | h in one :: h in blocks
    ensures Growth(lines, one, blocks) == Growth(lines, other, blocks)
    decreases |one|
  {
    if one != [] {
      var p, rest, x, left := WithoutBoth(one, other, one[0]);
      hide Added, Growth, Without;
      GrowthWithout(lines, one, one[0], p, rest, blocks);
      GrowthWithout(lines, other, one[0], x, left, blocks);
      SameGrowth(lines, rest, left, blocks);
    }
  }

  // ----- What a fold leaves -------------------------------------------------

  lemma {:induction false} FirstTrailing(lines: seq<string>, h: string)
    requires h != ""
    ensures FirstAt(lines + [""], h) == FirstAt(lines, h)
  {
    assert lines + [""] == Insert(lines, |lines|, [""]);
    FirstAtInsert(lines, |lines|, [""], h);
  }

  lemma {:induction false} TidyTrailing(lines: seq<string>, named: set<string>)
    requires Tidy(lines, named)
    ensures Tidy(lines + [""], named)
  {
    forall k | k in named && FirstAt(lines + [""], k).Some? ensures Ready(lines + [""], k, named) {
      FirstTrailing(lines, k);
      assert Ready(lines, k, named);
    }
  }

  lemma TailTrailing(lines: seq<string>)
    ensures Tail(lines + [""]) == Tail(lines)
  {
    BlankIsBlank();
    assert (lines + [""])[..|lines|] == lines;
  }

  lemma InsertTrailing(lines: seq<string>, p: nat, added: seq<string>)
    requires p <= |lines|
    ensures Insert(lines + [""], p, added) == Insert(lines, p, added) + [""]
  {
    assert (lines + [""])[..p] == lines[..p] && (lines + [""])[p..] == lines[p..] + [""];
  }

  lemma {:induction false} PutTrailing(lines: seq<string>, named: set<string>, h: string, block: seq<string>)
    requires Tidy(lines, named) && h in named
    ensures Put(lines + [""], h, block) == Put(lines, h, block) + [""]
  {
    FirstTrailing(lines, h);
    TailTrailing(lines);
    assert FirstAt(lines, h).Some? ==> Ready(lines, h, named);
    hide Tail, FirstAt, Tidy, Insert;
    InsertTrailing(lines, PutAt(lines, h), Adds(lines, h, block));
  }

  lemma {:induction false} ApplyStaysTidy(lines: seq<string>, groups: seq<Group>, named: set<string>)
    requires Tidy(lines, named) && AllSuit(groups, named)
    ensures NonEmptyGroups(groups) && Tidy(Apply(lines, groups), named)
    ensures Apply(lines + [""], groups) == Apply(lines, groups) + [""]
    decreases |groups|
  {
    RestSuits(groups, named);
    if groups != [] {
      var g := groups[0];
      CleanBlockOfTexts(g.texts, named);
      hide Put, Tidy, CleanTexts, CleanBlock, Block, AllSuit;
      PutTrailing(lines, named, Heading(g.section), Block(g.texts));
      PutKeepsTidy(lines, named, Heading(g.section), Block(g.texts));
      ApplyStaysTidy(PutGroup(lines, g), groups[1..], named);
    }
  }

  /** The group's lines open no release, and its heading is one line. */
  ghost predicate QuietGroup(g: Group) {
    g.texts != [] && OneLine(g.section) && forall i :: 0 <= i < |g.texts| ==> Quiet(Split(g.texts[i]))
  }

  lemma {:induction false} AddToIsQuiet(groups: seq<Group>, e: Entry)
    requires QuietEntry(e) && forall i :: 0 <= i < |groups| ==> QuietGroup(groups[i])
    ensures forall i :: 0 <= i < |AddTo(groups, e)| ==> QuietGroup(AddTo(groups, e)[i])
  {
    hide Quiet, Split;
    if groups != [] && groups[0].section != e.section {
      AddToIsQuiet(groups[1..], e);
    } else if groups != [] {
      assert QuietGroup(groups[0]);
    }
  }

  lemma {:induction false} GatheredAreQuiet(entries: seq<Entry>)
    requires forall i :: 0 <= i < |entries| ==> QuietEntry(entries[i])
    ensures forall i :: 0 <= i < |Gathered(entries)| ==> QuietGroup(Gathered(entries)[i])
  {
    if entries != [] {
      hide QuietEntry, QuietGroup;
      GatheredAreQuiet(entries[..|entries| - 1]);
      AddToIsQuiet(Gathered(entries[..|entries| - 1]), entries[|entries| - 1]);
    }
  }

  lemma {:induction false} BlockIsQuiet(texts: seq<string>)
    requires texts != [] && forall i :: 0 <= i < |texts| ==> Quiet(Split(texts[i]))
    ensures Quiet(Block(texts))
  {
    if |texts| > 1 {
      var front, last := texts[..|texts| - 1], texts[|texts| - 1];
      assert texts == front + [last];
      assert Quiet(Split(last)) && !OpensRelease("");
      BlockIsQuiet(front);
      BlockOfOneMore(front, last);
      hide OpensRelease, Split;
    }
  }

  lemma {:induction false} ApplyIsQuiet(lines: seq<string>, groups: seq<Group>)
    requires Quiet(lines) && AllOneLine(lines) && forall i :: 0 <= i < |groups| ==> QuietGroup(groups[i])
    ensures NonEmptyGroups(groups) && Quiet(Apply(lines, groups)) && AllOneLine(Apply(lines, groups))
    decreases |groups|
  {
    assert NonEmptyGroups(groups) by {
      forall i | 0 <= i < |groups| ensures groups[i].texts != [] {
        assert QuietGroup(groups[i]);
      }
    }
    if groups != [] {
      var g := groups[0];
      assert QuietGroup(g);
      BlockIsQuiet(g.texts);
      SplitGivesLines(JoinTexts(g.texts));
      assert Heading(g.section)[..3] == "###" != "## ";
      hide Put, Quiet, QuietGroup, AllOneLine;
      PutIsQuiet(lines, Heading(g.section), Block(g.texts)) by {
        assert OneLine(Heading(g.section));
      }
      ApplyIsQuiet(PutGroup(lines, g), groups[1..]);
    }
  }

  // ----- Two folds ----------------------------------------------------------

  /** Entries for the named sections, none of their lines a heading of those or of a release, their texts text to the end. */
  ghost predicate Given(entries: seq<Entry>, named: set<string>) {
    Foldable(entries, named) && AllSolid(entries)
  }

  /** The lines of a changelog with entries folded into its region. */
  function WithFolded(pre: seq<string>, region: seq<string>, post: seq<string>, entries: seq<Entry>): seq<string> {
    GatheredHaveTexts(entries);
    pre + Apply(region, Gathered(entries)) + post
  }

  lemma {:induction false} FoldOnce(
    lines: seq<string>, pre: seq<string>, region: seq<string>, post: seq<string>, entries: seq<Entry>, named: set<string>)
    requires Shape(lines, pre, region, post) && AllOneLine(lines) && Tidy(region, named) && Given(entries, named)
    ensures FirstAt(lines, UNRELEASED).Some? && NonEmptyGroups(Gathered(entries))
    ensures FoldLines(lines, entries) == WithFolded(pre, region, post, entries)
    ensures Shape(WithFolded(pre, region, post, entries), pre, Apply(region, Gathered(entries)), post)
    ensures AllOneLine(WithFolded(pre, region, post, entries))
    ensures Tidy(Apply(region, Gathered(entries)), named)
  {
    GatheredAreQuiet(entries);
    hide FoldLines, Gathered, QuietGroup, Tidy, Quiet, EntrySuits, QuietEntry, AllOneLine, AllSolid;
    TidyOpens(region, named);
    FoldKeepsFrame(lines, pre, region, post, entries, named);
    GatheredSuit(entries, named);
    ApplyStaysTidy(region, Gathered(entries), named);
    RegionIsOneLine(pre, region, post);
    ApplyIsQuiet(region, Gathered(entries));
    ShapeOfAnother(pre, region, post, Apply(region, Gathered(entries)));
  }

  /** A second fold, of the text the first gave: a newline it added is a blank line more. */
  lemma {:induction false} FoldAgain(
    text: string, once: seq<string>, pre: seq<string>, mid: seq<string>, post: seq<string>,
    later: seq<Entry>, named: set<string>)
    requires Shape(once, pre, mid, post) && Split(text) == FinishedLines(once) && AllOneLine(once)
    requires Given(later, named) && later != [] && Tidy(mid, named)
    ensures Fold(text, later) == Ok(Finished(Join(
      if FinishedLines(once) == once then WithFolded(pre, mid, post, later) else WithFolded(pre, mid, post, later) + [""])))
  {
    hide Split, FoldLines, Fold, Given, Tidy, Gathered;
    if FinishedLines(once) == once {
      FoldOnce(once, pre, mid, post, later, named);
      FoldByLines(text, later);
    } else {
      assert !OpensRelease("") && OneLine("");
      assert AllOneLine(once + [""]);
      if post != [] {
        assert once + [""] == pre + mid + (post + [""]);
        FoldOnce(once + [""], pre, mid, post + [""], later, named);
        FoldByLines(text, later);
        assert WithFolded(pre, mid, post + [""], later) == WithFolded(pre, mid, post, later) + [""];
      } else {
        assert once + [""] == pre + (mid + [""]) + [];
        FoldTrailing(mid, later, named);
        FoldOnce(once + [""], pre, mid + [""], [], later, named);
        FoldByLines(text, later);
        assert WithFolded(pre, mid + [""], [], later) == WithFolded(pre, mid, post, later) + [""];
      }
    }
  }

  lemma FoldTrailing(mid: seq<string>, later: seq<Entry>, named: set<string>)
    requires Tidy(mid, named) && Given(later, named)
    ensures NonEmptyGroups(Gathered(later)) && Tidy(mid + [""], named)
    ensures Apply(mid + [""], Gathered(later)) == Apply(mid, Gathered(later)) + [""]
  {
    GatheredSuit(later, named);
    TidyTrailing(mid, named);
    ApplyStaysTidy(mid, Gathered(later), named);
  }

  /** Both ways of folding, as lines. */
  lemma {:induction false} BothFolds(
    changelog: string, pre: seq<string>, region: seq<string>, post: seq<string>,
    earlier: seq<Entry>, later: seq<Entry>, named: set<string>)
    requires Shape(Split(changelog), pre, region, post) && Tidy(region, named)
    requires Given(earlier, named) && Given(later, named) && earlier != [] && later != []
    ensures NonEmptyGroups(Gathered(earlier)) && Fold(changelog, earlier).Ok?
    ensures var once, mid := WithFolded(pre, region, post, earlier), Apply(region, Gathered(earlier));
      var twice, both := WithFolded(pre, mid, post, later), WithFolded(pre, region, post, later + earlier);
      AllOneLine(twice) && AllOneLine(both)
      && Fold(changelog, later + earlier) == Ok(Finished(Join(both)))
      && Fold(Fold(changelog, earlier).value, later)
           == Ok(Finished(Join(if FinishedLines(once) == once then twice else twice + [""])))
  {
    var lines := Split(changelog);
    SplitGivesLines(changelog);
    assert Given(later + earlier, named);
    hide Split, FoldLines, Fold, Given, Tidy, Gathered, WithFolded;
    FoldOnce(lines, pre, region, post, later + earlier, named);
    FoldOnce(lines, pre, region, post, earlier, named);
    FoldByLines(changelog, later + earlier);
    FoldByLines(changelog, earlier);
    var once, mid := WithFolded(pre, region, post, earlier), Apply(region, Gathered(earlier));
    FinishedByLines(once);
    FoldAgain(Fold(changelog, earlier).value, once, pre, mid, post, later, named);
    FoldOnce(once, pre, mid, post, later, named);
  }

  // ----- When the two agree -------------------------------------------------

  /** What ends the folded lines. */
  lemma {:induction false} EndOf(
    pre: seq<string>, region: seq<string>, post: seq<string>, entries: seq<Entry>, named: set<string>)
    requires pre != [] && Tidy(region, named) && Given(entries, named) && entries != []
    ensures var folded := WithFolded(pre, region, post, entries);
      |folded| >= 2
      && (LastIsEmpty(folded) <==>
            if post != [] then LastIsEmpty(post) else LastIsEmpty(region) || PutsLast(region, Order(entries)))
  {
    GatheredHaveTexts(entries);
    var text := TextNamesOf(region, named, entries);
    var after := Apply(region, Gathered(entries));
    hide Tidy, Foldable, Gathered, Apply, PutAll, Order, BlocksOf, PutsLast, TextNames, Suiting, Once, AllSolid;
    AfterIsLonger(region, entries);
    EndOfThree(pre, after, post);
    GatheredInOrder(region, entries);
    assert "" !in text by { NamesAreText(text); }
    BlocksSuit(entries, text);
    assert Once(Order(entries)) by { OrderIsOnce(entries); }
    if LastIsEmpty(region) {
      StaysLast(region, text, Order(entries), BlocksOf(entries));
    } else {
      LastAfterPuts(region, text, Order(entries), BlocksOf(entries));
    }
  }

  lemma OrderIsOnce(entries: seq<Entry>)
    ensures Once(Order(entries))
  {
    FirstsAreOnce(Headings(entries));
  }

  lemma {:induction false} AfterIsLonger(region: seq<string>, entries: seq<Entry>)
    requires entries != []
    ensures NonEmptyGroups(Gathered(entries)) && Apply(region, Gathered(entries)) != []
  {
    GatheredHaveTexts(entries);
    var groups := Gathered(entries);
    hide Put, Gathered, Block;
    assert groups != [] by { SomeGroup(entries); }
    PutKeepsLines(region, Heading(groups[0].section), Block(groups[0].texts));
    FoldKeepsLines(PutGroup(region, groups[0]), groups[1..]);
    WithinIsNoLonger(PutGroup(region, groups[0]), Apply(region, groups));
  }

  lemma SomeGroup(entries: seq<Entry>)
    requires entries != []
    ensures Gathered(entries) != []
  {}

  lemma {:induction false} WithinIsNoLonger(small: seq<string>, large: seq<string>)
    requires Within(small, large)
    ensures |small| <= |large|
    decreases |large|
  {
    if small != [] {
      if small[0] == large[0] && Within(small[1..], large[1..]) {
        WithinIsNoLonger(small[1..], large[1..]);
      } else {
        WithinIsNoLonger(small, large[1..]);
      }
    }
  }

  /** Either way as many lines are added. */
  lemma {:induction false} AsManyLines(
    region: seq<string>, earlier: seq<Entry>, later: seq<Entry>, named: set<string>)
    requires Tidy(region, named) && Given(earlier, named) && Given(later, named)
    ensures NonEmptyGroups(Gathered(earlier)) && NonEmptyGroups(Gathered(later)) && NonEmptyGroups(Gathered(later + earlier))
    ensures |Apply(Apply(region, Gathered(earlier)), Gathered(later))| == |Apply(region, Gathered(later + earlier))|
  {
    var text := TextNamesOf(region, named, earlier);
    var same := TextNamesOf(region, named, later);
    assert EntriesSuit(later + earlier, text) && AllSolid(later + earlier);
    hide Tidy, Foldable, EntriesSuit, Gathered, Apply, PutAll, Order, BlocksOf, TextNames, Suiting, Once, AllSolid, NonEmptyGroups;
    InstalmentsInOrder(region, text, earlier, later);
    GatheredInOrder(region, later + earlier);
    assert "" !in text by { NamesAreText(text); }
    BlocksSuit(later + earlier, text);
    OrdersAreRearranged(earlier, later);
    var one, other, blocks := Order(earlier + later), Order(later + earlier), BlocksOf(later + earlier);
    SameGrowth(region, one, other, blocks);
    GrowsBy(region, text, one, blocks);
    GrowsBy(region, text, other, blocks);
  }

  lemma {:induction false} SameTexts(a: seq<string>, b: seq<string>)
    requires a != [] && b != [] && AllOneLine(a) && AllOneLine(b)
    ensures Finished(Join(a)) == Finished(Join(b)) <==> FinishedLines(a) == FinishedLines(b)
  {
    FinishedByLines(a);
    FinishedByLines(b);
  }

  /** How two folds and one compare, from how their lines end. */
  lemma {:induction false} CompareEnds(once: seq<string>, twice: seq<string>, both: seq<string>)
    requires |once| >= 2 && |twice| >= 2 && |both| == |twice| && AllOneLine(twice) && AllOneLine(both)
    requires LastIsEmpty(once) ==> LastIsEmpty(twice)
    ensures Finished(Join(if FinishedLines(once) == once then twice else twice + [""])) == Finished(Join(both)) <==>
      (twice == both && (LastIsEmpty(once) || !LastIsEmpty(both)))
  {
    var again := if FinishedLines(once) == once then twice else twice + [""];
    assert AllOneLine(again);
    SameTexts(again, both);
    assert FinishedLines(once) == once <==> LastIsEmpty(once);
    assert FinishedLines(again) == again;
    hide Finished, Join, AllOneLine, FinishedLines;
    if LastIsEmpty(once) {
      FinishedIs(both, twice);
    } else {
      FinishedIs(both, twice);
      assert (twice + [""])[..|twice|] == twice;
    }
  }

  lemma FinishedIs(lines: seq<string>, other: seq<string>)
    requires |lines| >= 2 && |other| == |lines|
    ensures FinishedLines(lines) == other <==> lines == other && LastIsEmpty(lines)
    ensures FinishedLines(lines) == other + [""] <==> lines == other && !LastIsEmpty(lines)
  {
    assert (lines + [""])[..|lines|] == lines && (other + [""])[..|other|] == other;
  }

  /** How the lines of both ways of folding end. */
  lemma {:induction false} BothEnds(
    changelog: string, pre: seq<string>, region: seq<string>, post: seq<string>,
    earlier: seq<Entry>, later: seq<Entry>, named: set<string>)
    requires Shape(Split(changelog), pre, region, post) && Tidy(region, named)
    requires Given(earlier, named) && Given(later, named) && earlier != [] && later != []
    ensures NonEmptyGroups(Gathered(earlier))
    ensures var once, mid := WithFolded(pre, region, post, earlier), Apply(region, Gathered(earlier));
      var twice, both := WithFolded(pre, mid, post, later), WithFolded(pre, region, post, later + earlier);
      && |once| >= 2 && |twice| == |both| >= 2
      && (LastIsEmpty(once) <==> EndsWithNewline(changelog) || (post == [] && PutsLast(region, Order(earlier))))
      && (LastIsEmpty(both) <==> EndsWithNewline(changelog) || (post == [] && PutsLast(region, Order(later + earlier))))
      && (LastIsEmpty(once) ==> LastIsEmpty(twice))
  {
    assert Given(later + earlier, named);
    NewlineIsLast(changelog, pre, region, post);
    AsManyLines(region, earlier, later, named);
    MidIsTidy(region, earlier, named);
    var mid := Apply(region, Gathered(earlier));
    hide Tidy, Given, Gathered, Apply, PutsLast, Order, Split, Quiet;
    EndOf(pre, region, post, earlier, named);
    EndOf(pre, region, post, later + earlier, named);
    EndOf(pre, mid, post, later, named);
    AfterIsLonger(region, earlier);
    MidEnds(pre, mid, post);
  }

  lemma {:induction false} TwiceIsBoth(
    pre: seq<string>, region: seq<string>, post: seq<string>, earlier: seq<Entry>, later: seq<Entry>, named: set<string>)
    requires Tidy(region, named) && Given(earlier, named) && Given(later, named)
    ensures NonEmptyGroups(Gathered(earlier))
    ensures WithFolded(pre, Apply(region, Gathered(earlier)), post, later) == WithFolded(pre, region, post, later + earlier)
       <==> SameMaking(region, Order(earlier + later), Order(later + earlier))
  {
    RegionInstalmentsExactly(region, earlier, later, named);
    hide Tidy, Gathered, Apply, SameMaking, Order, EntriesSuit, AllSolid;
    var a, b := Apply(Apply(region, Gathered(earlier)), Gathered(later)), Apply(region, Gathered(later + earlier));
    assert (pre + a + post)[|pre|..|pre| + |a|] == a && (pre + b + post)[|pre|..|pre| + |b|] == b;
  }

  lemma {:induction false} SolidFoldTwice(
    changelog: string, pre: seq<string>, region: seq<string>, post: seq<string>,
    earlier: seq<Entry>, later: seq<Entry>, named: set<string>)
    requires Shape(Split(changelog), pre, region, post) && Tidy(region, named)
    requires Given(earlier, named) && Given(later, named) && earlier != [] && later != []
    ensures Fold(changelog, earlier).Ok?
    ensures Fold(Fold(changelog, earlier).value, later) == Fold(changelog, later + earlier) <==>
      (SameMaking(region, Order(earlier + later), Order(later + earlier))
       && (EndsWithNewline(changelog) || post != []
           || PutsLast(region, Order(earlier)) || !PutsLast(region, Order(later + earlier))))
  {
    hide Tidy, Given, Gathered, Apply, SameMaking, PutsLast, Order, Fold, Split, Quiet, WithFolded, Join, Finished, LastIsEmpty;
    BothFolds(changelog, pre, region, post, earlier, later, named);
    BothEnds(changelog, pre, region, post, earlier, later, named);
    TwiceIsBoth(pre, region, post, earlier, later, named);
    var once, mid := WithFolded(pre, region, post, earlier), Apply(region, Gathered(earlier));
    var twice, both := WithFolded(pre, mid, post, later), WithFolded(pre, region, post, later + earlier);
    CompareEnds(once, twice, both);
  }

  /** Where nothing but one section can be missing, an order puts last exactly where some entry reaches the end. */
  lemma {:induction false} ReceivedPutsLast(region: seq<string>, entries: seq<Entry>, named: set<string>)
    requires Receives(region, named) && EntriesSuit(entries, named)
    ensures PutsLast(region, Order(entries)) <==> ReachesEnd(region, entries)
  {
    FirstsAreOnce(Headings(entries));
    NamedAreNamed(entries, named);
    hide Firsts, EndsUnder, Heading, EntriesSuit;
    FrontOfStanding(region, Order(entries));
    FrontIsOf(region, Order(entries));
    forall i | 0 <= i < |entries| && EndsUnder(region, Heading(entries[i].section)) ensures PutsLast(region, Order(entries)) {
      var h := Headings(entries)[i];
      assert h in Headings(entries) && h in Order(entries);
      EndsUnderStands(region, h);
      ReceivedHeading(region, named, h);
      forall k | k in Order(entries) ensures Has(region, k) {
        FirstAtIsFirst(region, k);
        ReceivedHeading(region, named, k);
      }
    }
    if PutsLast(region, Order(entries)) {
      var h :| h in Front(region, Order(entries)) && EndsUnder(region, h);
      var i :| 0 <= i < |entries| && Headings(entries)[i] == h;
    }
  }

  lemma EndsUnderStands(region: seq<string>, h: string)
    requires EndsUnder(region, h)
    ensures Has(region, h) && h in region
  {}

  lemma {:induction false} FrontOfStanding(region: seq<string>, order: seq<string>)
    ensures (forall h | h in order :: Has(region, h)) ==> Front(region, order) == order
  {
    if order != [] {
      FrontOfStanding(region, order[1..]);
    }
  }

  lemma {:induction false} OnceAndAllAlike(order: seq<string>, h: string)
    requires Once(order) && forall k :: k in order ==> k == h
    ensures |order| <= 1
  {
    var all := set k | k in order;
    SizeOfOnce(order, all);
    assert all <= {h};
    Sets.SubsetSize(all, {h});
  }

  lemma {:induction false} SizeOfOnce(order: seq<string>, all: set<string>)
    requires Once(order) && all == set k | k in order
    ensures |all| == |order|
  {
    if order != [] {
      var front, last := order[..|order| - 1], order[|order| - 1];
      assert forall k :: k in order <==> k in front || k == last;
      SizeOfOnce(front, all - {last});
    }
  }

  /** Where nothing but one section can be missing there is nothing to make otherwise. */
  lemma {:induction false} ReceivedMakesSame(region: seq<string>, earlier: seq<Entry>, later: seq<Entry>, named: set<string>)
    requires Receives(region, named) && EntriesSuit(earlier, named) && EntriesSuit(later, named)
    ensures SameMaking(region, Order(earlier + later), Order(later + earlier))
  {
    var other := Order(later + earlier);
    assert EntriesSuit(later + earlier, named);
    NamedAreNamed(later + earlier, named);
    OrderIsOnce(later + earlier);
    hide Order, EntriesSuit, SameMaking;
    if AllReady(region, named) {
      forall h | h in other ensures h in region {
        assert Ready(region, h, named);
        FirstAtIsFirst(region, h);
      }
    } else {
      var h :| named == {h} && h !in region;
      OnceAndAllAlike(other, h);
    }
    NothingToMakeAgrees(region, earlier, later);
  }

  lemma {:induction false} ReceivedFoldTwice(
    changelog: string, pre: seq<string>, region: seq<string>, post: seq<string>,
    earlier: seq<Entry>, later: seq<Entry>, named: set<string>)
    requires Shape(Split(changelog), pre, region, post) && Receives(region, named)
    requires Foldable(earlier, named) && Foldable(later, named) && earlier != [] && later != []
    ensures Fold(changelog, earlier).Ok?
    ensures Fold(Fold(changelog, earlier).value, later) == Fold(changelog, later + earlier) <==>
      (EndsWithNewline(changelog) || post != []
       || PutsLast(region, Order(earlier)) || !PutsLast(region, Order(later + earlier)))
  {
    assert EntriesSuit(earlier, named) && EntriesSuit(later, named) && EntriesSuit(later + earlier, named);
    assert Takes(changelog, named);
    hide Fold, Receives, EntriesSuit, PutsLast, ReachesEnd, Order, Shape, Takes;
    ReceivedPutsLast(region, earlier, named);
    ReceivedPutsLast(region, later + earlier, named);
    ReachInTwo(region, later, earlier);
    if EndsWithNewline(changelog) {
      IncrementalIsBatch(changelog, earlier, later, named);
    } else {
      WithoutNewlineExactly(changelog, pre, region, post, earlier, later, named);
    }
  }

  /**
   On whole changelogs, whatever sections stand and whatever are missing: folding
   earlier fragments and then later ones is folding the later before the earlier at
   once exactly when the sections to be made are made alike, and either the changelog
   ends in a newline, or a release follows, or the earlier entries already put an
   empty line last, or the two together do not. Where a section among several is to
   be made the texts are text to their ends, as a fragment's are.
   */
  lemma {:induction false} FoldTwiceExactly(
    changelog: string, pre: seq<string>, region: seq<string>, post: seq<string>,
    earlier: seq<Entry>, later: seq<Entry>, named: set<string>)
    requires Shape(Split(changelog), pre, region, post) && Tidy(region, named)
    requires Foldable(earlier, named) && Foldable(later, named) && earlier != [] && later != []
    requires (AllSolid(earlier) && AllSolid(later)) || Receives(region, named)
    ensures Fold(changelog, earlier).Ok?
    ensures Fold(Fold(changelog, earlier).value, later) == Fold(changelog, later + earlier) <==>
      (SameMaking(region, Order(earlier + later), Order(later + earlier))
       && (EndsWithNewline(changelog) || post != []
           || PutsLast(region, Order(earlier)) || !PutsLast(region, Order(later + earlier))))
  {
    hide Fold, Tidy, Receives, AllSolid, PutsLast, Order, Shape, SameMaking, EntriesSuit, QuietEntry;
    if Receives(region, named) {
      ReceivedMakesSame(region, earlier, later, named);
      ReceivedFoldTwice(changelog, pre, region, post, earlier, later, named);
    } else {
      SolidFoldTwice(changelog, pre, region, post, earlier, later, named);
    }
  }

  lemma MidEnds(pre: seq<string>, mid: seq<string>, post: seq<string>)
    requires pre != [] && mid != []
    ensures LastIsEmpty(pre + mid + post) <==> if post != [] then LastIsEmpty(post) else LastIsEmpty(mid)
  {}

  lemma MidIsTidy(region: seq<string>, entries: seq<Entry>, named: set<string>)
    requires Tidy(region, named) && Given(entries, named)
    ensures NonEmptyGroups(Gathered(entries)) && Tidy(Apply(region, Gathered(entries)), named)
  {
    GatheredSuit(entries, named);
    ApplyStaysTidy(region, Gathered(entries), named);
  }

  lemma EndsApart(once: seq<string>, both: seq<string>)
    requires |once| >= 2 && |both| >= 2 && !LastIsEmpty(once) && LastIsEmpty(both) && AllOneLine(both)
    ensures Finished(Join(if FinishedLines(once) == once then both else both + [""])) == Finished(Join(both)) + "\n"
  {
    BlankLineIsANewline(both);
  }

  /** Where only the ends part them, folding in instalments leaves one newline more and nothing else. */
  lemma {:induction false} OnlyANewlineMore(
    changelog: string, pre: seq<string>, region: seq<string>, post: seq<string>,
    earlier: seq<Entry>, later: seq<Entry>, named: set<string>)
    requires Shape(Split(changelog), pre, region, post) && Tidy(region, named)
    requires Given(earlier, named) && Given(later, named) && earlier != [] && later != []
    requires SameMaking(region, Order(earlier + later), Order(later + earlier))
    requires !EndsWithNewline(changelog) && post == []
    requires !PutsLast(region, Order(earlier)) && PutsLast(region, Order(later + earlier))
    ensures Fold(changelog, earlier).Ok? && Fold(changelog, later + earlier).Ok?
    ensures Fold(Fold(changelog, earlier).value, later) == Ok(Fold(changelog, later + earlier).value + "\n")
  {
    hide Tidy, Given, Gathered, Apply, SameMaking, PutsLast, Order, Fold, Split, Quiet, WithFolded, Join, Finished, LastIsEmpty;
    BothFolds(changelog, pre, region, post, earlier, later, named);
    BothEnds(changelog, pre, region, post, earlier, later, named);
    TwiceIsBoth(pre, region, post, earlier, later, named);
    EndsApart(WithFolded(pre, region, post, earlier), WithFolded(pre, region, post, later + earlier));
  }
}
