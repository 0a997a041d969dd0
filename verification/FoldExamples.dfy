/** Changelogs on which a fold does not do what is hoped of it. */
module FoldExamples {
  import opened Wrappers
  import opened Lines
  import opened Sections
  import opened Groups
  import opened Changelog
  import opened Incremental
  import opened Orders
  import opened Instalments
  import opened FoldTwice

  const ADDED := "### Added"
  const FIXED := "### Fixed"

  lemma TheHeadings()
    ensures Heading("Added") == ADDED && Heading("Fixed") == FIXED && ADDED != FIXED
    ensures UNRELEASED !in {ADDED, FIXED, ""} && ADDED != "" && FIXED != ""
    ensures OneLine(UNRELEASED) && OneLine(ADDED) && OneLine(FIXED) && OneLine("Added") && OneLine("Fixed")
    ensures !OpensRelease(ADDED) && !OpensRelease(FIXED) && !OpensRelease("") && !OpensRelease("x") && OneLine("x")
    ensures OpensRelease("## 1.0") && OneLine("## 1.0") && "## 1.0" !in {UNRELEASED, ADDED, FIXED}
  {
    assert ADDED[4] == 'A' && FIXED[4] == 'F' && UNRELEASED[1..3] == "# " && "## 1.0"[3] == '1' && UNRELEASED[3] == 'U';
    assert ADDED[..3] == "###" && FIXED[..3] == "###" && "## 1.0"[..3] == "## ";
  }

  lemma SplitOfX()
    ensures Split("x") == ["x"]
  {
    TheHeadings();
    assert Join(["x"]) == "x";
    SplitOfJoin(["x"]);
  }

  lemma OneGroup(section: string)
    ensures Gathered([Entry(section, "x")]) == [Group(section, ["x"])] && Block(["x"]) == ["x"]
  {
    var e := Entry(section, "x");
    assert [e][..0] == [] && AddTo([], e) == [Group(section, ["x"])];
    SplitOfX();
  }

  /** The fold of a changelog of the given shape, line by line. */
  lemma FoldAtShape(pre: seq<string>, region: seq<string>, post: seq<string>, entries: seq<Entry>, folded: seq<string>)
    requires Shape(pre + region + post, pre, region, post) && AllOneLine(pre + region + post)
    requires entries != [] && NonEmptyGroups(Gathered(entries))
    requires folded == FoldGroups(pre + region + post, |pre| - 1, |pre| + |region|, Gathered(entries))
    requires folded != [] && AllOneLine(folded) && FinishedLines(folded) == folded
    ensures Fold(Join(pre + region + post), entries) == Ok(Join(folded))
  {
    var lines := pre + region + post;
    hide FoldGroups, FoldLines, Fold, Gathered, OpensRelease, Split, Join;
    FoldLinesAtShape(lines, pre, region, post, entries);
    SplitOfJoin(lines);
    FoldByLines(Join(lines), entries);
    FinishedByLines(folded);
  }

  lemma FoldByEscape(pre: seq<string>, region: seq<string>, post: seq<string>, g: Group)
    requires pre == [UNRELEASED] && region == [ADDED] && post == ["## 1.0", ""] && g == Group("Added", ["x"])
    requires Heading("Added") == ADDED && Block(["x"]) == ["x"]
    ensures NonEmptyGroups([g])
    ensures FoldGroups(pre + region + post, |pre| - 1, |pre| + |region|, [g]) == [UNRELEASED, ADDED, "## 1.0", "x", "", ""]
  {
    assert FirstAt(region, ADDED) == Some(0);
    EscapesRegion(pre, region, post, g);
    FoldGroupsStep(pre + region + post, |pre| - 1, |pre| + |region|, [g]);
    assert [g][1..] == [];
  }

  /** A heading that is the last line before a release sends its entry past that release's opening line. */
  lemma {:induction false} AnEntryPastARelease()
    ensures Fold(Join([UNRELEASED, ADDED, "## 1.0", ""]), [Entry("Added", "x")])
         == Ok(Join([UNRELEASED, ADDED, "## 1.0", "x", "", ""]))
  {
    var pre, region, post := [UNRELEASED], [ADDED], ["## 1.0", ""];
    var lines, entries := [UNRELEASED, ADDED, "## 1.0", ""], [Entry("Added", "x")];
    var folded := [UNRELEASED, ADDED, "## 1.0", "x", "", ""];
    TheHeadings();
    OneGroup("Added");
    assert lines == pre + region + post && pre[..0] == [];
    hide FoldGroups, Fold, Gathered, OpensRelease, Split, Join, Heading, Block;
    FoldByEscape(pre, region, post, Group("Added", ["x"]));
    FoldAtShape(pre, region, post, entries, folded);
  }

  /** Without a final newline, folding twice leaves one newline more than folding at once. */
  lemma {:induction false} ANewlineTooMany()
    ensures var changelog := Join([UNRELEASED, FIXED, "", ADDED, "x"]);
      var earlier, later := [Entry("Fixed", "x")], [Entry("Added", "x")];
      Fold(changelog, earlier).Ok? && Fold(changelog, later + earlier).Ok?
      && Fold(Fold(changelog, earlier).value, later) == Ok(Fold(changelog, later + earlier).value + "\n")
  {
    var pre, region := [UNRELEASED], [FIXED, "", ADDED, "x"];
    var lines := [UNRELEASED, FIXED, "", ADDED, "x"];
    var earlier, later, named := [Entry("Fixed", "x")], [Entry("Added", "x")], {ADDED, FIXED};
    TheHeadings();
    SplitOfX();
    assert lines == pre + region + [] && pre[..0] == [];
    SplitOfJoin(lines);
    NewlineIsEmptyLastLine(lines);
    assert FirstAt(region, FIXED) == Some(0);
    assert region[1..] == ["", ADDED, "x"] && region[1..][1..] == [ADDED, "x"];
    assert FirstAt(region[1..], ADDED) == Some(1);
    assert FirstAt(region, ADDED) == Some(2);
    assert EndsUnder(region, ADDED) && !EndsUnder(region, FIXED);
    assert EndsUnder(region, Heading(later[0].section)) && ReachesEnd(region, later);
    assert "x" !in named;
    hide Fold, OpensRelease, Heading;
    OneNewlineMore(Join(lines), pre, region, [], earlier, later, named);
  }

  // ----- Two folds that make other sections first ---------------------------

  lemma {:induction false} TwoInOrder(one: string, other: string)
    requires Heading(one) != Heading(other)
    ensures Order([Entry(one, "x"), Entry(other, "x")]) == [Heading(one), Heading(other)]
    ensures Order([Entry(one, "x")]) == [Heading(one)]
  {
    hide Heading;
    var entries := [Entry(one, "x"), Entry(other, "x")];
    assert entries[..1] == [Entry(one, "x")] && [Entry(one, "x")][..0] == [];
    var headings := Headings(entries);
    assert headings == [Heading(one), Heading(other)] && headings[..1] == [Heading(one)] && headings[..1][..0] == [];
    assert Headings([Entry(one, "x")]) == headings[..1];
    assert Firsts(headings[..1]) == [Heading(one)];
  }

  lemma XIsGiven(section: string)
    requires section in {"Added", "Fixed"}
    ensures Given([Entry(section, "x")], {ADDED, FIXED})
  {
    TheHeadings();
    SplitOfX();
    assert !Blank("x") by { assert "x"[0] == 'x'; }
    assert "x" !in {ADDED, FIXED};
  }

  /** A changelog of a region in which the two orders make the sections otherwise. */
  lemma {:induction false} MadeOtherwise(region: seq<string>)
    requires Quiet(region) && AllOneLine(region) && Tidy(region, {ADDED, FIXED})
    requires !SameMaking(region, [ADDED, FIXED], [FIXED, ADDED])
    ensures var changelog := Join([UNRELEASED] + region);
      var earlier, later := [Entry("Added", "x")], [Entry("Fixed", "x")];
      Fold(changelog, earlier).Ok?
      && Fold(Fold(changelog, earlier).value, later) != Fold(changelog, later + earlier)
  {
    var earlier, later := [Entry("Added", "x")], [Entry("Fixed", "x")];
    XIsGiven("Added");
    XIsGiven("Fixed");
    OrdersOfBoth();
    ShapeOfRegion(region);
    hide Fold, Given, Tidy, Quiet, SameMaking, Order, Heading, PutsLast, Split, Join, AllOneLine, OpensRelease, Shape;
    SolidFoldTwice(Join([UNRELEASED] + region), [UNRELEASED], region, [], earlier, later, {ADDED, FIXED});
  }

  lemma OrdersOfBoth()
    ensures Order([Entry("Added", "x")] + [Entry("Fixed", "x")]) == [ADDED, FIXED]
    ensures Order([Entry("Fixed", "x")] + [Entry("Added", "x")]) == [FIXED, ADDED]
  {
    TheHeadings();
    hide Order, Heading;
    TwoInOrder("Added", "Fixed");
    TwoInOrder("Fixed", "Added");
    assert [Entry("Added", "x")] + [Entry("Fixed", "x")] == [Entry("Added", "x"), Entry("Fixed", "x")];
    assert [Entry("Fixed", "x")] + [Entry("Added", "x")] == [Entry("Fixed", "x"), Entry("Added", "x")];
  }

  lemma ShapeOfRegion(region: seq<string>)
    requires Quiet(region) && AllOneLine(region)
    ensures Shape(Split(Join([UNRELEASED] + region)), [UNRELEASED], region, [])
  {
    TheHeadings();
    var lines := [UNRELEASED] + region;
    assert lines == [UNRELEASED] + region + [] && [UNRELEASED][..0] == [];
    assert AllOneLine(lines);
    SplitOfJoin(lines);
  }

  /** Right after a release: Added and then Fixed in instalments leaves Added first, and at once Fixed first. */
  lemma {:induction false} MadeInAnotherOrder()
    ensures var changelog := Join([UNRELEASED, ""]);
      var earlier, later := [Entry("Added", "x")], [Entry("Fixed", "x")];
      Fold(changelog, earlier).Ok?
      && Fold(Fold(changelog, earlier).value, later) != Fold(changelog, later + earlier)
  {
    TheHeadings();
    var region := [""];
    assert [UNRELEASED] + region == [UNRELEASED, ""];
    FirstAtIsFirst(region, ADDED);
    FirstAtIsFirst(region, FIXED);
    AllMade(region, [ADDED, FIXED]);
    AllMade(region, [FIXED, ADDED]);
    hide Fold, Makes;
    MadeOtherwise(region);
  }

  /** With Added standing on the last line of the text and Fixed to be made, the blank line goes to another place. */
  lemma {:induction false} ABlankLineElsewhere()
    ensures var changelog := Join([UNRELEASED, ADDED, "x", ""]);
      var earlier, later := [Entry("Added", "x")], [Entry("Fixed", "x")];
      Fold(changelog, earlier).Ok?
      && Fold(Fold(changelog, earlier).value, later) != Fold(changelog, later + earlier)
  {
    TheHeadings();
    var region := [ADDED, "x", ""];
    assert [UNRELEASED] + region == [UNRELEASED, ADDED, "x", ""];
    AddedEndsFirst(region);
    hide Fold;
    MadeOtherwise(region);
  }

  lemma AddedStands(region: seq<string>)
    requires region == [ADDED, "x", ""]
    ensures FirstAt(region, ADDED) == Some(0) && FirstAt(region, FIXED) == None && Tail(region) == 2
    ensures Quiet(region) && AllOneLine(region) && Tidy(region, {ADDED, FIXED})
  {
    TheHeadings();
    FirstAtIsFirst(region, FIXED);
    assert "x"[0] == 'x';
    TextEndsOnce(region, 2);
    hide Tail;
  }

  lemma {:induction false} AddedEndsFirst(region: seq<string>)
    requires region == [ADDED, "x", ""]
    ensures Quiet(region) && AllOneLine(region) && Tidy(region, {ADDED, FIXED})
    ensures !SameMaking(region, [ADDED, FIXED], [FIXED, ADDED])
  {
    TheHeadings();
    AddedStands(region);
    assert Has(region, ADDED) && !Has(region, FIXED) && !Settled(region, ADDED);
    hide Tail, FirstAt, Tidy, Quiet, AllOneLine, OpensRelease, Heading, Has, Settled;
    assert [ADDED, FIXED][1..] == [FIXED] && [FIXED, ADDED][1..] == [ADDED];
    assert Front(region, [ADDED, FIXED]) == [ADDED] + Front(region, [FIXED]) && Front(region, [FIXED, ADDED]) == [];
    assert ADDED in Front(region, [ADDED, FIXED]) && !Settled(region, ADDED);
    assert FIXED in Makes(region, [FIXED, ADDED]);
  }
}
