/** What folding one entry makes of a changelog, line by line, wherever its section stands or is missing. */
module FoldRules {
  import opened Wrappers
  import opened Lines
  import opened Sections
  import opened Groups
  import opened Changelog
  import opened Incremental

  ghost predicate Releases(line: string) {
    exists rest :: line == "## " + rest
  }

  /** The line says something. */
  ghost predicate Says(line: string) {
    exists i :: 0 <= i < |line| && !IsSpace(line[i])
  }

  /** The lines before the Unreleased heading, those under it, and those from the next release on. */
  ghost predicate Parts(front: seq<string>, region: seq<string>, rest: seq<string>) {
    && AllOneLine(front + ["## Unreleased"] + region + rest)
    && "## Unreleased" !in front
    && (forall line | line in region :: !Releases(line))
    && (rest != [] ==> Releases(rest[0]))
  }

  /** The text ends with a newline: its own, or one more. */
  function Closed(text: string): string {
    if |text| > 0 && text[|text| - 1] == '\n' then text else text + "\n"
  }

  lemma {:induction false} ReleasesIs(line: string)
    ensures Releases(line) <==> OpensRelease(line)
  {
    if OpensRelease(line) {
      assert line == "## " + line[3..];
    }
  }

  lemma {:induction false} PartsAreShape(front: seq<string>, region: seq<string>, rest: seq<string>)
    requires Parts(front, region, rest)
    ensures Shape(front + ["## Unreleased"] + region + rest, front + ["## Unreleased"], region, rest)
  {
    forall line ensures Releases(line) <==> OpensRelease(line) {
      ReleasesIs(line);
    }
    hide OpensRelease, Releases, AllOneLine;
    assert (front + ["## Unreleased"])[..|front|] == front;
  }

  lemma {:induction false} OneEntryIsGathered(e: Entry)
    ensures Gathered([e]) == [Group(e.section, [e.text])]
  {
    assert [e][..0] == [];
  }

  /** The lines with one entry put into them: where that is, and what is put there. */
  function Spliced(pre: seq<string>, region: seq<string>, rest: seq<string>, e: Entry): seq<string> {
    var at := FirstAt(region, "### " + e.section);
    Insert(pre + region + rest, |pre| + (if at.Some? then at.value + 2 else Tail(region)),
      if at.Some? then Split(e.text) + [""] else ["", "### " + e.section, ""] + Split(e.text))
  }

  lemma {:induction false} OneSplice(front: seq<string>, region: seq<string>, rest: seq<string>, e: Entry)
    requires Parts(front, region, rest)
    ensures Fold(Join(front + ["## Unreleased"] + region + rest), [e])
         == Ok(Closed(Join(Spliced(front + ["## Unreleased"], region, rest, e))))
  {
    var pre := front + ["## Unreleased"];
    var lines := pre + region + rest;
    PartsAreShape(front, region, rest);
    assert AllOneLine(lines);
    hide Parts, Shape, Fold, FoldLines, FoldGroups, FoldGroup, Join, Split, Insert, Tail, FirstAt, AllOneLine, Gathered, Spliced,
      OpensRelease, NonEmptyGroups, Finished, Closed;
    ShapeIsFound(lines, pre, region, rest);
    OneEntryIsGathered(e);
    SplitOfJoin(lines);
    FoldByLines(Join(lines), [e]);
    FoldLinesAtShape(lines, pre, region, rest, [e]);
    OneGroup(lines, |pre| - 1, |pre| + |region|, Group(e.section, [e.text]));
    GroupIsSpliced(pre, region, rest, e);
    ClosedIs(Join(Spliced(pre, region, rest, e)));
  }

  lemma ClosedIs(text: string)
    ensures Closed(text) == Finished(text)
  {}

  lemma {:induction false} GroupIsSpliced(pre: seq<string>, region: seq<string>, rest: seq<string>, e: Entry)
    requires pre != []
    ensures FoldGroup(pre + region + rest, |pre| - 1, |pre| + |region|, Group(e.section, [e.text])).0 == Spliced(pre, region, rest, e)
  {
    assert (pre + region + rest)[|pre| - 1 + 1..|pre| + |region|] == region;
    OneBlock(e.text);
    hide Insert, Tail, FirstAt, Split, Block;
  }

  lemma OneBlock(text: string)
    ensures Block([text]) == Split(text)
  {
    hide Split;
  }

  lemma OneGroup(lines: seq<string>, start: nat, end: nat, g: Group)
    requires start < end <= |lines| && |g.texts| == 1
    ensures NonEmptyGroups([g]) && FoldGroups(lines, start, end, [g]) == FoldGroup(lines, start, end, g).0
  {
    hide FoldGroup;
    assert [g][1..] == [];
  }

  /** Under the first line that is its heading, an entry goes behind the line after that, and a blank line behind it. */
  lemma {:induction false} EntryGoesUnder(
    front: seq<string>, a: seq<string>, next: string, b: seq<string>, rest: seq<string>, e: Entry)
    requires Parts(front, a + ["### " + e.section, next] + b, rest) && "### " + e.section !in a
    ensures Fold(Join(front + ["## Unreleased"] + (a + ["### " + e.section, next] + b) + rest), [e])
         == Ok(Closed(Join(front + ["## Unreleased"] + a + ["### " + e.section, next] + Split(e.text) + [""] + b + rest)))
  {
    var h, pre := "### " + e.section, front + ["## Unreleased"];
    var region := a + [h, next] + b;
    hide Parts, Fold, Join, Split, FirstAt, Tail, Insert, Closed;
    OneSplice(front, region, rest, e);
    FirstOf(a, h, next, b);
    UnderLines(pre, a, h, next, b, rest, Split(e.text));
    InsertAfter(pre + a + [h, next], Split(e.text) + [""], b + rest);
  }

  lemma FirstOf(a: seq<string>, h: string, next: string, b: seq<string>)
    requires h !in a
    ensures FirstAt(a + [h, next] + b, h) == Some(|a|)
  {
    FirstAtBefore(a, h, [next] + b);
    assert a + [h, next] + b == a + [h] + ([next] + b);
  }

  lemma UnderLines(
    pre: seq<string>, a: seq<string>, h: string, next: string, b: seq<string>, rest: seq<string>, text: seq<string>)
    ensures pre + (a + [h, next] + b) + rest == pre + a + [h, next] + (b + rest)
    ensures |pre + a + [h, next]| == |pre| + (|a| + 2)
    ensures pre + a + [h, next] + (text + [""]) + (b + rest) == pre + a + [h, next] + text + [""] + b + rest
  {}

  lemma InsertAfter(a: seq<string>, added: seq<string>, b: seq<string>)
    ensures Insert(a + b, |a|, added) == a + added + b
  {}

  lemma {:induction false} TailOf(a: seq<string>, blanks: seq<string>)
    requires (a == [] || Says(a[|a| - 1])) && forall line | line in blanks :: !Says(line)
    ensures Tail(a + blanks) == |a|
  {
    if blanks == [] {
      assert a + blanks == a;
      assert a != [] ==> !Blank(a[|a| - 1]);
    } else {
      var front := blanks[..|blanks| - 1];
      assert (a + blanks)[..|a + blanks| - 1] == a + front;
      assert blanks[|blanks| - 1] in blanks;
      TailOf(a, front);
      assert Blank(blanks[|blanks| - 1]);
    }
  }

  /** A section that is missing is made behind the last line that says something, a blank line around its heading. */
  lemma {:induction false} SectionIsMade(front: seq<string>, a: seq<string>, blanks: seq<string>, rest: seq<string>, e: Entry)
    requires Parts(front, a + blanks, rest) && "### " + e.section !in a + blanks
    requires (a == [] || Says(a[|a| - 1])) && forall line | line in blanks :: !Says(line)
    ensures Fold(Join(front + ["## Unreleased"] + (a + blanks) + rest), [e])
         == Ok(Closed(Join(front + ["## Unreleased"] + a + ["", "### " + e.section, ""] + Split(e.text) + blanks + rest)))
  {
    var h, pre := "### " + e.section, front + ["## Unreleased"];
    FirstAtIsFirst(a + blanks, h);
    TailOf(a, blanks);
    hide Parts, Fold, Join, Split, FirstAt, Tail, Insert, Closed, Says;
    OneSplice(front, a + blanks, rest, e);
    MadeLines(pre, a, ["", h, ""], blanks, rest, Split(e.text));
    InsertAfter(pre + a, ["", h, ""] + Split(e.text), blanks + rest);
  }

  lemma MadeLines(pre: seq<string>, a: seq<string>, head: seq<string>, blanks: seq<string>, rest: seq<string>, text: seq<string>)
    ensures pre + (a + blanks) + rest == pre + a + (blanks + rest)
    ensures |pre + a| == |pre| + |a|
    ensures pre + a + (head + text) + (blanks + rest) == pre + a + head + text + blanks + rest
  {}

  /** The lines with others behind the first of them. */
  function Behind(lines: seq<string>, added: seq<string>): seq<string> {
    if lines == [] then added else [lines[0]] + added + lines[1..]
  }

  /** Under a heading that is the region's last line, it goes behind the line that opens the next release, or to the end. */
  lemma {:induction false} EntryGoesBeyond(front: seq<string>, a: seq<string>, rest: seq<string>, e: Entry)
    requires Parts(front, a + ["### " + e.section], rest) && "### " + e.section !in a
    ensures Fold(Join(front + ["## Unreleased"] + (a + ["### " + e.section]) + rest), [e])
         == Ok(Closed(Join(front + ["## Unreleased"] + a + ["### " + e.section] + Behind(rest, Split(e.text) + [""]))))
  {
    var h, pre := "### " + e.section, front + ["## Unreleased"];
    hide Parts, Fold, Join, Split, Insert, Closed, Behind, Spliced;
    OneSplice(front, a + [h], rest, e);
    SplicedBeyond(pre, a, rest, e);
  }

  lemma SplicedBeyond(pre: seq<string>, a: seq<string>, rest: seq<string>, e: Entry)
    requires "### " + e.section !in a
    ensures Spliced(pre, a + ["### " + e.section], rest, e) == pre + a + ["### " + e.section] + Behind(rest, Split(e.text) + [""])
  {
    hide Split, FirstAt, Tail, Insert, Behind;
    LastOf(a, "### " + e.section);
    BeyondLines(pre, a, "### " + e.section, rest, Split(e.text));
  }

  lemma LastOf(a: seq<string>, h: string)
    requires h !in a
    ensures FirstAt(a + [h], h) == Some(|a|)
  {
    FirstAtBefore(a, h, []);
    assert a + [h] == a + [h] + [];
  }

  lemma BeyondLines(pre: seq<string>, a: seq<string>, h: string, rest: seq<string>, text: seq<string>)
    ensures Insert(pre + (a + [h]) + rest, |pre| + (|a| + 2), text + [""])
         == pre + a + [h] + Behind(rest, text + [""])
  {
    var lines := pre + (a + [h]) + rest;
    var n := |pre| + |a| + 1;
    assert lines[..n] == pre + a + [h] && lines[n..] == rest;
    if rest != [] {
      assert lines[..n + 1] == pre + a + [h] + [rest[0]] && lines[n + 1..] == rest[1..];
    }
  }

  /** Every text with an Unreleased heading has its parts, and every region falls under one of the three cases. */
  lemma {:induction false} OneCaseApplies(lines: seq<string>, section: string)
    returns (front: seq<string>, region: seq<string>, rest: seq<string>)
    requires lines != [] && AllOneLine(lines) && "## Unreleased" in lines
    ensures lines == front + ["## Unreleased"] + region + rest && Parts(front, region, rest)
    ensures Under(region, "### " + section) || Made(region, "### " + section) || Beyond(region, "### " + section)
  {
    FirstAtIsFirst(lines, UNRELEASED);
    var pre;
    pre, region, rest := EveryChangelogHasAShape(lines);
    front := pre[..|pre| - 1];
    assert pre == front + ["## Unreleased"];
    forall line ensures Releases(line) <==> OpensRelease(line) {
      ReleasesIs(line);
    }
    RegionCases(region, "### " + section);
    hide OpensRelease, Releases;
  }

  ghost predicate Under(region: seq<string>, h: string) {
    exists a, next, b :: region == a + [h, next] + b && h !in a
  }

  ghost predicate Beyond(region: seq<string>, h: string) {
    exists a :: region == a + [h] && h !in a
  }

  ghost predicate Made(region: seq<string>, h: string) {
    h !in region && exists a, blanks ::
      region == a + blanks && (a == [] || Says(a[|a| - 1])) && forall line | line in blanks :: !Says(line)
  }

  lemma {:induction false} RegionCases(region: seq<string>, h: string)
    ensures Under(region, h) || Made(region, h) || Beyond(region, h)
  {
    FirstAtIsFirst(region, h);
    if h in region {
      var at := FirstAt(region, h).value;
      var a := region[..at];
      if at + 1 == |region| {
        assert region == a + [h];
      } else {
        assert region == a + [h, region[at + 1]] + region[at + 2..];
      }
    } else {
      var a, blanks := LastSaying(region);
    }
  }

  lemma {:induction false} LastSaying(region: seq<string>) returns (a: seq<string>, blanks: seq<string>)
    ensures region == a + blanks && (a == [] || Says(a[|a| - 1])) && forall line | line in blanks :: !Says(line)
  {
    hide Says;
    if region == [] || Says(region[|region| - 1]) {
      a, blanks := region, [];
    } else {
      a, blanks := LastSaying(region[..|region| - 1]);
      blanks := blanks + [region[|region| - 1]];
    }
  }

  /** A fold is refused just when there is something to fold and no line is the Unreleased heading. */
  lemma {:induction false} RefusedExactly(changelog: string, entries: seq<Entry>)
    ensures Fold(changelog, entries).Err? <==> entries != [] && "## Unreleased" !in Split(changelog)
    ensures entries == [] ==> Fold(changelog, entries) == Ok(changelog)
  {
    FirstAtIsFirst(Split(changelog), UNRELEASED);
    hide Split, FirstAt, FoldGroups, Gathered, RegionLength, Finished;
  }
}
