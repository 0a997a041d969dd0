/** Folding changelog fragments into the Unreleased section of a changelog. */
module Changelog {
  import opened Wrappers
  import opened Lines
  import opened Sections
  import opened Groups
  import opened Placement

  const UNRELEASED := "## Unreleased"

  /** The line opens a release. */
  predicate OpensRelease(line: string) {
    |line| >= 3 && line[..3] == "## "
  }

  /** How many lines there are before the first that opens a release. */
  function RegionLength(lines: seq<string>): (n: nat)
    ensures n <= |lines|
  {
    if lines == [] || OpensRelease(lines[0]) then 0 else 1 + RegionLength(lines[1..])
  }

  /** One section's block spliced into the lines, and the region's end moved past it. */
  function FoldGroup(lines: seq<string>, start: nat, end: nat, g: Group): (r: (seq<string>, nat))
    requires start < end <= |lines| && g.texts != []
    ensures start < r.1 <= |r.0|
  {
    var region, heading, block := lines[start + 1..end], Heading(g.section), Block(g.texts);
    var at := FirstAt(region, heading);
    var added := if at.Some? then block + [""] else ["", heading, ""] + block;
    var p := start + 1 + (if at.Some? then at.value + 2 else Tail(region));
    (Insert(lines, p, added), end + |added|)
  }

  function FoldGroups(lines: seq<string>, start: nat, end: nat, groups: seq<Group>): seq<string>
    requires start < end <= |lines| && NonEmptyGroups(groups)
    decreases |groups|
  {
    if groups == [] then lines
    else
      var (spliced, moved) := FoldGroup(lines, start, end, groups[0]);
      FoldGroups(spliced, start, moved, groups[1..])
  }

  function Finished(text: string): string {
    if EndsWithNewline(text) then text else text + "\n"
  }

  /** The changelog with the entries folded in; it is refused when it has no Unreleased section. */
  function Fold(changelog: string, entries: seq<Entry>): Result<string, string> {
    if entries == [] then Ok(changelog)
    else
      var lines := Split(changelog);
      var start := FirstAt(lines, UNRELEASED);
      if start.None? then Err("CHANGELOG.md has no '## Unreleased' section")
      else
        var end := start.value + 1 + RegionLength(lines[start.value + 1..]);
        GatheredHaveTexts(entries);
        FoldedLines(lines, start.value, end, Gathered(entries));
        Ok(Finished(Join(FoldGroups(lines, start.value, end, Gathered(entries)))))
  }

  lemma {:induction false} FoldedLines(lines: seq<string>, start: nat, end: nat, groups: seq<Group>)
    requires start < end <= |lines| && NonEmptyGroups(groups)
    ensures FoldGroups(lines, start, end, groups) != []
    decreases |groups|
  {
    if groups != [] {
      var (spliced, moved) := FoldGroup(lines, start, end, groups[0]);
      FoldedLines(spliced, start, moved, groups[1..]);
    }
  }

  // ----- The fold as it is computed -----------------------------------------

  /** Entries gathered by section in the order the sections are met. */
  method Gather(entries: seq<Entry>) returns (groups: seq<Group>)
    ensures groups == Gathered(entries) && NonEmptyGroups(groups)
  {
    groups := [];
    for n := 0 to |entries|
      invariant groups == Gathered(entries[..n])
    {
      assert entries[..n + 1][..n] == entries[..n];
      groups := AddTo(groups, entries[n]);
    }
    assert entries[..|entries|] == entries;
    GatheredHaveTexts(entries);
  }

  method RegionEnd(lines: seq<string>, start: nat) returns (end: nat)
    requires start < |lines|
    ensures end == start + 1 + RegionLength(lines[start + 1..])
  {
    end := start + 1;
    while end < |lines| && !OpensRelease(lines[end])
      invariant start < end <= |lines|
      invariant start + 1 + RegionLength(lines[start + 1..]) == end + RegionLength(lines[end..])
    {
      assert lines[end..][1..] == lines[end + 1..];
      end := end + 1;
    }
  }

  method FoldText(changelog: string, entries: seq<Entry>) returns (r: Result<string, string>)
    ensures r == Fold(changelog, entries)
  {
    hide Split, Join, FirstAt, FoldGroups, Gathered, RegionLength;
    if entries == [] {
      return Ok(changelog);
    }
    var lines := Split(changelog);
    var at := FirstAt(lines, UNRELEASED);
    if at.None? {
      return Err("CHANGELOG.md has no '## Unreleased' section");
    }
    var start := at.value;
    var end := RegionEnd(lines, start);
    var groups := Gather(entries);
    var text := SpliceGroups(lines, start, end, groups);
    return Ok(if EndsWithNewline(text) then text else text + "\n");
  }

  method SpliceGroups(from: seq<string>, start: nat, regionEnd: nat, groups: seq<Group>) returns (text: string)
    requires start < regionEnd <= |from| && NonEmptyGroups(groups)
    ensures FoldGroups(from, start, regionEnd, groups) != []
    ensures text == Join(FoldGroups(from, start, regionEnd, groups))
  {
    hide FoldGroup, Join;
    var lines, end := from, regionEnd;
    FoldedLines(from, start, regionEnd, groups);
    for n := 0 to |groups|
      invariant start < end <= |lines|
      invariant NonEmptyGroups(groups[n..])
      invariant FoldGroups(lines, start, end, groups[n..]) == FoldGroups(from, start, regionEnd, groups)
    {
      assert groups[n..][1..] == groups[n + 1..] && groups[n..][0] == groups[n];
      lines, end := SpliceGroup(lines, start, end, groups[n]);
    }
    text := Join(lines);
  }

  method SpliceGroup(from: seq<string>, start: nat, regionEnd: nat, g: Group) returns (lines: seq<string>, end: nat)
    requires start < regionEnd <= |from| && g.texts != []
    ensures (lines, end) == FoldGroup(from, start, regionEnd, g)
  {
    hide Block, Put;
    lines, end := from, regionEnd;
    var heading, block := Heading(g.section), Block(g.texts);
    var found := FirstAt(lines[start + 1..end], heading);
    var added;
    if found.None? {
      var tail := end;
      while tail > start + 1 && Blank(lines[tail - 1])
        invariant start < tail <= end
        invariant Tail(lines[start + 1..tail]) == Tail(lines[start + 1..end])
      {
        SliceFront(lines, start + 1, tail);
        tail := tail - 1;
      }
      added := ["", heading, ""] + block;
      lines := Insert(lines, tail, added);
    } else {
      added := block + [""];
      lines := Insert(lines, start + 1 + found.value + 2, added);
    }
    end := end + |added|;
  }

  lemma {:induction false} SliceFront(lines: seq<string>, from: nat, to: nat)
    requires from < to <= |lines|
    ensures lines[from..to][|lines[from..to]| - 1] == lines[to - 1]
    ensures lines[from..to][..|lines[from..to]| - 1] == lines[from..to - 1]
  {}

  // ----- The fold stays inside its region -----------------------------------

  /** The heading the group goes under is not the last line of a region that more follows. */
  ghost predicate StaysInside(lines: seq<string>, start: nat, end: nat, heading: string)
    requires start < end <= |lines|
  {
    var at := FirstAt(lines[start + 1..end], heading);
    at.None? || at.value + 1 < end - start - 1 || end == |lines|
  }

  lemma {:induction false} InsertInside(
    pre: seq<string>, region: seq<string>, post: seq<string>, p: nat, added: seq<string>)
    requires p <= |region| || post == []
    ensures Insert(pre + region + post, |pre| + p, added) == pre + Insert(region, p, added) + post
  {
    var lines := pre + region + post;
    var q := if p <= |region| then p else |region|;
    assert region == region[..q] + region[q..];
    assert lines == (pre + region[..q]) + (region[q..] + post);
    CutInTwo(pre + region[..q], region[q..] + post);
  }

  lemma CutInTwo(a: seq<string>, b: seq<string>)
    ensures (a + b)[..|a|] == a && (a + b)[|a|..] == b
  {}

  lemma {:induction false} FoldGroupInside(pre: seq<string>, region: seq<string>, post: seq<string>, g: Group)
    requires pre != [] && g.texts != []
    requires StaysInside(pre + region + post, |pre| - 1, |pre| + |region|, Heading(g.section))
    ensures var (spliced, moved) := FoldGroup(pre + region + post, |pre| - 1, |pre| + |region|, g);
      spliced == pre + PutGroup(region, g) + post && moved == |pre| + |PutGroup(region, g)|
  {
    hide Block, Insert;
    var lines := pre + region + post;
    assert lines[|pre|..|pre| + |region|] == region;
    var at, block := FirstAt(region, Heading(g.section)), Block(g.texts);
    var p := if at.Some? then at.value + 2 else Tail(region);
    var added := if at.Some? then block + [""] else ["", Heading(g.section), ""] + block;
    InsertInside(pre, region, post, p, added);
    InsertGrows(region, p, added);
  }

  lemma InsertGrows(lines: seq<string>, p: nat, added: seq<string>)
    ensures |Insert(lines, p, added)| == |lines| + |added|
  {}

  /** What stood around the region stands around it still. */
  ghost predicate Surrounded(lines: seq<string>, pre: seq<string>, middle: seq<string>, post: seq<string>) {
    lines == pre + middle + post
  }

  ghost predicate KeptAround(lines: seq<string>, pre: seq<string>, post: seq<string>) {
    exists middle :: Surrounded(lines, pre, middle, post)
  }

  /**
   What surrounds the region is kept exactly when the group stays inside: a
   heading that is the last line before the next release sends its block past
   that release's opening line.
   */
  lemma {:induction false} SurroundingsKeptExactly(lines: seq<string>, start: nat, end: nat, g: Group)
    requires start < end <= |lines| && g.texts != []
    requires end < |lines| ==> OpensRelease(lines[end])
    ensures StaysInside(lines, start, end, Heading(g.section)) <==>
              KeptAround(FoldGroup(lines, start, end, g).0, lines[..start + 1], lines[end..])
  {
    hide StaysInside, FoldGroup, KeptAround;
    if StaysInside(lines, start, end, Heading(g.section)) {
      StayingIsKept(lines, start, end, g);
    } else {
      EscapingIsNot(lines, start, end, g);
    }
  }

  lemma {:induction false} StayingIsKept(lines: seq<string>, start: nat, end: nat, g: Group)
    requires start < end <= |lines| && g.texts != []
    requires StaysInside(lines, start, end, Heading(g.section))
    ensures KeptAround(FoldGroup(lines, start, end, g).0, lines[..start + 1], lines[end..])
  {
    hide FoldGroup, PutGroup, StaysInside;
    var pre, region, post := lines[..start + 1], lines[start + 1..end], lines[end..];
    assert lines == pre + region + post;
    FoldGroupInside(pre, region, post, g);
    assert Surrounded(FoldGroup(lines, start, end, g).0, pre, PutGroup(region, g), post);
  }

  lemma {:induction false} EscapingIsNot(lines: seq<string>, start: nat, end: nat, g: Group)
    requires start < end <= |lines| && g.texts != []
    requires end < |lines| ==> OpensRelease(lines[end])
    requires !StaysInside(lines, start, end, Heading(g.section))
    ensures !KeptAround(FoldGroup(lines, start, end, g).0, lines[..start + 1], lines[end..])
  {
    hide FoldGroup, KeptAround;
    var pre, region, post := lines[..start + 1], lines[start + 1..end], lines[end..];
    assert lines == pre + region + post;
    EscapesRegion(pre, region, post, g);
  }

  lemma {:induction false} EscapesRegion(pre: seq<string>, region: seq<string>, post: seq<string>, g: Group)
    requires pre != [] && g.texts != [] && post != [] && post[0] != ""
    requires FirstAt(region, Heading(g.section)).Some?
    requires FirstAt(region, Heading(g.section)).value + 1 == |region|
    ensures FoldGroup(pre + region + post, |pre| - 1, |pre| + |region|, g).0
         == pre + region + [post[0]] + (Block(g.texts) + [""]) + post[1..]
    ensures !KeptAround(FoldGroup(pre + region + post, |pre| - 1, |pre| + |region|, g).0, pre, post)
  {
    hide Block;
    var lines := pre + region + post;
    assert lines[|pre|..|pre| + |region|] == region;
    assert lines[..|pre| + |region| + 1] == pre + region + [post[0]];
    assert lines[|pre| + |region| + 1..] == post[1..];
    var folded := FoldGroup(lines, |pre| - 1, |pre| + |region|, g).0;
    assert folded == pre + region + [post[0]] + (Block(g.texts) + [""]) + post[1..];
    assert folded[|folded| - |post|] == "";
    forall middle ensures !Surrounded(folded, pre, middle, post) {
      assert (pre + middle + post)[|pre + middle + post| - |post|] == post[0];
    }
  }

  // ----- The whole fold -----------------------------------------------------

  /** Some section's heading is the last line of what the region has become when its turn comes. */
  ghost predicate Overruns(region: seq<string>, groups: seq<Group>)
    requires NonEmptyGroups(groups)
    decreases |groups|
  {
    groups != []
    && (EndsAt(region, Heading(groups[0].section)) || Overruns(PutGroup(region, groups[0]), groups[1..]))
  }

  lemma {:induction false} OpenStaysInside(pre: seq<string>, region: seq<string>, post: seq<string>, h: string)
    requires pre != []
    ensures StaysInside(pre + region + post, |pre| - 1, |pre| + |region|, h) <==> post == [] || !EndsAt(region, h)
  {
    assert (pre + region + post)[|pre|..|pre| + |region|] == region;
  }

  lemma FoldGroupsStep(lines: seq<string>, start: nat, end: nat, groups: seq<Group>)
    requires start < end <= |lines| && groups != [] && NonEmptyGroups(groups)
    ensures NonEmptyGroups(groups[1..]) && groups[0].texts != []
    ensures var (spliced, moved) := FoldGroup(lines, start, end, groups[0]);
      FoldGroups(lines, start, end, groups) == FoldGroups(spliced, start, moved, groups[1..])
  {}

  /** A first group that stays inside leaves the same fold to be done around the region it rewrote. */
  lemma {:induction false} FirstGroupInside(pre: seq<string>, region: seq<string>, post: seq<string>, groups: seq<Group>)
    requires pre != [] && groups != [] && NonEmptyGroups(groups)
    requires post == [] || !EndsAt(region, Heading(groups[0].section))
    ensures groups[0].texts != [] && NonEmptyGroups(groups[1..])
    ensures FoldGroups(pre + region + post, |pre| - 1, |pre| + |region|, groups)
         == FoldGroups(pre + PutGroup(region, groups[0]) + post, |pre| - 1, |pre| + |PutGroup(region, groups[0])|, groups[1..])
  {
    hide FoldGroup, PutGroup, EndsAt, StaysInside, FoldGroups;
    FoldGroupsStep(pre + region + post, |pre| - 1, |pre| + |region|, groups);
    OpenStaysInside(pre, region, post, Heading(groups[0].section));
    FoldGroupInside(pre, region, post, groups[0]);
  }

  lemma OverrunsNext(region: seq<string>, groups: seq<Group>)
    requires NonEmptyGroups(groups) && groups != []
    ensures groups[0].texts != [] && NonEmptyGroups(groups[1..])
    ensures Overruns(region, groups) <==>
      EndsAt(region, Heading(groups[0].section)) || Overruns(PutGroup(region, groups[0]), groups[1..])
    ensures Apply(region, groups) == Apply(PutGroup(region, groups[0]), groups[1..])
  {}

  /** A fold that does not overrun rewrites the region alone, as its groups put in turn rewrite it. */
  lemma {:induction false} FoldWithin(pre: seq<string>, region: seq<string>, post: seq<string>, groups: seq<Group>)
    requires pre != [] && NonEmptyGroups(groups) && (post == [] || !Overruns(region, groups))
    ensures FoldGroups(pre + region + post, |pre| - 1, |pre| + |region|, groups) == pre + Apply(region, groups) + post
    decreases |groups|
  {
    hide FoldGroups, Overruns, Apply, PutGroup, EndsAt, NonEmptyGroups;
    if groups == [] {
      NoGroups(pre + region + post, region, |pre| - 1, |pre| + |region|, groups);
    } else {
      OverrunsNext(region, groups);
      FirstGroupInside(pre, region, post, groups);
      FoldWithin(pre, PutGroup(region, groups[0]), post, groups[1..]);
    }
  }

  lemma NoGroups(lines: seq<string>, region: seq<string>, start: nat, end: nat, groups: seq<Group>)
    requires groups == [] && start < end <= |lines|
    ensures NonEmptyGroups(groups) && FoldGroups(lines, start, end, groups) == lines && Apply(region, groups) == region
  {}

  /** Once a block has gone past a release's opening line, a blank line stands for good where that line ought to. */
  lemma {:induction false} PastTheReleaseForGood(
    front: seq<string>, rest: seq<string>, start: nat, end: nat, groups: seq<Group>) returns (more: seq<string>)
    requires start < end <= |front| && NonEmptyGroups(groups)
    ensures FoldGroups(front + [""] + rest, start, end, groups) == more + [""] + rest
    decreases |groups|
  {
    if groups == [] {
      more := front;
    } else {
      var lines := front + [""] + rest;
      var (spliced, moved) := FoldGroup(lines, start, end, groups[0]);
      var next := BlankStays(front, rest, start, end, groups[0]);
      FoldGroupsStep(lines, start, end, groups);
      hide FoldGroup, FoldGroups;
      more := PastTheReleaseForGood(next, rest, start, moved, groups[1..]);
    }
  }

  lemma {:induction false} BlankStays(front: seq<string>, rest: seq<string>, start: nat, end: nat, g: Group)
    returns (next: seq<string>)
    requires start < end <= |front| && g.texts != []
    ensures FoldGroup(front + [""] + rest, start, end, g).0 == next + [""] + rest
    ensures FoldGroup(front + [""] + rest, start, end, g).1 <= |next|
  {
    var lines, heading, block := front + [""] + rest, Heading(g.section), Block(g.texts);
    var region := lines[start + 1..end];
    var at := FirstAt(region, heading);
    hide Block, FirstAt, Tail;
    var added := if at.Some? then block + [""] else ["", heading, ""] + block;
    var p := start + 1 + (if at.Some? then at.value + 2 else Tail(region));
    if p <= |front| {
      next := front[..p] + added + front[p..];
      assert lines[..p] == front[..p] && lines[p..] == front[p..] + [""] + rest;
    } else {
      next := front + [""] + block;
      assert p == |front| + 1 && lines[..p] == front + [""] && lines[p..] == rest;
    }
  }

  /** The fold of groups into the lines a region stands in. */
  function FoldedAround(pre: seq<string>, region: seq<string>, post: seq<string>, groups: seq<Group>): seq<string>
    requires pre != [] && NonEmptyGroups(groups)
  {
    FoldGroups(pre + region + post, |pre| - 1, |pre| + |region|, groups)
  }

  lemma FirstInside(pre: seq<string>, region: seq<string>, post: seq<string>, groups: seq<Group>)
    requires pre != [] && groups != [] && NonEmptyGroups(groups)
    requires post == [] || !EndsAt(region, Heading(groups[0].section))
    ensures groups[0].texts != [] && NonEmptyGroups(groups[1..])
    ensures FoldedAround(pre, region, post, groups) == FoldedAround(pre, PutGroup(region, groups[0]), post, groups[1..])
  {
    hide FoldGroups, PutGroup, EndsAt, NonEmptyGroups;
    FirstGroupInside(pre, region, post, groups);
  }

  lemma {:induction false} OverrunningIsNotKept(pre: seq<string>, region: seq<string>, post: seq<string>, groups: seq<Group>)
    requires pre != [] && NonEmptyGroups(groups) && post != [] && post[0] != "" && Overruns(region, groups)
    ensures !KeptAround(FoldedAround(pre, region, post, groups), pre, post)
    decreases |groups|
  {
    OverrunsNext(region, groups) by { assert groups != []; }
    if EndsAt(region, Heading(groups[0].section)) {
      FirstGroupEscapes(pre, region, post, groups);
    } else {
      hide FoldedAround, Overruns, Apply, PutGroup, EndsAt, NonEmptyGroups, KeptAround, FirstAt, Heading;
      FirstInside(pre, region, post, groups);
      OverrunningIsNotKept(pre, PutGroup(region, groups[0]), post, groups[1..]);
    }
  }

  lemma {:induction false} FirstGroupEscapes(pre: seq<string>, region: seq<string>, post: seq<string>, groups: seq<Group>)
    requires pre != [] && groups != [] && NonEmptyGroups(groups) && post != [] && post[0] != ""
    requires EndsAt(region, Heading(groups[0].section))
    ensures !KeptAround(FoldGroups(pre + region + post, |pre| - 1, |pre| + |region|, groups), pre, post)
  {
    var g, lines := groups[0], pre + region + post;
    assert lines[|pre|..|pre| + |region|] == region;
    hide FoldGroup, FoldGroups, KeptAround, Block;
    FoldGroupsStep(lines, |pre| - 1, |pre| + |region|, groups);
    EscapesRegion(pre, region, post, g);
    MovedByAdded(lines, |pre| - 1, |pre| + |region|, g);
    var (spliced, moved) := FoldGroup(lines, |pre| - 1, |pre| + |region|, g);
    var front := pre + region + [post[0]] + Block(g.texts);
    assert spliced == front + [""] + post[1..];
    var more := PastTheReleaseForGood(front, post[1..], |pre| - 1, moved, groups[1..]);
    BlankIsNotARelease(more, pre, post);
  }

  lemma MovedByAdded(lines: seq<string>, start: nat, end: nat, g: Group)
    requires start < end <= |lines| && g.texts != []
    requires FirstAt(lines[start + 1..end], Heading(g.section)).Some?
    ensures FoldGroup(lines, start, end, g).1 == end + |Block(g.texts)| + 1
  {}

  lemma {:induction false} BlankIsNotARelease(front: seq<string>, pre: seq<string>, post: seq<string>)
    requires post != [] && post[0] != ""
    ensures !KeptAround(front + [""] + post[1..], pre, post)
  {
    var lines := front + [""] + post[1..];
    assert lines[|lines| - |post|] == "";
    forall middle ensures !Surrounded(lines, pre, middle, post) {
      assert (pre + middle + post)[|pre + middle + post| - |post|] == post[0];
    }
  }

  /** Over all the sections: what stands around the region is kept if and only if the fold does not overrun it. */
  lemma {:induction false} FoldKeepsSurroundingsExactly(
    pre: seq<string>, region: seq<string>, post: seq<string>, groups: seq<Group>)
    requires pre != [] && NonEmptyGroups(groups) && (post != [] ==> OpensRelease(post[0]))
    ensures KeptAround(FoldGroups(pre + region + post, |pre| - 1, |pre| + |region|, groups), pre, post)
       <==> post == [] || !Overruns(region, groups)
  {
    hide FoldGroups, Overruns;
    if post == [] || !Overruns(region, groups) {
      FoldWithin(pre, region, post, groups);
      assert Surrounded(pre + Apply(region, groups) + post, pre, Apply(region, groups), post);
    } else {
      OverrunningIsNotKept(pre, region, post, groups);
    }
  }

  // ----- When a fold overruns -----------------------------------------------

  /** The named headings are no blank lines, and none stands right on another; one may be the last line. */
  ghost predicate Spaced(region: seq<string>, named: set<string>) {
    && (forall h | h in named :: !Blank(h))
    && "" !in named
    && forall h | h in named :: FirstAt(region, h).Some? ==> EndsAt(region, h) || Ready(region, h, named)
  }

  /** The group is for the last line's heading, and all before it have theirs. */
  ghost predicate OverrunsAt(region: seq<string>, groups: seq<Group>, i: int) {
    && 0 <= i < |groups| && EndsAt(region, Heading(groups[i].section))
    && forall j :: 0 <= j < i ==> FirstAt(region, Heading(groups[j].section)).Some?
  }

  /**
   Told before the fold: where no named heading stands right on another, it overruns
   if and only if one of its sections has its heading for the region's last line and
   every section before that one stands already.
   */
  lemma {:induction false} OverrunsExactly(region: seq<string>, groups: seq<Group>, named: set<string>)
    requires AllSuit(groups, named) && Spaced(region, named)
    ensures NonEmptyGroups(groups)
    ensures Overruns(region, groups) <==> exists i :: OverrunsAt(region, groups, i)
    decreases |groups|
  {
    RestSuits(groups, named);
    if groups != [] {
      var g, rest := groups[0], groups[1..];
      var h := Heading(g.section);
      CleanBlockOfTexts(g.texts, named);
      hide Put, Spaced, EndsAt, AllSuit, CleanBlock, Block, CleanTexts;
      if EndsAt(region, h) {
        assert OverrunsAt(region, groups, 0);
      } else if FirstAt(region, h).None? {
        MadeIsSpaced(region, h, named, Block(g.texts));
        NothingOverruns(PutGroup(region, g), rest, named);
        assert forall i :: OverrunsAt(region, groups, i) ==> i == 0;
      } else {
        PutKeepsSpaced(region, h, named, Block(g.texts));
        OverrunsExactly(PutGroup(region, g), rest, named);
        LaterOverrun(region, PutGroup(region, g), groups, named);
      }
    }
  }

  /** A section that is made takes the end from any heading that had it. */
  lemma {:induction false} MadeIsSpaced(region: seq<string>, h: string, named: set<string>, block: seq<string>)
    requires Spaced(region, named) && h in named && FirstAt(region, h).None? && CleanBlock(block, named)
    ensures Opens(Put(region, h, block), named)
  {
    FirstAtIsFirst(region, h);
    forall k | k in named ensures !EndsAt(Put(region, h, block), k) {
      if k == h {
        MadeIsReady(region, h, named, block);
      } else if EndsAt(region, k) {
        AddsIsClean(region, h, named, block, k);
        FirstAtInsert(region, PutAt(region, h), Adds(region, h, block), k);
        TailIsPast(region, |region| - 1);
      } else {
        PutKeepsOpen(region, named, h, block, k);
      }
    }
  }

  lemma {:induction false} NothingOverruns(region: seq<string>, groups: seq<Group>, named: set<string>)
    requires AllSuit(groups, named) && Opens(region, named)
    ensures NonEmptyGroups(groups) && !Overruns(region, groups)
    decreases |groups|
  {
    RestSuits(groups, named);
    if groups != [] {
      var g := groups[0];
      CleanBlockOfTexts(g.texts, named);
      hide Put, EndsAt, AllSuit, CleanBlock, Block, CleanTexts;
      PutKeepsOpens(region, named, Heading(g.section), Block(g.texts));
      NothingOverruns(PutGroup(region, g), groups[1..], named);
    }
  }

  /** A put under a heading that stands and is not the last line leaves the last line, and the spacing, as they were. */
  lemma {:induction false} PutKeepsSpaced(region: seq<string>, h: string, named: set<string>, block: seq<string>)
    requires Spaced(region, named) && h in named && CleanBlock(block, named)
    requires FirstAt(region, h).Some? && !EndsAt(region, h)
    ensures Spaced(Put(region, h, block), named)
    ensures forall k :: k in named ==> (EndsAt(Put(region, h, block), k) <==> EndsAt(region, k))
    ensures forall k :: k in named ==> (FirstAt(Put(region, h, block), k).Some? <==> FirstAt(region, k).Some?)
  {
    forall k | k in named
      ensures FirstAt(Put(region, h, block), k).Some? <==> FirstAt(region, k).Some?
      ensures EndsAt(Put(region, h, block), k) <==> EndsAt(region, k)
      ensures Ready(region, k, named) ==> Ready(Put(region, h, block), k, named)
    {
      OnePlaceStays(region, h, named, block, k);
    }
    hide Put, EndsAt, Ready;
  }

  lemma {:induction false} OnePlaceStays(region: seq<string>, h: string, named: set<string>, block: seq<string>, k: string)
    requires Spaced(region, named) && h in named && k in named && CleanBlock(block, named)
    requires FirstAt(region, h).Some? && !EndsAt(region, h)
    ensures FirstAt(Put(region, h, block), k).Some? <==> FirstAt(region, k).Some?
    ensures EndsAt(Put(region, h, block), k) <==> EndsAt(region, k)
    ensures Ready(region, k, named) ==> Ready(Put(region, h, block), k, named)
  {
    assert Ready(region, h, named);
    AddsIsClean(region, h, named, block, k);
    FirstAtInsert(region, PutAt(region, h), Adds(region, h, block), k);
    if Ready(region, k, named) {
      PutKeepsReady(region, h, named, block, k);
    }
  }

  lemma {:induction false} LaterOverrun(region: seq<string>, next: seq<string>, groups: seq<Group>, named: set<string>)
    requires AllSuit(groups, named) && groups != []
    requires FirstAt(region, Heading(groups[0].section)).Some? && !EndsAt(region, Heading(groups[0].section))
    requires forall k :: k in named ==> (EndsAt(next, k) <==> EndsAt(region, k))
    requires forall k :: k in named ==> (FirstAt(next, k).Some? <==> FirstAt(region, k).Some?)
    ensures (exists i :: OverrunsAt(region, groups, i)) <==> exists i :: OverrunsAt(next, groups[1..], i)
  {
    hide EndsAt, FirstAt, CleanTexts;
    assert forall i :: 0 <= i < |groups| ==> Suits(groups[i], named);
    if i :| OverrunsAt(region, groups, i) {
      assert OverrunsAt(next, groups[1..], i - 1);
    }
    if i :| OverrunsAt(next, groups[1..], i) {
      assert forall j :: 0 <= j < i + 1 ==> j == 0 || groups[j] == groups[1..][j - 1];
      assert OverrunsAt(region, groups, i + 1);
    }
  }

  /** With every named section open, or yet to be made, the region alone changes. */
  lemma {:induction false} FoldStaysInRegion(
    pre: seq<string>, region: seq<string>, post: seq<string>, groups: seq<Group>, named: set<string>)
    requires pre != [] && AllSuit(groups, named) && Opens(region, named)
    ensures NonEmptyGroups(groups)
    ensures FoldGroups(pre + region + post, |pre| - 1, |pre| + |region|, groups) == pre + Apply(region, groups) + post
  {
    NothingOverruns(region, groups, named);
    hide FoldGroups, Overruns;
    FoldWithin(pre, region, post, groups);
  }

  lemma {:induction false} RestSuits(groups: seq<Group>, named: set<string>)
    requires AllSuit(groups, named)
    ensures NonEmptyGroups(groups)
    ensures groups != [] ==> Suits(groups[0], named) && AllSuit(groups[1..], named)
  {
    hide CleanTexts;
    forall i | 0 <= i < |groups| ensures groups[i].texts != [] {
      assert Suits(groups[i], named);
    }
  }

  /** Whatever the changelog, a fold only adds lines: the old ones are all there, in their order. */
  lemma {:induction false} FoldKeepsOldLines(lines: seq<string>, start: nat, end: nat, groups: seq<Group>)
    requires start < end <= |lines| && NonEmptyGroups(groups)
    ensures Within(lines, FoldGroups(lines, start, end, groups))
    decreases |groups|
  {
    if groups == [] {
      WithinAdded(lines, [], []);
      assert lines + [] + [] == lines && lines + [] == lines;
    } else {
      var (spliced, moved) := FoldGroup(lines, start, end, groups[0]);
      SpliceIsWithin(lines, start, end, groups[0]);
      FoldGroupsStep(lines, start, end, groups);
      hide FoldGroup, Within, FoldGroups;
      FoldKeepsOldLines(spliced, start, moved, groups[1..]);
      WithinTrans(lines, spliced, FoldGroups(lines, start, end, groups));
    }
  }

  lemma {:induction false} SpliceIsWithin(lines: seq<string>, start: nat, end: nat, g: Group)
    requires start < end <= |lines| && g.texts != []
    ensures Within(lines, FoldGroup(lines, start, end, g).0)
  {
    hide Block, FirstAt, Tail, Within;
    var region, heading, block := lines[start + 1..end], Heading(g.section), Block(g.texts);
    var at := FirstAt(region, heading);
    var added := if at.Some? then block + [""] else ["", heading, ""] + block;
    var p := start + 1 + (if at.Some? then at.value + 2 else Tail(region));
    var q := if p <= |lines| then p else |lines|;
    CutAt(lines, q);
    WithinAdded(lines[..q], added, lines[q..]);
  }

  lemma CutAt(lines: seq<string>, at: nat)
    requires at <= |lines|
    ensures lines == lines[..at] + lines[at..]
  {}

  // ----- How many lines a fold adds, inside or not --------------------------

  /** A splice brings no other named heading into the region, not even where the region's end moves past a release's line. */
  lemma {:induction false} SpliceBringsNoHeading(
    lines: seq<string>, start: nat, end: nat, g: Group, named: set<string>, k: string)
    requires start < end <= |lines| && Suits(g, named) && "" !in named && (end < |lines| ==> lines[end] !in named)
    requires k in named && k != Heading(g.section)
    ensures var (spliced, moved) := FoldGroup(lines, start, end, g);
      FirstAt(spliced[start + 1..moved], k).Some? <==> FirstAt(lines[start + 1..end], k).Some?
  {
    CleanBlockOfTexts(g.texts, named);
    var region, h, block := lines[start + 1..end], Heading(g.section), Block(g.texts);
    var (spliced, moved) := FoldGroup(lines, start, end, g);
    AddsIsClean(region, h, named, block, k);
    FirstAtIsFirst(region, k);
    FirstAtIsFirst(spliced[start + 1..moved], k);
    hide Block, Tail, FirstAt, CleanTexts, Insert;
    SliceOfInsert(lines, start, end, start + 1 + PutAt(region, h), Adds(region, h, block), k);
  }

  lemma InsertedLine(lines: seq<string>, p: nat, added: seq<string>, i: nat)
    requires p <= |lines| && i < |lines| + |added|
    ensures |Insert(lines, p, added)| == |lines| + |added|
    ensures Insert(lines, p, added)[i] ==
      if i < p then lines[i] else if i < p + |added| then added[i - p] else lines[i - |added|]
  {}

  /** Lines inserted in a part, or just past one line more, bring in no line they do not hold. */
  lemma {:induction false} SliceOfInsert(lines: seq<string>, start: nat, end: nat, p: nat, added: seq<string>, k: string)
    requires start < end <= |lines| && start < p <= end + 1
    requires k !in added && (end < |lines| ==> lines[end] != k)
    ensures var more, moved := Insert(lines, p, added), end + |added|;
      moved <= |more| && (k in more[start + 1..moved] <==> k in lines[start + 1..end])
  {
    var q := if p <= |lines| then p else |lines|;
    var more, moved, region := Insert(lines, p, added), end + |added|, lines[start + 1..end];
    assert more == Insert(lines, q, added) && |more| == |lines| + |added|;
    var slice := more[start + 1..moved];
    hide Insert;
    forall i | 0 <= i < |slice| && slice[i] == k ensures k in region {
      var at := start + 1 + i;
      InsertedLine(lines, q, added, at);
      var j := if at < q then at else at - |added|;
      assert at < q || q + |added| <= at;
      assert lines[j] == k && j < end;
      assert region[j - start - 1] == k;
    }
    forall i | 0 <= i < |region| && region[i] == k ensures k in slice {
      var j := start + 1 + i;
      var at := if j < q then j else j + |added|;
      InsertedLine(lines, q, added, at);
      assert slice[at - start - 1] == k;
    }
  }

  lemma {:induction false} AddedAgrees(one: seq<string>, other: seq<string>, groups: seq<Group>)
    requires NonEmptyGroups(groups)
    requires forall i :: 0 <= i < |groups| ==>
      (FirstAt(one, Heading(groups[i].section)).Some? <==> FirstAt(other, Heading(groups[i].section)).Some?)
    ensures AddedByAll(one, groups) == AddedByAll(other, groups)
  {
    if groups != [] {
      hide Block, FirstAt, Heading;
      AddedAgrees(one, other, groups[1..]);
    }
  }

  /** Wherever its blocks go, a fold adds as many lines as its groups would to the region alone. */
  lemma {:induction false} FoldGroupsAdd(lines: seq<string>, start: nat, end: nat, groups: seq<Group>, named: set<string>)
    requires start < end <= |lines| && AllSuit(groups, named) && DistinctSections(groups)
    requires "" !in named && (end < |lines| ==> lines[end] !in named)
    ensures NonEmptyGroups(groups)
    ensures |FoldGroups(lines, start, end, groups)| == |lines| + AddedByAll(lines[start + 1..end], groups)
    decreases |groups|
  {
    RestSuits(groups, named);
    if groups != [] {
      var g, rest := groups[0], groups[1..];
      var (spliced, moved) := FoldGroup(lines, start, end, g);
      assert forall i :: 0 <= i < |rest| ==> rest[i] == groups[i + 1];
      FoldGroupsStep(lines, start, end, groups);
      hide FoldGroup, FoldGroups, Block, CleanTexts, FirstAt, Added;
      forall i | 0 <= i < |rest|
        ensures FirstAt(spliced[start + 1..moved], Heading(rest[i].section)).Some?
           <==> FirstAt(lines[start + 1..end], Heading(rest[i].section)).Some?
      {
        HeadingsDiffer(rest[i].section, g.section);
        assert Suits(groups[i + 1], named);
        SpliceBringsNoHeading(lines, start, end, g, named, Heading(rest[i].section));
      }
      SpliceAdds(lines, start, end, g, named);
      AddedAgrees(spliced[start + 1..moved], lines[start + 1..end], rest);
      FoldGroupsAdd(spliced, start, moved, rest, named);
    }
  }

  lemma {:induction false} SpliceAdds(lines: seq<string>, start: nat, end: nat, g: Group, named: set<string>)
    requires start < end <= |lines| && Suits(g, named) && "" !in named && (end < |lines| ==> lines[end] !in named)
    ensures var (spliced, moved) := FoldGroup(lines, start, end, g);
      && |spliced| == |lines| + Added(lines[start + 1..end], Heading(g.section), Block(g.texts))
      && (moved < |spliced| ==> spliced[moved] !in named)
  {
    var region, h, block := lines[start + 1..end], Heading(g.section), Block(g.texts);
    var added, p := Adds(region, h, block), start + 1 + PutAt(region, h);
    var q := if p <= |lines| then p else |lines|;
    hide Block, Tail, FirstAt, CleanTexts;
    assert FoldGroup(lines, start, end, g) == (Insert(lines, q, added), end + |added|);
    if end < |lines| {
      InsertedLine(lines, q, added, end + |added|);
      assert q == end + 1 ==> added[|added| - 1] == "";
    }
  }
}
