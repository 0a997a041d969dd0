/** Where folded entries end up, and what becomes of the lines that were there. */
module Placement {
  import opened Lines
  import opened Sections
  import opened Groups

  /** The first `heading` is followed by the line `next` and then, contiguously, by `content`. */
  ghost predicate Stands(lines: seq<string>, heading: string, next: string, content: seq<string>) {
    exists before, after :: StandsBetween(lines, before, heading, next, content, after)
  }

  ghost predicate StandsBetween(
    lines: seq<string>, before: seq<string>, heading: string, next: string, content: seq<string>, after: seq<string>)
  {
    heading !in before && lines == before + [heading] + ([next] + content + after)
  }

  /** A block put under a ready heading stands right after the heading and its next line. */
  lemma {:induction false} PutStands(lines: seq<string>, h: string, named: set<string>, block: seq<string>)
    requires Ready(lines, h, named)
    ensures Stands(Put(lines, h, block), h, lines[FirstAt(lines, h).value + 1], block + [""])
  {
    hide Put;
    var before, next, after := ReadyApart(lines, h, named);
    FirstAtBefore(before, h, [next] + after);
    PutUnder(before, h, next, after, block);
    assert StandsBetween(Put(lines, h, block), before, h, next, block + [""], after);
  }

  /** A block put under another heading leaves what stands under this one in place. */
  lemma {:induction false} StandsThroughPut(
    lines: seq<string>, h: string, next: string, content: seq<string>, k: string, named: set<string>, block: seq<string>)
    requires Stands(lines, h, next, content)
    requires h in named && k in named && h != k && next !in named && "" !in named
    requires CleanBlock(content, named) && CleanBlock(block, named) && Ready(lines, k, named)
    ensures Stands(Put(lines, k, block), h, next, content)
  {
    hide Put;
    var before, after :| StandsBetween(lines, before, h, next, content, after);
    var middle := [next] + content;
    assert k !in middle;
    var front, y, back := ReadyApart(lines, k, named);
    if |front| < |before| {
      EarlierPut(lines, before, h, middle, after, front, k, y, back, block);
      var rest := before[|front| + 2..];
      assert StandsBetween(Put(lines, k, block), front + [k] + ([y] + (block + [""]) + rest), h, next, content, after);
    } else {
      LaterPut(lines, before, h, middle, after, front, k, y, back, block);
      var gap := front[|before| + 1 + |middle|..];
      assert StandsBetween(Put(lines, k, block), before, h, next, content, gap + [k] + ([y] + (block + [""]) + back));
    }
  }

  lemma {:induction false} EarlierPut(
    lines: seq<string>, before: seq<string>, h: string, middle: seq<string>, after: seq<string>,
    front: seq<string>, k: string, y: string, back: seq<string>, block: seq<string>)
    requires lines == before + [h] + (middle + after) && h !in before
    requires lines == front + [k] + ([y] + back) && k !in front
    requires |front| < |before| && y != h && h != k && h !in block && h != ""
    ensures |front| + 2 <= |before|
    ensures Put(lines, k, block) == (front + [k] + ([y] + (block + [""]) + before[|front| + 2..])) + [h] + (middle + after)
    ensures h !in front + [k] + ([y] + (block + [""]) + before[|front| + 2..])
  {
    hide Put;
    assert lines[|before|] == h && lines[|front| + 1] == y;
    var rest := before[|front| + 2..];
    assert before == lines[..|before|];
    assert before == front + [k] + ([y] + rest);
    assert back == lines[|front| + 2..] == rest + [h] + (middle + after);
    PutUnder(front, k, y, back, block);
  }

  lemma {:induction false} LaterPut(
    lines: seq<string>, before: seq<string>, h: string, middle: seq<string>, after: seq<string>,
    front: seq<string>, k: string, y: string, back: seq<string>, block: seq<string>)
    requires lines == before + [h] + (middle + after) && h !in before
    requires lines == front + [k] + ([y] + back) && k !in front
    requires |before| <= |front| && k != h && k !in middle
    ensures |before| + 1 + |middle| <= |front|
    ensures Put(lines, k, block)
         == before + [h] + (middle + (front[|before| + 1 + |middle|..] + [k] + ([y] + (block + [""]) + back)))
  {
    hide Put;
    assert lines[|front|] == k;
    assert lines[|before|] == h;
    assert forall p :: 0 <= p < |middle| ==> lines[|before| + 1 + p] == middle[p];
    assert forall p :: |before| < p <= |before| + |middle| ==> lines[p] == middle[p - |before| - 1];
    var gap := front[|before| + 1 + |middle|..];
    assert front == lines[..|front|];
    assert front == before + [h] + (middle + gap);
    PutUnder(front, k, y, back, block);
  }

  /** The block's last line is not blank: it is text to its end. */
  ghost predicate Solid(block: seq<string>) {
    block != [] && !Blank(block[|block| - 1])
  }

  /** A block put under a heading that is missing stands right under it, after a blank line. */
  lemma {:induction false} MadeStands(lines: seq<string>, h: string, block: seq<string>)
    requires h !in lines && h != ""
    ensures Stands(Put(lines, h, block), h, "", block)
  {
    PutMakes(lines, h, block);
    var before, after := lines[..Tail(lines)] + [""], lines[Tail(lines)..];
    hide Put, Tail;
    assert [""] + (block + after) == [""] + block + after;
    assert StandsBetween(Put(lines, h, block), before, h, "", block, after);
  }

  lemma {:induction false} TailIsPast(lines: seq<string>, i: nat)
    requires i < |lines| && !Blank(lines[i])
    ensures i < Tail(lines)
  {
    if i < |lines| - 1 {
      TailIsPast(lines[..|lines| - 1], i);
    }
  }

  lemma {:induction false} MakesAfter(
    before: seq<string>, h: string, next: string, text: seq<string>, end: seq<string>, after: seq<string>,
    t: nat, k: string, block: seq<string>)
    requires h !in before && |before| + 2 + |text| <= t <= |before| + 2 + |text| + |end| + |after|
    requires end == [] || end == [""]
    ensures var lines := before + [h] + ([next] + (text + end) + after);
      Stands(lines[..t] + (["", k, ""] + block) + lines[t..], h, next, text + end)
  {
    var lines := before + [h] + ([next] + (text + end) + after);
    var m, added := |before| + 2 + |text|, ["", k, ""] + block;
    if t >= m + |end| {
      var x := t - m - |end|;
      assert lines == before + [h] + ([next] + (text + end) + after[..x]) + after[x..];
      var rest := after[..x] + added + after[x..];
      assert lines[..t] + added + lines[t..] == before + [h] + ([next] + (text + end) + rest);
      assert StandsBetween(lines[..t] + added + lines[t..], before, h, next, text + end, rest);
    } else {
      assert lines == before + [h] + ([next] + text) + (end + after);
      var rest := [k, ""] + block + (end + after);
      assert added == end + ([k, ""] + block);
      assert lines[..t] + added + lines[t..] == before + [h] + ([next] + (text + end) + rest);
      assert StandsBetween(lines[..t] + added + lines[t..], before, h, next, text + end, rest);
    }
  }

  /** Making another section below leaves what stands here in place, with the blank line that may end it. */
  lemma {:induction false} StandsThroughMake(
    lines: seq<string>, h: string, next: string, text: seq<string>, end: seq<string>, k: string, block: seq<string>)
    requires Stands(lines, h, next, text + end) && Solid(text) && (end == [] || end == [""])
    requires k !in lines
    ensures Stands(Put(lines, k, block), h, next, text + end)
  {
    var before, after :| StandsBetween(lines, before, h, next, text + end, after);
    FirstAtIsFirst(lines, k);
    assert lines[|before| + 1 + |text|] == text[|text| - 1];
    TailIsPast(lines, |before| + 1 + |text|);
    hide Stands, Blank, Tail, FirstAt;
    MakesAfter(before, h, next, text, end, after, Tail(lines), k, block);
  }

  // ----- The lines that were there ------------------------------------------

  /** `small` is what is left of `large` when some lines are taken out. */
  ghost predicate Within(small: seq<string>, large: seq<string>) {
    if small == [] then true
    else large != [] && ((small[0] == large[0] && Within(small[1..], large[1..])) || Within(small, large[1..]))
  }

  lemma {:induction false} WithinAdded(a: seq<string>, added: seq<string>, b: seq<string>)
    ensures Within(a + b, a + added + b)
    decreases |a|, |added|, |b|
  {
    if a != [] {
      assert (a + b)[1..] == a[1..] + b && (a + added + b)[1..] == a[1..] + added + b;
      WithinAdded(a[1..], added, b);
    } else if added != [] {
      assert (a + added + b)[1..] == a + added[1..] + b;
      WithinAdded(a, added[1..], b);
    } else if b != [] {
      assert (a + b)[1..] == a + b[1..] && (a + added + b)[1..] == a + added + b[1..];
      WithinAdded(a, added, b[1..]);
    }
  }

  lemma {:induction false} WithinTrans(a: seq<string>, b: seq<string>, c: seq<string>)
    requires Within(a, b) && Within(b, c)
    ensures Within(a, c)
    decreases |c|
  {
    if a != [] && b != [] {
      if b[0] == c[0] && Within(b[1..], c[1..]) {
        if a[0] == b[0] && Within(a[1..], b[1..]) {
          WithinTrans(a[1..], b[1..], c[1..]);
        } else {
          WithinTrans(a, b[1..], c[1..]);
        }
      } else {
        WithinTrans(a, b, c[1..]);
      }
    }
  }

  /** How many lines a put adds: the block and a blank line, and two more where it makes the section. */
  function Added(lines: seq<string>, heading: string, block: seq<string>): nat {
    |block| + (if FirstAt(lines, heading).Some? then 1 else 3)
  }

  lemma {:induction false} PutKeepsLines(lines: seq<string>, heading: string, block: seq<string>)
    ensures Within(lines, Put(lines, heading, block))
    ensures |Put(lines, heading, block)| == |lines| + Added(lines, heading, block)
  {
    var at := FirstAt(lines, heading);
    var p := if at.None? then Tail(lines) else if at.value + 2 <= |lines| then at.value + 2 else |lines|;
    assert lines == lines[..p] + lines[p..];
    WithinAdded(lines[..p], if at.Some? then block + [""] else ["", heading, ""] + block, lines[p..]);
  }

  /** Folding only adds lines: the old ones are all there, in their order. */
  lemma {:induction false} FoldKeepsLines(lines: seq<string>, groups: seq<Group>)
    requires NonEmptyGroups(groups)
    ensures Within(lines, Apply(lines, groups))
    decreases |groups|
  {
    if groups == [] {
      WithinAdded(lines, [], []);
      assert lines + [] + [] == lines && lines + [] == lines;
      return;
    }
    hide Put, Within, Block;
    PutKeepsLines(lines, Heading(groups[0].section), Block(groups[0].texts));
    FoldKeepsLines(PutGroup(lines, groups[0]), groups[1..]);
    WithinTrans(lines, PutGroup(lines, groups[0]), Apply(lines, groups));
  }

  // ----- Every section after a fold -----------------------------------------

  ghost predicate DistinctSections(groups: seq<Group>) {
    forall i, j :: 0 <= i < j < |groups| ==> groups[i].section != groups[j].section
  }

  lemma {:induction false} AddToSections(groups: seq<Group>, e: Entry)
    requires DistinctSections(groups)
    ensures DistinctSections(AddTo(groups, e))
    ensures forall i :: 0 <= i < |AddTo(groups, e)| ==>
      AddTo(groups, e)[i].section == e.section || exists j :: 0 <= j < |groups| && groups[j].section == AddTo(groups, e)[i].section
  {
    if groups != [] && groups[0].section != e.section {
      AddToSections(groups[1..], e);
    }
  }

  lemma {:induction false} GatheredAreDistinct(entries: seq<Entry>)
    ensures DistinctSections(Gathered(entries))
  {
    if entries != [] {
      GatheredAreDistinct(entries[..|entries| - 1]);
      AddToSections(Gathered(entries[..|entries| - 1]), entries[|entries| - 1]);
    }
  }

  /** Every text of the group is text to its end. */
  ghost predicate SolidTexts(texts: seq<string>) {
    forall i :: 0 <= i < |texts| ==> Solid(Split(texts[i]))
  }

  lemma {:induction false} BlockIsSolid(texts: seq<string>)
    requires texts != [] && SolidTexts(texts)
    ensures Solid(Block(texts))
  {
    if |texts| > 1 {
      var front, last := texts[..|texts| - 1], texts[|texts| - 1];
      assert texts == front + [last];
      hide Blank, Split;
      assert Solid(Split(last));
      BlockOfOneMore(front, last);
      assert Block(texts)[|Block(texts)| - 1] == Split(last)[|Split(last)| - 1];
    }
  }

  /** What stands under a heading no group names is left there by the fold. */
  lemma {:induction false} StandsThroughFold(
    lines: seq<string>, h: string, next: string, text: seq<string>, end: seq<string>, groups: seq<Group>, named: set<string>)
    requires Stands(lines, h, next, text + end) && AllSuit(groups, named) && Tidy(lines, named)
    requires h in named && next !in named && CleanBlock(text + end, named) && Solid(text) && (end == [] || end == [""])
    requires forall i :: 0 <= i < |groups| ==> Heading(groups[i].section) != h
    ensures NonEmptyGroups(groups)
    ensures Stands(Apply(lines, groups), h, next, text + end)
    decreases |groups|
  {
    if groups != [] {
      var g, rest := groups[0], groups[1..];
      assert Suits(g, named);
      assert forall i :: 0 <= i < |rest| ==> rest[i] == groups[i + 1];
      CleanBlockOfTexts(g.texts, named);
      hide Stands, Put, Ready, CleanBlock, CleanTexts, Solid;
      var k := Heading(g.section);
      FirstAtIsFirst(lines, k);
      if k in lines {
        StandsThroughPut(lines, h, next, text + end, k, named, Block(g.texts));
      } else {
        StandsThroughMake(lines, h, next, text, end, k, Block(g.texts));
      }
      PutKeepsTidy(lines, named, k, Block(g.texts));
      StandsThroughFold(PutGroup(lines, g), h, next, text, end, rest, named);
    }
  }

  lemma {:induction false} PutKeepsAllReady(lines: seq<string>, named: set<string>, h: string, block: seq<string>)
    requires AllReady(lines, named) && h in named && "" !in named && CleanBlock(block, named)
    ensures AllReady(Put(lines, h, block), named)
  {
    hide Put, Ready;
    forall k | k in named ensures Ready(Put(lines, h, block), k, named) {
      PutKeepsReady(lines, h, named, block, k);
    }
  }

  /** The line under a heading; a heading yet to be made gets a blank one. */
  function NextLine(lines: seq<string>, h: string): string {
    var at := FirstAt(lines, h);
    if at.Some? && at.value + 1 < |lines| then lines[at.value + 1] else ""
  }

  /** A put under another heading does not change the line after this one, unless to a blank one. */
  lemma {:induction false} NextStays(lines: seq<string>, h: string, k: string, named: set<string>, block: seq<string>)
    requires Tidy(lines, named) && h in named && k in named && h != k && CleanBlock(block, named)
    ensures FirstAt(Put(lines, k, block), h).Some? <==> FirstAt(lines, h).Some?
    ensures NextLine(Put(lines, k, block), h) in {NextLine(lines, h), ""}
  {
    PutHasHeading(lines, named, k, block, h);
    if FirstAt(lines, h).Some? {
      assert Ready(lines, h, named);
      assert FirstAt(lines, k).Some? ==> Ready(lines, k, named);
      AddsIsClean(lines, k, named, block, h);
      FirstAtInsert(lines, PutAt(lines, k), Adds(lines, k, block), h);
      var j, p := FirstAt(lines, h).value, PutAt(lines, k);
      hide Put, CleanBlock, FirstAt;
      assert FirstAt(lines, k).Some? ==> j != p - 1;
      NextAfterInsert(lines, p, Adds(lines, k, block), j);
    }
  }

  lemma NextAfterInsert(lines: seq<string>, at: nat, added: seq<string>, j: nat)
    requires j + 1 < |lines| && added != []
    ensures var more := Insert(lines, at, added); var i := if j < at then j else j + |added|;
      i + 1 < |more| && more[i + 1] == if j + 1 == at then added[0] else lines[j + 1]
  {}

  /** The content stands under the heading and one line: the one that was there, or a blank one. */
  ghost predicate StandsUnder(lines: seq<string>, h: string, was: string, content: seq<string>) {
    Stands(lines, h, was, content) || Stands(lines, h, "", content)
  }

  /**
   After a fold each section's entries stand contiguously and in order right under
   its heading and one line, whichever sections stood and whichever had to be made,
   and however many blocks were put above or below.
   */
  lemma {:induction false} EachSectionStands(lines: seq<string>, groups: seq<Group>, named: set<string>, g: Group)
    requires AllSuit(groups, named) && Tidy(lines, named) && DistinctSections(groups) && g in groups
    requires forall i :: 0 <= i < |groups| ==> SolidTexts(groups[i].texts)
    ensures NonEmptyGroups(groups)
    ensures var end := if FirstAt(lines, Heading(g.section)).Some? then [""] else [];
      StandsUnder(Apply(lines, groups), Heading(g.section), NextLine(lines, Heading(g.section)), Block(g.texts) + end)
    decreases |groups|
  {
    var first, rest := groups[0], groups[1..];
    assert Suits(first, named) && Suits(g, named);
    assert forall i :: 0 <= i < |rest| ==> rest[i] == groups[i + 1];
    var h := Heading(g.section);
    CleanBlockOfTexts(first.texts, named);
    CleanBlockOfTexts(g.texts, named);
    assert SolidTexts(g.texts);
    BlockIsSolid(g.texts);
    hide SolidTexts, Solid;
    PutKeepsTidy(lines, named, Heading(first.section), Block(first.texts));
    if g == first {
      forall i | 0 <= i < |rest| ensures Heading(rest[i].section) != h {
        HeadingsDiffer(rest[i].section, g.section);
      }
      FirstStands(lines, h, named, Block(g.texts));
      hide Put, Stands, Block, CleanTexts;
      var end := if FirstAt(lines, h).Some? then [""] else [];
      StandsThroughFold(PutGroup(lines, g), h, NextLine(lines, h), Block(g.texts), end, rest, named);
    } else {
      assert g in rest;
      HeadingsDiffer(first.section, g.section);
      NextStays(lines, h, Heading(first.section), named, Block(first.texts));
      hide Put, Stands, Block, CleanTexts;
      EachSectionStands(PutGroup(lines, first), rest, named, g);
    }
  }

  lemma {:induction false} FirstStands(lines: seq<string>, h: string, named: set<string>, block: seq<string>)
    requires Tidy(lines, named) && h in named && CleanBlock(block, named)
    ensures NextLine(lines, h) !in named
    ensures var end := if FirstAt(lines, h).Some? then [""] else [];
      Stands(Put(lines, h, block), h, NextLine(lines, h), block + end) && CleanBlock(block + end, named)
  {
    FirstAtIsFirst(lines, h);
    hide Put, Stands;
    if FirstAt(lines, h).Some? {
      assert Ready(lines, h, named);
      PutStands(lines, h, named, block);
    } else {
      MadeStands(lines, h, block);
      assert block + [] == block;
    }
  }

  // ----- How many lines a fold adds -----------------------------------------

  /** Each group adds its block and a blank line, and two lines more where it makes its section. */
  function AddedByAll(lines: seq<string>, groups: seq<Group>): nat
    requires NonEmptyGroups(groups)
  {
    if groups == [] then 0
    else Added(lines, Heading(groups[0].section), Block(groups[0].texts)) + AddedByAll(lines, groups[1..])
  }

  /** The count is of the lines before the fold: no group makes or takes away another's heading. */
  lemma {:induction false} AddedStays(lines: seq<string>, groups: seq<Group>, named: set<string>, h: string, block: seq<string>)
    requires AllSuit(groups, named) && h in named && "" !in named && CleanBlock(block, named)
    requires forall i :: 0 <= i < |groups| ==> Heading(groups[i].section) != h
    ensures NonEmptyGroups(groups)
    ensures AddedByAll(Put(lines, h, block), groups) == AddedByAll(lines, groups)
  {
    if groups != [] {
      assert Suits(groups[0], named);
      assert forall i :: 0 <= i < |groups[1..]| ==> groups[1..][i] == groups[i + 1];
      hide Put, CleanBlock, CleanTexts, Block;
      PutHasHeading(lines, named, h, block, Heading(groups[0].section));
      AddedStays(lines, groups[1..], named, h, block);
    }
  }

  /** A fold adds exactly that many lines. */
  lemma {:induction false} FoldAddsExactly(lines: seq<string>, groups: seq<Group>, named: set<string>)
    requires AllSuit(groups, named) && "" !in named && DistinctSections(groups)
    ensures NonEmptyGroups(groups)
    ensures |Apply(lines, groups)| == |lines| + AddedByAll(lines, groups)
    decreases |groups|
  {
    if groups != [] {
      var g, rest := groups[0], groups[1..];
      assert Suits(g, named);
      assert forall i :: 0 <= i < |rest| ==> rest[i] == groups[i + 1];
      var h := Heading(g.section);
      CleanBlockOfTexts(g.texts, named);
      forall i | 0 <= i < |rest| ensures Heading(rest[i].section) != h {
        HeadingsDiffer(rest[i].section, g.section);
      }
      hide Put, CleanBlock, CleanTexts, Block;
      PutKeepsLines(lines, h, Block(g.texts));
      AddedStays(lines, rest, named, h, Block(g.texts));
      FoldAddsExactly(PutGroup(lines, g), rest, named);
    }
  }
}
