/** Markdown cut into its headings' blocks: a line in a fence is no heading. */
module MarkdownBlocks {
  import opened Wrappers
  import opened Lines

  /** What a line says as a heading, if it is one. */
  type HeadingOf = string -> Option<string>

  datatype Block = Block(heading: string, text: string)

  // ----- Fences -------------------------------------------------------------

  /** How many of `c` the line has from `at` on. */
  function RunOf(line: string, at: nat, c: char): (n: nat)
    requires at <= |line|
    ensures at + n <= |line| && forall i :: at <= i < at + n ==> line[i] == c
    ensures at + n < |line| ==> line[at + n] != c
    decreases |line| - at
  {
    if at < |line| && line[at] == c then 1 + RunOf(line, at + 1, c) else 0
  }

  /** The fence the line opens or closes with: three or more backticks or tildes, at most three spaces in. */
  function Opened(line: string): (fence: Option<string>)
    ensures fence.Some? ==> |fence.value| >= 3 && (fence.value[0] == '`' || fence.value[0] == '~')
    ensures fence.Some? ==> forall i :: 0 <= i < |fence.value| ==> fence.value[i] == fence.value[0]
  {
    var indent := RunOf(line, 0, ' ');
    if indent > 3 || indent == |line| || (line[indent] != '`' && line[indent] != '~') then None
    else
      var n := RunOf(line, indent, line[indent]);
      if n < 3 then None else Some(line[indent..indent + n])
  }

  predicate Closes(line: string, fence: string)
    requires fence != ""
  {
    Opened(line).Some? && Opened(line).value[0] == fence[0] && |Opened(line).value| >= |fence|
  }

  function NextFence(fence: string, line: string): string {
    if fence != "" then (if Closes(line, fence) then "" else fence)
    else if Opened(line).Some? then Opened(line).value
    else ""
  }

  /** The fence still open after the lines; empty where none is. */
  function FenceAfter(lines: seq<string>): string {
    if lines == [] then "" else NextFence(FenceAfter(lines[..|lines| - 1]), lines[|lines| - 1])
  }

  /** Line `k` opened the fence, and nothing has closed it up to `n`. */
  ghost predicate OpenSince(lines: seq<string>, k: int, n: int, fence: string) {
    && 0 <= k < n <= |lines|
    && FenceAfter(lines[..k]) == "" && Opened(lines[k]) == Some(fence)
    && forall j :: k < j < n ==> fence != "" && !Closes(lines[j], fence)
  }

  ghost predicate StillOpen(lines: seq<string>, n: int, fence: string) {
    exists k :: OpenSince(lines, k, n, fence)
  }

  lemma {:induction false} OpenSinceNext(lines: seq<string>, n: nat, fence: string)
    requires n < |lines| && fence != ""
    ensures StillOpen(lines, n + 1, fence) <==>
      (StillOpen(lines, n, fence) && !Closes(lines[n], fence))
      || (FenceAfter(lines[..n]) == "" && Opened(lines[n]) == Some(fence))
  {
    hide FenceAfter, Closes, Opened;
    var next := n + 1;
    if k :| OpenSince(lines, k, next, fence) {
      if k < n {
        assert OpenSince(lines, k, n, fence);
      }
    }
    if k :| OpenSince(lines, k, n, fence) {
      assert !Closes(lines[n], fence) ==> OpenSince(lines, k, n + 1, fence);
    }
    if FenceAfter(lines[..n]) == "" && Opened(lines[n]) == Some(fence) {
      assert OpenSince(lines, n, n + 1, fence);
    }
  }

  /** A fence is open exactly when some line opened it and no line since has closed it. */
  lemma {:induction false} OpenFenceMeans(lines: seq<string>, n: nat, fence: string)
    requires n <= |lines| && fence != ""
    ensures FenceAfter(lines[..n]) == fence <==> StillOpen(lines, n, fence)
  {
    if n > 0 {
      assert lines[..n][..n - 1] == lines[..n - 1];
      OpenFenceMeans(lines, n - 1, fence);
      OpenSinceNext(lines, n - 1, fence);
      hide StillOpen, NextFence, Closes, Opened;
    }
  }

  /** The fence stands in the line: three or more backticks or tildes, all that stand there, behind at most three spaces. */
  ghost predicate FenceIn(line: string, at: int, fence: string) {
    && 0 <= at <= 3 && |fence| >= 3 && at + |fence| <= |line|
    && (fence[0] == '`' || fence[0] == '~')
    && (forall i :: 0 <= i < at ==> line[i] == ' ')
    && (forall i :: at <= i < at + |fence| ==> line[i] == fence[0])
    && (forall i :: 0 <= i < |fence| ==> fence[i] == fence[0])
    && (at + |fence| < |line| ==> line[at + |fence|] != fence[0])
  }

  lemma {:induction false} OpenedExactly(line: string, fence: string)
    ensures Opened(line) == Some(fence) <==> exists at :: FenceIn(line, at, fence)
  {
    var indent := RunOf(line, 0, ' ');
    if at :| FenceIn(line, at, fence) {
      assert line[at] == fence[0];
      assert indent == at;
      var n := RunOf(line, indent, line[indent]);
      assert n == |fence|;
      assert line[indent..indent + n] == fence;
    }
    if Opened(line) == Some(fence) {
      assert FenceIn(line, indent, fence);
    }
  }

  /** A line closes a fence exactly when one at least as long and of the same character stands in it. */
  lemma {:induction false} ClosesExactly(line: string, fence: string)
    requires fence != ""
    ensures Closes(line, fence) <==> exists at, run :: FenceIn(line, at, run) && run[0] == fence[0] && |run| >= |fence|
  {
    hide Opened, FenceIn;
    FenceIsSome(line);
    if Closes(line, fence) {
      OpenedExactly(line, Opened(line).value);
    }
    forall at, run | FenceIn(line, at, run) && run[0] == fence[0] && |run| >= |fence| ensures Opened(line) == Some(run) {
      OpenedExactly(line, run);
    }
  }

  lemma FenceIsSome(line: string)
    ensures forall at, run :: FenceIn(line, at, run) ==> run != ""
  {}

  // ----- Blocks -------------------------------------------------------------

  /** The lines' text; no line at all reads as one that is empty. */
  function TextOf(lines: seq<string>): string {
    if lines == [] then "" else Join(lines)
  }

  /** Line `n` starts a block: no fence is open, it is none itself, and it is a heading. */
  predicate StartsBlock(lines: seq<string>, headingOf: HeadingOf, n: int) {
    0 <= n < |lines| && FenceAfter(lines[..n]) == "" && Opened(lines[n]).None? && headingOf(lines[n]).Some?
  }

  ghost predicate Rising(at: seq<int>) {
    forall i, j :: 0 <= i < j < |at| ==> at[i] < at[j]
  }

  /** Where block `i` begins and ends, its heading not among its lines. */
  function BlockFrom(at: seq<int>, i: nat): int
    requires i <= |at|
  {
    if i == 0 then 0 else at[i - 1] + 1
  }

  function BlockTo(at: seq<int>, i: nat, end: int): int
    requires i <= |at|
  {
    if i == |at| then end else at[i]
  }

  /** The lines up to `end` are the blocks in order, cut at just the lines that start one. */
  ghost predicate CutInto(lines: seq<string>, headingOf: HeadingOf, end: int, at: seq<int>, parts: seq<seq<string>>) {
    && 0 <= end <= |lines| && Rising(at) && |parts| == |at| + 1
    && (forall n :: n in at <==> StartsBlock(lines, headingOf, n) && n < end)
    && (forall i :: 0 <= i <= |at| ==>
          0 <= BlockFrom(at, i) <= BlockTo(at, i, end) <= end
          && parts[i] == lines[BlockFrom(at, i)..BlockTo(at, i, end)])
  }

  /** Each block has its heading's words, the first none, and its lines' text. */
  ghost predicate BlocksOf(
    lines: seq<string>, headingOf: HeadingOf, at: seq<int>, parts: seq<seq<string>>, blocks: seq<Block>) {
    && |blocks| == |parts| && |at| < |parts|
    && (forall i :: 0 <= i < |blocks| ==> blocks[i].text == TextOf(parts[i]))
    && blocks[0].heading == ""
    && (forall i :: 0 <= i < |blocks| - 1 && i < |at| ==>
          StartsBlock(lines, headingOf, at[i]) && headingOf(lines[at[i]]) == Some(blocks[i + 1].heading))
  }

  lemma {:induction false} CutKeepsLine(
    lines: seq<string>, headingOf: HeadingOf, n: nat, at: seq<int>, parts: seq<seq<string>>)
    requires n < |lines| && CutInto(lines, headingOf, n, at, parts) && !StartsBlock(lines, headingOf, n)
    ensures CutInto(lines, headingOf, n + 1, at, parts[..|at|] + [parts[|at|] + [lines[n]]])
  {
    hide StartsBlock;
    var next := parts[..|at|] + [parts[|at|] + [lines[n]]];
    var from := BlockFrom(at, |at|);
    assert lines[from..n + 1] == lines[from..n] + [lines[n]];
    forall i | 0 <= i <= |at| ensures 0 <= BlockFrom(at, i) <= BlockTo(at, i, n + 1) <= n + 1
        && next[i] == lines[BlockFrom(at, i)..BlockTo(at, i, n + 1)] {
      assert parts[i] == lines[BlockFrom(at, i)..BlockTo(at, i, n)];
    }
  }

  lemma {:induction false} CutStartsBlock(
    lines: seq<string>, headingOf: HeadingOf, n: nat, at: seq<int>, parts: seq<seq<string>>)
    requires n < |lines| && CutInto(lines, headingOf, n, at, parts) && StartsBlock(lines, headingOf, n)
    ensures CutInto(lines, headingOf, n + 1, at + [n], parts + [[]])
  {
    hide StartsBlock;
    var more, next := at + [n], parts + [[]];
    assert forall i :: 0 <= i < |at| ==> at[i] in at;
    forall i | 0 <= i <= |more| ensures 0 <= BlockFrom(more, i) <= BlockTo(more, i, n + 1) <= n + 1
        && next[i] == lines[BlockFrom(more, i)..BlockTo(more, i, n + 1)] {
      if i < |more| {
        assert BlockFrom(more, i) == BlockFrom(at, i) && BlockTo(more, i, n + 1) == BlockTo(at, i, n);
      }
    }
    forall m ensures m in more <==> StartsBlock(lines, headingOf, m) && m < n + 1 {
      assert m in more <==> m in at || m == n;
    }
  }

  /** The blocks are those the document is cut into, at just the lines that start one. */
  ghost predicate IsCutInto(lines: seq<string>, headingOf: HeadingOf, blocks: seq<Block>) {
    exists at, parts :: CutInto(lines, headingOf, |lines|, at, parts) && BlocksOf(lines, headingOf, at, parts, blocks)
  }

  /** The lines cut at every line that starts a block. */
  method MdBlocks(markdown: seq<string>, headingOf: HeadingOf) returns (blocks: seq<Block>)
    ensures IsCutInto(markdown, headingOf, blocks)
  {
    hide CutInto, FenceAfter, Opened;
    blocks := [];
    ghost var at: seq<int>, parts: seq<seq<string>> := [], [[]];
    var fence, heading, lines := "", "", [];
    NothingCut(markdown, headingOf);
    for n := 0 to |markdown|
      invariant CutInto(markdown, headingOf, n, at, parts) && |parts| == |at| + 1
      invariant fence == FenceAfter(markdown[..n]) && lines == parts[|at|]
      invariant BlocksOf(markdown, headingOf, at, parts, blocks + [Block(heading, TextOf(lines))])
    {
      var line := markdown[n];
      FenceNext(markdown, n);
      ghost var before := blocks + [Block(heading, TextOf(lines))];
      var mark := Opened(line);
      if fence != "" {
        if mark.Some? && mark.value[0] == fence[0] && |mark.value| >= |fence| {
          fence := "";
        }
      } else if mark.Some? {
        fence := mark.value;
      } else {
        var found := headingOf(line);
        if found.Some? {
          CutStartsBlock(markdown, headingOf, n, at, parts);
          blocks := blocks + [Block(heading, TextOf(lines))];
          heading, lines := found.value, [];
          at, parts := at + [n], parts + [[]];
          continue;
        }
      }
      CutKeepsLine(markdown, headingOf, n, at, parts);
      lines := lines + [line];
      parts := parts[..|at|] + [parts[|at|] + [line]];
    }
    blocks := blocks + [Block(heading, TextOf(lines))];
  }

  lemma NothingCut(lines: seq<string>, headingOf: HeadingOf)
    ensures CutInto(lines, headingOf, 0, [], [[]]) && FenceAfter(lines[..0]) == ""
  {}

  lemma FenceNext(lines: seq<string>, n: nat)
    requires n < |lines|
    ensures FenceAfter(lines[..n + 1]) == NextFence(FenceAfter(lines[..n]), lines[n])
  {
    assert lines[..n + 1][..n] == lines[..n];
  }

  // ----- Nothing is lost ----------------------------------------------------

  /** The blocks' lines with the heading lines between them. */
  function Reassembled(lines: seq<string>, at: seq<int>, parts: seq<seq<string>>, n: nat): seq<string>
    requires n < |parts| && n <= |at| && forall i :: 0 <= i < |at| ==> 0 <= at[i] < |lines|
  {
    if n == 0 then parts[0]
    else Reassembled(lines, at, parts, n - 1) + [lines[at[n - 1]]] + parts[n]
  }

  lemma {:induction false} CutsAreLines(lines: seq<string>, headingOf: HeadingOf, at: seq<int>, parts: seq<seq<string>>)
    requires CutInto(lines, headingOf, |lines|, at, parts)
    ensures forall i :: 0 <= i < |at| ==> 0 <= at[i] < |lines|
  {
    hide StartsBlock;
    forall i | 0 <= i < |at| ensures 0 <= at[i] < |lines| {
      assert BlockTo(at, i, |lines|) == at[i] && BlockFrom(at, i + 1) == at[i] + 1;
      assert BlockFrom(at, i + 1) <= BlockTo(at, i + 1, |lines|);
    }
  }

  lemma {:induction false} ReassembledUpTo(
    lines: seq<string>, headingOf: HeadingOf, at: seq<int>, parts: seq<seq<string>>, n: nat)
    requires CutInto(lines, headingOf, |lines|, at, parts) && n <= |at|
    ensures forall i :: 0 <= i < |at| ==> 0 <= at[i] < |lines|
    ensures Reassembled(lines, at, parts, n) == lines[..BlockTo(at, n, |lines|)]
  {
    CutsAreLines(lines, headingOf, at, parts);
    var from, to := BlockFrom(at, n), BlockTo(at, n, |lines|);
    assert 0 <= from <= to <= |lines| && parts[n] == lines[from..to];
    if n > 0 {
      assert from == at[n - 1] + 1 && BlockTo(at, n - 1, |lines|) == at[n - 1];
      hide StartsBlock, Rising, CutInto, BlockFrom, BlockTo;
      ReassembledUpTo(lines, headingOf, at, parts, n - 1);
      LineBetween(lines, at[n - 1], to);
    }
  }

  lemma LineBetween(lines: seq<string>, at: nat, to: nat)
    requires at < to <= |lines|
    ensures lines[..to] == lines[..at] + [lines[at]] + lines[at + 1..to]
  {}

  /** The headings and the blocks' lines, in order, are the document, each line once. */
  lemma {:induction false} BlocksAreTheDocument(
    lines: seq<string>, headingOf: HeadingOf, at: seq<int>, parts: seq<seq<string>>)
    requires CutInto(lines, headingOf, |lines|, at, parts)
    ensures forall i :: 0 <= i < |at| ==> 0 <= at[i] < |lines|
    ensures Reassembled(lines, at, parts, |at|) == lines
  {
    ReassembledUpTo(lines, headingOf, at, parts, |at|);
    assert lines[..|lines|] == lines;
  }

  /** No line while a fence is open starts a block. */
  lemma {:induction false} FencedLinesStartNothing(lines: seq<string>, headingOf: HeadingOf, k: int, n: int, fence: string)
    requires OpenSince(lines, k, n, fence) && n < |lines|
    ensures !StartsBlock(lines, headingOf, n) && !StartsBlock(lines, headingOf, k)
  {
    assert fence != "";
    OpenFenceMeans(lines, n, fence);
  }

  /** A block's text tells its lines, but for one thing: no line reads as one empty line. */
  lemma {:induction false} TextTellsLines(a: seq<string>, b: seq<string>)
    requires AllOneLine(a) && AllOneLine(b)
    ensures TextOf(a) == TextOf(b) <==> a == b || (a == [] && b == [""]) || (a == [""] && b == [])
  {
    if a != [] {
      SplitOfJoin(a);
    }
    if b != [] {
      SplitOfJoin(b);
    }
    assert Split("") == [""];
  }
}
