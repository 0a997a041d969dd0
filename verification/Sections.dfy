/** Blocks put under headings in one region of a changelog. */
module Sections {
  // What folding does to the lines between the Unreleased heading and the next release.

  import opened Wrappers
  import opened Lines

  datatype Entry = Entry(section: string, text: string)

  /** One section's texts, as the fold gathers them. */
  datatype Group = Group(section: string, texts: seq<string>)

  function Heading(section: string): string { "### " + section }

  predicate Blank(line: string) {
    forall i :: 0 <= i < |line| ==> IsSpace(line[i])
  }

  /** The index of the first line equal to `heading`. */
  function FirstAt(lines: seq<string>, heading: string): (at: Option<nat>)
    ensures at.Some? ==> at.value < |lines| && lines[at.value] == heading
  {
    if lines == [] then None
    else if lines[0] == heading then Some(0)
    else
      var at := FirstAt(lines[1..], heading);
      if at.None? then None else Some(at.value + 1)
  }

  /** The lines up to the last that is not blank. */
  function Tail(lines: seq<string>): (tail: nat)
    ensures tail <= |lines|
  {
    if lines != [] && Blank(lines[|lines| - 1]) then Tail(lines[..|lines| - 1]) else |lines|
  }

  function Insert(lines: seq<string>, at: nat, added: seq<string>): seq<string> {
    var p := if at <= |lines| then at else |lines|;
    lines[..p] + added + lines[p..]
  }

  /** Where a block goes: after the line under its heading, or at the end of the text. */
  function PutAt(lines: seq<string>, heading: string): nat {
    var at := FirstAt(lines, heading);
    if at.Some? then at.value + 2 else Tail(lines)
  }

  /** The lines that go there; a section that is missing is made. */
  function Adds(lines: seq<string>, heading: string, block: seq<string>): seq<string> {
    if FirstAt(lines, heading).Some? then block + [""] else ["", heading, ""] + block
  }

  /** One block put at the top of its section; the section is made at the end where it is missing. */
  function Put(lines: seq<string>, heading: string, block: seq<string>): seq<string> {
    Insert(lines, PutAt(lines, heading), Adds(lines, heading, block))
  }

  // ----- Where a heading stands ---------------------------------------------

  lemma {:induction false} FirstAtBefore(a: seq<string>, heading: string, b: seq<string>)
    requires heading !in a
    ensures FirstAt(a + [heading] + b, heading) == Some(|a|)
  {
    if a == [] {
      assert a + [heading] + b == [heading] + b;
    } else {
      assert (a + [heading] + b)[1..] == a[1..] + [heading] + b;
      FirstAtBefore(a[1..], heading, b);
    }
  }

  lemma {:induction false} FirstAtIsFirst(lines: seq<string>, heading: string)
    ensures FirstAt(lines, heading).None? <==> heading !in lines
    ensures FirstAt(lines, heading).Some? ==> heading !in lines[..FirstAt(lines, heading).value]
  {
    if lines != [] && lines[0] != heading {
      FirstAtIsFirst(lines[1..], heading);
      var at := FirstAt(lines[1..], heading);
      if at.Some? {
        assert lines[..at.value + 1] == [lines[0]] + lines[1..][..at.value];
      }
    }
  }

  /** Lines as they fall apart at the first `heading`: before it, the heading, after it. */
  ghost predicate FallsApart(lines: seq<string>, heading: string, before: seq<string>, after: seq<string>) {
    heading !in before && lines == before + [heading] + after
  }

  lemma {:induction false} ApartAtFirst(lines: seq<string>, heading: string) returns (before: seq<string>, after: seq<string>)
    requires FirstAt(lines, heading).Some?
    ensures FallsApart(lines, heading, before, after) && |before| == FirstAt(lines, heading).value
  {
    FirstAtIsFirst(lines, heading);
    var at := FirstAt(lines, heading).value;
    before, after := lines[..at], lines[at + 1..];
  }

  /** A block put under a heading with a line after it stands right after that line. */
  lemma {:induction false} PutUnder(before: seq<string>, heading: string, next: string, after: seq<string>, block: seq<string>)
    requires heading !in before
    ensures Put(before + [heading] + ([next] + after), heading, block)
         == before + [heading] + ([next] + (block + [""]) + after)
  {
    var lines := before + [heading] + ([next] + after);
    FirstAtBefore(before, heading, [next] + after);
    assert lines[..|before| + 2] == before + [heading] + [next];
    assert lines[|before| + 2..] == after;
  }

  // ----- Sections that are ready to receive ---------------------------------

  /** The section has its heading, and a line after it that is none of the named headings. */
  ghost predicate Ready(lines: seq<string>, heading: string, named: set<string>) {
    var at := FirstAt(lines, heading);
    at.Some? && at.value + 1 < |lines| && lines[at.value + 1] !in named
  }

  ghost predicate AllReady(lines: seq<string>, named: set<string>) {
    forall heading | heading in named :: Ready(lines, heading, named)
  }

  /** No line of the block is one of the named headings. */
  ghost predicate CleanBlock(block: seq<string>, named: set<string>) {
    forall line | line in block :: line !in named
  }

  lemma {:induction false} ReadyApart(lines: seq<string>, heading: string, named: set<string>)
    returns (before: seq<string>, next: string, after: seq<string>)
    requires Ready(lines, heading, named)
    ensures heading !in before && next !in named
    ensures lines == before + [heading] + ([next] + after)
  {
    var rest;
    before, rest := ApartAtFirst(lines, heading);
    next, after := rest[0], rest[1..];
    assert rest == [next] + after;
    assert lines[|before| + 1] == next;
  }

  lemma {:induction false} PutsMergePresent(
    before: seq<string>, heading: string, next: string, after: seq<string>, first: seq<string>, second: seq<string>)
    requires heading !in before
    ensures var lines := before + [heading] + ([next] + after);
      Put(Put(lines, heading, first), heading, second) == Put(lines, heading, second + [""] + first)
  {
    hide Put;
    PutUnder(before, heading, next, after, first);
    PutUnder(before, heading, next, after, second + [""] + first);
    assert [next] + (first + [""]) + after == [next] + ((first + [""]) + after);
    PutUnder(before, heading, next, (first + [""]) + after, second);
    assert [next] + (second + [""]) + ((first + [""]) + after)
        == [next] + ((second + [""] + first) + [""]) + after;
  }

  /** Where the heading is missing, the block makes it, with a blank line on either side. */
  lemma {:induction false} PutMakes(lines: seq<string>, heading: string, block: seq<string>)
    requires heading !in lines && heading != ""
    ensures var before := lines[..Tail(lines)] + [""];
      heading !in before
      && Put(lines, heading, block) == before + [heading] + ([""] + (block + lines[Tail(lines)..]))
  {
    FirstAtIsFirst(lines, heading);
  }

  lemma {:induction false} PutsMergeAbsent(lines: seq<string>, heading: string, first: seq<string>, second: seq<string>)
    requires heading !in lines && heading != ""
    ensures Put(Put(lines, heading, first), heading, second) == Put(lines, heading, second + [""] + first)
  {
    hide Put;
    var before, after := lines[..Tail(lines)] + [""], lines[Tail(lines)..];
    PutMakes(lines, heading, first);
    PutMakes(lines, heading, second + [""] + first);
    PutUnder(before, heading, "", first + after, second);
    assert [""] + (second + [""]) + (first + after) == [""] + ((second + [""] + first) + after);
  }

  /** Two blocks put under one heading are one block, the later first, a blank line between. */
  lemma {:induction false} PutsMerge(lines: seq<string>, heading: string, first: seq<string>, second: seq<string>)
    requires heading != ""
    requires FirstAt(lines, heading).Some? ==> FirstAt(lines, heading).value + 1 < |lines|
    ensures Put(Put(lines, heading, first), heading, second) == Put(lines, heading, second + [""] + first)
  {
    hide Put;
    FirstAtIsFirst(lines, heading);
    if FirstAt(lines, heading).Some? {
      var before, rest := ApartAtFirst(lines, heading);
      assert rest == [rest[0]] + rest[1..];
      PutsMergePresent(before, heading, rest[0], rest[1..], first, second);
    } else {
      PutsMergeAbsent(lines, heading, first, second);
    }
  }

  /** Two different headings, the first before the second, each with its own next line. */
  lemma {:induction false} PutsCommuteInOrder(
    a: seq<string>, h: string, x: string, b: seq<string>, k: string, y: string, c: seq<string>,
    forH: seq<string>, forK: seq<string>)
    requires h != k && h != "" && k != "" && x != k
    requires h !in a && k !in a && k !in b && k !in forH && h !in forK
    ensures var lines := a + [h] + ([x] + (b + [k] + ([y] + c)));
      Put(Put(lines, h, forH), k, forK) == Put(Put(lines, k, forK), h, forH)
  {
    hide Put;
    var rest := b + [k] + ([y] + c);
    var lines := a + [h] + ([x] + rest);
    var front := a + [h] + ([x] + b);
    assert lines == front + [k] + ([y] + c);
    PutUnder(a, h, x, rest, forH);
    var wide := a + [h] + ([x] + (forH + [""]) + b);
    assert k !in front && k !in wide;
    assert Put(lines, h, forH) == wide + [k] + ([y] + c);
    PutUnder(wide, k, y, c, forK);
    PutUnder(front, k, y, c, forK);
    var long := b + [k] + ([y] + (forK + [""]) + c);
    assert front + [k] + ([y] + (forK + [""]) + c) == a + [h] + ([x] + long);
    PutUnder(a, h, x, long, forH);
    assert a + [h] + ([x] + (forH + [""]) + long) == wide + [k] + ([y] + (forK + [""]) + c);
  }

  /** Lines with both headings ready, taken apart at both, the earlier first. */
  lemma {:induction false} BothApart(lines: seq<string>, h: string, k: string, named: set<string>)
    returns (a: seq<string>, x: string, b: seq<string>, y: string, c: seq<string>)
    requires h != k && h in named && k in named
    requires Ready(lines, h, named) && Ready(lines, k, named)
    requires FirstAt(lines, h).value < FirstAt(lines, k).value
    ensures lines == a + [h] + ([x] + (b + [k] + ([y] + c)))
    ensures h !in a && k !in a && k !in b && x !in named && y !in named
  {
    FirstAtIsFirst(lines, h);
    FirstAtIsFirst(lines, k);
    var i, j := FirstAt(lines, h).value, FirstAt(lines, k).value;
    assert lines[i + 1] != k;
    a, x, b, y, c := lines[..i], lines[i + 1], lines[i + 2..j], lines[j + 1], lines[j + 2..];
    assert forall p :: 0 <= p < |a| ==> a[p] == lines[..j][p];
    assert forall p :: 0 <= p < |b| ==> b[p] == lines[..j][i + 2 + p];
  }

  lemma {:induction false} PutsCommute(
    lines: seq<string>, h: string, k: string, named: set<string>, forH: seq<string>, forK: seq<string>)
    requires h != k && h in named && k in named && "" !in named
    requires Ready(lines, h, named) && Ready(lines, k, named)
    requires CleanBlock(forH, named) && CleanBlock(forK, named)
    ensures Put(Put(lines, h, forH), k, forK) == Put(Put(lines, k, forK), h, forH)
  {
    if FirstAt(lines, h).value < FirstAt(lines, k).value {
      var a, x, b, y, c := BothApart(lines, h, k, named);
      PutsCommuteInOrder(a, h, x, b, k, y, c, forH, forK);
    } else {
      assert lines[FirstAt(lines, h).value] != lines[FirstAt(lines, k).value];
      var a, x, b, y, c := BothApart(lines, k, h, named);
      PutsCommuteInOrder(a, k, x, b, h, y, c, forK, forH);
    }
  }

  lemma {:induction false} ReadyFromParts(before: seq<string>, heading: string, next: string, after: seq<string>, named: set<string>)
    requires heading !in before && next !in named
    ensures Ready(before + [heading] + ([next] + after), heading, named)
  {
    FirstAtBefore(before, heading, [next] + after);
  }

  /** Lines inserted without a heading leave its first place, or move it on by as many. */
  lemma {:induction false} FirstAtInsert(lines: seq<string>, at: nat, added: seq<string>, k: string)
    requires k !in added
    ensures FirstAt(Insert(lines, at, added), k).Some? <==> FirstAt(lines, k).Some?
    ensures FirstAt(lines, k).Some? ==>
      FirstAt(Insert(lines, at, added), k).value
        == (if FirstAt(lines, k).value < at then FirstAt(lines, k).value else FirstAt(lines, k).value + |added|)
  {
    FirstAtIsFirst(lines, k);
    var p := if at <= |lines| then at else |lines|;
    var more := Insert(lines, at, added);
    if FirstAt(lines, k).Some? {
      var j := FirstAt(lines, k).value;
      if j < p {
        assert more == lines[..j] + [k] + (lines[j + 1..p] + added + lines[p..]);
        FirstAtBefore(lines[..j], k, lines[j + 1..p] + added + lines[p..]);
      } else {
        var before := lines[..p] + added + lines[p..j];
        assert forall i :: 0 <= i < |lines[p..j]| ==> lines[p..j][i] == lines[..j][p + i];
        assert forall i :: 0 <= i < |lines[..p]| ==> lines[..p][i] == lines[..j][i];
        assert more == before + [k] + lines[j + 1..];
        FirstAtBefore(before, k, lines[j + 1..]);
      }
    } else {
      FirstAtIsFirst(more, k);
    }
  }

  /** A put does not bring in any named heading but its own. */
  lemma {:induction false} AddsIsClean(lines: seq<string>, h: string, named: set<string>, block: seq<string>, k: string)
    requires k in named && "" !in named && CleanBlock(block, named) && (k != h || FirstAt(lines, h).Some?)
    ensures k !in Adds(lines, h, block) && Adds(lines, h, block) != [] && Adds(lines, h, block)[0] !in named
  {}

  /** A put leaves another heading with a next line that is none of the named ones, and the same unless it is blank. */
  lemma {:induction false} PutKeepsReady(lines: seq<string>, h: string, named: set<string>, block: seq<string>, k: string)
    requires k in named && "" !in named && Ready(lines, k, named) && CleanBlock(block, named)
    ensures Ready(Put(lines, h, block), k, named)
  {
    AddsIsClean(lines, h, named, block, k);
    hide Adds, PutAt;
    FirstAtInsert(lines, PutAt(lines, h), Adds(lines, h, block), k);
  }

  // ----- Sections that are open ---------------------------------------------

  /** The heading's line is the last there is. */
  ghost predicate EndsAt(lines: seq<string>, heading: string) {
    FirstAt(lines, heading).Some? && FirstAt(lines, heading).value + 1 == |lines|
  }

  /** No named heading is the last line. */
  ghost predicate Opens(lines: seq<string>, named: set<string>) {
    "" !in named && forall heading | heading in named :: !EndsAt(lines, heading)
  }

  /** Every named heading that stands has a next line that is none of them; any may be missing. */
  ghost predicate Tidy(lines: seq<string>, named: set<string>) {
    "" !in named && forall heading | heading in named :: FirstAt(lines, heading).Some? ==> Ready(lines, heading, named)
  }

  lemma TidyOpens(lines: seq<string>, named: set<string>)
    requires Tidy(lines, named)
    ensures Opens(lines, named)
  {
    forall h | h in named && FirstAt(lines, h).Some? ensures !EndsAt(lines, h) {
      assert Ready(lines, h, named);
    }
  }

  lemma {:induction false} MadeIsReady(lines: seq<string>, h: string, named: set<string>, block: seq<string>)
    requires h !in lines && h != "" && "" !in named
    ensures Ready(Put(lines, h, block), h, named)
  {
    PutMakes(lines, h, block);
    hide Put;
    ReadyFromParts(lines[..Tail(lines)] + [""], h, "", block + lines[Tail(lines)..], named);
  }

  /** Putting a clean block leaves every named heading open. */
  lemma {:induction false} PutKeepsOpens(lines: seq<string>, named: set<string>, h: string, block: seq<string>)
    requires Opens(lines, named) && h in named && CleanBlock(block, named)
    ensures Opens(Put(lines, h, block), named)
  {
    hide Put, CleanBlock;
    FirstAtIsFirst(lines, h);
    forall k | k in named ensures !EndsAt(Put(lines, h, block), k) {
      if k == h && h !in lines {
        MadeIsReady(lines, h, named, block);
      } else {
        PutKeepsOpen(lines, named, h, block, k);
      }
    }
  }

  lemma {:induction false} PutKeepsOpen(lines: seq<string>, named: set<string>, h: string, block: seq<string>, k: string)
    requires k in named && "" !in named && CleanBlock(block, named) && !EndsAt(lines, k)
    requires k != h || FirstAt(lines, h).Some?
    ensures !EndsAt(Put(lines, h, block), k)
  {
    AddsIsClean(lines, h, named, block, k);
    hide Adds, PutAt;
    FirstAtInsert(lines, PutAt(lines, h), Adds(lines, h, block), k);
  }

  /** Putting a clean block leaves the sections tidy, those that stand and the one it makes. */
  lemma {:induction false} PutKeepsTidy(lines: seq<string>, named: set<string>, h: string, block: seq<string>)
    requires Tidy(lines, named) && h in named && CleanBlock(block, named)
    ensures Tidy(Put(lines, h, block), named)
  {
    hide Put, CleanBlock, Ready;
    FirstAtIsFirst(lines, h);
    forall k | k in named && FirstAt(Put(lines, h, block), k).Some? ensures Ready(Put(lines, h, block), k, named) {
      if k == h && h !in lines {
        MadeIsReady(lines, h, named, block);
      } else {
        PutHasHeading(lines, named, h, block, k);
        PutKeepsReady(lines, h, named, block, k);
      }
    }
  }

  /** After a put the named headings that stand are those that stood and the put's own. */
  lemma {:induction false} PutHasHeading(lines: seq<string>, named: set<string>, h: string, block: seq<string>, k: string)
    requires k in named && "" !in named && CleanBlock(block, named)
    requires k != h || FirstAt(lines, h).Some?
    ensures FirstAt(Put(lines, h, block), k).Some? <==> FirstAt(lines, k).Some?
  {
    AddsIsClean(lines, h, named, block, k);
    hide Adds, PutAt;
    FirstAtInsert(lines, PutAt(lines, h), Adds(lines, h, block), k);
  }
}
