/** Entries folded into one region. */
module Groups {
  // The entries gathered by section and put a section at a time come to the same
  // as each entry put on its own, last first.

  import opened Lines
  import opened Sections

  /** The texts of a section, a blank line between each two. */
  function JoinTexts(texts: seq<string>): string
    requires texts != []
  {
    if |texts| == 1 then texts[0]
    else JoinTexts(texts[..|texts| - 1]) + "\n\n" + texts[|texts| - 1]
  }

  function Block(texts: seq<string>): seq<string>
    requires texts != []
  {
    Split(JoinTexts(texts))
  }

  lemma {:induction false} BlockOfOneMore(texts: seq<string>, text: string)
    requires texts != []
    ensures Block(texts + [text]) == Block(texts) + [""] + Split(text)
  {
    var front := JoinTexts(texts);
    assert (texts + [text])[..|texts|] == texts;
    assert front + "\n\n" + text == front + "\n" + ("" + "\n" + text);
    SplitConcat(front, "" + "\n" + text);
    SplitConcat("", text);
  }

  /** Entries gathered by section, sections and texts in the order they are met. */
  function AddTo(groups: seq<Group>, e: Entry): seq<Group> {
    if groups == [] then [Group(e.section, [e.text])]
    else if groups[0].section == e.section then [Group(e.section, groups[0].texts + [e.text])] + groups[1..]
    else [groups[0]] + AddTo(groups[1..], e)
  }

  function Gathered(entries: seq<Entry>): seq<Group> {
    if entries == [] then []
    else AddTo(Gathered(entries[..|entries| - 1]), entries[|entries| - 1])
  }

  ghost predicate NonEmptyGroups(groups: seq<Group>) {
    forall i :: 0 <= i < |groups| ==> groups[i].texts != []
  }

  lemma {:induction false} AddToKeepsTexts(groups: seq<Group>, e: Entry)
    requires NonEmptyGroups(groups)
    ensures NonEmptyGroups(AddTo(groups, e))
  {
    if groups != [] && groups[0].section != e.section {
      AddToKeepsTexts(groups[1..], e);
    }
  }

  lemma {:induction false} GatheredHaveTexts(entries: seq<Entry>)
    ensures NonEmptyGroups(Gathered(entries))
  {
    if entries != [] {
      GatheredHaveTexts(entries[..|entries| - 1]);
      AddToKeepsTexts(Gathered(entries[..|entries| - 1]), entries[|entries| - 1]);
    }
  }

  function PutGroup(lines: seq<string>, g: Group): seq<string>
    requires g.texts != []
  {
    Put(lines, Heading(g.section), Block(g.texts))
  }

  function PutEntry(lines: seq<string>, e: Entry): seq<string> {
    Put(lines, Heading(e.section), Split(e.text))
  }

  /** The groups put in turn. */
  function Apply(lines: seq<string>, groups: seq<Group>): seq<string>
    requires NonEmptyGroups(groups)
    decreases |groups|
  {
    if groups == [] then lines else Apply(PutGroup(lines, groups[0]), groups[1..])
  }

  /** The entries put one at a time, the last of the list first. */
  function OneByOne(lines: seq<string>, entries: seq<Entry>): seq<string>
    decreases |entries|
  {
    if entries == [] then lines
    else OneByOne(PutEntry(lines, entries[|entries| - 1]), entries[..|entries| - 1])
  }

  // ----- Entries a region can take ------------------------------------------

  ghost predicate CleanTexts(texts: seq<string>, named: set<string>) {
    forall i :: 0 <= i < |texts| ==> CleanBlock(Split(texts[i]), named)
  }

  /** The group's heading is among the named ones, and its texts hold none of them. */
  ghost predicate Suits(g: Group, named: set<string>) {
    g.texts != [] && Heading(g.section) in named && CleanTexts(g.texts, named)
  }

  ghost predicate AllSuit(groups: seq<Group>, named: set<string>) {
    forall i :: 0 <= i < |groups| ==> Suits(groups[i], named)
  }

  ghost predicate EntrySuits(e: Entry, named: set<string>) {
    Heading(e.section) in named && CleanBlock(Split(e.text), named)
  }

  ghost predicate EntriesSuit(entries: seq<Entry>, named: set<string>) {
    forall i :: 0 <= i < |entries| ==> EntrySuits(entries[i], named)
  }

  /**
   The region can take the named sections: each has its heading with a line of its
   own after it, or there is only one named section and it has no heading yet.
   */
  ghost predicate Receives(lines: seq<string>, named: set<string>) {
    && "" !in named
    && (AllReady(lines, named) || exists h :: named == {h} && h !in lines)
  }

  lemma {:induction false} CleanBlockOfTexts(texts: seq<string>, named: set<string>)
    requires texts != [] && CleanTexts(texts, named) && "" !in named
    ensures CleanBlock(Block(texts), named)
  {
    if |texts| == 1 {
      assert CleanBlock(Split(texts[0]), named);
    } else {
      var front, last := texts[..|texts| - 1], texts[|texts| - 1];
      assert forall i :: 0 <= i < |front| ==> front[i] == texts[i];
      CleanBlockOfTexts(front, named);
      assert texts == front + [last];
      BlockOfOneMore(front, last);
      assert CleanBlock(Split(texts[|texts| - 1]), named);
    }
  }

  /** A named heading either stands ready or is the only one and missing. */
  lemma {:induction false} ReceivedHeading(lines: seq<string>, named: set<string>, h: string)
    requires Receives(lines, named) && h in named
    ensures h != ""
    ensures FirstAt(lines, h).Some? ==> FirstAt(lines, h).value + 1 < |lines|
    ensures h !in lines ==> named == {h}
    ensures h in lines ==> Ready(lines, h, named)
  {
    FirstAtIsFirst(lines, h);
    if !AllReady(lines, named) {
      var k :| named == {k} && k !in lines;
      assert h == k;
    } else {
      assert Ready(lines, h, named);
      assert lines[FirstAt(lines, h).value] == h;
    }
  }

  /** Putting a clean block keeps the region able to receive. */
  lemma {:induction false} PutKeepsReceiving(lines: seq<string>, named: set<string>, h: string, block: seq<string>)
    requires Receives(lines, named) && h in named && CleanBlock(block, named)
    ensures Receives(Put(lines, h, block), named)
  {
    hide Put;
    ReceivedHeading(lines, named, h);
    if h in lines {
      forall k | k in named ensures Ready(Put(lines, h, block), k, named) {
        ReceivedHeading(lines, named, k);
        assert AllReady(lines, named);
        PutKeepsReady(lines, h, named, block, k);
      }
    } else {
      MadeIsReady(lines, h, named, block);
    }
  }

  lemma {:induction false} ReceivesIsTidy(lines: seq<string>, named: set<string>)
    requires Receives(lines, named)
    ensures Tidy(lines, named) && Opens(lines, named)
  {
    hide Ready;
    forall h | h in named && FirstAt(lines, h).Some? ensures Ready(lines, h, named) {
      FirstAtIsFirst(lines, h);
      ReceivedHeading(lines, named, h);
    }
    TidyOpens(lines, named);
  }

  /** Puts under different named headings can be done in either order. */
  lemma {:induction false} ReceivedPutsCommute(
    lines: seq<string>, named: set<string>, h: string, k: string, forH: seq<string>, forK: seq<string>)
    requires Receives(lines, named) && h in named && k in named && h != k
    requires CleanBlock(forH, named) && CleanBlock(forK, named)
    ensures Put(Put(lines, h, forH), k, forK) == Put(Put(lines, k, forK), h, forH)
  {
    hide Put;
    ReceivedHeading(lines, named, h);
    ReceivedHeading(lines, named, k);
    PutsCommute(lines, h, k, named, forH, forK);
  }

  lemma {:induction false} HeadingsDiffer(a: string, b: string)
    requires a != b
    ensures Heading(a) != Heading(b)
  {
    assert Heading(a)[4..] == a && Heading(b)[4..] == b;
  }

  // ----- One by one ---------------------------------------------------------

  /** Gathering one more entry comes to putting it before all the groups. */
  lemma {:induction false} AddToIsPutFirst(groups: seq<Group>, e: Entry, lines: seq<string>, named: set<string>)
    requires AllSuit(groups, named) && EntrySuits(e, named) && Receives(lines, named)
    ensures NonEmptyGroups(groups) && NonEmptyGroups(AddTo(groups, e))
    ensures Apply(lines, AddTo(groups, e)) == Apply(PutEntry(lines, e), groups)
    decreases |groups|
  {
    AddToKeepsTexts(groups, e);
    var h := Heading(e.section);
    if groups == [] {
      assert AddTo(groups, e)[1..] == [];
    } else {
      hide Put, Receives, EntrySuits, Block, CleanTexts, CleanBlock;
      var g, rest := groups[0], groups[1..];
      assert Suits(g, named);
      assert forall i :: 0 <= i < |rest| ==> rest[i] == groups[i + 1];
      if g.section == e.section {
        var more := Group(e.section, g.texts + [e.text]);
        assert AddTo(groups, e) == [more] + rest;
        BlockOfOneMore(g.texts, e.text);
        MergeInto(lines, named, h, Split(e.text), Block(g.texts));
        assert PutGroup(lines, more) == PutGroup(PutEntry(lines, e), g);
      } else {
        assert AddTo(groups, e) == [g] + AddTo(rest, e);
        SuitingBlocks(g, e, named);
        PutKeepsReceiving(lines, named, Heading(g.section), Block(g.texts));
        AddToIsPutFirst(rest, e, PutGroup(lines, g), named);
        HeadingsDiffer(g.section, e.section);
        ReceivedPutsCommute(lines, named, Heading(g.section), h, Block(g.texts), Split(e.text));
      }
    }
  }

  lemma {:induction false} MergeInto(
    lines: seq<string>, named: set<string>, h: string, first: seq<string>, second: seq<string>)
    requires Receives(lines, named) && h in named
    ensures Put(Put(lines, h, first), h, second) == Put(lines, h, second + [""] + first)
  {
    hide Put;
    ReceivedHeading(lines, named, h);
    PutsMerge(lines, h, first, second);
  }

  lemma {:induction false} SuitingBlocks(g: Group, e: Entry, named: set<string>)
    requires Suits(g, named) && EntrySuits(e, named) && "" !in named
    ensures CleanBlock(Block(g.texts), named) && CleanBlock(Split(e.text), named)
    ensures Heading(g.section) in named && Heading(e.section) in named
  {
    CleanBlockOfTexts(g.texts, named);
  }

  lemma {:induction false} AddToSuits(groups: seq<Group>, e: Entry, named: set<string>)
    requires AllSuit(groups, named) && EntrySuits(e, named)
    ensures AllSuit(AddTo(groups, e), named)
  {
    hide CleanBlock;
    if groups == [] {
    } else if groups[0].section == e.section {
      assert Suits(groups[0], named);
      assert CleanTexts(groups[0].texts + [e.text], named);
    } else {
      assert forall i :: 0 <= i < |groups[1..]| ==> groups[1..][i] == groups[i + 1];
      AddToSuits(groups[1..], e, named);
    }
  }

  lemma {:induction false} GatheredSuit(entries: seq<Entry>, named: set<string>)
    requires EntriesSuit(entries, named)
    ensures AllSuit(Gathered(entries), named)
  {
    if entries != [] {
      hide EntrySuits, AllSuit;
      var front := entries[..|entries| - 1];
      assert forall i :: 0 <= i < |front| ==> front[i] == entries[i];
      GatheredSuit(front, named);
      AddToSuits(Gathered(front), entries[|entries| - 1], named);
    }
  }

  /** Folding by section is folding one entry at a time, the last of the list first. */
  lemma {:induction false} BatchIsOneByOne(lines: seq<string>, entries: seq<Entry>, named: set<string>)
    requires EntriesSuit(entries, named) && Receives(lines, named)
    ensures NonEmptyGroups(Gathered(entries))
    ensures Apply(lines, Gathered(entries)) == OneByOne(lines, entries)
    decreases |entries|
  {
    GatheredHaveTexts(entries);
    if entries != [] {
      hide Receives, EntrySuits, AllSuit, Put;
      var front, last := entries[..|entries| - 1], entries[|entries| - 1];
      assert forall i :: 0 <= i < |front| ==> front[i] == entries[i];
      assert EntrySuits(last, named);
      GatheredSuit(front, named);
      AddToIsPutFirst(Gathered(front), last, lines, named);
      EntryKeepsReceiving(lines, last, named);
      BatchIsOneByOne(PutEntry(lines, last), front, named);
    }
  }

  lemma {:induction false} EntryKeepsReceiving(lines: seq<string>, e: Entry, named: set<string>)
    requires EntrySuits(e, named) && Receives(lines, named)
    ensures Receives(PutEntry(lines, e), named)
  {
    PutKeepsReceiving(lines, named, Heading(e.section), Split(e.text));
  }

  lemma {:induction false} OneByOneKeepsReceiving(lines: seq<string>, entries: seq<Entry>, named: set<string>)
    requires EntriesSuit(entries, named) && Receives(lines, named)
    ensures Receives(OneByOne(lines, entries), named)
    decreases |entries|
  {
    if entries != [] {
      hide Receives, EntrySuits, Put;
      var front, last := entries[..|entries| - 1], entries[|entries| - 1];
      assert forall i :: 0 <= i < |front| ==> front[i] == entries[i];
      assert EntrySuits(last, named);
      EntryKeepsReceiving(lines, last, named);
      OneByOneKeepsReceiving(PutEntry(lines, last), front, named);
    }
  }

  lemma {:induction false} OneByOneInTwo(lines: seq<string>, later: seq<Entry>, earlier: seq<Entry>)
    ensures OneByOne(lines, later + earlier) == OneByOne(OneByOne(lines, earlier), later)
    decreases |earlier|
  {
    if earlier == [] {
      assert later + earlier == later;
    } else {
      var front, last := earlier[..|earlier| - 1], earlier[|earlier| - 1];
      assert (later + earlier)[..|later + earlier| - 1] == later + front;
      OneByOneInTwo(PutEntry(lines, last), later, front);
    }
  }

  /** In one region: folding earlier entries and then later ones is folding them together. */
  lemma {:induction false} RegionFoldsInSteps(
    lines: seq<string>, earlier: seq<Entry>, later: seq<Entry>, named: set<string>)
    requires EntriesSuit(earlier, named) && EntriesSuit(later, named) && Receives(lines, named)
    ensures NonEmptyGroups(Gathered(later + earlier)) && NonEmptyGroups(Gathered(earlier)) && NonEmptyGroups(Gathered(later))
    ensures Apply(lines, Gathered(later + earlier)) == Apply(Apply(lines, Gathered(earlier)), Gathered(later))
    ensures Receives(Apply(lines, Gathered(earlier)), named)
  {
    hide Receives, EntrySuits, OneByOne, Apply;
    GatheredHaveTexts(later);
    GatheredHaveTexts(earlier);
    assert EntriesSuit(later + earlier, named);
    BatchIsOneByOne(lines, later + earlier, named);
    BatchIsOneByOne(lines, earlier, named);
    OneByOneKeepsReceiving(lines, earlier, named);
    BatchIsOneByOne(OneByOne(lines, earlier), later, named);
    OneByOneInTwo(lines, later, earlier);
  }
}
