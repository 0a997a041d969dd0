/** Folding in instalments, sections made or not. */
module Instalments {
  // When folding earlier entries and then later ones is folding them together, for
  // any mix of sections that stand and sections that are missing.

  import opened Wrappers
  import opened Lines
  import opened Sections
  import opened Groups
  import opened Placement
  import opened Orders

  // ----- The order sections are first named in ------------------------------

  function Headings(entries: seq<Entry>): (headings: seq<string>)
    ensures |headings| == |entries| && forall i :: 0 <= i < |entries| ==> headings[i] == Heading(entries[i].section)
  {
    if entries == [] then [] else Headings(entries[..|entries| - 1]) + [Heading(entries[|entries| - 1].section)]
  }

  /** The order with `h` added where it is not there yet. */
  function WithHeading(order: seq<string>, h: string): seq<string> {
    if h in order then order else order + [h]
  }

  /** What is met, each once, in the order it is first met. */
  function Firsts(met: seq<string>): seq<string> {
    if met == [] then [] else WithHeading(Firsts(met[..|met| - 1]), met[|met| - 1])
  }

  lemma {:induction false} FirstsAreOnce(met: seq<string>)
    ensures Once(Firsts(met)) && forall h :: h in Firsts(met) <==> h in met
  {
    if met != [] {
      FirstsAreOnce(met[..|met| - 1]);
      assert met == met[..|met| - 1] + [met[|met| - 1]];
    }
  }

  /** The texts of a section, in their order. */
  function TextsOf(entries: seq<Entry>, h: string): seq<string> {
    if entries == [] then []
    else
      var last := entries[|entries| - 1];
      TextsOf(entries[..|entries| - 1], h) + (if Heading(last.section) == h then [last.text] else [])
  }

  lemma {:induction false} TextsOfNamed(entries: seq<Entry>, h: string)
    ensures TextsOf(entries, h) != [] <==> h in Headings(entries)
  {
    if entries != [] {
      TextsOfNamed(entries[..|entries| - 1], h);
    }
  }

  lemma {:induction false} TextsInTwo(a: seq<Entry>, b: seq<Entry>, h: string)
    ensures TextsOf(a + b, h) == TextsOf(a, h) + TextsOf(b, h)
  {
    if b == [] {
      assert a + b == a;
    } else {
      assert (a + b)[..|a + b| - 1] == a + b[..|b| - 1];
      TextsInTwo(a, b[..|b| - 1], h);
    }
  }

  lemma {:induction false} HeadingsInTwo(a: seq<Entry>, b: seq<Entry>)
    ensures Headings(a + b) == Headings(a) + Headings(b)
  {}

  /** The block each named section gets. */
  function BlocksOf(entries: seq<Entry>): (blocks: map<string, seq<string>>)
    ensures forall h :: h in blocks <==> h in Headings(entries)
  {
    map h | h in Headings(entries) :: BlockFor(entries, h)
  }

  function BlockFor(entries: seq<Entry>, h: string): seq<string>
    requires h in Headings(entries)
  {
    TextsOfNamed(entries, h);
    Block(TextsOf(entries, h))
  }

  // ----- The gathered groups are puts in that order -------------------------

  /** The groups are those of the entries, section by section in the order first named. */
  ghost predicate GroupsOf(groups: seq<Group>, entries: seq<Entry>) {
    && |groups| == |Firsts(Headings(entries))|
    && forall i :: 0 <= i < |groups| ==>
         Heading(groups[i].section) == Firsts(Headings(entries))[i]
         && groups[i].texts == TextsOf(entries, Heading(groups[i].section))
  }

  /** Where the section is one of the groups' its text joins theirs, and otherwise it gets a group at the end. */
  lemma {:induction false} AddToPlace(groups: seq<Group>, e: Entry)
    requires DistinctSections(groups)
    ensures (forall i :: 0 <= i < |groups| ==> groups[i].section != e.section) ==>
      AddTo(groups, e) == groups + [Group(e.section, [e.text])]
    ensures forall i :: 0 <= i < |groups| && groups[i].section == e.section ==>
      AddTo(groups, e) == groups[i := Group(e.section, groups[i].texts + [e.text])]
  {
    if groups != [] && groups[0].section != e.section {
      assert forall i :: 0 <= i < |groups[1..]| ==> groups[1..][i] == groups[i + 1];
      AddToPlace(groups[1..], e);
    }
  }

  lemma {:induction false} NewGroup(groups: seq<Group>, front: seq<Entry>, e: Entry)
    requires GroupsOf(groups, front) && Heading(e.section) !in Firsts(Headings(front))
    ensures GroupsOf(groups + [Group(e.section, [e.text])], front + [e])
  {
    var order, all := Firsts(Headings(front)), front + [e];
    TextsOfNamed(front, Heading(e.section));
    FirstsAreOnce(Headings(front));
    assert all[..|front|] == front && Headings(all)[..|front|] == Headings(front);
    hide Heading, Headings;
    assert Firsts(Headings(all)) == order + [Heading(e.section)];
    forall i | 0 <= i < |groups| ensures order[i] != Heading(e.section) {
      assert order[i] in order;
    }
  }

  lemma {:induction false} JoinedGroup(groups: seq<Group>, front: seq<Entry>, e: Entry, i: nat)
    requires GroupsOf(groups, front) && i < |groups| && groups[i].section == e.section
    ensures GroupsOf(groups[i := Group(e.section, groups[i].texts + [e.text])], front + [e])
  {
    var order, all := Firsts(Headings(front)), front + [e];
    FirstsAreOnce(Headings(front));
    assert all[..|front|] == front && Headings(all)[..|front|] == Headings(front);
    hide Heading, Headings;
    assert order[i] in order;
    assert Firsts(Headings(all)) == order;
    forall j | 0 <= j < |groups| && j != i ensures order[j] != order[i] {
    }
  }

  lemma {:induction false} GatheredAre(entries: seq<Entry>)
    ensures GroupsOf(Gathered(entries), entries)
  {
    if entries != [] {
      var front, e := entries[..|entries| - 1], entries[|entries| - 1];
      var groups, h := Gathered(front), Heading(e.section);
      GatheredAre(front);
      GatheredAreDistinct(front);
      AddToPlace(groups, e);
      assert entries == front + [e];
      hide Heading, Headings, Firsts, AddTo, TextsOf, DistinctSections;
      if h in Firsts(Headings(front)) {
        var i :| 0 <= i < |groups| && Firsts(Headings(front))[i] == h;
        SameHeading(groups[i].section, e.section);
        JoinedGroup(groups, front, e, i);
      } else {
        forall i | 0 <= i < |groups| ensures groups[i].section != e.section {
          assert Firsts(Headings(front))[i] in Firsts(Headings(front));
        }
        NewGroup(groups, front, e);
      }
    }
  }

  lemma SameHeading(a: string, b: string)
    requires Heading(a) == Heading(b)
    ensures a == b
  {
    assert Heading(a)[4..] == a && Heading(b)[4..] == b;
  }

  lemma {:induction false} ApplyIsPutAll(
    lines: seq<string>, groups: seq<Group>, order: seq<string>, blocks: map<string, seq<string>>)
    requires NonEmptyGroups(groups) && |groups| == |order| && forall h | h in order :: h in blocks
    requires forall i :: 0 <= i < |groups| ==>
      Heading(groups[i].section) == order[i] && blocks[order[i]] == Block(groups[i].texts)
    ensures Apply(lines, groups) == PutAll(lines, order, blocks)
    decreases |groups|
  {
    if groups != [] {
      hide Put, Block, Heading;
      assert order[0] in order;
      ApplyIsPutAll(PutGroup(lines, groups[0]), groups[1..], order[1..], blocks);
    }
  }

  /** The sections named, in the order they are first named. */
  function Order(entries: seq<Entry>): seq<string> { Firsts(Headings(entries)) }

  lemma {:induction false} GatheredInOrder(lines: seq<string>, entries: seq<Entry>)
    ensures NonEmptyGroups(Gathered(entries)) && forall h | h in Order(entries) :: h in BlocksOf(entries)
    ensures Apply(lines, Gathered(entries)) == PutAll(lines, Order(entries), BlocksOf(entries))
  {
    GatheredAre(entries);
    GatheredHaveTexts(entries);
    FirstsAreOnce(Headings(entries));
    hide Put, Block, Heading, Headings, Firsts, TextsOf, Gathered;
    var groups, order, blocks := Gathered(entries), Order(entries), BlocksOf(entries);
    forall i | 0 <= i < |groups| ensures order[i] in blocks && blocks[order[i]] == Block(groups[i].texts) {
      assert order[i] in order;
    }
    ApplyIsPutAll(lines, groups, order, blocks);
  }

  // ----- A further instalment -----------------------------------------------

  lemma {:induction false} SameBlocks(lines: seq<string>, order: seq<string>, a: map<string, seq<string>>, b: map<string, seq<string>>)
    requires forall h | h in order :: h in a && h in b && a[h] == b[h]
    ensures PutAll(lines, order, a) == PutAll(lines, order, b)
    decreases |order|
  {
    if order != [] {
      hide Put;
      assert order[0] in order;
      SameBlocks(Put(lines, order[0], a[order[0]]), order[1..], a, b);
    }
  }

  /** A block put under a heading after others were, one of them under it too, joins that one. */
  lemma {:induction false} Absorbed(
    lines: seq<string>, named: set<string>, order: seq<string>, blocks: map<string, seq<string>>, h: string, x: seq<string>)
    requires Tidy(lines, named) && TextNames(named) && Suiting(blocks, named) && Fits(x, named)
    requires Once(order) && (forall k | k in order :: k in blocks) && h in order
    ensures Put(PutAll(lines, order, blocks), h, x)
         == PutAll(lines, order, blocks[h := x + [""] + blocks[h]])
    decreases |order|
  {
    var k, rest := order[0], order[1..];
    var more := blocks[h := x + [""] + blocks[h]];
    assert k in order;
    assert Once(rest) by { assert forall i :: 0 <= i < |rest| ==> rest[i] == order[i + 1]; }
    BlockFits(blocks, named, k);
    BlockFits(blocks, named, h);
    KeepsTidy(lines, named, k, blocks[k]);
    if k == h {
      assert h !in rest by { assert forall i :: 0 <= i < |rest| ==> rest[i] == order[i + 1]; }
      MergeTidy(lines, named, h, blocks[h], x);
      PutSettles(lines, named, h, blocks[h]);
      hide Put, Tidy, Fits, Suiting, Settled;
      PassThrough(Put(lines, h, blocks[h]), named, h, x, rest, blocks);
      SameBlocks(Put(lines, h, more[h]), rest, blocks, more);
    } else {
      hide Put, Tidy, Fits, Suiting, Once;
      assert h in rest;
      Absorbed(Put(lines, k, blocks[k]), named, rest, blocks, h, x);
    }
  }

  lemma MergeTidy(lines: seq<string>, named: set<string>, h: string, first: seq<string>, second: seq<string>)
    requires Tidy(lines, named) && h in named
    ensures Put(Put(lines, h, first), h, second) == Put(lines, h, second + [""] + first)
  {
    hide Put;
    assert FirstAt(lines, h).Some? ==> Ready(lines, h, named);
    PutsMerge(lines, h, first, second);
  }

  /** The order with those of the other that are not in it yet, in theirs. */
  function Then(order: seq<string>, more: seq<string>): seq<string> {
    if more == [] then order else WithHeading(Then(order, more[..|more| - 1]), more[|more| - 1])
  }

  /** The blocks with the others put before them, a blank line between. */
  function Over(blocks: map<string, seq<string>>, order: seq<string>, more: map<string, seq<string>>): map<string, seq<string>>
    requires forall h | h in order :: h in more
  {
    map h | h in blocks.Keys + (set k | k in order) ::
      if h !in order then blocks[h] else if h in blocks then more[h] + [""] + blocks[h] else more[h]
  }

  lemma {:induction false} ThenIs(order: seq<string>, more: seq<string>)
    requires Once(order)
    ensures Once(Then(order, more)) && forall h :: h in Then(order, more) <==> h in order || h in more
  {
    if more != [] {
      assert more == more[..|more| - 1] + [more[|more| - 1]];
      ThenIs(order, more[..|more| - 1]);
    }
  }

  lemma OverSuits(blocks: map<string, seq<string>>, order: seq<string>, more: map<string, seq<string>>, named: set<string>)
    requires Suiting(blocks, named) && Suiting(more, named) && (forall h | h in order :: h in more) && TextNames(named)
    ensures Suiting(Over(blocks, order, more), named)
  {
    BlankIsBlank();
    hide Blank;
  }

  lemma {:induction false} OverOneMore(blocks: map<string, seq<string>>, order: seq<string>, more: map<string, seq<string>>)
    requires (forall h | h in order :: h in more) && order != [] && Once(order)
    ensures var front, h := order[..|order| - 1], order[|order| - 1];
      var before := Over(blocks, front, more);
      (forall k | k in front :: k in more) && h in more && (h in before <==> h in blocks)
      && Over(blocks, order, more) == before[h := if h in before then more[h] + [""] + before[h] else more[h]]
  {
    var front, h := order[..|order| - 1], order[|order| - 1];
    assert order == front + [h];
  }

  /** Puts after puts come to one put for each heading, in the order the headings are first met. */
  lemma {:induction false} PutsAfterPuts(
    lines: seq<string>, named: set<string>, order: seq<string>, blocks: map<string, seq<string>>,
    later: seq<string>, more: map<string, seq<string>>)
    requires Tidy(lines, named) && TextNames(named) && Suiting(blocks, named) && Suiting(more, named)
    requires Once(order) && (forall h :: h in order <==> h in blocks)
    requires Once(later) && (forall h | h in later :: h in more)
    ensures forall h :: h in Then(order, later) <==> h in Over(blocks, later, more)
    ensures PutAll(PutAll(lines, order, blocks), later, more) == PutAll(lines, Then(order, later), Over(blocks, later, more))
    decreases |later|
  {
    ThenIs(order, later);
    if later == [] {
      assert Over(blocks, later, more) == blocks;
    } else {
      var front, h := later[..|later| - 1], later[|later| - 1];
      assert later == front + [h];
      assert Once(front);
      PutsAfterPuts(lines, named, order, blocks, front, more);
      OverSuits(blocks, front, more, named);
      ThenIs(order, front);
      OverOneMore(blocks, later, more);
      BlockFits(more, named, h);
      hide Put, Tidy, Fits, Suiting, TextNames;
      PutAllInTwo(PutAll(lines, order, blocks), front, [h], more);
      OneMove(PutAll(PutAll(lines, order, blocks), front, more), h, more);
      OneOver(lines, named, Then(order, front), Over(blocks, front, more), h, more[h]);
    }
  }

  lemma {:induction false} OneOver(
    lines: seq<string>, named: set<string>, order: seq<string>, blocks: map<string, seq<string>>, h: string, x: seq<string>)
    requires Tidy(lines, named) && TextNames(named) && Suiting(blocks, named) && Fits(x, named) && h in named
    requires Once(order) && (forall k :: k in order <==> k in blocks)
    ensures var more := blocks[h := if h in blocks then x + [""] + blocks[h] else x];
      Put(PutAll(lines, order, blocks), h, x) == PutAll(lines, WithHeading(order, h), more)
  {
    hide Put, Tidy, Fits, Suiting, TextNames;
    if h in order {
      Absorbed(lines, named, order, blocks, h, x);
    } else {
      var more := blocks[h := x];
      PutAllInTwo(lines, order, [h], more);
      SameBlocks(lines, order, blocks, more);
      OneMove(PutAll(lines, order, more), h, more);
    }
  }

  // ----- The blocks of both -------------------------------------------------

  lemma {:induction false} BlockOfTwo(a: seq<string>, b: seq<string>)
    requires a != [] && b != []
    ensures Block(a + b) == Block(a) + [""] + Block(b)
  {
    var front, last := b[..|b| - 1], b[|b| - 1];
    assert b == front + [last];
    if front == [] {
      BlockOfOneMore(a, last);
      assert Block([last]) == Split(last);
    } else {
      assert a + b == (a + front) + [last];
      BlockOfTwo(a, front);
      BlockOfOneMore(a + front, last);
      BlockOfOneMore(front, last);
      hide Block, Split;
    }
  }

  lemma {:induction false} OrderOfTwo(a: seq<string>, b: seq<string>)
    ensures Then(Firsts(a), Firsts(b)) == Firsts(a + b)
    decreases |b|
  {
    if b == [] {
      assert a + b == a;
    } else {
      var front, h := b[..|b| - 1], b[|b| - 1];
      assert (a + b)[..|a + b| - 1] == a + front;
      OrderOfTwo(a, front);
      FirstsAreOnce(a);
      ThenIs(Firsts(a), Firsts(front));
      if h !in Firsts(front) {
        assert (Firsts(front) + [h])[..|Firsts(front)|] == Firsts(front);
      }
    }
  }

  lemma {:induction false} BlocksOfTwo(earlier: seq<Entry>, later: seq<Entry>)
    ensures forall h | h in Order(later) :: h in BlocksOf(later)
    ensures Over(BlocksOf(earlier), Order(later), BlocksOf(later)) == BlocksOf(later + earlier)
  {
    FirstsAreOnce(Headings(later));
    HeadingsInTwo(later, earlier);
    hide Block, Heading, Headings, Firsts, TextsOf;
    var one, other := Over(BlocksOf(earlier), Order(later), BlocksOf(later)), BlocksOf(later + earlier);
    assert one.Keys == other.Keys;
    forall h | h in one ensures one[h] == other[h] {
      TextsInTwo(later, earlier, h);
      TextsOfNamed(later, h);
      TextsOfNamed(earlier, h);
      if h in Headings(later) && h in Headings(earlier) {
        BlockOfTwo(TextsOf(later, h), TextsOf(earlier, h));
      } else if h in Headings(later) {
        assert TextsOf(later, h) + [] == TextsOf(later, h);
      } else {
        assert [] + TextsOf(earlier, h) == TextsOf(earlier, h);
      }
    }
  }

  // ----- One region ---------------------------------------------------------

  /** Every text is text to its end, as a fragment's is. */
  ghost predicate AllSolid(entries: seq<Entry>) {
    forall i :: 0 <= i < |entries| ==> Solid(Split(entries[i].text))
  }

  lemma {:induction false} TextsFit(entries: seq<Entry>, named: set<string>, h: string)
    requires EntriesSuit(entries, named) && AllSolid(entries)
    ensures CleanTexts(TextsOf(entries, h), named) && SolidTexts(TextsOf(entries, h))
  {
    if entries != [] {
      var front, last := entries[..|entries| - 1], entries[|entries| - 1];
      hide CleanBlock, Solid, Split;
      assert forall i :: 0 <= i < |front| ==> front[i] == entries[i];
      TextsFit(front, named, h);
      assert EntrySuits(last, named);
    }
  }

  lemma {:induction false} BlocksSuit(entries: seq<Entry>, named: set<string>)
    requires EntriesSuit(entries, named) && AllSolid(entries) && "" !in named
    ensures Suiting(BlocksOf(entries), named)
  {
    hide CleanBlock, Solid, CleanTexts, SolidTexts, Block;
    forall h | h in BlocksOf(entries) ensures h in named && Fits(BlocksOf(entries)[h], named) {
      TextsOfNamed(entries, h);
      TextsFit(entries, named, h);
      CleanBlockOfTexts(TextsOf(entries, h), named);
      BlockIsSolid(TextsOf(entries, h));
      var i :| 0 <= i < |entries| && Headings(entries)[i] == h;
      assert EntrySuits(entries[i], named);
    }
  }

  lemma {:induction false} OnceLength(order: seq<string>)
    requires Once(order)
    ensures |set h | h in order| == |order|
  {
    if order != [] {
      var rest := order[1..];
      assert forall i :: 0 <= i < |rest| ==> rest[i] == order[i + 1];
      OnceLength(rest);
      assert (set h | h in order) == (set h | h in rest) + {order[0]};
    }
  }

  lemma {:induction false} OrdersAreRearranged(earlier: seq<Entry>, later: seq<Entry>)
    ensures Rearranged(Order(earlier + later), Order(later + earlier))
    ensures forall h :: h in Order(earlier + later) <==> h in BlocksOf(later + earlier)
  {
    var one, other := Order(earlier + later), Order(later + earlier);
    FirstsAreOnce(Headings(earlier + later));
    FirstsAreOnce(Headings(later + earlier));
    HeadingsInTwo(earlier, later);
    HeadingsInTwo(later, earlier);
    OnceLength(one);
    OnceLength(other);
    assert (set h | h in one) == set h | h in other;
  }

  /** Folding in instalments is putting each section's block in the order the sections are met. */
  lemma {:induction false} InstalmentsInOrder(
    region: seq<string>, named: set<string>, earlier: seq<Entry>, later: seq<Entry>)
    requires Tidy(region, named) && TextNames(named)
    requires EntriesSuit(earlier, named) && EntriesSuit(later, named) && AllSolid(earlier) && AllSolid(later)
    ensures NonEmptyGroups(Gathered(earlier)) && NonEmptyGroups(Gathered(later))
    ensures forall h | h in Order(earlier + later) :: h in BlocksOf(later + earlier)
    ensures Apply(Apply(region, Gathered(earlier)), Gathered(later))
         == PutAll(region, Order(earlier + later), BlocksOf(later + earlier))
  {
    hide Put, Tidy, TextNames, Suiting, Headings, Firsts, Gathered, EntriesSuit, AllSolid, Apply, Once;
    GatheredInOrder(region, earlier);
    GatheredInOrder(Apply(region, Gathered(earlier)), later);
    FirstsAreOnce(Headings(earlier));
    FirstsAreOnce(Headings(later));
    assert "" !in named by { NamesAreText(named); }
    BlocksSuit(earlier, named);
    BlocksSuit(later, named);
    PutsAfterPuts(region, named, Order(earlier), BlocksOf(earlier), Order(later), BlocksOf(later));
    HeadingsInTwo(earlier, later);
    OrderOfTwo(Headings(earlier), Headings(later));
    BlocksOfTwo(earlier, later);
    OrdersAreRearranged(earlier, later);
  }

  lemma NamesAreText(named: set<string>)
    requires TextNames(named)
    ensures "" !in named
  {
    BlankIsBlank();
  }

  /**
   The two orders come to the same: they make the same sections in the same order
   and, if any, both or neither put first under a heading that is not settled.
   */
  ghost predicate SameMaking(region: seq<string>, one: seq<string>, other: seq<string>) {
    && Makes(region, one) == Makes(region, other)
    && (Makes(region, one) == [] || (EndsFirst(region, one) <==> EndsFirst(region, other)))
  }

  lemma {:induction false} InstalmentsOfTextNames(
    region: seq<string>, named: set<string>, earlier: seq<Entry>, later: seq<Entry>)
    requires Tidy(region, named) && TextNames(named)
    requires EntriesSuit(earlier, named) && EntriesSuit(later, named) && AllSolid(earlier) && AllSolid(later)
    ensures NonEmptyGroups(Gathered(earlier)) && NonEmptyGroups(Gathered(later)) && NonEmptyGroups(Gathered(later + earlier))
    ensures Apply(Apply(region, Gathered(earlier)), Gathered(later)) == Apply(region, Gathered(later + earlier))
       <==> SameMaking(region, Order(earlier + later), Order(later + earlier))
  {
    assert EntriesSuit(later + earlier, named) && AllSolid(later + earlier);
    hide Put, Tidy, TextNames, Suiting, Headings, Firsts, Gathered, EntriesSuit, AllSolid, Apply, Makes, EndsFirst, PutAll;
    InstalmentsInOrder(region, named, earlier, later);
    GatheredInOrder(region, later + earlier);
    assert "" !in named by { NamesAreText(named); }
    BlocksSuit(later + earlier, named);
    OrdersAreRearranged(earlier, later);
    AnyOrders(region, named, Order(earlier + later), Order(later + earlier), BlocksOf(later + earlier));
  }

  lemma {:induction false} HeadingIsNotBlank(section: string)
    ensures !Blank(Heading(section))
  {
    assert Heading(section)[0] == '#';
  }

  /** The names that are text are as good as all. */
  lemma {:induction false} TextNamesOf(region: seq<string>, named: set<string>, entries: seq<Entry>) returns (text: set<string>)
    requires Tidy(region, named) && EntriesSuit(entries, named)
    ensures text == set h | h in named && !Blank(h)
    ensures Tidy(region, text) && TextNames(text) && EntriesSuit(entries, text)
  {
    text := set h | h in named && !Blank(h);
    BlankIsBlank();
    hide Blank;
    forall i | 0 <= i < |entries| ensures EntrySuits(entries[i], text) {
      assert EntrySuits(entries[i], named);
      HeadingIsNotBlank(entries[i].section);
    }
    forall h | h in text && FirstAt(region, h).Some? ensures Ready(region, h, text) {
      assert Ready(region, h, named);
    }
  }

  /**
   In one region, whatever sections stand and whatever are missing: folding earlier
   entries and then later ones is folding them together exactly when the missing
   sections are first named in the same order in both and, if there are any, an entry
   for a heading that is not settled comes before them in both or in neither.
   */
  lemma {:induction false} RegionInstalmentsExactly(
    region: seq<string>, earlier: seq<Entry>, later: seq<Entry>, named: set<string>)
    requires Tidy(region, named) && EntriesSuit(earlier, named) && EntriesSuit(later, named)
    requires AllSolid(earlier) && AllSolid(later)
    ensures NonEmptyGroups(Gathered(earlier)) && NonEmptyGroups(Gathered(later)) && NonEmptyGroups(Gathered(later + earlier))
    ensures Apply(Apply(region, Gathered(earlier)), Gathered(later)) == Apply(region, Gathered(later + earlier))
       <==> SameMaking(region, Order(earlier + later), Order(later + earlier))
  {
    hide Tidy, EntriesSuit, Gathered, Apply, SameMaking, NonEmptyGroups;
    var text := TextNamesOf(region, named, earlier);
    var same := TextNamesOf(region, named, later);
    InstalmentsOfTextNames(region, text, earlier, later);
  }

  // ----- One entry at a time ------------------------------------------------

  function Reversed(entries: seq<Entry>): (r: seq<Entry>)
    ensures |r| == |entries| && forall e :: e in r <==> e in entries
  {
    if entries == [] then []
    else
      assert entries == [entries[0]] + entries[1..];
      Reversed(entries[1..]) + [entries[0]]
  }

  lemma {:induction false} ReversedHeadings(entries: seq<Entry>)
    ensures forall h :: h in Headings(Reversed(entries)) <==> h in Headings(entries)
  {
    forall h ensures h in Headings(Reversed(entries)) <==> h in Headings(entries) {
      NamedBySome(entries, h);
      NamedBySome(Reversed(entries), h);
    }
  }

  lemma NamedBySome(entries: seq<Entry>, h: string)
    ensures h in Headings(entries) <==> exists e :: e in entries && Heading(e.section) == h
  {
    hide Heading;
    if h in Headings(entries) {
      var i :| 0 <= i < |entries| && Headings(entries)[i] == h;
      assert entries[i] in entries;
    }
    forall e | e in entries && Heading(e.section) == h ensures h in Headings(entries) {
      var i :| 0 <= i < |entries| && entries[i] == e;
      assert Headings(entries)[i] == h;
    }
  }

  lemma {:induction false} OneEntryInOrder(lines: seq<string>, e: Entry)
    ensures forall h | h in Order([e]) :: h in BlocksOf([e])
    ensures PutEntry(lines, e) == PutAll(lines, Order([e]), BlocksOf([e]))
  {
    GatheredInOrder(lines, [e]);
    hide Put, Order, BlocksOf, PutAll;
    assert [e][..0] == [] && AddTo([], e) == [Group(e.section, [e.text])];
    var groups := [Group(e.section, [e.text])];
    assert groups[1..] == [] && Block([e.text]) == Split(e.text);
  }

  lemma {:induction false} ReversedIsRearranged(entries: seq<Entry>)
    ensures Rearranged(Order(entries), Order(Reversed(entries)))
    ensures forall h :: h in Order(Reversed(entries)) <==> h in BlocksOf(entries)
  {
    var one, other := Order(entries), Order(Reversed(entries));
    FirstsAreOnce(Headings(entries));
    FirstsAreOnce(Headings(Reversed(entries)));
    ReversedHeadings(entries);
    hide Reversed, Headings, Firsts;
    OnceLength(one);
    OnceLength(other);
    assert (set h | h in one) == set h | h in other;
  }

  lemma {:induction false} OneMoreInFront(
    region: seq<string>, named: set<string>, e: Entry, rest: seq<Entry>, before: seq<string>)
    requires Tidy(region, named) && TextNames(named) && EntriesSuit([e] + rest, named) && AllSolid([e] + rest)
    requires forall h | h in Order(Reversed(rest)) :: h in BlocksOf(rest)
    requires before == PutAll(region, Order(Reversed(rest)), BlocksOf(rest))
    ensures forall h | h in Order(Reversed(rest) + [e]) :: h in BlocksOf([e] + rest)
    ensures PutEntry(before, e) == PutAll(region, Order(Reversed(rest) + [e]), BlocksOf([e] + rest))
  {
    assert [e] + rest == [([e] + rest)[0]] + rest;
    assert forall i :: 0 <= i < |rest| ==> rest[i] == ([e] + rest)[i + 1];
    assert EntriesSuit(rest, named) && AllSolid(rest) && EntriesSuit([e], named) && AllSolid([e]);
    hide Put, Tidy, TextNames, Suiting, Headings, Firsts, EntriesSuit, AllSolid, Reversed, Once, Heading, PutAll;
    OneEntryInOrder(before, e);
    assert "" !in named by { NamesAreText(named); }
    BlocksSuit(rest, named);
    BlocksSuit([e], named);
    FirstsAreOnce(Headings(Reversed(rest)));
    FirstsAreOnce(Headings([e]));
    ReversedHeadings(rest);
    PutsAfterPuts(region, named, Order(Reversed(rest)), BlocksOf(rest), Order([e]), BlocksOf([e]));
    HeadingsInTwo(Reversed(rest), [e]);
    OrderOfTwo(Headings(Reversed(rest)), Headings([e]));
    BlocksOfTwo(rest, [e]);
  }

  /** Putting the entries one at a time, the last first, is putting the blocks in the order met from the back. */
  ghost predicate PutFromTheBack(region: seq<string>, entries: seq<Entry>) {
    && (forall h | h in Order(Reversed(entries)) :: h in BlocksOf(entries))
    && OneByOne(region, entries) == PutAll(region, Order(Reversed(entries)), BlocksOf(entries))
  }

  lemma {:induction false} OneMoreFromTheBack(region: seq<string>, named: set<string>, e: Entry, rest: seq<Entry>)
    requires Tidy(region, named) && TextNames(named) && EntriesSuit([e] + rest, named) && AllSolid([e] + rest)
    requires PutFromTheBack(region, rest)
    ensures PutFromTheBack(region, [e] + rest)
  {
    assert ([e] + rest)[1..] == rest && Reversed([e] + rest) == Reversed(rest) + [e];
    hide OneByOne, Put, Tidy, TextNames, EntriesSuit, AllSolid, Reversed, Order, BlocksOf, PutAll;
    FrontEntryLast(region, e, rest);
    OneMoreInFront(region, named, e, rest, OneByOne(region, rest));
  }

  lemma {:induction false} OneByOneInOrder(region: seq<string>, named: set<string>, entries: seq<Entry>)
    requires Tidy(region, named) && TextNames(named) && EntriesSuit(entries, named) && AllSolid(entries)
    ensures PutFromTheBack(region, entries)
    decreases |entries|
  {
    if entries != [] {
      hide Tidy, TextNames, PutFromTheBack, EntrySuits, Solid;
      var e, rest := entries[0], entries[1..];
      assert entries == [e] + rest;
      assert forall i :: 0 <= i < |rest| ==> rest[i] == entries[i + 1];
      OneByOneInOrder(region, named, rest);
      OneMoreFromTheBack(region, named, e, rest);
    }
  }

  lemma FrontEntryLast(lines: seq<string>, e: Entry, rest: seq<Entry>)
    ensures OneByOne(lines, [e] + rest) == PutEntry(OneByOne(lines, rest), e)
  {
    OneByOneInTwo(lines, [e], rest);
    assert [e][..0] == [];
    hide Put;
  }

  /** Folding by section is folding one entry at a time, the last first, exactly when the list makes its sections alike from both ends. */
  lemma {:induction false} OneByOneExactly(region: seq<string>, entries: seq<Entry>, named: set<string>)
    requires Tidy(region, named) && EntriesSuit(entries, named) && AllSolid(entries)
    ensures NonEmptyGroups(Gathered(entries))
    ensures Apply(region, Gathered(entries)) == OneByOne(region, entries)
       <==> SameMaking(region, Order(entries), Order(Reversed(entries)))
  {
    var text := TextNamesOf(region, named, entries);
    hide Put, Tidy, TextNames, Suiting, EntriesSuit, AllSolid, Reversed, Order, BlocksOf, Makes, EndsFirst, PutAll, Gathered,
      OneByOne, NonEmptyGroups, Rearranged;
    OneByOneInOrder(region, text, entries);
    GatheredInOrder(region, entries);
    assert "" !in text by { NamesAreText(text); }
    BlocksSuit(entries, text);
    ReversedIsRearranged(entries);
    AnyOrders(region, text, Order(entries), Order(Reversed(entries)), BlocksOf(entries));
  }

  // ----- All missing, all standing ------------------------------------------

  lemma {:induction false} AllMade(region: seq<string>, order: seq<string>)
    requires forall h | h in order :: h !in region
    ensures Makes(region, order) == order && Front(region, order) == []
  {
    if order != [] {
      FirstAtIsFirst(region, order[0]);
      AllMade(region, order[1..]);
    }
  }

  /** Right after a release, where none of the sections stands: exactly when they are first named in the same order in both. */
  lemma {:induction false} AllMissingExactly(
    region: seq<string>, earlier: seq<Entry>, later: seq<Entry>, named: set<string>)
    requires Tidy(region, named) && EntriesSuit(earlier, named) && EntriesSuit(later, named)
    requires AllSolid(earlier) && AllSolid(later) && forall h | h in named :: h !in region
    ensures NonEmptyGroups(Gathered(earlier)) && NonEmptyGroups(Gathered(later)) && NonEmptyGroups(Gathered(later + earlier))
    ensures Apply(Apply(region, Gathered(earlier)), Gathered(later)) == Apply(region, Gathered(later + earlier))
       <==> Order(earlier + later) == Order(later + earlier)
  {
    NamedAreNamed(earlier + later, named) by { assert EntriesSuit(earlier + later, named); }
    NamedAreNamed(later + earlier, named) by { assert EntriesSuit(later + earlier, named); }
    hide Tidy, EntriesSuit, Gathered, Apply, NonEmptyGroups, Order;
    RegionInstalmentsExactly(region, earlier, later, named);
    AllMade(region, Order(earlier + later));
    AllMade(region, Order(later + earlier));
  }

  lemma {:induction false} NamedAreNamed(entries: seq<Entry>, named: set<string>)
    requires EntriesSuit(entries, named)
    ensures forall h | h in Order(entries) :: h in named
  {
    FirstsAreOnce(Headings(entries));
    hide CleanBlock;
    forall h | h in Headings(entries) ensures h in named {
      var i :| 0 <= i < |entries| && Headings(entries)[i] == h;
      assert EntrySuits(entries[i], named);
    }
  }

  /** With one section, or with every section standing, the two always agree. */
  lemma {:induction false} NothingToMakeAgrees(region: seq<string>, earlier: seq<Entry>, later: seq<Entry>)
    requires (forall h | h in Order(later + earlier) :: h in region) || |Order(later + earlier)| <= 1
    ensures SameMaking(region, Order(earlier + later), Order(later + earlier))
  {
    var one, other := Order(earlier + later), Order(later + earlier);
    OrdersAreRearranged(earlier, later);
    hide Order, BlocksOf, Once;
    if |other| == 0 {
    } else if |other| == 1 {
      assert other[0] in one;
      assert one == other;
    } else {
      forall h | h in one ensures Has(region, h) {
        FirstAtIsFirst(region, h);
      }
      NothingMade(region, one);
      NothingMade(region, other);
    }
  }
}
