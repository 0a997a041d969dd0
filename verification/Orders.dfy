/** The order sections are put in. */
module Orders {
  // Which orders of putting the same blocks come to the same lines, and which do not.

  import opened Wrappers
  import opened Lines
  import opened Sections
  import opened Placement

  /** Every heading that may be named is text. */
  ghost predicate TextNames(named: set<string>) {
    forall h | h in named :: !Blank(h)
  }

  /** A block for each heading: text to its end, and none of the named headings in it. */
  ghost predicate Suiting(blocks: map<string, seq<string>>, named: set<string>) {
    blocks.Keys <= named && forall h | h in blocks :: Fits(blocks[h], named)
  }

  ghost predicate Fits(block: seq<string>, named: set<string>) {
    CleanBlock(block, named) && Solid(block)
  }

  /** The blocks put under their headings in the given order. */
  function PutAll(lines: seq<string>, order: seq<string>, blocks: map<string, seq<string>>): seq<string>
    requires forall h | h in order :: h in blocks
    decreases |order|
  {
    if order == [] then lines else PutAll(Put(lines, order[0], blocks[order[0]]), order[1..], blocks)
  }

  // ----- Where the text ends ------------------------------------------------

  /** All lines from `t` on are blank, and the one before is not. */
  ghost predicate EndsText(lines: seq<string>, t: nat) {
    t <= |lines| && (t > 0 ==> !Blank(lines[t - 1])) && forall i :: t <= i < |lines| ==> Blank(lines[i])
  }

  lemma {:induction false} TailEndsText(lines: seq<string>)
    ensures EndsText(lines, Tail(lines))
  {
    hide Blank;
    if lines != [] && Blank(lines[|lines| - 1]) {
      TailEndsText(lines[..|lines| - 1]);
    }
  }

  lemma {:induction false} TextEndsOnce(lines: seq<string>, t: nat)
    requires EndsText(lines, t)
    ensures Tail(lines) == t
  {
    hide Blank;
    TailEndsText(lines);
    forall i | 0 <= i < |lines| && !Blank(lines[i]) ensures i < t && i < Tail(lines) {
    }
  }

  /** The text of a put ends where it did, moved on, or with the block put last. */
  lemma {:induction false} TailOfPut(lines: seq<string>, h: string, block: seq<string>)
    requires Solid(block) && !Blank(h)
    requires FirstAt(lines, h).Some? ==> FirstAt(lines, h).value + 1 < |lines|
    ensures Tail(Put(lines, h, block)) ==
      if FirstAt(lines, h).None? then Tail(lines) + 3 + |block|
      else if Tail(lines) > FirstAt(lines, h).value + 2 then Tail(lines) + |block| + 1
      else FirstAt(lines, h).value + 2 + |block|
  {
    TailEndsText(lines);
    var at, t, more := FirstAt(lines, h), Tail(lines), Put(lines, h, block);
    hide Blank, Tail, FirstAt;
    BlankIsBlank();
    if at.None? {
      TextEndsOnce(more, t + 3 + |block|);
    } else if t > at.value + 2 {
      TextEndsOnce(more, t + |block| + 1);
    } else {
      TextEndsOnce(more, at.value + 2 + |block|);
    }
  }

  lemma BlankIsBlank()
    ensures Blank("")
  {}

  // ----- Headings at the end of the text ------------------------------------

  /** Making a section elsewhere does not touch the line after this heading: it is empty, or text comes after it. */
  predicate Settled(lines: seq<string>, h: string) {
    var at := FirstAt(lines, h);
    at.Some? && (NextLine(lines, h) == "" || at.value + 2 < Tail(lines))
  }

  lemma {:induction false} HeadingIsText(lines: seq<string>, h: string)
    requires FirstAt(lines, h).Some? && !Blank(h)
    ensures FirstAt(lines, h).value < Tail(lines)
  {
    TailIsPast(lines, FirstAt(lines, h).value);
  }

  /** Where another heading's first line is after a put. */
  lemma {:induction false} PlaceAfterPut(
    lines: seq<string>, named: set<string>, h: string, block: seq<string>, k: string)
    requires Tidy(lines, named) && TextNames(named) && h in named && k in named && h != k && Fits(block, named)
    ensures FirstAt(Put(lines, h, block), k).Some? <==> FirstAt(lines, k).Some?
    ensures FirstAt(lines, k).Some? ==>
      FirstAt(Put(lines, h, block), k).value ==
        if FirstAt(lines, h).Some? && FirstAt(lines, h).value < FirstAt(lines, k).value
        then FirstAt(lines, k).value + |block| + 1 else FirstAt(lines, k).value
    ensures FirstAt(lines, k).Some? ==>
      NextLine(Put(lines, h, block), k) ==
        if FirstAt(lines, h).None? && FirstAt(lines, k).value + 1 == Tail(lines) then "" else NextLine(lines, k)
  {
    PutHasHeading(lines, named, h, block, k);
    if FirstAt(lines, k).Some? {
      HeadingIsText(lines, k);
      assert Ready(lines, k, named);
      assert FirstAt(lines, h).Some? ==> Ready(lines, h, named);
      AddsIsClean(lines, h, named, block, k);
      FirstAtInsert(lines, PutAt(lines, h), Adds(lines, h, block), k);
      var j, p := FirstAt(lines, k).value, PutAt(lines, h);
      hide Put, CleanBlock, FirstAt, Solid, Blank, Tail;
      NextAfterInsert(lines, p, Adds(lines, h, block), j);
    }
  }

  // ----- Two puts, in either order ------------------------------------------

  lemma InsertsCommute(lines: seq<string>, p: nat, a: seq<string>, q: nat, b: seq<string>)
    requires p <= q <= |lines|
    ensures Insert(Insert(lines, p, a), q + |a|, b) == Insert(Insert(lines, q, b), p, a)
  {}

  lemma InsertedInto(lines: seq<string>, p: nat, a: seq<string>, i: nat, b: seq<string>)
    requires p <= |lines| && i <= |a|
    ensures Insert(Insert(lines, p, a), p + i, b) == Insert(lines, p, a[..i] + b + a[i..])
  {
    assert Insert(lines, p, a)[..p + i] == lines[..p] + a[..i];
    assert Insert(lines, p, a)[p + i..] == a[i..] + lines[p..];
  }

  lemma InsertsDiffer(lines: seq<string>, p: nat, a: seq<string>, b: seq<string>)
    requires p <= |lines| && Insert(lines, p, a) == Insert(lines, p, b)
    ensures a == b
  {
    var one, other := Insert(lines, p, a), Insert(lines, p, b);
    assert |a| == |b| && one[p..p + |a|] == a && other[p..p + |a|] == b;
  }

  /** The heading's next line is the last of the text: the blank line that ends the block comes elsewhere. */
  lemma {:induction false} BelowLine(lines: seq<string>, p: nat, x: seq<string>, k: string, y: seq<string>)
    requires p <= |lines| && k != ""
    ensures Insert(Insert(lines, p, x + [""]), p + |x|, ["", k, ""] + y) != Insert(Insert(lines, p, ["", k, ""] + y), p, x + [""])
  {
    var a, b := x + [""], ["", k, ""] + y;
    InsertedInto(lines, p, a, |x|, b);
    InsertedInto(lines, p, b, 0, a);
    var one, other := a[..|x|] + b + a[|x|..], b[..0] + a + b[0..];
    hide Insert;
    assert one[|x| + 1] == k && other[|x| + 1] == "";
    if Insert(lines, p, one) == Insert(lines, p, other) {
      InsertsDiffer(lines, p, one, other);
    }
  }

  /** The heading is the last of the text: what was its next line is one only if the put comes first. */
  lemma {:induction false} BelowHeading(lines: seq<string>, at: nat, x: seq<string>, k: string, y: seq<string>)
    requires at + 1 < |lines|
    ensures lines[at + 1] == "" <==>
      (Insert(Insert(lines, at + 2, x + [""]), at + 2 + |x|, ["", k, ""] + y)
       == Insert(Insert(lines, at + 1, ["", k, ""] + y), at + 2, x + [""]))
  {
    var a, b, c := x + [""], ["", k, ""] + y, [k, ""] + y;
    var one := Insert(Insert(lines, at + 2, a), at + 2 + |x|, b);
    var other := Insert(Insert(lines, at + 1, b), at + 2, a);
    assert one[at + 1] == lines[at + 1] && other[at + 1] == "";
    if lines[at + 1] == "" {
      assert lines[at + 1..] == [""] + lines[at + 2..] && lines[..at + 2] == lines[..at + 1] + [""];
      assert Insert(lines, at + 1, b) == Insert(lines, at + 2, c + [""]);
      InsertedInto(lines, at + 2, a, |x|, b);
      InsertedInto(lines, at + 2, c + [""], 0, a);
      hide Insert;
      assert a[..|x|] + b + a[|x|..] == (c + [""])[..0] + a + (c + [""])[0..];
    }
  }

  /** The put at `at + 2` first, and the making at the end of the text, `t`, then. */
  function PutFirst(lines: seq<string>, at: nat, t: nat, x: seq<string>, k: string, y: seq<string>): seq<string> {
    Insert(Insert(lines, at + 2, x + [""]), if t > at + 2 then t + |x| + 1 else at + 2 + |x|, ["", k, ""] + y)
  }

  function MakeFirst(lines: seq<string>, at: nat, t: nat, x: seq<string>, k: string, y: seq<string>): seq<string> {
    Insert(Insert(lines, t, ["", k, ""] + y), at + 2, x + [""])
  }

  lemma {:induction false} EitherFirst(lines: seq<string>, at: nat, t: nat, x: seq<string>, k: string, y: seq<string>)
    requires at < t <= |lines| && at + 1 < |lines| && k != ""
    requires t == at + 2 ==> lines[at + 1] != ""
    ensures PutFirst(lines, at, t, x, k, y) == MakeFirst(lines, at, t, x, k, y) <==> lines[at + 1] == "" || at + 2 < t
  {
    hide Insert;
    if t > at + 2 {
      InsertsCommute(lines, at + 2, x + [""], t, ["", k, ""] + y);
    } else if t == at + 2 {
      BelowLine(lines, at + 2, x, k, y);
    } else {
      BelowHeading(lines, at, x, k, y);
    }
  }

  lemma {:induction false} PutsAsInserts(
    lines: seq<string>, named: set<string>, h: string, x: seq<string>, k: string, y: seq<string>)
    requires Tidy(lines, named) && TextNames(named) && h in named && k in named
    requires FirstAt(lines, h).Some? && FirstAt(lines, k).None? && Fits(x, named) && Fits(y, named)
    ensures Put(Put(lines, h, x), k, y) == PutFirst(lines, FirstAt(lines, h).value, Tail(lines), x, k, y)
  {
    assert Ready(lines, h, named);
    PlaceAfterPut(lines, named, h, x, k);
    TailOfPut(lines, h, x);
    hide Blank, Solid, CleanBlock, Tidy, Ready, Tail, FirstAt, Insert;
  }

  lemma {:induction false} MakesAsInserts(
    lines: seq<string>, named: set<string>, h: string, x: seq<string>, k: string, y: seq<string>)
    requires Tidy(lines, named) && TextNames(named) && h in named && k in named
    requires FirstAt(lines, h).Some? && FirstAt(lines, k).None? && Fits(x, named) && Fits(y, named)
    ensures Put(Put(lines, k, y), h, x) == MakeFirst(lines, FirstAt(lines, h).value, Tail(lines), x, k, y)
  {
    PlaceAfterPut(lines, named, k, y, h);
    hide Blank, Solid, CleanBlock, Tidy, Tail, FirstAt, Insert;
  }

  /**
   A put under a heading that stands and the making of a section come to the same
   in either order exactly when the heading is settled.
   */
  lemma {:induction false} PutAndMakeCommuteExactly(
    lines: seq<string>, named: set<string>, h: string, x: seq<string>, k: string, y: seq<string>)
    requires Tidy(lines, named) && TextNames(named) && h in named && k in named
    requires FirstAt(lines, h).Some? && FirstAt(lines, k).None? && Fits(x, named) && Fits(y, named)
    ensures Put(Put(lines, h, x), k, y) == Put(Put(lines, k, y), h, x) <==> Settled(lines, h)
  {
    assert Ready(lines, h, named);
    PutsAsInserts(lines, named, h, x, k, y);
    MakesAsInserts(lines, named, h, x, k, y);
    HeadingIsText(lines, h);
    TailEndsText(lines);
    BlankIsBlank();
    hide Put, PutFirst, MakeFirst, Tidy, TextNames, Fits, Tail, FirstAt, Blank;
    EitherFirst(lines, FirstAt(lines, h).value, Tail(lines), x, k, y);
  }

  // ----- Settling -----------------------------------------------------------

  predicate Has(lines: seq<string>, h: string) { FirstAt(lines, h).Some? }

  /** Once a block is put under it a heading is settled. */
  lemma {:induction false} PutSettles(lines: seq<string>, named: set<string>, h: string, block: seq<string>)
    requires Tidy(lines, named) && TextNames(named) && h in named && Fits(block, named)
    ensures Settled(Put(lines, h, block), h)
  {
    TailOfPut(lines, h, block) by {
      if Has(lines, h) {
        assert Ready(lines, h, named);
      }
    }
    hide Blank, Tail;
    if Has(lines, h) {
      assert Ready(lines, h, named);
      hide CleanBlock;
      AddsIsClean(lines, h, named, block, h);
      FirstAtInsert(lines, PutAt(lines, h), Adds(lines, h, block), h);
    } else {
      FirstAtIsFirst(lines, h);
      PutMakes(lines, h, block);
      FirstAtBefore(lines[..Tail(lines)] + [""], h, [""] + (block + lines[Tail(lines)..]));
    }
  }

  /** A settled heading stays settled, and the making of a section settles every heading. */
  lemma {:induction false} SettledStays(
    lines: seq<string>, named: set<string>, h: string, block: seq<string>, k: string)
    requires Tidy(lines, named) && TextNames(named) && h in named && k in named && Fits(block, named)
    requires Has(lines, k) && (Settled(lines, k) || !Has(lines, h))
    ensures Settled(Put(lines, h, block), k)
  {
    if h == k {
      PutSettles(lines, named, h, block);
    } else {
      PlaceAfterPut(lines, named, h, block, k);
      TailOfPut(lines, h, block) by {
        if Has(lines, h) {
          assert Ready(lines, h, named);
        }
      }
      HeadingIsText(lines, k);
      hide Blank, Tail, Put, Tidy, Ready, Fits;
    }
  }

  /** At most one heading is not settled. */
  lemma {:induction false} OneUnsettled(lines: seq<string>, named: set<string>, h: string, k: string)
    requires Tidy(lines, named) && TextNames(named) && h in named && k in named && h != k
    requires Has(lines, h) && Has(lines, k)
    ensures Settled(lines, h) || Settled(lines, k)
  {
    assert Ready(lines, h, named) && Ready(lines, k, named);
    HeadingIsText(lines, h);
    HeadingIsText(lines, k);
    var i, j := FirstAt(lines, h).value, FirstAt(lines, k).value;
    assert lines[i] == h && lines[j] == k && i != j;
    assert j != i + 1 && i != j + 1;
  }

  // ----- A put past others --------------------------------------------------

  /** A put under `s` can be done before or after those of the order. */
  ghost predicate Passes(lines: seq<string>, s: string, order: seq<string>) {
    || (Has(lines, s) && (Settled(lines, s) || forall h | h in order :: Has(lines, h)))
    || (!Has(lines, s) && forall h | h in order :: Has(lines, h) && Settled(lines, h))
  }

  lemma {:induction false} PassesOne(
    lines: seq<string>, named: set<string>, s: string, x: seq<string>, h: string, y: seq<string>, order: seq<string>)
    requires Tidy(lines, named) && TextNames(named) && s in named && Fits(x, named) && Fits(y, named)
    requires (forall k | k in order :: k in named) && h in order && s != h && Passes(lines, s, order)
    ensures Put(Put(lines, s, x), h, y) == Put(Put(lines, h, y), s, x)
    ensures Passes(Put(lines, h, y), s, order[1..])
  {
    if Has(lines, s) && Has(lines, h) {
      assert Ready(lines, s, named) && Ready(lines, h, named);
      PutsCommute(lines, s, h, named, x, y);
    } else if Has(lines, s) {
      PutAndMakeCommuteExactly(lines, named, s, x, h, y);
    } else {
      PutAndMakeCommuteExactly(lines, named, h, y, s, x);
    }
    PassesOn(lines, named, s, h, y, order);
  }

  lemma {:induction false} PassesOn(
    lines: seq<string>, named: set<string>, s: string, h: string, y: seq<string>, order: seq<string>)
    requires Tidy(lines, named) && TextNames(named) && s in named && Fits(y, named)
    requires (forall k | k in order :: k in named) && h in order && s != h && Passes(lines, s, order)
    ensures Passes(Put(lines, h, y), s, order[1..])
  {
    hide Put, Settled, Tidy;
    forall k | k in order + [s]
      ensures Has(Put(lines, h, y), k) <==> Has(lines, k) || k == h
      ensures Has(lines, k) && Settled(lines, k) ==> Settled(Put(lines, h, y), k)
      ensures k == h ==> Settled(Put(lines, h, y), k)
    {
      HasAfterPut(lines, named, h, y, k);
      if k == h {
        PutSettles(lines, named, h, y);
      } else if Has(lines, k) && Settled(lines, k) {
        SettledStays(lines, named, h, y, k);
      }
    }
    assert forall k :: k in order[1..] ==> k in order + [s];
    assert s in order + [s];
  }

  lemma {:induction false} HasAfterPut(lines: seq<string>, named: set<string>, h: string, block: seq<string>, k: string)
    requires Tidy(lines, named) && h in named && k in named && CleanBlock(block, named)
    ensures Has(Put(lines, h, block), k) <==> Has(lines, k) || k == h
  {
    hide CleanBlock;
    if k == h && !Has(lines, h) {
      FirstAtIsFirst(lines, h);
      MadeIsReady(lines, h, named, block);
    } else {
      PutHasHeading(lines, named, h, block, k);
    }
  }

  /** A put that can pass does: it comes to the same before the others and after them. */
  lemma {:induction false} PassThrough(
    lines: seq<string>, named: set<string>, s: string, x: seq<string>, order: seq<string>, blocks: map<string, seq<string>>)
    requires Tidy(lines, named) && TextNames(named) && s in named && Fits(x, named) && Suiting(blocks, named)
    requires (forall h | h in order :: h in blocks) && s !in order && Passes(lines, s, order)
    ensures Put(PutAll(lines, order, blocks), s, x) == PutAll(Put(lines, s, x), order, blocks)
    decreases |order|
  {
    if order != [] {
      var h, rest := order[0], order[1..];
      assert h in order && Fits(blocks[h], named);
      hide Put, Passes, Tidy, Fits;
      PassesOne(lines, named, s, x, h, blocks[h], order);
      KeepsTidy(lines, named, h, blocks[h]);
      PassThrough(Put(lines, h, blocks[h]), named, s, x, rest, blocks);
    }
  }

  lemma KeepsTidy(lines: seq<string>, named: set<string>, h: string, block: seq<string>)
    requires Tidy(lines, named) && h in named && Fits(block, named)
    ensures Tidy(Put(lines, h, block), named)
  {
    PutKeepsTidy(lines, named, h, block);
  }

  lemma {:induction false} PutAllInTwo(lines: seq<string>, a: seq<string>, b: seq<string>, blocks: map<string, seq<string>>)
    requires forall h | h in a + b :: h in blocks
    ensures PutAll(lines, a + b, blocks) == PutAll(PutAll(lines, a, blocks), b, blocks)
    decreases |a|
  {
    hide Put;
    if a == [] {
      assert a + b == b;
    } else {
      assert (a + b)[1..] == a[1..] + b;
      PutAllInTwo(Put(lines, a[0], blocks[a[0]]), a[1..], b, blocks);
    }
  }

  lemma {:induction false} MoveFirst(
    lines: seq<string>, named: set<string>, p: seq<string>, s: string, q: seq<string>, blocks: map<string, seq<string>>)
    requires Tidy(lines, named) && TextNames(named) && Suiting(blocks, named)
    requires (forall h | h in p + [s] + q :: h in blocks) && s !in p && Passes(lines, s, p)
    ensures s in blocks
    ensures PutAll(lines, p + [s] + q, blocks) == PutAll(Put(lines, s, blocks[s]), p + q, blocks)
  {
    assert s in p + [s] + q;
    hide Put, Passes, Tidy, Fits;
    PutAllInTwo(lines, p + [s], q, blocks);
    PutAllInTwo(lines, p, [s], blocks);
    PassThrough(lines, named, s, blocks[s], p, blocks);
    PutAllInTwo(Put(lines, s, blocks[s]), p, q, blocks);
    OneMove(PutAll(lines, p, blocks), s, blocks);
  }

  lemma OneMove(lines: seq<string>, s: string, blocks: map<string, seq<string>>)
    requires s in blocks
    ensures PutAll(lines, [s], blocks) == Put(lines, s, blocks[s])
  {
    hide Put;
    assert [s][1..] == [];
  }

  // ----- The sections an order makes ----------------------------------------

  /** The headings of the order that are missing, in its order. */
  function Makes(lines: seq<string>, order: seq<string>): seq<string> {
    if order == [] then [] else (if Has(lines, order[0]) then [] else [order[0]]) + Makes(lines, order[1..])
  }

  lemma {:induction false} MakesInTwo(lines: seq<string>, a: seq<string>, b: seq<string>)
    ensures Makes(lines, a + b) == Makes(lines, a) + Makes(lines, b)
  {
    if a == [] {
      assert a + b == b;
    } else {
      assert (a + b)[1..] == a[1..] + b;
      MakesInTwo(lines, a[1..], b);
    }
  }

  lemma {:induction false} MakesAre(lines: seq<string>, order: seq<string>)
    ensures forall h :: h in Makes(lines, order) <==> h in order && !Has(lines, h)
  {
    if order != [] {
      assert order == [order[0]] + order[1..];
      MakesAre(lines, order[1..]);
    }
  }

  lemma {:induction false} MakesAfterPut(
    lines: seq<string>, named: set<string>, s: string, block: seq<string>, order: seq<string>)
    requires Tidy(lines, named) && s in named && Fits(block, named)
    requires s !in order && forall h | h in order :: h in named
    ensures Makes(Put(lines, s, block), order) == Makes(lines, order)
  {
    if order != [] {
      hide Put, Tidy, CleanBlock;
      HasAfterPut(lines, named, s, block, order[0]);
      MakesAfterPut(lines, named, s, block, order[1..]);
    }
  }

  // ----- The first section made stands first --------------------------------

  lemma {:induction false} OwnPlace(lines: seq<string>, named: set<string>, h: string, block: seq<string>)
    requires Tidy(lines, named) && h in named && Fits(block, named)
    ensures Has(Put(lines, h, block), h)
    ensures FirstAt(Put(lines, h, block), h).value == if Has(lines, h) then FirstAt(lines, h).value else Tail(lines) + 1
  {
    if Has(lines, h) {
      AddsIsClean(lines, h, named, block, h);
      hide Adds;
      assert Ready(lines, h, named);
      FirstAtInsert(lines, PutAt(lines, h), Adds(lines, h, block), h);
    } else {
      FirstAtIsFirst(lines, h);
      PutMakes(lines, h, block);
      hide Put;
      FirstAtBefore(lines[..Tail(lines)] + [""], h, [""] + (block + lines[Tail(lines)..]));
    }
  }

  /** The one heading's first line is above the other's. */
  ghost predicate Above(lines: seq<string>, a: string, b: string) {
    Has(lines, a) && Has(lines, b) && FirstAt(lines, a).value < FirstAt(lines, b).value
  }

  lemma {:induction false} AboveStays(
    lines: seq<string>, named: set<string>, h: string, block: seq<string>, a: string, b: string)
    requires Tidy(lines, named) && TextNames(named) && h in named && a in named && b in named && a != b
    requires Fits(block, named) && Has(lines, a) && (Above(lines, a, b) || (!Has(lines, b) && h == b))
    ensures Above(Put(lines, h, block), a, b)
  {
    HeadingIsText(lines, a);
    OwnPlace(lines, named, h, block);
    if h != a {
      PlaceAfterPut(lines, named, h, block, a);
    }
    if h != b {
      PlaceAfterPut(lines, named, h, block, b);
    }
    hide Put, Tidy, FirstAt, Tail;
  }

  lemma {:induction false} AboveHolds(
    lines: seq<string>, named: set<string>, order: seq<string>, blocks: map<string, seq<string>>, a: string, b: string)
    requires Tidy(lines, named) && TextNames(named) && Suiting(blocks, named) && forall h | h in order :: h in blocks
    requires a in named && b in named && a != b && Has(lines, a)
    requires Above(lines, a, b) || (!Has(lines, b) && b in order)
    ensures Above(PutAll(lines, order, blocks), a, b)
    decreases |order|
  {
    if order != [] {
      var h, rest := order[0], order[1..];
      assert h in order && Fits(blocks[h], named);
      hide Put, Tidy, Fits, FirstAt;
      HasAfterPut(lines, named, h, blocks[h], a) by { assert Fits(blocks[h], named); FitsIsClean(blocks[h], named); }
      HasAfterPut(lines, named, h, blocks[h], b) by { FitsIsClean(blocks[h], named); }
      KeepsTidy(lines, named, h, blocks[h]);
      if Above(lines, a, b) || h == b {
        AboveStays(lines, named, h, blocks[h], a, b);
      }
      AboveHolds(Put(lines, h, blocks[h]), named, rest, blocks, a, b);
    }
  }

  lemma FitsIsClean(block: seq<string>, named: set<string>)
    requires Fits(block, named)
    ensures CleanBlock(block, named)
  {}

  /** The first section an order makes stands above every other it makes. */
  lemma {:induction false} FirstMadeIsAbove(
    lines: seq<string>, named: set<string>, order: seq<string>, blocks: map<string, seq<string>>, b: string)
    requires Tidy(lines, named) && TextNames(named) && Suiting(blocks, named) && forall h | h in order :: h in blocks
    requires b in Makes(lines, order) && b != Makes(lines, order)[0]
    ensures Above(PutAll(lines, order, blocks), Makes(lines, order)[0], b)
    decreases |order|
  {
    MakesAre(lines, order);
    var h, rest := order[0], order[1..];
    assert h in order && Fits(blocks[h], named) && Makes(lines, order)[0] in order;
    var after, a := Put(lines, h, blocks[h]), Makes(lines, order)[0];
    hide Put, Tidy, Fits, FirstAt, Above;
    FitsIsClean(blocks[h], named);
    KeepsTidy(lines, named, h, blocks[h]);
    HasAfterPut(lines, named, h, blocks[h], b);
    HasAfterPut(lines, named, h, blocks[h], a);
    if Has(lines, h) {
      forall k | k in rest ensures Has(after, k) <==> Has(lines, k) {
        HasAfterPut(lines, named, h, blocks[h], k);
      }
      MakesAgree(lines, after, rest);
      FirstMadeIsAbove(after, named, rest, blocks, b);
    } else {
      AboveHolds(after, named, rest, blocks, h, b);
    }
  }

  lemma {:induction false} MakesAgree(one: seq<string>, other: seq<string>, order: seq<string>)
    requires forall k | k in order :: Has(one, k) <==> Has(other, k)
    ensures Makes(one, order) == Makes(other, order)
  {
    if order != [] {
      MakesAgree(one, other, order[1..]);
    }
  }

  // ----- Any two orders -----------------------------------------------------

  ghost predicate Once(order: seq<string>) {
    forall i, j :: 0 <= i < j < |order| ==> order[i] != order[j]
  }

  /** The same headings, each once. */
  ghost predicate Rearranged(one: seq<string>, other: seq<string>) {
    |one| == |other| && Once(one) && Once(other) && forall h :: h in one <==> h in other
  }

  lemma {:induction false} TakeOut(order: seq<string>, s: string) returns (p: seq<string>, q: seq<string>)
    requires Once(order) && s in order
    ensures order == p + [s] + q && Once(p + q)
    ensures forall h :: h in p + q <==> h in order && h != s
  {
    var i :| 0 <= i < |order| && order[i] == s;
    p, q := order[..i], order[i + 1..];
    assert forall j :: 0 <= j < |p + q| ==> (p + q)[j] == order[if j < i then j else j + 1];
    forall h | h in order && h != s ensures h in p + q {
      var j :| 0 <= j < |order| && order[j] == h;
      assert (p + q)[if j < i then j else j - 1] == h;
    }
  }

  /** Every heading of the order stands, or every one that stands is settled. */
  ghost predicate Calm(lines: seq<string>, order: seq<string>) {
    (forall h | h in order :: Has(lines, h)) || (forall h | h in order && Has(lines, h) :: Settled(lines, h))
  }

  lemma {:induction false} CalmStays(
    lines: seq<string>, named: set<string>, s: string, block: seq<string>, order: seq<string>, rest: seq<string>)
    requires Tidy(lines, named) && TextNames(named) && s in named && Fits(block, named)
    requires Calm(lines, order) && (forall h | h in order :: h in named)
    requires s !in rest && forall h | h in rest :: h in order
    ensures Calm(Put(lines, s, block), rest)
  {
    hide Put, Tidy, Fits, Settled;
    FitsIsClean(block, named);
    forall h | h in rest
      ensures Has(Put(lines, s, block), h) <==> Has(lines, h)
      ensures Has(lines, h) && Settled(lines, h) ==> Settled(Put(lines, s, block), h)
    {
      HasAfterPut(lines, named, s, block, h);
      if Has(lines, h) && Settled(lines, h) {
        SettledStays(lines, named, s, block, h);
      }
    }
  }

  /** Two orders that make different sections first come to different lines. */
  lemma {:induction false} FirstMadeTells(
    lines: seq<string>, named: set<string>, one: seq<string>, other: seq<string>, blocks: map<string, seq<string>>)
    requires Tidy(lines, named) && TextNames(named) && Suiting(blocks, named)
    requires Rearranged(one, other) && forall h | h in one :: h in blocks
    requires Makes(lines, one) != [] && Makes(lines, other) != [] && Makes(lines, one)[0] != Makes(lines, other)[0]
    ensures PutAll(lines, one, blocks) != PutAll(lines, other, blocks)
  {
    MakesAre(lines, one);
    MakesAre(lines, other);
    var a, b := Makes(lines, one)[0], Makes(lines, other)[0];
    assert a in Makes(lines, one) && b in Makes(lines, other);
    hide Tidy, Suiting, PutAll, Makes, Has, FirstAt;
    FirstMadeIsAbove(lines, named, one, blocks, b);
    FirstMadeIsAbove(lines, named, other, blocks, a);
  }

  lemma {:induction false} NothingMade(lines: seq<string>, order: seq<string>)
    ensures Makes(lines, order) == [] <==> forall h | h in order :: Has(lines, h)
  {
    if order != [] {
      NothingMade(lines, order[1..]);
      assert order == [order[0]] + order[1..];
    }
  }

  lemma MakesOne(lines: seq<string>, s: string)
    ensures Makes(lines, [s]) == if Has(lines, s) then [] else [s]
  {
    assert [s][1..] == [];
  }

  lemma {:induction false} MakesInThree(lines: seq<string>, p: seq<string>, s: string, q: seq<string>)
    ensures Makes(lines, p + [s] + q) == Makes(lines, p) + (if Has(lines, s) then [] else [s]) + Makes(lines, q)
    ensures Makes(lines, p + q) == Makes(lines, p) + Makes(lines, q)
  {
    hide Has, Makes;
    MakesInTwo(lines, p + [s], q);
    MakesInTwo(lines, p, [s]);
    MakesInTwo(lines, p, q);
    MakesOne(lines, s);
  }

  /** What an order makes, apart from one of its headings. */
  lemma {:induction false} MadeWithout(lines: seq<string>, p: seq<string>, s: string, q: seq<string>)
    requires s !in p
    ensures Has(lines, s) ==> Makes(lines, p + [s] + q) == Makes(lines, p + q)
    ensures !Has(lines, s) && Makes(lines, p) == [] ==> Makes(lines, p + [s] + q) == [s] + Makes(lines, p + q)
    ensures Makes(lines, p) != [] ==> Makes(lines, p + [s] + q) != [] && Makes(lines, p + [s] + q)[0] != s
  {
    MakesInThree(lines, p, s, q);
    MakesAre(lines, p);
    hide Has, Makes;
    var made := Makes(lines, p);
    if made != [] {
      assert made[0] in made;
      assert Makes(lines, p + [s] + q)[0] == made[0];
    }
  }

  /** One put done first, and the rest of the order after it. */
  lemma {:induction false} FirstOf(
    lines: seq<string>, named: set<string>, p: seq<string>, s: string, q: seq<string>, blocks: map<string, seq<string>>)
    requires Tidy(lines, named) && TextNames(named) && Suiting(blocks, named)
    requires (forall h | h in p + [s] + q :: h in blocks) && s !in p + q && Passes(lines, s, p)
    ensures s in blocks && Tidy(Put(lines, s, blocks[s]), named)
    ensures PutAll(lines, p + [s] + q, blocks) == PutAll(Put(lines, s, blocks[s]), p + q, blocks)
    ensures Makes(Put(lines, s, blocks[s]), p + q) == Makes(lines, p + q)
  {
    assert s in p + [s] + q && Fits(blocks[s], named);
    assert forall h :: h in p + q ==> h in p + [s] + q;
    hide Put, Passes, Tidy, Fits, Makes;
    MoveFirst(lines, named, p, s, q, blocks);
    KeepsTidy(lines, named, s, blocks[s]);
    MakesAfterPut(lines, named, s, blocks[s], p + q);
  }

  /** The order with one heading taken out of it, and the headings that were before that one. */
  ghost predicate Without(order: seq<string>, s: string, before: seq<string>, rest: seq<string>) {
    && Once(rest) && (forall h :: h in rest <==> h in order && h != s)
    && (forall h :: h in before ==> h in order && h != s)
    && exists after :: order == before + [s] + after && rest == before + after
  }

  lemma {:induction false} TakenOut(order: seq<string>, s: string) returns (before: seq<string>, rest: seq<string>)
    requires Once(order) && s in order
    ensures Without(order, s, before, rest)
    ensures |rest| == |order| - 1 && (order[0] == s ==> before == [])
  {
    var after;
    before, after := TakeOut(order, s);
    rest := before + after;
    assert forall h :: h in before ==> h in rest;
    assert before != [] ==> before[0] == order[0] && before[0] in before;
  }

  lemma {:induction false} MadeWithoutIt(lines: seq<string>, order: seq<string>, s: string, before: seq<string>, rest: seq<string>)
    requires Without(order, s, before, rest)
    ensures Has(lines, s) ==> Makes(lines, order) == Makes(lines, rest)
    ensures !Has(lines, s) && Makes(lines, before) == [] ==> Makes(lines, order) == [s] + Makes(lines, rest)
    ensures Makes(lines, before) != [] ==> Makes(lines, order) != [] && Makes(lines, order)[0] != s
  {
    hide Has, Makes, Once;
    var after :| order == before + [s] + after && rest == before + after;
    MadeWithout(lines, before, s, after);
  }

  lemma {:induction false} PutWithoutIt(
    lines: seq<string>, named: set<string>, order: seq<string>, s: string, before: seq<string>, rest: seq<string>,
    blocks: map<string, seq<string>>)
    requires Tidy(lines, named) && TextNames(named) && Suiting(blocks, named)
    requires Without(order, s, before, rest) && (forall h | h in order :: h in blocks) && Passes(lines, s, before)
    ensures s in blocks && Tidy(Put(lines, s, blocks[s]), named)
    ensures PutAll(lines, order, blocks) == PutAll(Put(lines, s, blocks[s]), rest, blocks)
    ensures Makes(Put(lines, s, blocks[s]), rest) == Makes(lines, rest)
  {
    hide Put, Passes, Tidy, Suiting, Makes, Once, PutAll;
    var after :| order == before + [s] + after && rest == before + after;
    FirstOf(lines, named, before, s, after, blocks);
  }

  lemma {:induction false} CalmPasses(lines: seq<string>, order: seq<string>, s: string, before: seq<string>)
    requires Calm(lines, order) && s in order && forall h | h in before :: h in order
    requires Has(lines, s) || Makes(lines, before) == []
    ensures Passes(lines, s, before)
  {
    NothingMade(lines, before);
    hide Has, Settled;
  }

  /** With one put done first in both, two orders are alike as what is left of them is. */
  ghost predicate Reduced(
    lines: seq<string>, one: seq<string>, other: seq<string>, blocks: map<string, seq<string>>,
    after: seq<string>, rest: seq<string>, left: seq<string>)
    requires (forall h | h in one :: h in blocks) && (forall h | h in other :: h in blocks)
    requires (forall h | h in rest :: h in blocks) && (forall h | h in left :: h in blocks)
  {
    && (PutAll(lines, one, blocks) == PutAll(lines, other, blocks)
        <==> PutAll(after, rest, blocks) == PutAll(after, left, blocks))
    && (Makes(lines, one) == Makes(lines, other) <==> Makes(after, rest) == Makes(after, left))
  }

  lemma {:induction false} ReducedBy(
    lines: seq<string>, named: set<string>, one: seq<string>, other: seq<string>, blocks: map<string, seq<string>>,
    s: string, p: seq<string>, rest: seq<string>, x: seq<string>, left: seq<string>)
    requires Tidy(lines, named) && TextNames(named) && Suiting(blocks, named)
    requires (forall h | h in one :: h in blocks) && (forall h | h in other :: h in blocks)
    requires Without(one, s, p, rest) && Without(other, s, x, left)
    requires Passes(lines, s, p) && Passes(lines, s, x)
    requires Has(lines, s) || (Makes(lines, p) == [] && Makes(lines, x) == [])
    ensures s in blocks && Tidy(Put(lines, s, blocks[s]), named)
    ensures Reduced(lines, one, other, blocks, Put(lines, s, blocks[s]), rest, left)
  {
    hide Put, Tidy, Has, Settled, Suiting, PutAll, Makes, Passes, Fits, Without, TextNames;
    MadeWithoutIt(lines, one, s, p, rest);
    MadeWithoutIt(lines, other, s, x, left);
    PutWithoutIt(lines, named, one, s, p, rest, blocks);
    PutWithoutIt(lines, named, other, s, x, left, blocks);
    assert ([s] + Makes(lines, rest))[1..] == Makes(lines, rest) && ([s] + Makes(lines, left))[1..] == Makes(lines, left);
  }

  lemma {:induction false} WithoutBoth(one: seq<string>, other: seq<string>, s: string)
    returns (p: seq<string>, rest: seq<string>, x: seq<string>, left: seq<string>)
    requires Rearranged(one, other) && s in one
    ensures Without(one, s, p, rest) && Without(other, s, x, left) && Rearranged(rest, left)
    ensures |rest| < |one| && (one[0] == s ==> p == [])
    ensures forall h :: h in p + x + rest + left ==> h in one
    ensures forall h :: h in rest ==> h != s
  {
    p, rest := TakenOut(one, s);
    x, left := TakenOut(other, s);
  }

  /** Two orders come to the same lines exactly when they make the missing sections in the same order. */
  lemma {:induction false} CalmOrders(
    lines: seq<string>, named: set<string>, one: seq<string>, other: seq<string>, blocks: map<string, seq<string>>)
    requires Tidy(lines, named) && TextNames(named) && Suiting(blocks, named)
    requires Rearranged(one, other) && (forall h | h in one :: h in blocks) && Calm(lines, one)
    ensures PutAll(lines, one, blocks) == PutAll(lines, other, blocks) <==> Makes(lines, one) == Makes(lines, other)
    decreases |one|
  {
    if one != [] {
      var s := one[0];
      assert s in one;
      var p, rest, x, left := WithoutBoth(one, other, s);
      hide Put, Tidy, Has, Settled, Suiting, PutAll, Passes, Fits, Without, TextNames, Calm;
      assert Makes(lines, []) == [];
      if Has(lines, s) || Makes(lines, x) == [] {
        CalmPasses(lines, one, s, p);
        CalmPasses(lines, one, s, x);
        ReducedBy(lines, named, one, other, blocks, s, p, rest, x, left);
        BlockFits(blocks, named, s);
        InBlocks(one, blocks, named);
        CalmStays(lines, named, s, blocks[s], one, rest);
        CalmOrders(Put(lines, s, blocks[s]), named, rest, left, blocks);
      } else {
        MadeWithoutIt(lines, one, s, p, rest);
        MadeWithoutIt(lines, other, s, x, left);
        FirstMadeTells(lines, named, one, other, blocks);
      }
    }
  }

  lemma InBlocks(order: seq<string>, blocks: map<string, seq<string>>, named: set<string>)
    requires Suiting(blocks, named) && forall h | h in order :: h in blocks
    ensures forall h | h in order :: h in named
  {}

  lemma BlockFits(blocks: map<string, seq<string>>, named: set<string>, h: string)
    requires Suiting(blocks, named) && h in blocks
    ensures h in named && Fits(blocks[h], named)
  {}

  // ----- A heading that is not settled --------------------------------------

  /** The headings the order has before the first that is missing. */
  function Front(lines: seq<string>, order: seq<string>): seq<string> {
    if order == [] || !Has(lines, order[0]) then [] else [order[0]] + Front(lines, order[1..])
  }

  /** A heading that is not settled comes before every section the order makes. */
  ghost predicate EndsFirst(lines: seq<string>, order: seq<string>) {
    exists h :: h in Front(lines, order) && !Settled(lines, h)
  }

  lemma {:induction false} FrontIs(lines: seq<string>, before: seq<string>, h: string, after: seq<string>)
    requires h !in before && h !in after
    ensures Has(lines, h) ==> (h in Front(lines, before + [h] + after) <==> Makes(lines, before) == [])
    ensures !Has(lines, h) && Makes(lines, before) == [] ==> Front(lines, before + [h] + after) == before
  {
    hide Has;
    var order := before + [h] + after;
    if before == [] {
      assert order[0] == h && order[1..] == after;
      FrontIsOf(lines, after);
    } else {
      assert order[0] == before[0] && order[1..] == before[1..] + [h] + after;
      FrontIs(lines, before[1..], h, after);
    }
  }

  lemma {:induction false} FrontIsOf(lines: seq<string>, order: seq<string>)
    ensures forall h :: h in Front(lines, order) ==> h in order && Has(lines, h)
  {
    if order != [] && Has(lines, order[0]) {
      FrontIsOf(lines, order[1..]);
    }
  }

  /** Nothing of what is named stands between the two headings, the one above the other. */
  ghost predicate NextTo(lines: seq<string>, named: set<string>, a: string, b: string) {
    && Above(lines, a, b)
    && forall k | k in named && Has(lines, k) ::
         FirstAt(lines, k).value <= FirstAt(lines, a).value || FirstAt(lines, b).value <= FirstAt(lines, k).value
  }

  /** How far apart two headings are. */
  function Gap(lines: seq<string>, a: string, b: string): int
    requires Has(lines, a) && Has(lines, b)
  {
    FirstAt(lines, b).value - FirstAt(lines, a).value
  }

  lemma {:induction false} GapStays(
    lines: seq<string>, named: set<string>, h: string, block: seq<string>, a: string, b: string)
    requires Tidy(lines, named) && TextNames(named) && h in named && a in named && b in named && h != a && h != b && a != b
    requires Fits(block, named) && NextTo(lines, named, a, b)
    ensures var more := Put(lines, h, block);
      NextTo(more, named, a, b) && Gap(more, a, b) == Gap(lines, a, b) && NextLine(more, a) == NextLine(lines, a)
  {
    hide Put, Tidy, Fits, FirstAt, Tail, NextLine;
    HeadingIsText(lines, b);
    OwnPlace(lines, named, h, block);
    PlaceAfterPut(lines, named, h, block, a);
    PlaceAfterPut(lines, named, h, block, b);
    var more := Put(lines, h, block);
    forall k | k in named && Has(more, k)
      ensures FirstAt(more, k).value <= FirstAt(more, a).value || FirstAt(more, b).value <= FirstAt(more, k).value
    {
      if k != h {
        PlaceAfterPut(lines, named, h, block, k);
      }
    }
  }

  lemma {:induction false} GapHolds(
    lines: seq<string>, named: set<string>, order: seq<string>, blocks: map<string, seq<string>>, a: string, b: string)
    requires Tidy(lines, named) && TextNames(named) && Suiting(blocks, named) && forall h | h in order :: h in blocks
    requires a in named && b in named && a !in order && b !in order && a != b && NextTo(lines, named, a, b)
    ensures var more := PutAll(lines, order, blocks);
      NextTo(more, named, a, b) && Gap(more, a, b) == Gap(lines, a, b) && NextLine(more, a) == NextLine(lines, a)
    decreases |order|
  {
    if order != [] {
      var h := order[0];
      assert h in order && Fits(blocks[h], named);
      hide Put, Tidy, Fits, NextTo, Has, NextLine;
      GapStays(lines, named, h, blocks[h], a, b);
      KeepsTidy(lines, named, h, blocks[h]);
      GapHolds(Put(lines, h, blocks[h]), named, order[1..], blocks, a, b);
    }
  }

  lemma {:induction false} OwnNext(lines: seq<string>, named: set<string>, h: string, block: seq<string>)
    requires Tidy(lines, named) && h in named && Fits(block, named) && Has(lines, h)
    ensures NextLine(Put(lines, h, block), h) == NextLine(lines, h)
  {
    assert Ready(lines, h, named);
    OwnPlace(lines, named, h, block);
    hide FirstAt, Solid, CleanBlock, Tidy;
    NextAfterInsert(lines, PutAt(lines, h), Adds(lines, h, block), FirstAt(lines, h).value);
  }

  /** A heading that is not settled is the last named one, and its next line is not empty. */
  lemma {:induction false} UnsettledIsLast(lines: seq<string>, named: set<string>, u: string)
    requires Tidy(lines, named) && TextNames(named) && u in named && Has(lines, u) && !Settled(lines, u)
    ensures forall k | k in named && Has(lines, k) :: FirstAt(lines, k).value <= FirstAt(lines, u).value
    ensures FirstAt(lines, u).value < Tail(lines) <= FirstAt(lines, u).value + 2 && NextLine(lines, u) != ""
  {
    HeadingIsText(lines, u);
    forall k | k in named && Has(lines, k) ensures FirstAt(lines, k).value <= FirstAt(lines, u).value {
      HeadingIsText(lines, k);
      assert Ready(lines, u, named);
      var i, j := FirstAt(lines, u).value, FirstAt(lines, k).value;
      assert j != i + 1;
    }
  }

  /** The put under it first, and then the making of a section. */
  lemma {:induction false} PutThenMade(
    lines: seq<string>, named: set<string>, u: string, x: seq<string>, s: string, y: seq<string>)
    requires Tidy(lines, named) && TextNames(named) && u in named && s in named && Fits(x, named) && Fits(y, named)
    requires Has(lines, u) && !Settled(lines, u) && !Has(lines, s)
    ensures var one := Put(Put(lines, u, x), s, y);
      NextTo(one, named, u, s) && Gap(one, u, s) == |x| + 3 && NextLine(one, u) == NextLine(lines, u)
  {
    UnsettledIsLast(lines, named, u);
    var once := Put(lines, u, x);
    var one := Put(once, s, y);
    assert Ready(lines, u, named);
    TailOfPut(lines, u, x);
    hide Put, Tidy, Fits, FirstAt, Tail, NextLine, Blank, Solid;
    KeepsTidy(lines, named, u, x);
    OwnPlace(lines, named, u, x);
    OwnNext(lines, named, u, x);
    FitsIsClean(x, named);
    HasAfterPut(lines, named, u, x, s);
    OwnPlace(once, named, s, y);
    PlaceAfterPut(once, named, s, y, u);
    forall k | k in named && Has(one, k)
      ensures FirstAt(one, k).value <= FirstAt(one, u).value || FirstAt(one, s).value <= FirstAt(one, k).value
    {
      if k != s && k != u {
        PlaceAfterPut(lines, named, u, x, k);
        PlaceAfterPut(once, named, s, y, k);
      }
    }
  }

  /** The making first, and then the put. */
  lemma {:induction false} MadeThenPut(
    lines: seq<string>, named: set<string>, u: string, x: seq<string>, s: string, y: seq<string>)
    requires Tidy(lines, named) && TextNames(named) && u in named && s in named && Fits(x, named) && Fits(y, named)
    requires Has(lines, u) && !Settled(lines, u) && !Has(lines, s)
    ensures var other := Put(Put(lines, s, y), u, x);
      NextTo(other, named, u, s)
      && (Gap(other, u, s) != |x| + 3 || NextLine(other, u) != NextLine(lines, u))
  {
    UnsettledIsLast(lines, named, u);
    var made := Put(lines, s, y);
    var other := Put(made, u, x);
    hide Put, Tidy, Fits, FirstAt, Tail, NextLine, Blank, Solid;
    KeepsTidy(lines, named, s, y);
    OwnPlace(lines, named, s, y);
    PlaceAfterPut(lines, named, s, y, u);
    OwnPlace(made, named, u, x);
    OwnNext(made, named, u, x);
    PlaceAfterPut(made, named, u, x, s);
    forall k | k in named && Has(other, k)
      ensures FirstAt(other, k).value <= FirstAt(other, u).value || FirstAt(other, s).value <= FirstAt(other, k).value
    {
      if k != s && k != u {
        PlaceAfterPut(lines, named, s, y, k);
        PlaceAfterPut(made, named, u, x, k);
      }
    }
  }

  lemma {:induction false} FrontWithout(lines: seq<string>, order: seq<string>, h: string, before: seq<string>, rest: seq<string>)
    requires Once(order) && h in order && Without(order, h, before, rest)
    ensures Has(lines, h) ==> (h in Front(lines, order) <==> Makes(lines, before) == [])
    ensures !Has(lines, h) && Makes(lines, before) == [] ==> Front(lines, order) == before
  {
    var after :| order == before + [h] + after && rest == before + after;
    assert forall i :: 0 <= i < |after| ==> after[i] in rest;
    hide Has, Makes, Front;
    FrontIs(lines, before, h, after);
  }

  /** The one heading that is not settled is put under before any section is made exactly where it is in the front. */
  lemma {:induction false} EndsFirstIs(lines: seq<string>, named: set<string>, order: seq<string>, u: string)
    requires Tidy(lines, named) && TextNames(named) && u in named && Has(lines, u) && !Settled(lines, u)
    requires forall h | h in order :: h in named
    ensures EndsFirst(lines, order) <==> u in Front(lines, order)
  {
    FrontIsOf(lines, order);
    hide Has, Settled, Tidy, Front;
    if EndsFirst(lines, order) {
      var h :| h in Front(lines, order) && !Settled(lines, h);
      if h != u {
        OneUnsettled(lines, named, h, u);
      }
    }
  }

  /** A section that is missing can be made first where no heading before it is unsettled. */
  lemma {:induction false} MadePasses(lines: seq<string>, order: seq<string>, s: string, before: seq<string>, rest: seq<string>)
    requires Once(order) && s in order && Without(order, s, before, rest) && !Has(lines, s) && Makes(lines, before) == []
    requires !EndsFirst(lines, order)
    ensures Passes(lines, s, before)
  {
    NothingMade(lines, before);
    FrontWithout(lines, order, s, before, rest);
    hide Has, Settled, Makes, Front;
  }

  /** After the making of a section, or a put under the heading that is not settled, all is settled. */
  lemma {:induction false} ThenCalm(
    lines: seq<string>, named: set<string>, s: string, block: seq<string>, order: seq<string>)
    requires Tidy(lines, named) && TextNames(named) && s in named && Fits(block, named)
    requires !Has(lines, s) || !Settled(lines, s)
    requires s !in order && forall h | h in order :: h in named
    ensures Calm(Put(lines, s, block), order)
  {
    hide Put, Tidy, Fits, Settled;
    FitsIsClean(block, named);
    forall h | h in order && Has(Put(lines, s, block), h) ensures Settled(Put(lines, s, block), h) {
      HasAfterPut(lines, named, s, block, h);
      if Has(lines, s) {
        OneUnsettled(lines, named, s, h);
      }
      SettledStays(lines, named, s, block, h);
    }
  }

  /** One heading, in both orders, put first: then all is calm. */
  lemma {:induction false} CalmFrom(
    lines: seq<string>, named: set<string>, one: seq<string>, other: seq<string>, blocks: map<string, seq<string>>,
    s: string, p: seq<string>, rest: seq<string>, x: seq<string>, left: seq<string>)
    requires Tidy(lines, named) && TextNames(named) && Suiting(blocks, named)
    requires Rearranged(one, other) && Rearranged(rest, left) && forall h | h in one :: h in blocks
    requires Without(one, s, p, rest) && Without(other, s, x, left)
    requires Passes(lines, s, p) && Passes(lines, s, x) && s in named
    requires !Has(lines, s) || !Settled(lines, s)
    requires Makes(lines, p) == [] && Makes(lines, x) == []
    ensures PutAll(lines, one, blocks) == PutAll(lines, other, blocks) <==> Makes(lines, one) == Makes(lines, other)
  {
    assert forall h :: h in rest ==> h in one && h != s;
    hide Put, Tidy, Has, Settled, PutAll, Passes, Fits, TextNames, Calm, Makes, Suiting;
    ReducedBy(lines, named, one, other, blocks, s, p, rest, x, left);
    BlockFits(blocks, named, s);
    InBlocks(one, blocks, named);
    ThenCalm(lines, named, s, blocks[s], rest);
    CalmOrders(Put(lines, s, blocks[s]), named, rest, left, blocks);
  }

  /** Where only one of the orders puts under the unsettled heading first, they come to different lines. */
  lemma {:induction false} SidesTell(
    lines: seq<string>, named: set<string>, one: seq<string>, other: seq<string>, blocks: map<string, seq<string>>, u: string)
    requires Tidy(lines, named) && TextNames(named) && Suiting(blocks, named)
    requires Rearranged(one, other) && forall h | h in one :: h in blocks
    requires u in one && Has(lines, u) && !Settled(lines, u) && Makes(lines, one) != [] && Makes(lines, other) != []
    requires EndsFirst(lines, one) && !EndsFirst(lines, other) && Makes(lines, one)[0] == Makes(lines, other)[0]
    ensures PutAll(lines, one, blocks) != PutAll(lines, other, blocks)
  {
    var s := Makes(lines, one)[0];
    assert s in Makes(lines, one);
    MakesAre(lines, one);
    BlockFits(blocks, named, u);
    BlockFits(blocks, named, s);
    InBlocks(one, blocks, named);
    var p, rest, x, left := WithoutBoth(one, other, u);
    var p2, rest2 := TakenOut(rest, s);
    var y, back := TakenOut(other, s);
    var y2, back2 := TakenOut(back, u);
    hide Put, Tidy, Has, Settled, Suiting, PutAll, Passes, Fits, TextNames, Calm, Makes, EndsFirst, Front, NextTo, Gap, NextLine;
    PutUThenMadeS(lines, named, one, blocks, u, s, p, rest, p2, rest2);
    MadeSThenPutU(lines, named, other, blocks, u, s, y, back, y2, back2);
  }

  lemma {:induction false} PutUThenMadeS(
    lines: seq<string>, named: set<string>, order: seq<string>, blocks: map<string, seq<string>>, u: string, s: string,
    p: seq<string>, rest: seq<string>, x: seq<string>, left: seq<string>)
    requires Tidy(lines, named) && TextNames(named) && Suiting(blocks, named)
    requires Once(order) && (forall h | h in order :: h in blocks) && u in order && s in order && u != s
    requires Without(order, u, p, rest) && Without(rest, s, x, left)
    requires Has(lines, u) && !Settled(lines, u) && Makes(lines, order) != [] && s == Makes(lines, order)[0]
    requires EndsFirst(lines, order)
    ensures var more := PutAll(lines, order, blocks);
      NextTo(more, named, u, s) && Gap(more, u, s) == |blocks[u]| + 3 && NextLine(more, u) == NextLine(lines, u)
  {
    BlockFits(blocks, named, u);
    BlockFits(blocks, named, s);
    InBlocks(order, blocks, named);
    assert u in named && s in named;
    MakesAre(lines, order);
    assert s in Makes(lines, order);
    NothingMade(lines, p);
    var once := Put(lines, u, blocks[u]);
    hide Put, Tidy, Settled, Suiting, PutAll, Fits, TextNames, Makes, EndsFirst, Front, NextTo, Gap, NextLine, FirstAt;
    EndsFirstIs(lines, named, order, u);
    FrontWithout(lines, order, u, p, rest);
    MadeWithoutIt(lines, order, u, p, rest);
    assert Passes(lines, u, p);
    PutWithoutIt(lines, named, order, u, p, rest, blocks);
    HasAfterPut(lines, named, u, blocks[u], s) by { FitsIsClean(blocks[u], named); }
    MadeWithoutIt(once, rest, s, x, left);
    ThenCalm(lines, named, u, blocks[u], rest);
    CalmPasses(once, rest, s, x);
    PutWithoutIt(once, named, rest, s, x, left, blocks);
    PutThenMade(lines, named, u, blocks[u], s, blocks[s]);
    GapHolds(Put(once, s, blocks[s]), named, left, blocks, u, s);
  }

  lemma {:induction false} MadeSThenPutU(
    lines: seq<string>, named: set<string>, order: seq<string>, blocks: map<string, seq<string>>, u: string, s: string,
    p: seq<string>, rest: seq<string>, x: seq<string>, left: seq<string>)
    requires Tidy(lines, named) && TextNames(named) && Suiting(blocks, named)
    requires Once(order) && (forall h | h in order :: h in blocks) && u in order && s in order && u != s
    requires Without(order, s, p, rest) && Without(rest, u, x, left)
    requires Has(lines, u) && !Settled(lines, u) && Makes(lines, order) != [] && s == Makes(lines, order)[0]
    requires !EndsFirst(lines, order)
    ensures var more := PutAll(lines, order, blocks);
      NextTo(more, named, u, s) && (Gap(more, u, s) != |blocks[u]| + 3 || NextLine(more, u) != NextLine(lines, u))
  {
    BlockFits(blocks, named, u);
    BlockFits(blocks, named, s);
    InBlocks(order, blocks, named);
    assert u in named && s in named;
    MakesAre(lines, order);
    assert s in Makes(lines, order);
    var made := Put(lines, s, blocks[s]);
    hide Put, Tidy, Settled, Suiting, PutAll, Fits, TextNames, Makes, EndsFirst, Front, NextTo, Gap, NextLine, FirstAt;
    MadeWithoutIt(lines, order, s, p, rest);
    MadePasses(lines, order, s, p, rest);
    PutWithoutIt(lines, named, order, s, p, rest, blocks);
    HasAfterPut(lines, named, s, blocks[s], u) by { FitsIsClean(blocks[s], named); }
    ThenCalm(lines, named, s, blocks[s], rest);
    SettledStays(lines, named, s, blocks[s], u);
    SettledPasses(made, rest, u, x);
    PutWithoutIt(made, named, rest, u, x, left, blocks);
    MadeThenPut(lines, named, u, blocks[u], s, blocks[s]);
    GapHolds(Put(made, u, blocks[u]), named, left, blocks, u, s);
  }

  lemma SettledPasses(lines: seq<string>, order: seq<string>, u: string, before: seq<string>)
    requires Calm(lines, order) && u in order && Has(lines, u) && Settled(lines, u) && forall h | h in before :: h in order
    ensures Passes(lines, u, before)
  {
    hide Has, Settled;
  }

  /**
   Any two orders of the same puts come to the same lines exactly when they make the
   missing sections in the same order and, if there are any, both or neither put
   under a heading that is not settled before they make the first.
   */
  lemma {:induction false} AnyOrders(
    lines: seq<string>, named: set<string>, one: seq<string>, other: seq<string>, blocks: map<string, seq<string>>)
    requires Tidy(lines, named) && TextNames(named) && Suiting(blocks, named)
    requires Rearranged(one, other) && forall h | h in one :: h in blocks
    ensures PutAll(lines, one, blocks) == PutAll(lines, other, blocks) <==>
      (Makes(lines, one) == Makes(lines, other)
       && (Makes(lines, one) == [] || (EndsFirst(lines, one) <==> EndsFirst(lines, other))))
  {
    InBlocks(one, blocks, named);
    NothingMade(lines, one);
    MakesAre(lines, one);
    MakesAre(lines, other);
    FrontIsOf(lines, one);
    FrontIsOf(lines, other);
    if Calm(lines, one) {
      CalmOrders(lines, named, one, other, blocks);
    } else {
      var u :| u in one && Has(lines, u) && !Settled(lines, u);
      assert Makes(lines, other) != [] by {
        assert Makes(lines, one)[0] in Makes(lines, one);
        assert Makes(lines, one)[0] in Makes(lines, other);
      }
      hide Put, Tidy, Has, Settled, Suiting, PutAll, Fits, TextNames, Makes, EndsFirst, Front, Calm;
      if Makes(lines, one)[0] != Makes(lines, other)[0] {
        FirstMadeTells(lines, named, one, other, blocks);
      } else {
        OneUnsettledOrders(lines, named, one, other, blocks, u);
      }
    }
  }

  lemma {:induction false} OneUnsettledOrders(
    lines: seq<string>, named: set<string>, one: seq<string>, other: seq<string>, blocks: map<string, seq<string>>, u: string)
    requires Tidy(lines, named) && TextNames(named) && Suiting(blocks, named)
    requires Rearranged(one, other) && (forall h | h in one :: h in blocks) && (forall h | h in one :: h in named)
    requires u in one && Has(lines, u) && !Settled(lines, u) && Makes(lines, one) != [] && Makes(lines, other) != []
    requires Makes(lines, one)[0] == Makes(lines, other)[0]
    ensures PutAll(lines, one, blocks) == PutAll(lines, other, blocks) <==>
      (Makes(lines, one) == Makes(lines, other) && (EndsFirst(lines, one) <==> EndsFirst(lines, other)))
  {
    var s := Makes(lines, one)[0];
    assert s in Makes(lines, one);
    MakesAre(lines, one);
    hide Put, Tidy, Has, Settled, Suiting, PutAll, Fits, TextNames, Makes, EndsFirst, Front, Calm;
    if EndsFirst(lines, one) && EndsFirst(lines, other) {
      var p, rest, x, left := WithoutBoth(one, other, u);
      EndsFirstIs(lines, named, one, u);
      EndsFirstIs(lines, named, other, u);
      FrontWithout(lines, one, u, p, rest);
      FrontWithout(lines, other, u, x, left);
      FrontPasses(lines, u, p);
      FrontPasses(lines, u, x);
      CalmFrom(lines, named, one, other, blocks, u, p, rest, x, left);
    } else if !EndsFirst(lines, one) && !EndsFirst(lines, other) {
      var p, rest, x, left := WithoutBoth(one, other, s);
      MadeWithoutIt(lines, one, s, p, rest);
      MadeWithoutIt(lines, other, s, x, left);
      MadePasses(lines, one, s, p, rest);
      MadePasses(lines, other, s, x, left);
      CalmFrom(lines, named, one, other, blocks, s, p, rest, x, left);
    } else if EndsFirst(lines, one) {
      SidesTell(lines, named, one, other, blocks, u);
    } else {
      SidesTell(lines, named, other, one, blocks, u);
    }
  }

  lemma FrontPasses(lines: seq<string>, u: string, before: seq<string>)
    requires Has(lines, u) && Makes(lines, before) == []
    ensures Passes(lines, u, before)
  {
    NothingMade(lines, before);
    hide Has, Settled;
  }
}
