/** An arm's totals: its items by verdict, by credit and by provenance tag. */
module Totals {
  import opened Wrappers
  import opened Scores
  import opened Provenance

  type Levels = map<Item, Option<nat>>

  /** Every item has a level, and a known level is a rank of the item's scale. */
  ghost predicate Levelled(scales: map<Item, Scale>, levels: Levels) {
    forall item | item in scales ::
      item in levels && (levels[item].Some? ==> levels[item].value < Size(scales[item]))
  }

  ghost function ItemsAt(scales: map<Item, Scale>, levels: Levels, scale: Scale, level: Option<nat>): set<Item>
    requires Levelled(scales, levels)
  {
    set item | item in scales && scales[item] == scale && levels[item] == level
  }

  ghost function CreditedItems(scales: map<Item, Scale>, levels: Levels): set<Item>
    requires Levelled(scales, levels)
  {
    set item | item in scales && Credited(scales[item], levels[item])
  }

  ghost function UnknownItems(scales: map<Item, Scale>, levels: Levels): set<Item>
    requires Levelled(scales, levels)
  {
    set item | item in scales && levels[item].None?
  }

  ghost function CreditableItems(scales: map<Item, Scale>): set<Item> {
    set item | item in scales && CreditLine(scales[item]).Some?
  }

  datatype ArmTotals = ArmTotals(
    byScale: map<Scale, seq<nat>>,
    credited: nat,
    creditItems: nat,
    unknown: nat)

  function Sum(counts: seq<nat>): nat {
    if counts == [] then 0 else counts[0] + Sum(counts[1..])
  }

  function SumOn(byScale: map<Scale, seq<nat>>, scale: Scale): nat {
    if scale in byScale then Sum(byScale[scale]) else 0
  }

  /** All the verdict counts of an arm together. */
  function SumOfVerdicts(byScale: map<Scale, seq<nat>>): nat {
    SumOn(byScale, Key) + SumOn(byScale, Fact) + SumOn(byScale, Claim)
  }

  lemma {:induction false} SumOfIncrement(counts: seq<nat>, r: nat)
    requires r < |counts|
    ensures Sum(counts[r := counts[r] + 1]) == Sum(counts) + 1
  {
    if r > 0 {
      assert counts[r := counts[r] + 1][1..] == counts[1..][r - 1 := counts[1..][r - 1] + 1];
      SumOfIncrement(counts[1..], r - 1);
    }
  }

  lemma {:induction false} SumOfZeros(n: nat)
    ensures Sum(seq(n, _ => 0)) == 0
  {
    if n > 0 {
      assert seq(n, _ => 0)[1..] == seq(n - 1, _ => 0);
      SumOfZeros(n - 1);
    }
  }

  ghost predicate CountsItems(byScale: map<Scale, seq<nat>>, scales: map<Item, Scale>, levels: Levels)
    requires Levelled(scales, levels)
    requires forall s :: s in byScale ==> |byScale[s]| == Size(s)
  {
    forall s, r :: s in byScale && 0 <= r < Size(s) ==>
      byScale[s][r] == |ItemsAt(scales, levels, s, Some(r))|
  }

  /** `byScale` counts the items at each rank, and with the unknown ones counts every item once. */
  ghost predicate VerdictTallies(byScale: map<Scale, seq<nat>>, unknown: nat, scales: map<Item, Scale>, levels: Levels)
    requires Levelled(scales, levels)
  {
    && byScale.Keys == scales.Values
    && (forall s :: s in byScale ==> |byScale[s]| == Size(s))
    && CountsItems(byScale, scales, levels)
    && unknown == |UnknownItems(scales, levels)|
    && SumOfVerdicts(byScale) + unknown == |scales|
  }

  ghost predicate CreditTallies(credited: nat, creditItems: nat, scales: map<Item, Scale>, levels: Levels)
    requires Levelled(scales, levels)
  {
    && creditItems == |CreditableItems(scales)|
    && credited == |CreditedItems(scales, levels)|
  }

  ghost predicate Tallies(t: ArmTotals, scales: map<Item, Scale>, levels: Levels)
    requires Levelled(scales, levels)
  {
    && VerdictTallies(t.byScale, t.unknown, scales, levels)
    && CreditTallies(t.credited, t.creditItems, scales, levels)
  }

  /** The counts of one scale, all zero before any of its items is counted. */
  function WordsOn(byScale: map<Scale, seq<nat>>, scale: Scale): (words: seq<nat>)
    requires scale in byScale ==> |byScale[scale]| == Size(scale)
    ensures |words| == Size(scale)
    ensures scale !in byScale ==> forall r :: 0 <= r < |words| ==> words[r] == 0
  {
    if scale in byScale then byScale[scale] else seq(Size(scale), _ => 0)
  }

  /** The counts with one more item of the scale at `level`. */
  function WithWord(byScale: map<Scale, seq<nat>>, scale: Scale, level: Option<nat>): map<Scale, seq<nat>>
    requires scale in byScale ==> |byScale[scale]| == Size(scale)
    requires level.Some? ==> level.value < Size(scale)
  {
    var words := WordsOn(byScale, scale);
    byScale[scale := if level.None? then words else words[level.value := words[level.value] + 1]]
  }

  /** Whether one new element joined a set, and what that does to its size. */
  ghost predicate Joins<T>(before: set<T>, after: set<T>, x: T, joins: bool) {
    x !in before && after == if joins then before + {x} else before
  }

  lemma {:induction false} ItemsAtStep(
    scales: map<Item, Scale>, levels: Levels, item: Item, scale: Scale, s: Scale, level: Option<nat>)
    requires item !in scales
    requires Levelled(scales, levels) && Levelled(scales[item := scale], levels)
    ensures Joins(ItemsAt(scales, levels, s, level), ItemsAt(scales[item := scale], levels, s, level), item,
                  s == scale && level == levels[item])
  {
    if s == scale && level == levels[item] {
      assert ItemsAt(scales[item := scale], levels, s, level) == ItemsAt(scales, levels, s, level) + {item};
    } else {
      assert ItemsAt(scales[item := scale], levels, s, level) == ItemsAt(scales, levels, s, level);
    }
  }

  lemma {:induction false} CountAtStep(
    scales: map<Item, Scale>, levels: Levels, item: Item, scale: Scale, s: Scale, level: Option<nat>)
    requires item !in scales
    requires Levelled(scales, levels) && Levelled(scales[item := scale], levels)
    ensures |ItemsAt(scales[item := scale], levels, s, level)|
         == |ItemsAt(scales, levels, s, level)| + (if s == scale && level == levels[item] then 1 else 0)
    ensures s !in scales.Values ==> |ItemsAt(scales, levels, s, level)| == 0
  {
    ItemsAtStep(scales, levels, item, scale, s, level);
    if s !in scales.Values {
      assert ItemsAt(scales, levels, s, level) == {};
    }
  }

  lemma {:induction false} UnknownStep(scales: map<Item, Scale>, levels: Levels, item: Item, scale: Scale)
    requires item !in scales
    requires Levelled(scales, levels) && Levelled(scales[item := scale], levels)
    ensures |UnknownItems(scales[item := scale], levels)|
         == |UnknownItems(scales, levels)| + (if levels[item].None? then 1 else 0)
    ensures |scales[item := scale]| == |scales| + 1
  {
    var before, after := UnknownItems(scales, levels), UnknownItems(scales[item := scale], levels);
    assert Joins(before, after, item, levels[item].None?);
  }

  lemma {:induction false} SumStep(byScale: map<Scale, seq<nat>>, scale: Scale, level: Option<nat>)
    requires forall s :: s in byScale ==> |byScale[s]| == Size(s)
    requires level.Some? ==> level.value < Size(scale)
    ensures SumOfVerdicts(WithWord(byScale, scale, level))
         == SumOfVerdicts(byScale) + (if level.Some? then 1 else 0)
  {
    var words := WordsOn(byScale, scale);
    if scale !in byScale {
      SumOfZeros(Size(scale));
      assert words == seq(Size(scale), _ => 0);
    }
    assert Sum(words) == SumOn(byScale, scale);
    if level.Some? {
      SumOfIncrement(words, level.value);
    }
    var after := WithWord(byScale, scale, level);
    assert forall s :: s != scale ==> SumOn(after, s) == SumOn(byScale, s);
    assert SumOn(after, scale) == SumOn(byScale, scale) + (if level.Some? then 1 else 0);
  }

  lemma {:induction false} CountsItemsStep(
    byScale: map<Scale, seq<nat>>, scales: map<Item, Scale>, levels: Levels, item: Item, scale: Scale)
    requires item !in scales
    requires Levelled(scales, levels) && Levelled(scales[item := scale], levels)
    requires forall s :: s in byScale ==> |byScale[s]| == Size(s)
    requires byScale.Keys == scales.Values && CountsItems(byScale, scales, levels)
    ensures CountsItems(WithWord(byScale, scale, levels[item]), scales[item := scale], levels)
  {
    var next := WithWord(byScale, scale, levels[item]);
    forall s, r | s in next && 0 <= r < Size(s)
      ensures next[s][r] == |ItemsAt(scales[item := scale], levels, s, Some(r))|
    {
      hide ItemsAt;
      CountAtStep(scales, levels, item, scale, s, Some(r));
    }
  }

  lemma {:induction false} VerdictTalliesStep(
    byScale: map<Scale, seq<nat>>, unknown: nat,
    scales: map<Item, Scale>, levels: Levels, item: Item, scale: Scale)
    requires item !in scales
    requires Levelled(scales, levels) && Levelled(scales[item := scale], levels)
    requires VerdictTallies(byScale, unknown, scales, levels)
    ensures scale in byScale ==> |byScale[scale]| == Size(scale)
    ensures VerdictTallies(WithWord(byScale, scale, levels[item]),
                           unknown + (if levels[item].None? then 1 else 0), scales[item := scale], levels)
  {
    hide CountsItems, ItemsAt, UnknownItems, SumOfVerdicts;
    ValuesStep(scales, item, scale);
    UnknownStep(scales, levels, item, scale);
    CountsItemsStep(byScale, scales, levels, item, scale);
    SumStep(byScale, scale, levels[item]);
  }

  lemma {:induction false} CreditedStep(scales: map<Item, Scale>, levels: Levels, item: Item, scale: Scale)
    requires item !in scales
    requires Levelled(scales, levels) && Levelled(scales[item := scale], levels)
    ensures |CreditedItems(scales[item := scale], levels)|
         == |CreditedItems(scales, levels)| + (if Credited(scale, levels[item]) then 1 else 0)
  {
    var before, after := CreditedItems(scales, levels), CreditedItems(scales[item := scale], levels);
    assert Joins(before, after, item, Credited(scale, levels[item]));
  }

  lemma {:induction false} CreditTalliesStep(
    credited: nat, creditItems: nat,
    scales: map<Item, Scale>, levels: Levels, item: Item, scale: Scale)
    requires item !in scales
    requires Levelled(scales, levels) && Levelled(scales[item := scale], levels)
    requires CreditTallies(credited, creditItems, scales, levels)
    ensures CreditTallies(
              credited + (if Credited(scale, levels[item]) then 1 else 0),
              creditItems + (if CreditLine(scale).Some? then 1 else 0), scales[item := scale], levels)
  {
    var after := scales[item := scale];
    assert Joins(CreditableItems(scales), CreditableItems(after), item, CreditLine(scale).Some?);
    CreditedStep(scales, levels, item, scale);
  }

  lemma {:induction false} ValuesStep(scales: map<Item, Scale>, item: Item, scale: Scale)
    requires item !in scales
    ensures scales[item := scale].Values == scales.Values + {scale}
  {
    var after := scales[item := scale];
    assert after[item] == scale;
    forall s | s in scales.Values ensures s in after.Values {
      var i :| i in scales && scales[i] == s;
      assert after[i] == s;
    }
  }

  /**
   One pass over the items. Nothing is lost: the verdict counts and the unknown
   items add up to the items there are.
   */
  method TotalsOf(scales: map<Item, Scale>, levels: Levels) returns (t: ArmTotals)
    requires Levelled(scales, levels)
    ensures Tallies(t, scales, levels)
  {
    hide VerdictTallies, CreditTallies;
    var byScale: map<Scale, seq<nat>> := map[];
    var credited, creditItems, unknown := 0, 0, 0;
    var todo := scales.Keys;
    ghost var done: map<Item, Scale> := map[];
    EmptyTallies(levels);
    while todo != {}
      invariant todo <= scales.Keys && done.Keys == scales.Keys - todo
      invariant forall item :: item in done ==> done[item] == scales[item]
      invariant Levelled(done, levels)
      invariant VerdictTallies(byScale, unknown, done, levels)
      invariant CreditTallies(credited, creditItems, done, levels)
    {
      var item :| item in todo;
      var scale, level := scales[item], levels[item];
      VerdictTalliesStep(byScale, unknown, done, levels, item, scale);
      CreditTalliesStep(credited, creditItems, done, levels, item, scale);
      byScale := WithWord(byScale, scale, level);
      if level.None? {
        unknown := unknown + 1;
      }
      if CreditLine(scale).Some? {
        creditItems := creditItems + 1;
        credited := credited + (if Credited(scale, level) then 1 else 0);
      }
      done := done[item := scale];
      todo := todo - {item};
    }
    assert done == scales;
    t := ArmTotals(byScale, credited, creditItems, unknown);
    assert Tallies(t, scales, levels);
  }

  lemma {:induction false} EmptyTallies(levels: Levels)
    ensures Levelled(map[], levels)
    ensures VerdictTallies(map[], 0, map[], levels) && CreditTallies(0, 0, map[], levels)
  {
    assert UnknownItems(map[], levels) == {};
    assert CreditableItems(map[]) == {};
    assert CreditedItems(map[], levels) == {};
  }

  // ----- Credited items by tag ----------------------------------------------

  datatype TagTotals = TagTotals(byTag: map<Tag, nat>, credited: nat, byAnalysis: nat, onlyByLookup: nat)

  const TAGS: seq<Tag> := [Own, Both, LookupOnly, Untold, NoEntry, NotRead, Mixed]

  function SumByTag(byTag: map<Tag, nat>): nat
    requires byTag.Keys == set tag | tag in TAGS
  {
    byTag[Own] + byTag[Both] + byTag[LookupOnly] + byTag[Untold]
      + byTag[NoEntry] + byTag[NotRead] + byTag[Mixed]
  }

  /** Every held tag is one of the seven, so the seven counts add up to all that is held. */
  lemma {:induction false} TagsPartition<K>(held: map<K, Tag>)
    ensures |held| == |Tagged(held, Own)| + |Tagged(held, Both)| + |Tagged(held, LookupOnly)|
              + |Tagged(held, Untold)| + |Tagged(held, NoEntry)| + |Tagged(held, NotRead)| + |Tagged(held, Mixed)|
    decreases |held|
  {
    if held == map[] {
      assert forall tag :: Tagged(held, tag) == {};
    } else {
      hide Tagged;
      var item :| item in held;
      var rest := held - {item};
      assert held == rest[item := held[item]];
      TagsPartition(rest);
      TaggedStep(rest, item, held[item]);
    }
  }

  /** The counts with every tag in, each at nought where it has none. */
  function Filled(counts: map<Tag, nat>): (byTag: map<Tag, nat>)
    ensures byTag.Keys == set tag | tag in TAGS
  {
    map tag | tag in TAGS :: if tag in counts then counts[tag] else 0
  }

  lemma {:induction false} FilledCounts(held: map<Item, Tag>, counts: map<Tag, nat>)
    requires counts.Keys == held.Values && forall tag :: tag in counts ==> counts[tag] == |Tagged(held, tag)|
    ensures forall tag :: tag in Filled(counts) ==> Filled(counts)[tag] == |Tagged(held, tag)|
  {
    forall tag | tag !in counts ensures |Tagged(held, tag)| == 0 {
      assert Tagged(held, tag) == {};
    }
  }

  /** The credited items counted by tag, and the two columns a report prints. */
  method Split(held: map<Item, Tag>) returns (t: TagTotals)
    ensures t.byTag.Keys == set tag | tag in TAGS
    ensures forall tag :: tag in t.byTag ==> t.byTag[tag] == |Tagged(held, tag)|
    ensures t.credited == |held| == SumByTag(t.byTag)
    ensures t.byAnalysis == |set item | item in held && ByAnalysis(held[item])|
    ensures t.onlyByLookup == |Tagged(held, LookupOnly)|
  {
    var counts := CountTags(held);
    FilledCounts(held, counts);
    TagsPartition(held);
    AnalysisColumn(held);
    hide Tagged, Filled;
    var byTag := Filled(counts);
    t := TagTotals(byTag, |held|, byTag[Own] + byTag[Both], byTag[LookupOnly]);
  }

  lemma {:induction false} AnalysisColumn(held: map<Item, Tag>)
    ensures |set item | item in held && ByAnalysis(held[item])| == |Tagged(held, Own)| + |Tagged(held, Both)|
  {
    assert (set item | item in held && ByAnalysis(held[item])) == Tagged(held, Own) + Tagged(held, Both);
  }
}
