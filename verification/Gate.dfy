/** The known-answer gate. */
module Gate {
  // Nothing the baseline found may drop for a candidate to pass. The relation the
  // gate decides is a preorder on arms.

  import opened Sets
  import opened Wrappers
  import opened Scores
  import opened OrderStatistics
  import opened Arms
  import opened Provenance
  import opened Totals

  datatype Outcome = Dropped | Improved | Held | NotGated

  /** An item's outcome from its two verdicts. */
  function Compare(baseline: Option<int>, candidate: Option<int>): Outcome {
    if baseline.None? then NotGated
    else if candidate.None? || candidate.value < baseline.value then Dropped
    else if candidate.value > baseline.value then Improved
    else Held
  }

  datatype Row = Row(
    scale: Scale,
    baseline: Option<nat>,
    candidate: Option<nat>,
    runsAtBaselineVerdict: Option<nat>,
    baselineTag: Option<Tag>,
    candidateTag: Option<Tag>,
    outcome: Outcome)

  datatype Report = Report(
    passed: bool,
    rows: map<Item, Row>,
    dropped: set<Item>,
    improved: set<Item>,
    notGated: set<Item>,
    newItems: set<Item>,
    tagChanged: set<Item>,
    baselineBeyond: Option<int>,
    candidateBeyond: Option<int>,
    beyondOutcome: Outcome,
    baselineTotals: ArmTotals,
    candidateTotals: ArmTotals,
    baselineTags: TagTotals,
    candidateTags: TagTotals)

  // ----- What the gate decides ----------------------------------------------

  /** The beyond-human counts the runs state, in run order. */
  function BeyondCounts(runs: seq<ScoredRun>): seq<int> {
    if runs == [] then []
    else
      BeyondCounts(runs[..|runs| - 1])
        + (if runs[|runs| - 1].beyond.Some? then [runs[|runs| - 1].beyond.value] else [])
  }

  /** The largest beyond-human count `m` of the arm's runs reach. */
  function ArmBeyond(a: Arm): Option<int>
    requires a.m >= 1
  {
    OrderStatistic(BeyondCounts(a.runs), a.m)
  }

  /** The arms can be compared: one scale per item within each and across both. */
  ghost predicate Comparable(baseline: Arm, candidate: Arm) {
    && OneScaleEach(baseline.runs) && OneScaleEach(candidate.runs)
    && ScaleMap(baseline.runs) != map[]
    && SharedScales(baseline, candidate)
  }

  ghost predicate SharedScales(baseline: Arm, candidate: Arm) {
    forall item | item in ScaleMap(baseline.runs) && item in ScaleMap(candidate.runs) ::
      ScaleMap(baseline.runs)[item] == ScaleMap(candidate.runs)[item]
  }

  /** The two verdicts the gate puts side by side for an item of the baseline. */
  ghost function ItemOutcome(baseline: Arm, candidate: Arm, item: Item): Outcome
    requires item in ScaleMap(baseline.runs)
  {
    var scale := ScaleMap(baseline.runs)[item];
    Compare(ArmLevel(baseline, item, scale), ArmLevel(candidate, item, scale))
  }

  ghost predicate Passes(baseline: Arm, candidate: Arm)
    requires baseline.m >= 1 && candidate.m >= 1
  {
    && (forall item :: item in ScaleMap(baseline.runs) ==> ItemOutcome(baseline, candidate, item) != Dropped)
    && Compare(ArmBeyond(baseline), ArmBeyond(candidate)) != Dropped
  }

  // ----- The gate is a preorder ---------------------------------------------

  /** An arm gated against itself passes: every item is held or not gated, and so is the count. */
  lemma {:induction false} GateIsReflexive(a: Arm)
    requires a.m >= 1 && OneScaleEach(a.runs) && ScaleMap(a.runs) != map[]
    ensures Comparable(a, a) && Passes(a, a)
    ensures forall item :: item in ScaleMap(a.runs) ==> ItemOutcome(a, a, item) in {Held, NotGated}
    ensures Compare(ArmBeyond(a), ArmBeyond(a)) in {Held, NotGated}
  {}

  /** An item no run of the arm scores is below every verdict. */
  lemma {:induction false} UnscoredIsUnreached(a: Arm, item: Item, scale: Scale)
    requires a.m >= 1 && item !in ScaleMap(a.runs)
    ensures ArmLevel(a, item, scale) == None
  {
    UnscoredItem(a.runs, item);
    BestBelowCharacterised(Known(a.runs, item), a.m, Size(scale));
  }

  /** A gated item that did not drop is scored by the candidate. */
  lemma {:induction false} KeptItemIsScored(baseline: Arm, candidate: Arm, item: Item)
    requires candidate.m >= 1 && item in ScaleMap(baseline.runs)
    requires ItemOutcome(baseline, candidate, item) !in {Dropped, NotGated}
    ensures item in ScaleMap(candidate.runs)
  {
    if item !in ScaleMap(candidate.runs) {
      UnscoredIsUnreached(candidate, item, ScaleMap(baseline.runs)[item]);
    }
  }

  /**
   Passing carries over: if the middle arm keeps what the first found and the
   last keeps what the middle found, the last keeps what the first found. Items
   absent from an arm and unknown beyond-human counts are covered.
   */
  lemma {:induction false} GateIsTransitive(first: Arm, middle: Arm, last: Arm)
    requires first.m >= 1 && middle.m >= 1 && last.m >= 1
    requires Comparable(first, middle) && Passes(first, middle)
    requires Comparable(middle, last) && Passes(middle, last)
    ensures Passes(first, last)
  {
    forall item | item in ScaleMap(first.runs)
      ensures ItemOutcome(first, last, item) != Dropped
    {
      assert ItemOutcome(first, middle, item) != Dropped;
      if ItemOutcome(first, middle, item) != NotGated {
        KeptItemIsScored(first, middle, item);
        assert ItemOutcome(middle, last, item) != Dropped;
      }
    }
  }

  /**
   The outer arms may still refuse comparison, and then only over an item the
   first arm does not gate and the middle arm does not score.
   */
  lemma {:induction false} OnlyUngatedItemsCanMismatch(first: Arm, middle: Arm, last: Arm)
    requires first.m >= 1 && middle.m >= 1 && last.m >= 1
    requires Comparable(first, middle) && Passes(first, middle)
    requires Comparable(middle, last)
    ensures Comparable(first, last) <==> StraysAgree(first, middle, last)
  {
    forall item | item in ScaleMap(first.runs) && item !in ScaleMap(middle.runs)
      ensures ArmLevel(first, item, ScaleMap(first.runs)[item]) == None
    {
      assert ItemOutcome(first, middle, item) != Dropped;
      UnscoredIsUnreached(middle, item, ScaleMap(first.runs)[item]);
    }
    if StraysAgree(first, middle, last) {
      forall item | item in ScaleMap(first.runs) && item in ScaleMap(last.runs)
        ensures ScaleMap(first.runs)[item] == ScaleMap(last.runs)[item]
      {
        if item in ScaleMap(middle.runs) {
          assert ScaleMap(first.runs)[item] == ScaleMap(middle.runs)[item];
        } else {
          assert Stray(first, middle, item);
        }
      }
    }
  }

  /** An item the first arm scores without gating it, and the middle arm does not score. */
  ghost predicate Stray(first: Arm, middle: Arm, item: Item) {
    && item in ScaleMap(first.runs) && item !in ScaleMap(middle.runs)
    && ArmLevel(first, item, ScaleMap(first.runs)[item]) == None
  }

  ghost predicate StraysAgree(first: Arm, middle: Arm, last: Arm) {
    forall item | Stray(first, middle, item) && item in ScaleMap(last.runs) ::
      ScaleMap(first.runs)[item] == ScaleMap(last.runs)[item]
  }

  /** An arm of one run that counts nothing beyond what a human found. */
  function Alone(verdicts: map<Item, Verdict>): Arm {
    Arm([ScoredRun("run", verdicts, None, map[])], 1)
  }

  lemma AloneScales(verdicts: map<Item, Verdict>)
    ensures ScaleMap(Alone(verdicts).runs) == map item | item in verdicts :: verdicts[item].scale
    ensures OneScaleEach(Alone(verdicts).runs) && ArmBeyond(Alone(verdicts)) == None
  {
    var runs := Alone(verdicts).runs;
    assert runs[..0] == [] && ScaleMap(runs[..0]) == map[] && BeyondCounts(runs) == [];
  }

  lemma AloneUnknown(verdicts: map<Item, Verdict>, item: Item, scale: Scale)
    requires item !in verdicts || verdicts[item].level.None?
    ensures ArmLevel(Alone(verdicts), item, scale) == None
  {
    var runs := Alone(verdicts).runs;
    assert runs[..0] == [] && Known(runs, item) == [];
    BestBelowCharacterised([], 1, Size(scale));
  }

  /**
   An item unknown in the first arm, absent from the middle one and on another
   scale in the last: the gate passes twice, and the outer arms cannot be compared.
   */
  lemma {:induction false} OuterArmsCanMismatch() returns (first: Arm, middle: Arm, last: Arm)
    ensures first.m >= 1 && middle.m >= 1 && last.m >= 1
    ensures Comparable(first, middle) && Passes(first, middle)
    ensures Comparable(middle, last) && Passes(middle, last)
    ensures !Comparable(first, last)
  {
    var unknown, other := map["x" := Verdict(Key, None)], map["y" := Verdict(Fact, None)];
    var known := map["x" := Verdict(Fact, Some(3))];
    first, middle, last := Alone(unknown), Alone(other), Alone(known);
    AloneScales(unknown);
    AloneScales(other);
    AloneScales(known);
    AloneUnknown(unknown, "x", Key);
    AloneUnknown(other, "y", Fact);
    hide ArmLevel, ScaleMap, OneScaleEach, ArmBeyond;
    assert "x" in unknown && "y" in other && "x" in known && "x" != "y";
    assert "y" in ScaleMap(middle.runs);
    assert forall item :: item in ScaleMap(first.runs) ==> item == "x";
    assert forall item :: item in ScaleMap(middle.runs) ==> item == "y";
    assert ScaleMap(first.runs)["x"] != ScaleMap(last.runs)["x"];
  }

  /** An item drops exactly when fewer than `m` candidate runs reach the baseline's verdict. */
  lemma {:induction false} DropsWhenTooFewRunsReach(baseline: Arm, candidate: Arm, item: Item)
    requires baseline.m >= 1 && candidate.m >= 1 && item in ScaleMap(baseline.runs)
    ensures var level := ArmLevel(baseline, item, ScaleMap(baseline.runs)[item]);
      ItemOutcome(baseline, candidate, item) == Dropped <==>
        level.Some? && CountAtLeast(Known(candidate.runs, item), level.value) < candidate.m
  {
    var scale := ScaleMap(baseline.runs)[item];
    var known := Known(candidate.runs, item);
    BestBelowCharacterised(Known(baseline.runs, item), baseline.m, Size(scale));
    BestBelowCharacterised(known, candidate.m, Size(scale));
    var level, got := ArmLevel(baseline, item, scale), ArmLevel(candidate, item, scale);
    if level.Some? && got.Some? && level.value <= got.value {
      CountIsAntitone(known, level.value, got.value);
    }
  }

  // ----- Credit -------------------------------------------------------------

  /** The levels of every item of an arm's scales. */
  ghost function LevelsOf(a: Arm): Levels {
    map item | item in ScaleMap(a.runs) :: ArmLevel(a, item, ScaleMap(a.runs)[item])
  }

  lemma {:induction false} LevelsOfAreRanks(a: Arm)
    ensures Levelled(ScaleMap(a.runs), LevelsOf(a))
  {
    forall item | item in ScaleMap(a.runs)
      ensures LevelsOf(a)[item].Some? ==> LevelsOf(a)[item].value < Size(ScaleMap(a.runs)[item])
    {
      BestBelowCharacterised(Known(a.runs, item), a.m, Size(ScaleMap(a.runs)[item]));
    }
  }

  ghost function CreditedBy(a: Arm): set<Item> {
    LevelsOfAreRanks(a);
    CreditedItems(ScaleMap(a.runs), LevelsOf(a))
  }

  /** A passing candidate is credited with everything the baseline was. */
  lemma {:induction false} PassingKeepsCredit(baseline: Arm, candidate: Arm)
    requires baseline.m >= 1 && candidate.m >= 1
    requires Comparable(baseline, candidate) && Passes(baseline, candidate)
    ensures CreditedBy(baseline) <= CreditedBy(candidate)
    ensures |CreditedBy(baseline)| <= |CreditedBy(candidate)|
  {
    forall item | item in CreditedBy(baseline)
      ensures item in CreditedBy(candidate)
    {
      assert ItemOutcome(baseline, candidate, item) != Dropped;
      KeptItemIsScored(baseline, candidate, item);
    }
    SubsetSize(CreditedBy(baseline), CreditedBy(candidate));
  }

  // ----- The gate as it is computed -----------------------------------------

  /** Each item's level and provenance in one arm. */
  method LevelItems(a: Arm, items: set<Item>, scales: map<Item, Scale>)
    returns (levels: Levels, tags: map<Item, Tag>)
    requires ValidArm(a) && items <= scales.Keys
    requires forall item :: item in items ==> FitsScale(a.runs, item, scales[item])
    ensures levels.Keys == items
    ensures forall item :: item in items ==> levels[item] == ArmLevel(a, item, scales[item])
    ensures tags.Keys == set item | item in items && Credited(scales[item], levels[item])
    ensures forall item :: item in tags ==>
      tags[item] == ArmTag(TagsReaching(a.runs, item, levels[item].value), a.m)
  {
    hide ArmLevel, ArmTag, TagsReaching, Lists;
    levels, tags := map[], map[];
    var todo := items;
    while todo != {}
      invariant todo <= items && levels.Keys == items - todo
      invariant forall item :: item in levels ==> levels[item] == ArmLevel(a, item, scales[item])
      invariant tags.Keys == set item | item in levels && Credited(scales[item], levels[item])
      invariant forall item :: item in tags ==>
        tags[item] == ArmTag(TagsReaching(a.runs, item, levels[item].value), a.m)
    {
      var item :| item in todo;
      var best, atLeast := Reached(a, item, scales[item]);
      var p := ProvenanceOf(a, item, scales[item], best);
      levels := levels[item := best];
      if p.Some? {
        tags := tags[item := p.value.tag];
      }
      todo := todo - {item};
    }
  }

  method BeyondOf(a: Arm) returns (count: Option<int>)
    requires a.m >= 1
    ensures count == ArmBeyond(a)
  {
    var counts := BeyondCounts(a.runs);
    count := MthLargest(counts, a.m);
  }

  /** One item's row: both verdicts, both tags and the outcome. */
  ghost predicate RowOf(row: Row, baseline: Arm, candidate: Arm, item: Item)
    requires item in ScaleMap(baseline.runs)
  {
    && row.scale == ScaleMap(baseline.runs)[item]
    && row.baseline == ArmLevel(baseline, item, row.scale)
    && row.candidate == ArmLevel(candidate, item, row.scale)
    && row.runsAtBaselineVerdict == (if row.baseline.None? then None
                                     else Some(CountAtLeast(Known(candidate.runs, item), row.baseline.value)))
    && row.baselineTag == (if !Credited(row.scale, row.baseline) then None
                           else Some(ArmTag(TagsReaching(baseline.runs, item, row.baseline.value), baseline.m)))
    && row.candidateTag == (if !Credited(row.scale, row.candidate) then None
                            else Some(ArmTag(TagsReaching(candidate.runs, item, row.candidate.value), candidate.m)))
    && row.outcome == ItemOutcome(baseline, candidate, item)
  }

  method CompareItem(baseline: Arm, candidate: Arm, item: Item, scale: Scale) returns (row: Row)
    requires ValidArm(baseline) && ValidArm(candidate)
    requires item in ScaleMap(baseline.runs) && scale == ScaleMap(baseline.runs)[item]
    requires FitsScale(baseline.runs, item, scale) && FitsScale(candidate.runs, item, scale)
    ensures RowOf(row, baseline, candidate, item)
  {
    hide ArmTag, TagsReaching, Lists, Known, FitsScale, CountAtLeast, UniqueNames, BestBelow, ScaleMap;
    var before, beforeAt := Reached(baseline, item, scale);
    var now, nowAt := Reached(candidate, item, scale);
    BestBelowCharacterised(Known(baseline.runs, item), baseline.m, Size(scale));
    var outcome;
    if before.None? {
      outcome := NotGated;
    } else if now.None? || now.value < before.value {
      outcome := Dropped;
    } else if now.value > before.value {
      outcome := Improved;
    } else {
      outcome := Held;
    }
    var p := ProvenanceOf(baseline, item, scale, before);
    var q := ProvenanceOf(candidate, item, scale, now);
    row := Row(scale, before, now, if before.None? then None else Some(nowAt[before.value]),
               if p.None? then None else Some(p.value.tag), if q.None? then None else Some(q.value.tag), outcome);
  }

  /** The candidate's runs fit the baseline's scale of every item the two can share. */
  lemma {:induction false} CandidateFits(baseline: Arm, candidate: Arm, item: Item)
    requires ValidArm(candidate) && Comparable(baseline, candidate)
    requires item in ScaleMap(baseline.runs)
    ensures FitsScale(candidate.runs, item, ScaleMap(baseline.runs)[item])
  {
    if item in ScaleMap(candidate.runs) {
      ArmFitsItsScales(candidate, item);
    } else {
      UnscoredItem(candidate.runs, item);
    }
  }

  /** Two arms' scales, or why they cannot be compared. */
  method ScalesOfBoth(baseline: Arm, candidate: Arm)
    returns (r: Result<(map<Item, Scale>, map<Item, Scale>), GateError>)
    ensures r.Ok? <==> Comparable(baseline, candidate)
    ensures r.Ok? ==> r.value == (ScaleMap(baseline.runs), ScaleMap(candidate.runs))
    ensures r.Err? ==> match r.error
      case MixedScales(item) => Conflicted(baseline.runs, item) || Conflicted(candidate.runs, item)
      case NoItems => ScaleMap(baseline.runs) == map[]
      case ScaleMismatch(item) =>
        item in ScaleMap(baseline.runs) && item in ScaleMap(candidate.runs)
        && ScaleMap(baseline.runs)[item] != ScaleMap(candidate.runs)[item]
      case _ => false
  {
    hide ScaleMap, OneScaleEach, Conflicted;
    var b := ScalesOf(baseline);
    if b.Err? {
      return Err(b.error);
    }
    if b.value == map[] {
      return Err(NoItems);
    }
    var c := ScalesOf(candidate);
    if c.Err? {
      return Err(c.error);
    }
    var todo := b.value.Keys;
    while todo != {}
      invariant todo <= b.value.Keys
      invariant forall item | item in b.value && item !in todo && item in c.value :: b.value[item] == c.value[item]
    {
      var item :| item in todo;
      if item in c.value && c.value[item] != b.value[item] {
        return Err(ScaleMismatch(item));
      }
      todo := todo - {item};
    }
    return Ok((b.value, c.value));
  }

  ghost predicate ReportRows(rows: map<Item, Row>, baseline: Arm, candidate: Arm) {
    rows.Keys == ScaleMap(baseline.runs).Keys
    && forall item :: item in rows ==> RowOf(rows[item], baseline, candidate, item)
  }

  method CompareItems(baseline: Arm, candidate: Arm, scales: map<Item, Scale>) returns (rows: map<Item, Row>)
    requires ValidArm(baseline) && ValidArm(candidate) && Comparable(baseline, candidate)
    requires scales == ScaleMap(baseline.runs)
    ensures ReportRows(rows, baseline, candidate)
  {
    hide RowOf, ValidArm, Comparable, ScaleMap;
    rows := map[];
    var todo := scales.Keys;
    while todo != {}
      invariant todo <= scales.Keys && rows.Keys == scales.Keys - todo
      invariant forall item :: item in rows ==> RowOf(rows[item], baseline, candidate, item)
    {
      var item :| item in todo;
      FitsBoth(baseline, candidate, item);
      var row := CompareItem(baseline, candidate, item, scales[item]);
      rows := rows[item := row];
      todo := todo - {item};
    }
  }

  lemma {:induction false} FitsBoth(baseline: Arm, candidate: Arm, item: Item)
    requires ValidArm(baseline) && ValidArm(candidate) && Comparable(baseline, candidate)
    requires item in ScaleMap(baseline.runs)
    ensures FitsScale(baseline.runs, item, ScaleMap(baseline.runs)[item])
    ensures FitsScale(candidate.runs, item, ScaleMap(baseline.runs)[item])
  {
    ArmFitsItsScales(baseline, item);
    CandidateFits(baseline, candidate, item);
  }

  /** An arm's own verdicts, totals and credited items by tag. */
  method ScoreArm(a: Arm, scales: map<Item, Scale>) returns (levels: Levels, totals: ArmTotals, byTag: TagTotals)
    requires ValidArm(a) && OneScaleEach(a.runs) && scales == ScaleMap(a.runs)
    ensures levels == LevelsOf(a)
    ensures Levelled(scales, levels) && Tallies(totals, scales, levels)
    ensures byTag.byTag.Keys == set tag | tag in TAGS
    ensures totals.credited == byTag.credited == SumByTag(byTag.byTag) == |CreditedBy(a)|
    ensures SumOfVerdicts(totals.byScale) + totals.unknown == |scales|
  {
    forall item | item in scales ensures FitsScale(a.runs, item, scales[item]) {
      ArmFitsItsScales(a, item);
    }
    var tags;
    levels, tags := LevelItems(a, scales.Keys, scales);
    LevelsAreTheArms(a, scales, levels);
    hide ValidArm, OneScaleEach, ScaleMap, FitsScale, ArmLevel, Tagged, ArmTag, TagsReaching, LevelsOf, Levelled, CreditedBy, Credited;
    totals := TotalsOf(scales, levels);
    byTag := Split(tags);
  }

  lemma {:induction false} LevelsAreTheArms(a: Arm, scales: map<Item, Scale>, levels: Levels)
    requires ValidArm(a) && OneScaleEach(a.runs) && scales == ScaleMap(a.runs) && levels.Keys == scales.Keys
    requires forall item :: item in scales ==> levels[item] == ArmLevel(a, item, scales[item])
    ensures levels == LevelsOf(a) && Levelled(scales, levels)
    ensures CreditedItems(scales, levels) == CreditedBy(a)
  {
    hide ArmLevel, ValidArm, OneScaleEach, ScaleMap;
    LevelsOfAreRanks(a);
  }

  /**
   The gate: refused exactly when the arms cannot be compared, and passed
   exactly when no gated item drops and the beyond-human count does not.
   */
  method Decide(baseline: Arm, candidate: Arm) returns (r: Result<Report, GateError>)
    requires ValidArm(baseline) && ValidArm(candidate)
    ensures r.Ok? <==> Comparable(baseline, candidate)
    ensures r.Ok? ==> ReportRows(r.value.rows, baseline, candidate)
    ensures r.Ok? ==> (r.value.passed <==> Passes(baseline, candidate))
    ensures r.Ok? ==> r.value.beyondOutcome == Compare(ArmBeyond(baseline), ArmBeyond(candidate))
    ensures r.Ok? ==> OutcomesPartition(r.value, ScaleMap(baseline.runs).Keys)
    ensures r.Ok? ==> ListsRows(r.value)
    ensures r.Ok? ==> r.value.baselineBeyond == ArmBeyond(baseline) && r.value.candidateBeyond == ArmBeyond(candidate)
    ensures r.Ok? ==> r.value.newItems == ScaleMap(candidate.runs).Keys - ScaleMap(baseline.runs).Keys
    ensures r.Ok? ==> r.value.baselineTotals.credited == r.value.baselineTags.credited == |CreditedBy(baseline)|
    ensures r.Ok? ==> r.value.candidateTotals.credited == r.value.candidateTags.credited == |CreditedBy(candidate)|
  {
    hide ScaleMap, Passes, Comparable, ReportRows, OutcomesPartition, ListsRows, CreditedBy, ArmBeyond, Tallies, LevelsOf;
    var both := ScalesOfBoth(baseline, candidate);
    if both.Err? {
      return Err(both.error);
    }
    var (scales, candidateScales) := both.value;
    var rows := CompareItems(baseline, candidate, scales);
    ComparableArms(baseline, candidate);
    var _, baselineTotals, baselineTags := ScoreArm(baseline, scales);
    var _, candidateTotals, candidateTags := ScoreArm(candidate, candidateScales);
    var before := BeyondOf(baseline);
    var now := BeyondOf(candidate);
    var dropped := With(rows, Dropped);
    var report := Report(
      dropped == {} && Compare(before, now) != Dropped,
      rows, dropped, With(rows, Improved), With(rows, NotGated),
      candidateScales.Keys - scales.Keys,
      TagChanged(rows),
      before, now, Compare(before, now),
      baselineTotals, candidateTotals, baselineTags, candidateTags);
    RowsDecide(rows, baseline, candidate);
    RowsPartition(report, scales.Keys);
    ListsAre(report);
    return Ok(report);
  }

  /** The lists of a report are its rows of that outcome, and those credited in both arms by different tags. */
  ghost predicate ListsRows(report: Report) {
    forall item ::
      && (item in report.dropped <==> item in report.rows && report.rows[item].outcome.Dropped?)
      && (item in report.improved <==> item in report.rows && report.rows[item].outcome.Improved?)
      && (item in report.notGated <==> item in report.rows && report.rows[item].outcome.NotGated?)
      && (item in report.tagChanged <==> item in report.rows && TagsDiffer(report.rows[item].baselineTag, report.rows[item].candidateTag))
  }

  ghost predicate TagsDiffer(a: Option<Tag>, b: Option<Tag>) {
    match (a, b)
    case (Some(one), Some(other)) => one != other
    case _ => false
  }

  lemma ListsAre(report: Report)
    requires report.dropped == With(report.rows, Dropped) && report.improved == With(report.rows, Improved)
    requires report.notGated == With(report.rows, NotGated) && report.tagChanged == TagChanged(report.rows)
    ensures ListsRows(report)
  {}

  function With(rows: map<Item, Row>, outcome: Outcome): set<Item> {
    set item | item in rows && rows[item].outcome == outcome
  }

  /** The items credited in both arms whose tags differ. */
  function TagChanged(rows: map<Item, Row>): set<Item> {
    set item | item in rows && rows[item].baselineTag.Some? && rows[item].candidateTag.Some?
      && rows[item].baselineTag != rows[item].candidateTag
  }

  lemma {:induction false} ComparableArms(baseline: Arm, candidate: Arm)
    requires Comparable(baseline, candidate)
    ensures OneScaleEach(baseline.runs) && OneScaleEach(candidate.runs)
  {}

  lemma {:induction false} RowsDecide(rows: map<Item, Row>, baseline: Arm, candidate: Arm)
    requires baseline.m >= 1 && candidate.m >= 1
    requires ReportRows(rows, baseline, candidate)
    ensures rows.Keys == ScaleMap(baseline.runs).Keys
    ensures Passes(baseline, candidate) <==>
              With(rows, Dropped) == {} && Compare(ArmBeyond(baseline), ArmBeyond(candidate)) != Dropped
  {
    if With(rows, Dropped) == {} {
      forall item | item in rows ensures ItemOutcome(baseline, candidate, item) != Dropped {
        assert item !in With(rows, Dropped);
      }
    } else {
      var item :| item in With(rows, Dropped);
      assert ItemOutcome(baseline, candidate, item) == Dropped;
    }
  }

  lemma {:induction false} RowsPartition(report: Report, items: set<Item>)
    requires report.rows.Keys == items
    requires report.dropped == With(report.rows, Dropped)
    requires report.improved == With(report.rows, Improved)
    requires report.notGated == With(report.rows, NotGated)
    ensures OutcomesPartition(report, items)
  {}

  /** Dropped, improved, not gated and the rest (held) share out the baseline's items. */
  ghost predicate OutcomesPartition(report: Report, items: set<Item>) {
    && report.dropped + report.improved + report.notGated + With(report.rows, Held) == items
    && report.dropped !! report.improved !! report.notGated !! With(report.rows, Held)
  }
}
