/** The gate, counted run by run. */
module GateByRuns {
  // What the gate decides, said of the runs of the two arms themselves: how many of
  // them reach a rank or state a count, and nothing of how the arm's verdict is found.

  import opened Wrappers
  import opened Scores
  import opened OrderStatistics
  import opened Arms
  import opened Provenance
  import opened Gate

  // ----- Runs that reach a rank, runs that state a count --------------------

  /** The runs, by their place in the list, of which something holds. */
  ghost function RunsThat(runs: seq<ScoredRun>, holds: ScoredRun -> bool): set<nat> {
    set i: nat | i < |runs| && holds(runs[i])
  }

  lemma OneRunMore(runs: seq<ScoredRun>, holds: ScoredRun -> bool)
    requires runs != []
    ensures |RunsThat(runs, holds)| == |RunsThat(runs[..|runs| - 1], holds)| + if holds(runs[|runs| - 1]) then 1 else 0
  {
    var front, last, n := runs[..|runs| - 1], runs[|runs| - 1], |runs| - 1;
    assert RunsThat(runs, holds) == RunsThat(front, holds) + (if holds(last) then {n} else {});
  }

  /** The run knows a verdict on the item, of rank `r` or better. */
  ghost predicate At(run: ScoredRun, item: Item, r: int) {
    item in run.verdicts && run.verdicts[item].level.Some? && run.verdicts[item].level.value >= r
  }

  ghost function RunsAt(runs: seq<ScoredRun>, item: Item, r: int): set<nat> {
    RunsThat(runs, run => At(run, item, r))
  }

  /** The run states a beyond-human count, of `v` or more. */
  ghost predicate Beyond(run: ScoredRun, v: int) {
    run.beyond.Some? && run.beyond.value >= v
  }

  ghost function RunsBeyond(runs: seq<ScoredRun>, v: int): set<nat> {
    RunsThat(runs, run => Beyond(run, v))
  }

  ghost function RunsStating(runs: seq<ScoredRun>): set<nat> {
    RunsThat(runs, (run: ScoredRun) => run.beyond.Some?)
  }

  lemma CountAppend(values: seq<int>, x: int, v: int)
    ensures CountAtLeast(values + [x], v) == CountAtLeast(values, v) + if x >= v then 1 else 0
  {
    CountConcat(values, [x], v);
    assert [x][1..] == [];
  }

  lemma {:induction false} CountIsRuns(runs: seq<ScoredRun>, item: Item, r: int)
    ensures CountAtLeast(Known(runs, item), r) == |RunsAt(runs, item, r)|
  {
    if runs != [] {
      var front, last := runs[..|runs| - 1], runs[|runs| - 1];
      CountIsRuns(front, item, r);
      OneRunMore(runs, run => At(run, item, r));
      hide RunsThat;
      if last.Level(item).Some? {
        CountAppend(Known(front, item), last.Level(item).value, r);
      } else {
        assert Known(front, item) + [] == Known(front, item);
      }
    }
  }

  lemma {:induction false} CountIsBeyond(runs: seq<ScoredRun>, v: int)
    ensures CountAtLeast(BeyondCounts(runs), v) == |RunsBeyond(runs, v)|
  {
    if runs != [] {
      var front, last := runs[..|runs| - 1], runs[|runs| - 1];
      CountIsBeyond(front, v);
      OneRunMore(runs, run => Beyond(run, v));
      hide RunsThat;
      if last.beyond.Some? {
        CountAppend(BeyondCounts(front), last.beyond.value, v);
      } else {
        assert BeyondCounts(front) + [] == BeyondCounts(front);
      }
    }
  }

  lemma {:induction false} AsManyAreStated(runs: seq<ScoredRun>)
    ensures |BeyondCounts(runs)| == |RunsStating(runs)|
  {
    if runs != [] {
      AsManyAreStated(runs[..|runs| - 1]);
      OneRunMore(runs, (run: ScoredRun) => run.beyond.Some?);
      hide RunsThat;
    }
  }

  lemma {:induction false} FewerRunsHigher(runs: seq<ScoredRun>, item: Item, low: int, high: int)
    requires low <= high
    ensures |RunsAt(runs, item, high)| <= |RunsAt(runs, item, low)|
  {
    CountIsRuns(runs, item, low);
    CountIsRuns(runs, item, high);
    CountIsAntitone(Known(runs, item), low, high);
  }

  lemma {:induction false} FewerBeyondHigher(runs: seq<ScoredRun>, low: int, high: int)
    requires low <= high
    ensures |RunsBeyond(runs, high)| <= |RunsBeyond(runs, low)|
  {
    CountIsBeyond(runs, low);
    CountIsBeyond(runs, high);
    CountIsAntitone(BeyondCounts(runs), low, high);
  }

  // ----- The arm's verdict and count ----------------------------------------

  /** The arm's verdict on an item: the one rank `m` runs are at and fewer are above; none where fewer know the item. */
  lemma {:induction false} LevelByRuns(a: Arm, item: Item, scale: Scale)
    requires a.m >= 1 && FitsScale(a.runs, item, scale)
    ensures var level := ArmLevel(a, item, scale);
      if level.None? then |RunsAt(a.runs, item, 0)| < a.m
      else |RunsAt(a.runs, item, level.value)| >= a.m && |RunsAt(a.runs, item, level.value + 1)| < a.m
  {
    BestBelowCharacterised(Known(a.runs, item), a.m, Size(scale));
    var level := ArmLevel(a, item, scale);
    forall r: int ensures CountAtLeast(Known(a.runs, item), r) == |RunsAt(a.runs, item, r)| {
      CountIsRuns(a.runs, item, r);
    }
    assert RunsAt(a.runs, item, Size(scale)) == {};
  }

  /** The arm's beyond-human count: none where fewer than `m` runs state one, else the one `m` runs reach and fewer exceed. */
  lemma {:induction false} BeyondByRuns(a: Arm)
    requires a.m >= 1
    ensures ArmBeyond(a).None? <==> |RunsStating(a.runs)| < a.m
    ensures ArmBeyond(a).Some? ==>
      |RunsBeyond(a.runs, ArmBeyond(a).value)| >= a.m && |RunsBeyond(a.runs, ArmBeyond(a).value + 1)| < a.m
  {
    var counts := BeyondCounts(a.runs);
    AsManyAreStated(a.runs);
    if |counts| >= a.m {
      var v := ArmBeyond(a).value;
      CountIsBeyond(a.runs, v);
      CountIsBeyond(a.runs, v + 1);
    }
  }

  // ----- Outcomes -----------------------------------------------------------

  /** What is `m` of the one arm's runs reach and fewer than `m` of the other's do. */
  ghost predicate ItemOver(one: Arm, other: Arm, item: Item, r: int) {
    |RunsAt(one.runs, item, r)| >= one.m && |RunsAt(other.runs, item, r)| < other.m
  }

  ghost predicate BeyondOver(one: Arm, other: Arm, v: int) {
    |RunsBeyond(one.runs, v)| >= one.m && |RunsBeyond(other.runs, v)| < other.m
  }

  /** Two verdicts as they are compared: lower exactly when the one reaches a rank that the other does not. */
  lemma {:induction false} ItemOverExactly(one: Arm, other: Arm, item: Item, scale: Scale)
    requires one.m >= 1 && other.m >= 1 && FitsScale(one.runs, item, scale) && FitsScale(other.runs, item, scale)
    ensures (exists r: nat :: ItemOver(one, other, item, r)) <==>
      (ArmLevel(one, item, scale).Some?
       && (ArmLevel(other, item, scale).None? || ArmLevel(other, item, scale).value < ArmLevel(one, item, scale).value))
  {
    LevelByRuns(one, item, scale);
    LevelByRuns(other, item, scale);
    var x, y := ArmLevel(one, item, scale), ArmLevel(other, item, scale);
    hide ArmLevel, RunsAt, FitsScale;
    if x.Some? && (y.None? || y.value < x.value) {
      FewerRunsHigher(other.runs, item, if y.None? then 0 else y.value + 1, x.value);
      assert ItemOver(one, other, item, x.value);
    }
    if r: nat :| ItemOver(one, other, item, r) {
      if x.None? {
        FewerRunsHigher(one.runs, item, 0, r);
      } else {
        if x.value < r {
          FewerRunsHigher(one.runs, item, x.value + 1, r);
        }
        if y.Some? && x.value <= y.value {
          FewerRunsHigher(other.runs, item, r, y.value);
        }
      }
    }
  }

  /**
   An item of the baseline, by runs: not gated when fewer than `m` baseline runs know
   it; dropped when the baseline reaches a rank the candidate does not; improved when
   it is the other way round and it is not dropped; held otherwise.
   */
  lemma {:induction false} ItemOutcomeExactly(baseline: Arm, candidate: Arm, item: Item)
    requires ValidArm(baseline) && ValidArm(candidate) && Comparable(baseline, candidate)
    requires item in ScaleMap(baseline.runs)
    ensures ItemOutcome(baseline, candidate, item) ==
      if |RunsAt(baseline.runs, item, 0)| < baseline.m then NotGated
      else if exists r: nat :: ItemOver(baseline, candidate, item, r) then Dropped
      else if exists r: nat :: ItemOver(candidate, baseline, item, r) then Improved
      else Held
  {
    var scale := ScaleMap(baseline.runs)[item];
    FitsBoth(baseline, candidate, item);
    hide ScaleMap, FitsScale, ArmLevel, Comparable, RunsAt, ItemOver;
    LevelByRuns(baseline, item, scale);
    if ArmLevel(baseline, item, scale).Some? {
      FewerRunsHigher(baseline.runs, item, 0, ArmLevel(baseline, item, scale).value);
    }
    ItemOverExactly(baseline, candidate, item, scale);
    ItemOverExactly(candidate, baseline, item, scale);
  }

  lemma {:induction false} BeyondOverExactly(one: Arm, other: Arm)
    requires one.m >= 1 && other.m >= 1
    ensures (exists v :: BeyondOver(one, other, v)) <==>
      (ArmBeyond(one).Some? && (ArmBeyond(other).None? || ArmBeyond(other).value < ArmBeyond(one).value))
  {
    BeyondByRuns(one);
    BeyondByRuns(other);
    var x, y := ArmBeyond(one), ArmBeyond(other);
    hide ArmBeyond;
    if x.Some? && (y.None? || y.value < x.value) {
      if y.Some? {
        FewerBeyondHigher(other.runs, y.value + 1, x.value);
      } else {
        BeyondAreStating(other.runs, x.value);
      }
      assert BeyondOver(one, other, x.value);
    }
    if v :| BeyondOver(one, other, v) {
      BeyondAreStating(one.runs, v);
      if x.Some? && x.value < v {
        FewerBeyondHigher(one.runs, x.value + 1, v);
      }
      if x.Some? && y.Some? && x.value <= y.value {
        FewerBeyondHigher(other.runs, v, y.value);
      }
    }
  }

  lemma BeyondAreStating(runs: seq<ScoredRun>, v: int)
    ensures |RunsBeyond(runs, v)| <= |RunsStating(runs)|
  {
    CountIsBeyond(runs, v);
    AsManyAreStated(runs);
    CountIsAntitone(BeyondCounts(runs), v, v);
  }

  /** The beyond-human outcome, by runs, in the same way. */
  lemma {:induction false} BeyondOutcomeExactly(baseline: Arm, candidate: Arm)
    requires baseline.m >= 1 && candidate.m >= 1
    ensures Compare(ArmBeyond(baseline), ArmBeyond(candidate)) ==
      if |RunsStating(baseline.runs)| < baseline.m then NotGated
      else if exists v :: BeyondOver(baseline, candidate, v) then Dropped
      else if exists v :: BeyondOver(candidate, baseline, v) then Improved
      else Held
  {
    hide ArmBeyond, RunsBeyond, RunsStating, BeyondOver;
    BeyondByRuns(baseline);
    BeyondOverExactly(baseline, candidate);
    BeyondOverExactly(candidate, baseline);
  }

  /** The gate passes exactly when the candidate's runs reach every rank and every count the baseline's do. */
  lemma {:induction false} PassesExactly(baseline: Arm, candidate: Arm)
    requires ValidArm(baseline) && ValidArm(candidate) && Comparable(baseline, candidate)
    ensures Passes(baseline, candidate) <==>
      ((forall item, r: nat :: !ItemOver(baseline, candidate, item, r)) && forall v :: !BeyondOver(baseline, candidate, v))
  {
    hide RunsAt, RunsBeyond, RunsStating, ItemOver, BeyondOver, Comparable, ArmLevel, ScaleMap, ArmBeyond;
    assert baseline.m >= 1 && candidate.m >= 1;
    forall item | item in ScaleMap(baseline.runs)
      ensures ItemOutcome(baseline, candidate, item) == Dropped <==> exists r: nat :: ItemOver(baseline, candidate, item, r)
    {
      ItemOutcomeExactly(baseline, candidate, item);
      if r: nat :| ItemOver(baseline, candidate, item, r) {
        OverIsKnown(baseline, candidate, item, r);
      }
    }
    forall item, r: nat | item !in ScaleMap(baseline.runs) ensures !ItemOver(baseline, candidate, item, r) {
      NothingOverUnscored(baseline, candidate, item, r);
    }
    BeyondOutcomeExactly(baseline, candidate);
    if v :| BeyondOver(baseline, candidate, v) {
      BeyondIsStated(baseline, candidate, v);
    }
  }

  lemma OverIsKnown(one: Arm, other: Arm, item: Item, r: nat)
    requires ItemOver(one, other, item, r)
    ensures |RunsAt(one.runs, item, 0)| >= one.m
  {
    FewerRunsHigher(one.runs, item, 0, r);
  }

  lemma BeyondIsStated(one: Arm, other: Arm, v: int)
    requires BeyondOver(one, other, v)
    ensures |RunsStating(one.runs)| >= one.m
  {
    BeyondAreStating(one.runs, v);
  }

  lemma NothingOverUnscored(one: Arm, other: Arm, item: Item, r: nat)
    requires one.m >= 1 && item !in ScaleMap(one.runs)
    ensures !ItemOver(one, other, item, r)
  {
    UnscoredItem(one.runs, item);
    assert RunsAt(one.runs, item, r) == {};
  }

  // ----- Which arms can be compared -----------------------------------------

  /** Arms can be compared exactly when the baseline scores something and any two of all their runs agree on an item's scale. */
  lemma {:induction false} ComparableExactly(baseline: Arm, candidate: Arm)
    ensures Comparable(baseline, candidate) <==>
      ((exists i :: 0 <= i < |baseline.runs| && baseline.runs[i].verdicts != map[])
       && OneScaleEach(baseline.runs + candidate.runs))
  {
    var all := baseline.runs + candidate.runs;
    if Comparable(baseline, candidate) {
      var item :| item in ScaleMap(baseline.runs);
      var i := ScaleMapComesFromARun(baseline.runs, item);
      assert baseline.runs[i].verdicts != map[];
      forall i, j, item | 0 <= i < |all| && 0 <= j < |all| && item in all[i].verdicts && item in all[j].verdicts
        ensures all[i].verdicts[item].scale == all[j].verdicts[item].scale
      {
        ScaleOfRun(baseline, candidate, i, item);
        ScaleOfRun(baseline, candidate, j, item);
        assert item in ScaleMap(baseline.runs) && item in ScaleMap(candidate.runs) ==>
          ScaleMap(baseline.runs)[item] == ScaleMap(candidate.runs)[item];
      }
    }
    if (exists i :: 0 <= i < |baseline.runs| && baseline.runs[i].verdicts != map[]) && OneScaleEach(all) {
      PartsAgree(baseline.runs, candidate.runs);
      var i :| 0 <= i < |baseline.runs| && baseline.runs[i].verdicts != map[];
      var item :| item in baseline.runs[i].verdicts;
      ScaleMapHoldsEveryItem(baseline.runs, i, item);
    }
  }

  lemma {:induction false} ScaleOfRun(baseline: Arm, candidate: Arm, i: nat, item: Item)
    requires OneScaleEach(baseline.runs) && OneScaleEach(candidate.runs) && i < |baseline.runs + candidate.runs|
    requires item in (baseline.runs + candidate.runs)[i].verdicts
    ensures var scale := (baseline.runs + candidate.runs)[i].verdicts[item].scale;
      if i < |baseline.runs| then item in ScaleMap(baseline.runs) && ScaleMap(baseline.runs)[item] == scale
      else item in ScaleMap(candidate.runs) && ScaleMap(candidate.runs)[item] == scale
  {
    if i < |baseline.runs| {
      ScaleMapHoldsEveryItem(baseline.runs, i, item);
      var k := ScaleMapComesFromARun(baseline.runs, item);
    } else {
      ScaleMapHoldsEveryItem(candidate.runs, i - |baseline.runs|, item);
      var k := ScaleMapComesFromARun(candidate.runs, item);
    }
  }

  lemma {:induction false} PartsAgree(a: seq<ScoredRun>, b: seq<ScoredRun>)
    requires OneScaleEach(a + b)
    ensures OneScaleEach(a) && OneScaleEach(b)
    ensures forall item | item in ScaleMap(a) && item in ScaleMap(b) :: ScaleMap(a)[item] == ScaleMap(b)[item]
  {
    var all := a + b;
    hide ScaleMap;
    assert OneScaleEach(a) by { assert forall i :: 0 <= i < |a| ==> a[i] == all[i]; }
    assert OneScaleEach(b) by { assert forall i :: 0 <= i < |b| ==> b[i] == all[|a| + i]; }
    forall item | item in ScaleMap(a) && item in ScaleMap(b) ensures ScaleMap(a)[item] == ScaleMap(b)[item] {
      var i := ScaleMapComesFromARun(a, item);
      var j := ScaleMapComesFromARun(b, item);
      assert all[i] == a[i] && all[|a| + j] == b[j];
    }
  }

  // ----- Credit, and who is given it ----------------------------------------

  /** The words of a scale, worst first. */
  function Words(scale: Scale): seq<string> {
    match scale
    case Key => ["wrong", "missed", "partly (dump)", "partly (body)", "found"]
    case Fact => ["missed", "mentioned", "partial", "found"]
    case Claim => ["false", "not claimed"]
  }

  /** The word a verdict must be or better to be credited, where the scale credits any. */
  function CreditWord(scale: Scale): Option<string> {
    match scale
    case Key => Some("partly (dump)")
    case Fact => Some("partial")
    case Claim => None
  }

  /** A verdict is credited exactly when its scale has a credit word at or before it. */
  lemma {:induction false} CreditedExactly(scale: Scale, level: nat)
    requires level < |Words(scale)|
    ensures Size(scale) == |Words(scale)|
    ensures Credited(scale, Some(level)) <==>
      CreditWord(scale).Some? && exists i :: 0 <= i <= level && Words(scale)[i] == CreditWord(scale).value
  {
    var words := Words(scale);
    match scale
    case Key =>
      assert words[2] == "partly (dump)" && words[0][0] == 'w' && words[1][0] == 'm' && words[2][0] == 'p';
    case Fact =>
      assert words[2] == "partial" && words[0][1] == 'i' && words[1][1] == 'e' && words[2][1] == 'a';
    case Claim =>
  }

  /** The run is at the verdict or better, and its provenance of the item has the tag; one with none was not read. */
  ghost predicate AtTagged(run: ScoredRun, item: Item, best: nat, tag: Tag) {
    At(run, item, best) && tag == if item in run.provenance then run.provenance[item].tag else NotRead
  }

  ghost function RunsTagged(runs: seq<ScoredRun>, item: Item, best: nat, tag: Tag): set<nat> {
    RunsThat(runs, run => AtTagged(run, item, best, tag))
  }

  lemma RunsTaggedNext(runs: seq<ScoredRun>, item: Item, best: nat, tag: Tag)
    requires runs != []
    ensures |RunsTagged(runs, item, best, tag)|
         == |RunsTagged(runs[..|runs| - 1], item, best, tag)| + if AtTagged(runs[|runs| - 1], item, best, tag) then 1 else 0
  {
    OneRunMore(runs, run => AtTagged(run, item, best, tag));
  }

  lemma {:induction false} TagsAreRuns(runs: seq<ScoredRun>, item: Item, best: nat, tag: Tag)
    ensures CountTag(TagsReaching(runs, item, best), tag) == |RunsTagged(runs, item, best, tag)|
  {
    if runs != [] {
      var front, last := runs[..|runs| - 1], runs[|runs| - 1];
      TagsAreRuns(front, item, best, tag);
      RunsTaggedNext(runs, item, best, tag);
      hide RunsTagged, CountTag;
      if Reaches(last, item, best) {
        CountTagAppend(TagsReaching(front, item, best), last.TagFor(item), tag);
      } else {
        assert TagsReaching(front, item, best) + [] == TagsReaching(front, item, best);
      }
    }
  }

  /** `m` of the runs at the verdict have the tag, and `m` have no other. */
  ghost predicate OnlyTag(runs: seq<ScoredRun>, item: Item, best: nat, m: nat, tag: Tag) {
    |RunsTagged(runs, item, best, tag)| >= m && forall other :: |RunsTagged(runs, item, best, other)| >= m ==> other == tag
  }

  /**
   The arm's tag for an item, by runs: the tag `m` of them have where there is one
   such; else both where `m` of them found the item by analysis; else mixed.
   */
  lemma {:induction false} ArmTagByRuns(runs: seq<ScoredRun>, item: Item, best: nat, m: nat)
    requires m >= 1
    ensures var tag := ArmTag(TagsReaching(runs, item, best), m);
      if exists t :: OnlyTag(runs, item, best, m, t) then OnlyTag(runs, item, best, m, tag)
      else tag == if |RunsTagged(runs, item, best, Own)| + |RunsTagged(runs, item, best, Both)| >= m then Both else Mixed
  {
    var tags := TagsReaching(runs, item, best);
    forall t ensures CountTag(tags, t) == |RunsTagged(runs, item, best, t)| && (t in Shared(tags, m) <==> CountTag(tags, t) >= m) {
      TagsAreRuns(runs, item, best, t);
      if CountTag(tags, t) >= m {
        CountTagPositive(tags, t);
      }
    }
    hide TagsReaching, CountTag, RunsTagged, Shared;
    forall t ensures OnlyTag(runs, item, best, m, t) <==> Shared(tags, m) == {t} {
    }
  }

  /** One row, by runs: how many candidate runs reach the baseline's verdict, and the two tags, each just where it is credited. */
  lemma {:induction false} RowByRuns(row: Row, baseline: Arm, candidate: Arm, item: Item)
    requires baseline.m >= 1 && candidate.m >= 1 && item in ScaleMap(baseline.runs) && RowOf(row, baseline, candidate, item)
    ensures row.baseline.Some? ==> row.runsAtBaselineVerdict == Some(|RunsAt(candidate.runs, item, row.baseline.value)|)
    ensures row.baseline.None? ==> row.runsAtBaselineVerdict == None
    ensures row.baselineTag.Some? <==> Credited(row.scale, row.baseline)
    ensures row.candidateTag.Some? <==> Credited(row.scale, row.candidate)
    ensures row.baselineTag.Some? ==> forall t | OnlyTag(baseline.runs, item, row.baseline.value, baseline.m, t) :: row.baselineTag.value == t
    ensures row.candidateTag.Some? ==> forall t | OnlyTag(candidate.runs, item, row.candidate.value, candidate.m, t) :: row.candidateTag.value == t
  {
    hide ScaleMap, ArmLevel, Known, ArmTag, TagsReaching, RunsTagged, RunsAt;
    if row.baseline.Some? {
      CountIsRuns(candidate.runs, item, row.baseline.value);
    }
    if row.baselineTag.Some? {
      ArmTagByRuns(baseline.runs, item, row.baseline.value, baseline.m);
    }
    if row.candidateTag.Some? {
      ArmTagByRuns(candidate.runs, item, row.candidate.value, candidate.m);
    }
  }

  // ----- A count that falls -------------------------------------------------

  /** One run, its verdicts, and the count it states. */
  function Counted(verdicts: map<Item, Verdict>, beyond: int): Arm {
    Arm([ScoredRun("run", verdicts, Some(beyond), map[])], 1)
  }

  /** Verdicts alike, a beyond-human count of 5 before and of 2 now: the count drops and the gate does not pass. */
  lemma {:induction false} AFallenCountIsDropped(verdicts: map<Item, Verdict>)
    ensures Compare(ArmBeyond(Counted(verdicts, 5)), ArmBeyond(Counted(verdicts, 2))) == Dropped
    ensures !Passes(Counted(verdicts, 5), Counted(verdicts, 2))
  {
    var five, two := Counted(verdicts, 5), Counted(verdicts, 2);
    assert RunsBeyond(five.runs, 5) == {0} && RunsBeyond(two.runs, 5) == {} && RunsStating(five.runs) == {0};
    assert BeyondOver(five, two, 5);
    BeyondOutcomeExactly(five, two);
  }
}
