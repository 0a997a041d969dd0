/** Arms of scored runs. */
module Arms {
  // An arm is the scored runs of one setup, with the verdict `m` of its `n` runs reach.

  import opened Wrappers
  import opened Scores
  import opened OrderStatistics

  datatype Arm = Arm(runs: seq<ScoredRun>, m: nat)

  datatype GateError =
    | NoRuns
    | QuorumOutOfRange
    | RunGivenTwice
    | MixedScales(item: Item)
    | NoItems
    | ScaleMismatch(item: Item)

  predicate UniqueNames(runs: seq<ScoredRun>) {
    forall i, j :: 0 <= i < j < |runs| ==> runs[i].name != runs[j].name
  }

  ghost predicate ValidArm(a: Arm) {
    && 1 <= a.m <= |a.runs|
    && UniqueNames(a.runs)
    && forall i :: 0 <= i < |a.runs| ==> a.runs[i].Valid()
  }

  function Majority(n: nat): nat { n / 2 + 1 }

  function MakeArm(runs: seq<ScoredRun>, m: Option<int>): Result<Arm, GateError> {
    if runs == [] then Err(NoRuns)
    else
      var chosen := if m.None? then Majority(|runs|) else m.value;
      if !(1 <= chosen <= |runs|) then Err(QuorumOutOfRange)
      else if !UniqueNames(runs) then Err(RunGivenTwice)
      else Ok(Arm(runs, chosen))
  }

  /** What `MakeArm` accepts is a valid arm, and its default quorum is the least strict majority. */
  lemma {:induction false} MadeArmIsValid(runs: seq<ScoredRun>, m: Option<int>)
    requires forall i :: 0 <= i < |runs| ==> runs[i].Valid()
    requires MakeArm(runs, m).Ok?
    ensures ValidArm(MakeArm(runs, m).value)
    ensures m.None? ==> 2 * (MakeArm(runs, m).value.m - 1) <= |runs| < 2 * MakeArm(runs, m).value.m
  {}

  ghost predicate NamesDiffer(runs: seq<ScoredRun>) {
    forall i, j | 0 <= i < |runs| && 0 <= j < |runs| && i != j :: runs[i].name != runs[j].name
  }

  ghost predicate InRange(runs: seq<ScoredRun>, m: Option<int>) {
    m.None? || (m.value > 0 && m.value <= |runs|)
  }

  /**
   An arm is made exactly of some runs, no two of one name, and a quorum that is not
   given or is one to their number: of those runs, and at the quorum given or the one
   number of which the runs are less than twice and no less than two short of twice.
   */
  lemma {:induction false} MadeExactly(runs: seq<ScoredRun>, m: Option<int>, a: Arm)
    ensures MakeArm(runs, m).Ok? <==> |runs| > 0 && InRange(runs, m) && NamesDiffer(runs)
    ensures MakeArm(runs, m) == Ok(a) ==>
      a.runs == runs && if m.Some? then a.m == m.value else a.m + a.m - 2 <= |runs| < a.m + a.m
    ensures MakeArm(runs, m) == Err(NoRuns) <==> |runs| == 0
    ensures MakeArm(runs, m) == Err(RunGivenTwice) <==> |runs| > 0 && InRange(runs, m) && !NamesDiffer(runs)
  {
    assert UniqueNames(runs) <==> NamesDiffer(runs) by {
      if UniqueNames(runs) {
        forall i, j | 0 <= i < |runs| && 0 <= j < |runs| && i != j ensures runs[i].name != runs[j].name {
          if j < i {
            assert runs[j].name != runs[i].name;
          }
        }
      }
    }
    hide UniqueNames, NamesDiffer;
  }

  // ----- Scales of an arm ---------------------------------------------------

  /** Each scored item's scale, the first run that scores it deciding. */
  function ScaleMap(runs: seq<ScoredRun>): map<Item, Scale> {
    if runs == [] then map[]
    else
      var last := runs[|runs| - 1];
      (map item | item in last.verdicts :: last.verdicts[item].scale) + ScaleMap(runs[..|runs| - 1])
  }

  ghost predicate OneScaleEach(runs: seq<ScoredRun>) {
    forall i, j, item |
        0 <= i < |runs| && 0 <= j < |runs| && item in runs[i].verdicts && item in runs[j].verdicts ::
      runs[i].verdicts[item].scale == runs[j].verdicts[item].scale
  }

  /** Two runs of the list put the item on different scales. */
  ghost predicate Conflicted(runs: seq<ScoredRun>, item: Item) {
    exists i, j :: 0 <= i < |runs| && 0 <= j < |runs|
      && item in runs[i].verdicts && item in runs[j].verdicts
      && runs[i].verdicts[item].scale != runs[j].verdicts[item].scale
  }

  lemma {:induction false} ScaleMapHoldsEveryItem(runs: seq<ScoredRun>, i: nat, item: Item)
    requires i < |runs| && item in runs[i].verdicts
    ensures item in ScaleMap(runs)
  {
    if i < |runs| - 1 {
      ScaleMapHoldsEveryItem(runs[..|runs| - 1], i, item);
    }
  }

  lemma {:induction false} ScaleMapComesFromARun(runs: seq<ScoredRun>, item: Item) returns (i: nat)
    requires item in ScaleMap(runs)
    ensures i < |runs| && item in runs[i].verdicts && runs[i].verdicts[item].scale == ScaleMap(runs)[item]
  {
    var before := runs[..|runs| - 1];
    if item in ScaleMap(before) {
      i := ScaleMapComesFromARun(before, item);
    } else {
      i := |runs| - 1;
    }
  }

  /** The scale every run agrees on, or the first disagreement found. */
  method ScalesOf(a: Arm) returns (r: Result<map<Item, Scale>, GateError>)
    ensures r.Ok? <==> OneScaleEach(a.runs)
    ensures r.Ok? ==> r.value == ScaleMap(a.runs)
    ensures r.Err? ==> r.error.MixedScales? && Conflicted(a.runs, r.error.item)
  {
    var scales: map<Item, Scale> := map[];
    for n := 0 to |a.runs|
      invariant scales == ScaleMap(a.runs[..n])
      invariant OneScaleEach(a.runs[..n])
    {
      var run := a.runs[n];
      ghost var before := scales;
      var todo := run.verdicts.Keys;
      while todo != {}
        invariant todo <= run.verdicts.Keys
        invariant scales.Keys == before.Keys + (run.verdicts.Keys - todo)
        invariant forall item :: item in before ==> scales[item] == before[item]
        invariant forall item :: item in run.verdicts && item !in todo ==>
          scales[item] == run.verdicts[item].scale
      {
        var item :| item in todo;
        var scale := run.verdicts[item].scale;
        if item !in scales {
          scales := scales[item := scale];
        } else if scales[item] != scale {
          assert item in before;
          var i := ScaleMapComesFromARun(a.runs[..n], item);
          assert a.runs[i].verdicts[item].scale != a.runs[n].verdicts[item].scale;
          return Err(MixedScales(item));
        }
        todo := todo - {item};
      }
      ScalesStep(a.runs, n, scales);
    }
    assert a.runs[..|a.runs|] == a.runs;
    return Ok(scales);
  }

  lemma {:induction false} ScalesStep(runs: seq<ScoredRun>, n: nat, scales: map<Item, Scale>)
    requires n < |runs|
    requires OneScaleEach(runs[..n])
    requires scales.Keys == ScaleMap(runs[..n]).Keys + runs[n].verdicts.Keys
    requires forall item :: item in ScaleMap(runs[..n]) ==> scales[item] == ScaleMap(runs[..n])[item]
    requires forall item :: item in runs[n].verdicts ==> scales[item] == runs[n].verdicts[item].scale
    ensures OneScaleEach(runs[..n + 1])
    ensures scales == ScaleMap(runs[..n + 1])
  {
    OneScaleNext(runs, n, scales);
    assert runs[..n + 1][..n] == runs[..n];
    hide OneScaleEach;
  }

  lemma {:induction false} OneScaleNext(runs: seq<ScoredRun>, n: nat, scales: map<Item, Scale>)
    requires n < |runs|
    requires OneScaleEach(runs[..n])
    requires forall item :: item in ScaleMap(runs[..n]) ==> item in scales && scales[item] == ScaleMap(runs[..n])[item]
    requires forall item :: item in runs[n].verdicts ==> item in scales && scales[item] == runs[n].verdicts[item].scale
    ensures OneScaleEach(runs[..n + 1])
  {
    hide ScaleMap;
    forall i, item | 0 <= i < n && item in runs[i].verdicts && item in runs[n].verdicts
      ensures runs[i].verdicts[item].scale == runs[n].verdicts[item].scale
    {
      ScaleMapHoldsEveryItem(runs[..n], i, item);
      var k := ScaleMapComesFromARun(runs[..n], item);
      assert runs[..n][k].verdicts[item].scale == runs[..n][i].verdicts[item].scale;
    }
  }

  // ----- The verdict m of n runs reach --------------------------------------

  /** The ranks the runs give an item, in run order, unknown ones left out. */
  function Known(runs: seq<ScoredRun>, item: Item): seq<int> {
    if runs == [] then []
    else
      var level := runs[|runs| - 1].Level(item);
      Known(runs[..|runs| - 1], item) + (if level.Some? then [level.value] else [])
  }

  /** The arm's verdict: the best rank at least `m` runs reach. */
  function ArmLevel(a: Arm, item: Item, scale: Scale): Option<nat> {
    BestBelow(Known(a.runs, item), a.m, Size(scale))
  }

  /** Every rank the runs give the item is a rank of `scale`. */
  ghost predicate FitsScale(runs: seq<ScoredRun>, item: Item, scale: Scale) {
    forall i :: 0 <= i < |runs| && runs[i].Level(item).Some? ==> runs[i].Level(item).value < Size(scale)
  }

  lemma {:induction false} KnownFits(runs: seq<ScoredRun>, item: Item, scale: Scale)
    requires FitsScale(runs, item, scale)
    ensures forall i :: 0 <= i < |Known(runs, item)| ==> 0 <= Known(runs, item)[i] < Size(scale)
    ensures |Known(runs, item)| <= |runs|
  {
    if runs != [] {
      assert forall i :: 0 <= i < |runs| - 1 ==> runs[..|runs| - 1][i] == runs[i];
      KnownFits(runs[..|runs| - 1], item, scale);
    }
  }

  /** A valid arm whose runs agree on scales fits every item to the arm's scale for it. */
  lemma {:induction false} ArmFitsItsScales(a: Arm, item: Item)
    requires ValidArm(a) && OneScaleEach(a.runs)
    requires item in ScaleMap(a.runs)
    ensures FitsScale(a.runs, item, ScaleMap(a.runs)[item])
  {
    var k := ScaleMapComesFromARun(a.runs, item);
  }

  /** An item no run scores fits any scale and is reached by no run. */
  lemma {:induction false} UnscoredItem(runs: seq<ScoredRun>, item: Item)
    requires item !in ScaleMap(runs)
    ensures Known(runs, item) == []
    ensures forall i :: 0 <= i < |runs| ==> item !in runs[i].verdicts
  {
    if runs != [] {
      UnscoredItem(runs[..|runs| - 1], item);
      assert forall i :: 0 <= i < |runs| - 1 ==> runs[..|runs| - 1][i] == runs[i];
    }
  }

  /** The runs that give the item no known verdict. */
  function UnknownRuns(runs: seq<ScoredRun>, item: Item): nat {
    if runs == [] then 0
    else UnknownRuns(runs[..|runs| - 1], item) + (if runs[|runs| - 1].Level(item).None? then 1 else 0)
  }

  /** Every run is either unknown for the item or at or above the lowest rank. */
  lemma {:induction false} UnknownAndReachedAddUp(runs: seq<ScoredRun>, item: Item)
    ensures UnknownRuns(runs, item) + CountAtLeast(Known(runs, item), 0) == |runs|
  {
    if runs != [] {
      UnknownAndReachedAddUp(runs[..|runs| - 1], item);
      KnownTail(runs, item, 0);
    }
  }

  lemma {:induction false} CountEqualAppend(values: seq<int>, x: int, v: int)
    ensures CountEqual(values + [x], v) == CountEqual(values, v) + (if x == v then 1 else 0)
  {
    if values == [] {
      assert values + [x] == [x];
    } else {
      assert (values + [x])[1..] == values[1..] + [x];
      CountEqualAppend(values[1..], x, v);
    }
  }

  lemma {:induction false} HistogramStep(runs: seq<ScoredRun>, n: nat, item: Item, r: nat)
    requires n < |runs|
    ensures CountEqual(Known(runs[..n + 1], item), r)
         == CountEqual(Known(runs[..n], item), r) + (if runs[n].Level(item) == Some(r) then 1 else 0)
  {
    assert runs[..n + 1][..n] == runs[..n];
    var before, got := Known(runs[..n], item), runs[n].Level(item);
    if got.Some? {
      CountEqualAppend(before, got.value, r);
    } else {
      assert before + [] == before;
    }
  }

  /** How many runs give the item each rank of the scale. */
  method Histogram(runs: seq<ScoredRun>, item: Item, scale: Scale) returns (counts: array<nat>)
    requires FitsScale(runs, item, scale)
    ensures fresh(counts) && counts.Length == Size(scale)
    ensures forall r :: 0 <= r < counts.Length ==> counts[r] == CountEqual(Known(runs, item), r)
  {
    counts := new nat[Size(scale)](_ => 0);
    for n := 0 to |runs|
      invariant forall r :: 0 <= r < counts.Length ==> counts[r] == CountEqual(Known(runs[..n], item), r)
    {
      var got := runs[n].Level(item);
      forall r | 0 <= r < counts.Length { HistogramStep(runs, n, item, r); }
      if got.Some? {
        counts[got.value] := counts[got.value] + 1;
      }
    }
    assert runs[..|runs|] == runs;
  }

  /**
   Count each rank once per run, then add the counts from the best word down:
   the first rank whose total reaches `m` is the arm's.
   */
  method Reached(a: Arm, item: Item, scale: Scale) returns (best: Option<nat>, atLeast: seq<nat>)
    requires FitsScale(a.runs, item, scale)
    ensures best == ArmLevel(a, item, scale)
    ensures |atLeast| == Size(scale)
    ensures forall r :: 0 <= r < |atLeast| ==> atLeast[r] == CountAtLeast(Known(a.runs, item), r)
  {
    hide Known, FitsScale;
    var size := Size(scale);
    var counts := Histogram(a.runs, item, scale);
    var totals := new nat[size](_ => 0);
    var total := 0;
    best := None;
    ghost var known := Known(a.runs, item);
    KnownFits(a.runs, item, scale);
    CountBounds(known, size);
    hide CountAtLeast, CountEqual, Size;
    for r := size downto 0
      invariant total == CountAtLeast(known, r)
      invariant forall q :: r <= q < size ==> totals[q] == CountAtLeast(known, q)
      invariant forall q :: 0 <= q < size ==> counts[q] == CountEqual(known, q)
      invariant ArmLevel(a, item, scale) == if best.Some? then best else BestBelow(known, a.m, r)
    {
      SplitSizes(known, r);
      total := total + counts[r];
      totals[r] := total;
      if best.None? && total >= a.m {
        best := Some(r);
      }
    }
    atLeast := totals[..];
  }

  /** The arm's verdict is the m-th largest of its known ranks: the two algorithms agree. */
  lemma {:induction false} ArmLevelIsMthLargest(a: Arm, item: Item, scale: Scale)
    requires a.m >= 1 && FitsScale(a.runs, item, scale)
    ensures ArmLevel(a, item, scale).None? <==> |Known(a.runs, item)| < a.m
    ensures ArmLevel(a, item, scale).Some? ==>
              IsMthLargest(Known(a.runs, item), a.m, ArmLevel(a, item, scale).value)
  {
    KnownFits(a.runs, item, scale);
    ScanFindsMthLargest(Known(a.runs, item), a.m, Size(scale));
  }

  lemma {:induction false} KnownConcat(a: seq<ScoredRun>, b: seq<ScoredRun>, item: Item)
    ensures Known(a + b, item) == Known(a, item) + Known(b, item)
  {
    if b == [] {
      assert a + b == a;
    } else {
      var before := b[..|b| - 1];
      assert (a + b)[..|a + b| - 1] == a + before;
      KnownConcat(a, before, item);
    }
  }

  lemma {:induction false} KnownWithout(runs: seq<ScoredRun>, k: nat, rest: seq<ScoredRun>, item: Item)
    requires k < |runs| && rest == runs[..k] + runs[k + 1..]
    ensures multiset(Known(runs, item)) == multiset(Known(rest, item)) + multiset(Known([runs[k]], item))
  {
    assert runs == runs[..k] + [runs[k]] + runs[k + 1..];
    KnownConcat(runs[..k] + [runs[k]], runs[k + 1..], item);
    KnownConcat(runs[..k], [runs[k]], item);
    KnownConcat(runs[..k], runs[k + 1..], item);
  }

  /** The same runs in another order give the same ranks, in some order. */
  lemma {:induction false} KnownOfMultiset(a: seq<ScoredRun>, b: seq<ScoredRun>, item: Item)
    requires multiset(a) == multiset(b)
    ensures multiset(Known(a, item)) == multiset(Known(b, item))
    decreases |a|
  {
    if a == [] {
      assert |multiset(b)| == 0;
    } else {
      var k := PermutationWithout(a, b);
      var rest := b[..k] + b[k + 1..];
      assert a[1..] == a[..0] + a[1..];
      KnownWithout(a, 0, a[1..], item);
      KnownWithout(b, k, rest, item);
      KnownOfMultiset(a[1..], rest, item);
    }
  }

  /** Listing the same runs in another order gives every item the same verdict. */
  lemma {:induction false} ArmLevelIgnoresRunOrder(a: Arm, b: Arm, item: Item, scale: Scale)
    requires a.m == b.m >= 1 && multiset(a.runs) == multiset(b.runs)
    requires FitsScale(a.runs, item, scale) && FitsScale(b.runs, item, scale)
    ensures ArmLevel(a, item, scale) == ArmLevel(b, item, scale)
  {
    var ka, kb := Known(a.runs, item), Known(b.runs, item);
    KnownOfMultiset(a.runs, b.runs, item);
    assert |ka| == |multiset(ka)| == |multiset(kb)| == |kb|;
    ArmLevelIsMthLargest(a, item, scale);
    ArmLevelIsMthLargest(b, item, scale);
    if ArmLevel(a, item, scale).Some? {
      MthLargestIgnoresOrder(ka, kb, a.m, ArmLevel(a, item, scale).value);
      MthLargestIsUnique(kb, a.m, ArmLevel(a, item, scale).value, ArmLevel(b, item, scale).value);
    }
  }

  /** One verdict ranks no lower than another; an unknown one ranks below every word. */
  predicate NoLower(low: Option<nat>, high: Option<nat>) {
    low.Some? ==> high.Some? && low.value <= high.value
  }

  /** Run by run, the item's verdict in `better` is no lower than in `worse`. */
  ghost predicate RunwiseNoLower(worse: seq<ScoredRun>, better: seq<ScoredRun>, item: Item) {
    |worse| == |better|
    && forall i :: 0 <= i < |worse| ==> NoLower(worse[i].Level(item), better[i].Level(item))
  }

  lemma {:induction false} CountsGrowWithVerdicts(worse: seq<ScoredRun>, better: seq<ScoredRun>, item: Item, v: nat)
    requires RunwiseNoLower(worse, better, item)
    ensures CountAtLeast(Known(worse, item), v) <= CountAtLeast(Known(better, item), v)
  {
    if worse != [] {
      var n := |worse| - 1;
      assert forall i :: 0 <= i < n ==> worse[..n][i] == worse[i] && better[..n][i] == better[i];
      CountsGrowWithVerdicts(worse[..n], better[..n], item, v);
      assert NoLower(worse[n].Level(item), better[n].Level(item));
      KnownTail(worse, item, v);
      KnownTail(better, item, v);
    }
  }

  lemma {:induction false} KnownTail(runs: seq<ScoredRun>, item: Item, v: int)
    requires runs != []
    ensures var level := runs[|runs| - 1].Level(item);
      CountAtLeast(Known(runs, item), v) == CountAtLeast(Known(runs[..|runs| - 1], item), v)
        + (if level.Some? && level.value >= v then 1 else 0)
  {
    var level := runs[|runs| - 1].Level(item);
    var before := Known(runs[..|runs| - 1], item);
    if level.Some? {
      CountConcat(before, [level.value], v);
    } else {
      assert before + [] == before;
    }
  }

  /** Raising any run's verdict, or asking for fewer runs, never lowers the arm's verdict. */
  lemma {:induction false} ArmLevelIsMonotone(worse: Arm, better: Arm, item: Item, scale: Scale)
    requires 1 <= better.m <= worse.m
    requires RunwiseNoLower(worse.runs, better.runs, item)
    requires FitsScale(worse.runs, item, scale) && FitsScale(better.runs, item, scale)
    ensures NoLower(ArmLevel(worse, item, scale), ArmLevel(better, item, scale))
  {
    var low, high := ArmLevel(worse, item, scale), ArmLevel(better, item, scale);
    if low.Some? {
      CountsGrowWithVerdicts(worse.runs, better.runs, item, low.value);
      BestBelowCharacterised(Known(worse.runs, item), worse.m, Size(scale));
      BestBelowCharacterised(Known(better.runs, item), better.m, Size(scale));
    }
  }
}
