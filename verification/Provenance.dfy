/** Which runs found an item themselves. */
module Provenance {
  // Which runs found a credited item by their own analysis, and the one tag an arm
  // gives the item.

  import opened Wrappers
  import opened Scores
  import opened OrderStatistics
  import opened Arms

  /** The tags of the runs whose verdict for the item is `best` or better, in run order. */
  function TagsReaching(runs: seq<ScoredRun>, item: Item, best: nat): seq<Tag> {
    if runs == [] then []
    else
      var last := runs[|runs| - 1];
      TagsReaching(runs[..|runs| - 1], item, best)
        + (if Reaches(last, item, best) then [last.TagFor(item)] else [])
  }

  predicate Reaches(run: ScoredRun, item: Item, best: nat) {
    run.Level(item).Some? && run.Level(item).value >= best
  }

  function CountTag(tags: seq<Tag>, tag: Tag): nat {
    if tags == [] then 0
    else CountTag(tags[..|tags| - 1], tag) + (if tags[|tags| - 1] == tag then 1 else 0)
  }

  function CountByAnalysis(tags: seq<Tag>): nat {
    CountTag(tags, Own) + CountTag(tags, Both)
  }

  ghost function Shared(tags: seq<Tag>, m: nat): set<Tag> {
    set tag | tag in tags && CountTag(tags, tag) >= m
  }

  /** The one tag `m` runs share; else both, when `m` runs found it by analysis; else mixed. */
  ghost function ArmTag(tags: seq<Tag>, m: nat): Tag {
    if exists tag :: Shared(tags, m) == {tag} then
      var tag :| Shared(tags, m) == {tag};
      tag
    else if CountByAnalysis(tags) >= m then Both
    else Mixed
  }

  // ----- Counting tags ------------------------------------------------------

  lemma {:induction false} CountTagAppend(tags: seq<Tag>, x: Tag, tag: Tag)
    ensures CountTag(tags + [x], tag) == CountTag(tags, tag) + (if x == tag then 1 else 0)
  {
    assert (tags + [x])[..|tags|] == tags;
  }

  /** Two different tags cannot both be held by more runs than there are. */
  lemma {:induction false} TwoTagsFit(tags: seq<Tag>, s: Tag, t: Tag)
    requires s != t
    ensures CountTag(tags, s) + CountTag(tags, t) <= |tags|
  {
    if tags != [] {
      TwoTagsFit(tags[..|tags| - 1], s, t);
    }
  }

  lemma {:induction false} ThreeTagsFit(tags: seq<Tag>, t: Tag)
    requires !ByAnalysis(t)
    ensures CountByAnalysis(tags) + CountTag(tags, t) <= |tags|
  {
    if tags != [] {
      ThreeTagsFit(tags[..|tags| - 1], t);
    }
  }

  lemma {:induction false} CountTagPositive(tags: seq<Tag>, tag: Tag)
    requires CountTag(tags, tag) >= 1
    ensures tag in tags
  {
    if tags[|tags| - 1] != tag {
      CountTagPositive(tags[..|tags| - 1], tag);
    }
  }

  /** As many runs are tagged as reach the verdict. */
  lemma {:induction false} TagsReachingSize(runs: seq<ScoredRun>, item: Item, best: nat)
    ensures |TagsReaching(runs, item, best)| == CountAtLeast(Known(runs, item), best) <= |runs|
  {
    if runs != [] {
      TagsReachingSize(runs[..|runs| - 1], item, best);
      KnownTail(runs, item, best);
    }
  }

  // ----- What a strict majority buys ----------------------------------------

  /** Under a strict majority at most one tag is shared by `m` runs. */
  lemma {:induction false} AtMostOneSharedTag(tags: seq<Tag>, m: nat, n: nat, s: Tag, t: Tag)
    requires |tags| <= n < 2 * m
    requires s in Shared(tags, m) && t in Shared(tags, m)
    ensures s == t
  {
    if s != t {
      TwoTagsFit(tags, s, t);
    }
  }

  /**
   For any `m`: the arm's tag says "by analysis" exactly when `m` runs found the
   item by analysis and no other tag is the only one `m` runs share.
   */
  lemma {:induction false} AnalysisTagCondition(tags: seq<Tag>, m: nat)
    requires m >= 1
    ensures ByAnalysis(ArmTag(tags, m)) <==>
              CountByAnalysis(tags) >= m && !exists t :: !ByAnalysis(t) && Shared(tags, m) == {t}
  {
    if exists tag :: Shared(tags, m) == {tag} {
      var tag := ArmTag(tags, m);
      assert tag in Shared(tags, m);
      assert forall t :: Shared(tags, m) == {t} ==> t == tag by {
        assert forall t :: Shared(tags, m) == {t} ==> tag in {t};
      }
    }
  }

  /** Under a strict majority the tag is exact: by analysis if and only if `m` runs found it so. */
  lemma {:induction false} MajorityTagIsExact(tags: seq<Tag>, m: nat, n: nat)
    requires |tags| <= n < 2 * m
    ensures ByAnalysis(ArmTag(tags, m)) <==> CountByAnalysis(tags) >= m
  {
    AnalysisTagCondition(tags, m);
    if CountByAnalysis(tags) >= m {
      forall t | !ByAnalysis(t)
        ensures Shared(tags, m) != {t}
      {
        ThreeTagsFit(tags, t);
        assert t !in Shared(tags, m);
      }
    }
  }

  /** With less than a strict majority it is not: two of four by analysis, two by lookup. */
  lemma {:induction false} MinorityTagCanHideAnalysis()
    ensures var tags := [Own, Both, LookupOnly, LookupOnly];
      CountByAnalysis(tags) >= 2 && !ByAnalysis(ArmTag(tags, 2))
  {
    var tags := [Own, Both, LookupOnly, LookupOnly];
    assert tags[..3] == [Own, Both, LookupOnly];
    assert tags[..3][..2] == [Own, Both];
    assert tags[..3][..2][..1] == [Own];
    assert forall tag :: CountTag(tags, tag) == CountTag([Own, Both], tag) + (if tag == LookupOnly then 2 else 0);
    assert forall tag :: CountTag([Own, Both], tag) == (if ByAnalysis(tag) then 1 else 0);
    assert CountByAnalysis(tags) == 2;
    assert tags[2] == LookupOnly;
    assert Shared(tags, 2) == {LookupOnly};
    AnalysisTagCondition(tags, 2);
  }

  /**
   Each tag exactly: own where an analysis credited the item and no lookup did, both where
   both did, lookup only where nothing else of a known or undeclared kind did, untold where an
   undeclared entry did and no analysis, and no entry where none of the three did.
   */
  lemma {:induction false} TagExactly(classes: set<EntryClass>)
    ensures TagOf(classes) == Own <==> {Analysis} <= classes && classes !! {Lookup}
    ensures TagOf(classes) == Both <==> {Analysis, Lookup} <= classes
    ensures TagOf(classes) == LookupOnly <==> {Lookup} <= classes && classes !! {Analysis, Undeclared}
    ensures TagOf(classes) == Untold <==> {Undeclared} <= classes && classes !! {Analysis}
    ensures TagOf(classes) == NoEntry <==> classes <= {NoAnswer, NotInLedger}
  {
    forall c | c in classes ensures c in {Analysis, Lookup, Undeclared} || c in {NoAnswer, NotInLedger} {
      match c case Analysis => case Lookup => case Undeclared => case NoAnswer => case NotInLedger =>
    }
    assert classes <= {NoAnswer, NotInLedger} <==> Analysis !in classes && Lookup !in classes && Undeclared !in classes;
    assert classes !! {Analysis, Undeclared} <==> Analysis !in classes && Undeclared !in classes;
  }

  /** The runs at or above a verdict that an analysis entry of their ledger credits the item to. */
  function RunsByAnalysis(runs: seq<ScoredRun>, item: Item, best: nat): nat {
    if runs == [] then 0
    else
      var last := runs[|runs| - 1];
      RunsByAnalysis(runs[..|runs| - 1], item, best)
        + (if Reaches(last, item, best) && item in last.provenance
              && Analysis in last.provenance[item].entries.Values then 1 else 0)
  }

  lemma {:induction false} AnalysisStep(runs: seq<ScoredRun>, item: Item, best: nat)
    requires runs != []
    requires var last := runs[|runs| - 1];
      item in last.provenance ==> Attributed(last.provenance[item])
    ensures var before, last := runs[..|runs| - 1], runs[|runs| - 1];
      CountByAnalysis(TagsReaching(runs, item, best)) - CountByAnalysis(TagsReaching(before, item, best))
        == RunsByAnalysis(runs, item, best) - RunsByAnalysis(before, item, best)
  {
    hide CountTag;
    var last, tags := runs[|runs| - 1], TagsReaching(runs[..|runs| - 1], item, best);
    if Reaches(last, item, best) {
      CountTagAppend(tags, last.TagFor(item), Own);
      CountTagAppend(tags, last.TagFor(item), Both);
    } else {
      assert tags + [] == tags;
    }
  }

  lemma {:induction false} TagsCountAnalysisEntries(runs: seq<ScoredRun>, item: Item, best: nat)
    requires forall i :: 0 <= i < |runs| && item in runs[i].provenance ==> Attributed(runs[i].provenance[item])
    ensures CountByAnalysis(TagsReaching(runs, item, best)) == RunsByAnalysis(runs, item, best)
  {
    if runs != [] {
      var before := runs[..|runs| - 1];
      assert forall i :: 0 <= i < |before| ==> before[i] == runs[i];
      TagsCountAnalysisEntries(before, item, best);
      AnalysisStep(runs, item, best);
    }
  }

  /**
   From the ledgers to the arm's tag: under a strict majority, an arm calls an
   item found by analysis exactly when at least `m` of its runs reach the verdict
   with an analysis entry among those that credited it.
   */
  lemma {:induction false} MajorityTagReadsTheLedgers(a: Arm, item: Item, best: nat)
    requires |a.runs| < 2 * a.m
    requires forall i :: 0 <= i < |a.runs| && item in a.runs[i].provenance ==>
      Attributed(a.runs[i].provenance[item])
    ensures ByAnalysis(ArmTag(TagsReaching(a.runs, item, best), a.m))
       <==> RunsByAnalysis(a.runs, item, best) >= a.m
  {
    TagsReachingSize(a.runs, item, best);
    MajorityTagIsExact(TagsReaching(a.runs, item, best), a.m, |a.runs|);
    TagsCountAnalysisEntries(a.runs, item, best);
  }

  // ----- The tag as the gate computes it ------------------------------------

  /** What a map holds under one tag. */
  ghost function Tagged<K>(held: map<K, Tag>, tag: Tag): set<K> {
    set name | name in held && held[name] == tag
  }

  /** How often each tag is held. */
  method CountTags<K(==)>(held: map<K, Tag>) returns (counts: map<Tag, nat>)
    ensures counts.Keys == held.Values
    ensures forall tag :: tag in counts ==> counts[tag] == |Tagged(held, tag)|
  {
    counts := map[];
    var todo := held.Keys;
    ghost var done: map<K, Tag> := map[];
    while todo != {}
      invariant todo <= held.Keys && done.Keys == held.Keys - todo
      invariant forall name :: name in done ==> done[name] == held[name]
      invariant counts.Keys == done.Values
      invariant forall tag :: tag in counts ==> counts[tag] == |Tagged(done, tag)|
    {
      var name :| name in todo;
      var tag := held[name];
      TaggedStep(done, name, tag);
      counts := counts[tag := (if tag in counts then counts[tag] else 0) + 1];
      done := done[name := tag];
      todo := todo - {name};
    }
    assert done == held;
  }

  lemma {:induction false} TaggedStep<K>(done: map<K, Tag>, name: K, tag: Tag)
    requires name !in done
    ensures Tagged(done[name := tag], tag) == Tagged(done, tag) + {name}
    ensures |Tagged(done[name := tag], tag)| == |Tagged(done, tag)| + 1
    ensures forall t :: t != tag ==> Tagged(done[name := tag], t) == Tagged(done, t)
    ensures done[name := tag].Values == done.Values + {tag}
    ensures tag !in done.Values ==> |Tagged(done, tag)| == 0
  {
    assert Tagged(done[name := tag], tag) == Tagged(done, tag) + {name};
    forall t | t != tag ensures Tagged(done[name := tag], t) == Tagged(done, t) {}
    forall t | t in done.Values ensures t in done[name := tag].Values {
      var n :| n in done && done[n] == t;
      assert done[name := tag][n] == t;
    }
    assert done[name := tag][name] == tag;
    if tag !in done.Values {
      assert Tagged(done, tag) == {};
    }
  }

  /** An arm's tag for an item, and each reaching run's own tag by name. */
  datatype ArmProvenance = ArmProvenance(tag: Tag, runs: map<string, Tag>)

  /** `held` is each reaching run's tag, by the run's name. */
  ghost predicate Lists(held: map<string, Tag>, runs: seq<ScoredRun>, item: Item, best: nat) {
    && (forall name :: name in held ==> exists i :: 0 <= i < |runs| && runs[i].name == name)
    && (forall i :: 0 <= i < |runs| ==> (runs[i].name in held <==> Reaches(runs[i], item, best)))
    && (forall i :: 0 <= i < |runs| && runs[i].name in held ==> held[runs[i].name] == runs[i].TagFor(item))
  }

  /** Names being unique, the map by name counts each tag as often as the runs hold it. */
  ghost predicate CountsAlike(held: map<string, Tag>, tags: seq<Tag>) {
    |held| == |tags| && forall tag :: |Tagged(held, tag)| == CountTag(tags, tag)
  }

  method ReachingRuns(runs: seq<ScoredRun>, item: Item, best: nat) returns (held: map<string, Tag>)
    requires UniqueNames(runs)
    ensures Lists(held, runs, item, best)
    ensures CountsAlike(held, TagsReaching(runs, item, best))
  {
    held := map[];
    for n := 0 to |runs|
      invariant Lists(held, runs[..n], item, best)
      invariant CountsAlike(held, TagsReaching(runs[..n], item, best))
    {
      ListsStep(held, runs, n, item, best);
      if Reaches(runs[n], item, best) {
        held := held[runs[n].name := runs[n].TagFor(item)];
      }
    }
    assert runs[..|runs|] == runs;
  }

  lemma {:induction false} ListsStep(held: map<string, Tag>, runs: seq<ScoredRun>, n: nat, item: Item, best: nat)
    requires n < |runs| && UniqueNames(runs)
    requires Lists(held, runs[..n], item, best)
    requires CountsAlike(held, TagsReaching(runs[..n], item, best))
    ensures runs[n].name !in held
    ensures Lists(WithRun(held, runs[n], item, best), runs[..n + 1], item, best)
    ensures CountsAlike(WithRun(held, runs[n], item, best), TagsReaching(runs[..n + 1], item, best))
  {
    assert runs[..n + 1] == runs[..n] + [runs[n]];
    assert runs[n].name !in held by {
      assert forall i :: 0 <= i < n ==> runs[..n][i].name != runs[n].name;
    }
    ListsAdd(held, runs[..n], runs[n], item, best);
    CountsAdd(held, runs[..n], runs[n], item, best);
  }

  function WithRun(held: map<string, Tag>, run: ScoredRun, item: Item, best: nat): map<string, Tag> {
    if Reaches(run, item, best) then held[run.name := run.TagFor(item)] else held
  }

  lemma {:induction false} ListsAdd(held: map<string, Tag>, runs: seq<ScoredRun>, run: ScoredRun, item: Item, best: nat)
    requires Lists(held, runs, item, best) && run.name !in held
    requires forall i :: 0 <= i < |runs| ==> runs[i].name != run.name
    ensures Lists(WithRun(held, run, item, best), runs + [run], item, best)
  {
    assert (runs + [run])[|runs|].name == run.name;
    forall name | name in held
      ensures exists i :: 0 <= i < |runs + [run]| && (runs + [run])[i].name == name
    {
      var i :| 0 <= i < |runs| && runs[i].name == name;
      assert (runs + [run])[i].name == name;
    }
  }

  lemma {:induction false} CountsAdd(held: map<string, Tag>, runs: seq<ScoredRun>, run: ScoredRun, item: Item, best: nat)
    requires CountsAlike(held, TagsReaching(runs, item, best)) && run.name !in held
    ensures CountsAlike(WithRun(held, run, item, best), TagsReaching(runs + [run], item, best))
  {
    var tags := TagsReaching(runs, item, best);
    assert (runs + [run])[..|runs|] == runs;
    if Reaches(run, item, best) {
      TaggedStep(held, run.name, run.TagFor(item));
      forall tag { CountTagAppend(tags, run.TagFor(item), tag); }
    } else {
      assert tags + [] == tags;
    }
  }

  /** The tag from the counts: the one shared by `m` runs, else by analysis or mixed. */
  method TagFromCounts(held: map<string, Tag>, m: nat, ghost tags: seq<Tag>) returns (tag: Tag)
    requires m >= 1 && CountsAlike(held, tags)
    ensures tag == ArmTag(tags, m)
  {
    var counts := CountTags(held);
    hide CountTag;
    forall t
      ensures t in counts ==> counts[t] == CountTag(tags, t)
      ensures t !in counts ==> CountTag(tags, t) == 0
    {
      if t !in counts {
        assert Tagged(held, t) == {};
      }
    }
    var shared := set t | t in counts && counts[t] >= m;
    SharedSet(tags, m, shared);
    if |shared| == 1 {
      tag :| tag in shared;
      OneElement(shared, tag);
    } else {
      assert forall t :: shared == {t} ==> |shared| == 1;
      var analysis := (if Own in counts then counts[Own] else 0) + (if Both in counts then counts[Both] else 0);
      tag := if analysis >= m then Both else Mixed;
    }
  }

  /** Who found the item, where it is credited at all. */
  method ProvenanceOf(a: Arm, item: Item, scale: Scale, best: Option<nat>) returns (p: Option<ArmProvenance>)
    requires a.m >= 1 && UniqueNames(a.runs)
    ensures p.Some? <==> Credited(scale, best)
    ensures p.Some? ==> p.value.tag == ArmTag(TagsReaching(a.runs, item, best.value), a.m)
    ensures p.Some? ==> Lists(p.value.runs, a.runs, item, best.value)
    ensures p.Some? ==> |p.value.runs| == CountAtLeast(Known(a.runs, item), best.value)
  {
    if best.None? || !Credited(scale, best) {
      return None;
    }
    var held := ReachingRuns(a.runs, item, best.value);
    var tag := TagFromCounts(held, a.m, TagsReaching(a.runs, item, best.value));
    TagsReachingSize(a.runs, item, best.value);
    return Some(ArmProvenance(tag, held));
  }

  lemma {:induction false} SharedSet(tags: seq<Tag>, m: nat, shared: set<Tag>)
    requires m >= 1
    requires forall tag :: tag in shared <==> CountTag(tags, tag) >= m
    ensures shared == Shared(tags, m)
  {
    forall tag | tag in shared ensures tag in Shared(tags, m) { CountTagPositive(tags, tag); }
  }

  lemma {:induction false} OneElement<T>(s: set<T>, x: T)
    requires |s| == 1 && x in s
    ensures s == {x}
  {
    var rest := s - {x};
    assert |rest| == 0;
    assert s == rest + {x};
  }
}
