/** A calibration fact's status, and more evidence. */
module FactScore {
  import opened Wrappers
  import opened Lines
  import opened Folding
  import opened TextSearch
  import Scores
  import Arms
  import Gate

  /** How a fact's kind is read from the tool rows. */
  datatype Mode = Token | Decoded | Section

  function Reading(kind: string): Option<Mode> {
    if kind in {"import", "export", "string", "api_hash", "packed"} then Some(Token)
    else if kind in {"xor_string", "config"} then Some(Decoded)
    else if kind == "section_anomaly" then Some(Section)
    else None
  }

  /** A fact's terms, each in its spellings, and the values that publish it or its technique. */
  datatype Fact = Fact(kind: string, terms: seq<seq<string>>, indicators: seq<string>, techniques: seq<string>)

  /** A claim that was kept: its sentence, and entry by entry the texts it rests on. */
  datatype Claim = Claim(text: string, cited: seq<seq<string>>)

  /** One run's scored texts, each on its own; none for a part the run lacks. */
  datatype Surfaces = Surfaces(
    toolParts: seq<string>,
    flaggedSections: set<string>,
    keptClaims: seq<Claim>,
    freeParts: seq<string>,
    evidenceParts: seq<string>,
    techniques: Option<seq<string>>,
    indicators: Option<seq<string>>)

  /** The text of the entries a claim cites, each folded by itself. */
  function Cited(fold: Fold, entries: seq<seq<string>>): string {
    Text(Each(fold, Texts(entries)))
  }

  function OrNone(stored: Option<seq<string>>): seq<string> {
    if stored.Some? then stored.value else []
  }

  // ----- What a run holds of a fact -----------------------------------------

  /** Some spelling of the term stands in the text. */
  predicate In(fold: Fold, term: seq<string>, text: string) {
    exists spelling :: spelling in term && Contains(text, fold(spelling))
  }

  predicate Held(fold: Fold, mode: Mode, term: seq<string>, s: Surfaces) {
    if mode == Decoded then In(fold, term, fold(Text(s.toolParts)))
    else exists spelling :: spelling in term && fold(spelling) in Tokens(fold(Text(s.toolParts)))
  }

  function HeldCount(fold: Fold, mode: Mode, terms: seq<seq<string>>, s: Surfaces): (n: nat)
    ensures n <= |terms|
  {
    if terms == [] then 0
    else HeldCount(fold, mode, terms[1..], s) + if Held(fold, mode, terms[0], s) then 1 else 0
  }

  predicate Flagged(fold: Fold, f: Fact, s: Surfaces) {
    exists term :: term in f.terms && exists spelling :: spelling in term && fold(spelling) in s.flaggedSections
  }

  predicate States(fold: Fold, terms: seq<seq<string>>, c: Claim) {
    forall term :: term in terms ==> In(fold, term, fold(c.text)) && In(fold, term, Cited(fold, c.cited))
  }

  /** Some kept claim has each of the terms twice over: in its own words and in what it cites. */
  predicate Claimed(fold: Fold, terms: seq<seq<string>>, s: Surfaces) {
    terms != [] && exists c :: c in s.keptClaims && States(fold, terms, c)
  }

  function WithoutDots(s: string): string {
    if s != "" && s[|s| - 1] == '.' then WithoutDots(s[..|s| - 1]) else s
  }

  predicate Names(fold: Fold, indicator: string, value: string) {
    Contains(WithoutDots(fold(value)), WithoutDots(fold(indicator)))
  }

  predicate IndicatorPublished(fold: Fold, f: Fact, s: Surfaces) {
    exists v :: v in OrNone(s.indicators) && exists k :: k in f.indicators && Names(fold, k, v)
  }

  function Upper(s: string): string {
    if s == "" then ""
    else [if 'a' <= s[0] <= 'z' then s[0] - 'a' + 'A' else s[0]] + Upper(s[1..])
  }

  /** Equal but for case, or the one a dot and more after the other. */
  predicate Covers(claimed: string, technique: string) {
    var a, b := Upper(claimed), Upper(technique);
    a == b || b + "." <= a || a + "." <= b
  }

  predicate TechniquePublished(f: Fact, s: Surfaces) {
    exists t :: t in OrNone(s.techniques) && exists k :: k in f.techniques && Covers(t, k)
  }

  predicate EvidenceHolds(fold: Fold, f: Fact, s: Surfaces) {
    f.terms != [] && forall term :: term in f.terms ==> In(fold, term, fold(Text(s.evidenceParts)))
  }

  predicate Mentions(fold: Fold, f: Fact, s: Surfaces) {
    exists term :: term in f.terms && In(fold, term, fold(Text(s.freeParts)))
  }

  // ----- The status ---------------------------------------------------------

  datatype Status = Missed | Mentioned | Partial | Found

  /** The status's place on the fact scale. */
  function Rank(status: Status): (r: nat)
    ensures r < Scores.Size(Scores.Fact)
  {
    match status
    case Missed => 0
    case Mentioned => 1
    case Partial => 2
    case Found => 3
  }

  function StatusIn(fold: Fold, mode: Mode, f: Fact, s: Surfaces): Status {
    var held := HeldCount(fold, mode, f.terms, s);
    if mode == Section && held > 0 && !Flagged(fold, f, s) then Partial
    else if f.terms != [] && held == |f.terms| then Found
    else if Claimed(fold, f.terms, s) then Found
    else if IndicatorPublished(fold, f, s) then Found
    else if held > 0 then Partial
    else if TechniquePublished(f, s) then Partial
    else if EvidenceHolds(fold, f, s) then Partial
    else if Mentions(fold, f, s) then Mentioned
    else Missed
  }

  /** A fact of a kind with no reading is refused. */
  function StatusOf(fold: Fold, f: Fact, s: Surfaces): Result<Status, string> {
    if Reading(f.kind).None? then Err(f.kind) else Ok(StatusIn(fold, Reading(f.kind).value, f, s))
  }

  // ----- More evidence ------------------------------------------------------

  /** No spelling of the terms goes over a newline. */
  ghost predicate OneLineSpellings(terms: seq<seq<string>>) {
    forall term :: term in terms ==> OneLineTerm(term)
  }

  ghost predicate OneLineTerm(term: seq<string>) {
    forall spelling :: spelling in term ==> OneLine(spelling)
  }

  /** The one claim says all that the other says, and cites all the texts that the other cites. */
  ghost predicate SaysAll(fold: Fold, large: Claim, small: Claim) {
    && Contains(fold(large.text), fold(small.text))
    && forall i :: 0 <= i < |small.cited| ==> CitesAll(fold, large, small.cited[i])
  }

  ghost predicate CitesAll(fold: Fold, claim: Claim, entry: seq<string>) {
    exists k :: 0 <= k < |claim.cited| && HasAll(fold, claim.cited[k], entry)
  }

  /** The one run has all that the other has, wherever it stands there, and perhaps more. */
  ghost predicate Extends(fold: Fold, large: Surfaces, small: Surfaces) {
    && HasAll(fold, large.toolParts, small.toolParts)
    && small.flaggedSections <= large.flaggedSections
    && (forall c :: c in small.keptClaims ==> exists d :: d in large.keptClaims && SaysAll(fold, d, c))
    && HasAll(fold, large.freeParts, small.freeParts)
    && HasAll(fold, large.evidenceParts, small.evidenceParts)
    && (forall t :: t in OrNone(small.techniques) ==> t in OrNone(large.techniques))
    && (forall v :: v in OrNone(small.indicators) ==> v in OrNone(large.indicators))
  }

  lemma {:induction false} InGrows(fold: Fold, term: seq<string>, small: seq<string>, large: seq<string>)
    requires FoldsByLine(fold) && HasAll(fold, large, small) && OneLineTerm(term)
    requires In(fold, term, fold(Text(small)))
    ensures In(fold, term, fold(Text(large)))
  {
    hide Contains, HasAll;
    var spelling :| spelling in term && Contains(fold(Text(small)), fold(spelling));
    assert KeepsOneLine(fold, spelling);
    OneLineStays(fold, small, large, fold(spelling));
  }

  lemma {:induction false} CitedGrows(fold: Fold, term: seq<string>, small: Claim, large: Claim)
    requires FoldsByLine(fold) && SaysAll(fold, large, small) && OneLineTerm(term)
    requires In(fold, term, Cited(fold, small.cited))
    ensures In(fold, term, Cited(fold, large.cited))
  {
    hide Contains, HasAll;
    var spelling :| spelling in term && Contains(Cited(fold, small.cited), fold(spelling));
    var needle := fold(spelling);
    assert KeepsOneLine(fold, spelling);
    hide FoldsByLine;
    if small.cited == [] {
      NothingInNothing(needle);
      EmptyInAll(Cited(fold, large.cited));
    } else {
      hide Text;
      OneLineStandsInOne(Each(fold, Texts(small.cited)), needle);
      var i :| 0 <= i < |small.cited| && Contains(fold(Text(small.cited[i])), needle);
      assert CitesAll(fold, large, small.cited[i]);
      var k :| 0 <= k < |large.cited| && HasAll(fold, large.cited[k], small.cited[i]);
      OneLineStays(fold, small.cited[i], large.cited[k], needle);
      assert Contains(Each(fold, Texts(large.cited))[k], needle);
      OneLineStandsInOne(Each(fold, Texts(large.cited)), needle);
    }
  }

  lemma NothingInNothing(needle: string)
    requires Contains("", needle)
    ensures needle == ""
  {
  }

  lemma EmptyInAll(text: string)
    ensures Contains(text, "")
  {
    assert Occurs(text, "", 0);
  }

  lemma {:induction false} HeldGrows(fold: Fold, mode: Mode, terms: seq<seq<string>>, small: Surfaces, large: Surfaces)
    requires FoldsByLine(fold) && Extends(fold, large, small) && OneLineSpellings(terms)
    ensures HeldCount(fold, mode, terms, small) <= HeldCount(fold, mode, terms, large)
  {
    hide FoldsByLine, HasAll, In, SaysAll;
    if terms != [] {
      HeldGrows(fold, mode, terms[1..], small, large);
      TokensStay(fold, small.toolParts, large.toolParts);
      assert OneLineTerm(terms[0]);
      if mode == Decoded && In(fold, terms[0], fold(Text(small.toolParts))) {
        InGrows(fold, terms[0], small.toolParts, large.toolParts);
      }
    }
  }

  lemma {:induction false} ClaimedGrows(fold: Fold, terms: seq<seq<string>>, small: Surfaces, large: Surfaces)
    requires FoldsByLine(fold) && Extends(fold, large, small) && OneLineSpellings(terms)
    requires Claimed(fold, terms, small)
    ensures Claimed(fold, terms, large)
  {
    hide FoldsByLine, HasAll, Contains, Cited, OneLineTerm, CitesAll;
    var c :| c in small.keptClaims && States(fold, terms, c);
    var d :| d in large.keptClaims && SaysAll(fold, d, c);
    forall term | term in terms ensures In(fold, term, fold(d.text)) && In(fold, term, Cited(fold, d.cited)) {
      CitedGrows(fold, term, c, d);
      var spelling :| spelling in term && Contains(fold(c.text), fold(spelling));
      ContainsThrough(fold(d.text), fold(c.text), fold(spelling));
    }
    assert States(fold, terms, d);
  }

  lemma {:induction false} TextsGrow(fold: Fold, f: Fact, small: Surfaces, large: Surfaces)
    requires FoldsByLine(fold) && Extends(fold, large, small) && OneLineSpellings(f.terms)
    ensures EvidenceHolds(fold, f, small) ==> EvidenceHolds(fold, f, large)
    ensures Mentions(fold, f, small) ==> Mentions(fold, f, large)
  {
    hide FoldsByLine, HasAll, In, OneLineTerm;
    forall term | term in f.terms
      ensures In(fold, term, fold(Text(small.evidenceParts))) ==> In(fold, term, fold(Text(large.evidenceParts)))
      ensures In(fold, term, fold(Text(small.freeParts))) ==> In(fold, term, fold(Text(large.freeParts)))
    {
      if In(fold, term, fold(Text(small.evidenceParts))) {
        InGrows(fold, term, small.evidenceParts, large.evidenceParts);
      }
      if In(fold, term, fold(Text(small.freeParts))) {
        InGrows(fold, term, small.freeParts, large.freeParts);
      }
    }
  }

  /** The larger run's section is listed and not flagged, while the smaller found the fact without it. */
  predicate ListedTooLate(fold: Fold, mode: Mode, f: Fact, small: Surfaces, large: Surfaces) {
    && mode == Section
    && HeldCount(fold, mode, f.terms, large) > 0 && !Flagged(fold, f, large)
    && HeldCount(fold, mode, f.terms, small) == 0
    && (Claimed(fold, f.terms, small) || IndicatorPublished(fold, f, small))
  }

  /** More evidence lowers a fact whose spellings are one line each in one case only: a section newly listed, and not flagged. */
  lemma {:induction false} MoreEvidenceLowersExactly(fold: Fold, mode: Mode, f: Fact, small: Surfaces, large: Surfaces)
    requires FoldsByLine(fold) && OneLineSpellings(f.terms) && Extends(fold, large, small)
    ensures Rank(StatusIn(fold, mode, f, large)) < Rank(StatusIn(fold, mode, f, small))
       <==> ListedTooLate(fold, mode, f, small, large)
  {
    hide FoldsByLine, OneLineSpellings, HasAll, SaysAll, HeldCount, Claimed, EvidenceHolds, Mentions, Names, Covers;
    HeldGrows(fold, mode, f.terms, small, large);
    if Claimed(fold, f.terms, small) {
      ClaimedGrows(fold, f.terms, small, large);
    }
    TextsGrow(fold, f, small, large);
  }

  /** For a fact read from tokens or decoded text, more evidence never lowers it. */
  lemma {:induction false} MoreEvidenceNeverLowers(fold: Fold, f: Fact, small: Surfaces, large: Surfaces)
    requires FoldsByLine(fold) && OneLineSpellings(f.terms) && Extends(fold, large, small)
    requires Reading(f.kind).Some? && f.kind != "section_anomaly"
    ensures Rank(StatusOf(fold, f, small).value) <= Rank(StatusOf(fold, f, large).value)
  {
    hide FoldsByLine, OneLineSpellings, Extends, StatusIn;
    MoreEvidenceLowersExactly(fold, Reading(f.kind).value, f, small, large);
  }

  lemma Kinds()
    ensures Reading("section_anomaly") == Some(Section) && Reading("xor_string") == Some(Decoded)
  {
  }

  lemma SaysAllItself(fold: Fold, c: Claim)
    ensures SaysAll(fold, c, c)
  {
    hide Contains, HasAll;
    ContainsItself(fold(c.text));
    forall i | 0 <= i < |c.cited| ensures CitesAll(fold, c, c.cited[i]) {
      PartsAreHad(fold, c.cited[i], c.cited[i]);
    }
  }

  /** A run with more tool rows, put anywhere, has all that it had. */
  lemma MoreToolRows(fold: Fold, s: Surfaces, parts: seq<string>)
    requires forall part :: part in s.toolParts ==> part in parts
    ensures Extends(fold, s.(toolParts := parts), s)
  {
    hide HasAll, SaysAll;
    PartsAreHad(fold, parts, s.toolParts);
    PartsAreHad(fold, s.freeParts, s.freeParts);
    PartsAreHad(fold, s.evidenceParts, s.evidenceParts);
    forall c | c in s.keptClaims ensures SaysAll(fold, c, c) {
      SaysAllItself(fold, c);
    }
  }

  lemma OneTerm(fold: Fold, mode: Mode, term: seq<string>, s: Surfaces)
    ensures HeldCount(fold, mode, [term], s) == if Held(fold, mode, term, s) then 1 else 0
  {
    assert [term][0] == term && [term][1..] == [];
  }

  lemma SectionTexts()
    ensures Tokens("") == {} && ".x" in Tokens(".x")
    ensures Names(s => s, ".x", ".x")
  {
    assert FirstToken("x") == "x" && FirstToken(".x") == ".x";
    ContainsItself(WithoutDots(".x"));
  }

  /** A section that is claimed while it is not listed at all is found; listed but not flagged, it is only partial. */
  lemma {:induction false} ListingASectionCanLowerIt() returns (fold: Fold, f: Fact, small: Surfaces, large: Surfaces)
    ensures FoldsByLine(fold) && OneLineSpellings(f.terms) && Extends(fold, large, small)
    ensures Reading(f.kind) == Some(Section)
    ensures StatusOf(fold, f, small) == Ok(Found) && StatusOf(fold, f, large) == Ok(Partial)
  {
    var term := [".x"];
    f := Fact("section_anomaly", [term], [".x"], []);
    small := Surfaces([], {}, [], [], [], None, Some([".x"]));
    large := small.(toolParts := [".x"]);
    fold := s => s;
    Kinds();
    ByLineAsItIs();
    MoreToolRows(fold, small, [".x"]);
    SectionTexts();
    OneTerm(fold, Section, term, small);
    OneTerm(fold, Section, term, large);
    assert Text([".x"]) == ".x" && Text([]) == "" && fold(".x") == ".x" && OneLine(".x");
    hide Reading, FoldsByLine, Extends, Tokens, Text, Names, HeldCount, Contains;
    assert term[0] == ".x" && f.terms[0] == term && f.indicators[0] == ".x" && OrNone(small.indicators)[0] == ".x";
    assert Held(fold, Section, term, large) && !Held(fold, Section, term, small);
    assert IndicatorPublished(fold, f, small);
  }

  lemma OverTwoTexts()
    ensures Text(["a", "b"]) == "a\nb" && Text(["a", "x", "b"]) == "a\nx\nb"
    ensures Contains("a\nb", "a\nb") && !Contains("a\nx\nb", "a\nb") && !Contains("", "a\nb")
  {
    assert ["a", "b"][1..] == ["b"] && ["a", "x", "b"][1..] == ["x", "b"] && ["x", "b"][1..] == ["b"];
    ContainsItself("a\nb");
    var text, needle := "a\nx\nb", "a\nb";
    assert text[..3][2] != needle[2] && text[1..4][0] != needle[0] && text[2..5][0] != needle[0];
    assert !Occurs(text, needle, 0) && !Occurs(text, needle, 1) && !Occurs(text, needle, 2);
  }

  /** With no claim, publication or other text, a fact of one decoded spelling is found where it stands and missed where not. */
  lemma OnlyToolRows(fold: Fold, f: Fact, spelling: string, parts: seq<string>)
    requires Reading(f.kind) == Some(Decoded) && f == Fact(f.kind, [[spelling]], [], [])
    requires !Contains(fold(""), fold(spelling))
    ensures StatusOf(fold, f, Surfaces(parts, {}, [], [], [], None, None))
         == Ok(if Contains(fold(Text(parts)), fold(spelling)) then Found else Missed)
  {
    var s, term := Surfaces(parts, {}, [], [], [], None, None), [spelling];
    OneTerm(fold, Decoded, term, s);
    assert Text([]) == "";
    hide Reading, HeldCount, Contains, Text;
    assert term[0] == spelling && f.terms[0] == term;
    assert In(fold, term, fold(Text(parts))) <==> Contains(fold(Text(parts)), fold(spelling));
    assert !In(fold, term, fold(""));
    assert !EvidenceHolds(fold, f, s) && !Mentions(fold, f, s);
  }

  /** A spelling that goes over a newline is found across two texts, and lost where a third comes between them. */
  lemma {:induction false} ASpellingOverTwoTextsIsLost() returns (fold: Fold, f: Fact, small: Surfaces, large: Surfaces)
    ensures FoldsByLine(fold) && Extends(fold, large, small) && Reading(f.kind) == Some(Decoded)
    ensures StatusOf(fold, f, small) == Ok(Found) && StatusOf(fold, f, large) == Ok(Missed)
  {
    var apart, together := ["a", "x", "b"], ["a", "b"];
    f := Fact("xor_string", [["a\nb"]], [], []);
    small := Surfaces(together, {}, [], [], [], None, None);
    large := small.(toolParts := apart);
    fold := s => s;
    Kinds();
    ByLineAsItIs();
    assert apart[0] == "a" && apart[2] == "b";
    OverTwoTexts();
    hide Reading, FoldsByLine, Extends, StatusOf, Contains, Text;
    MoreToolRows(fold, small, apart);
    OnlyToolRows(fold, f, "a\nb", together);
    OnlyToolRows(fold, f, "a\nb", apart);
  }

  /** More evidence lowers the fact in no run. */
  ghost predicate NeverLowered(fold: Fold, f: Fact)
    requires Reading(f.kind).Some?
  {
    forall small, large :: Extends(fold, large, small) ==> NotLowered(fold, f, small, large)
  }

  ghost predicate NotLowered(fold: Fold, f: Fact, small: Surfaces, large: Surfaces)
    requires Reading(f.kind).Some?
  {
    Rank(StatusOf(fold, f, small).value) <= Rank(StatusOf(fold, f, large).value)
  }

  /** For a fact of one decoded spelling more evidence never lowers it exactly when the spelling goes over no newline. */
  lemma {:induction false} NeverLoweredExactly(fold: Fold, f: Fact, spelling: string)
    requires FoldsByLine(fold)
    requires Reading(f.kind) == Some(Decoded) && f == Fact(f.kind, [[spelling]], [], [])
    ensures NeverLowered(fold, f) <==> OneLine(spelling)
  {
    assert f.kind != "section_anomaly";
    hide Reading, Extends;
    if OneLine(spelling) {
      assert OneLineSpellings(f.terms);
      forall small, large | Extends(fold, large, small) ensures NotLowered(fold, f, small, large) {
        MoreEvidenceNeverLowers(fold, f, small, large);
      }
    } else {
      var parts, more := SeveralLinesCanBeLost(fold, spelling);
      hide Contains;
      if Contains(fold(""), fold(spelling)) {
        NothingInNothing(fold(spelling));
        NotNothing(fold, spelling);
      }
      var small := Surfaces(parts, {}, [], [], [], None, None);
      MoreToolRows(fold, small, more);
      OnlyToolRows(fold, f, spelling, parts);
      OnlyToolRows(fold, f, spelling, more);
      assert !NotLowered(fold, f, small, small.(toolParts := more));
    }
  }

  lemma NotNothing(fold: Fold, spelling: string)
    requires FoldsByLine(fold) && !OneLine(spelling)
    ensures fold(spelling) != ""
  {
    JoinOfSplit(spelling);
    SplitGivesLines(spelling);
    assert OneLine(Split(spelling)[0]);
    assert KeepsNewline(fold, Split(spelling)[0], Join(Split(spelling)[1..]));
  }

  // ----- What it means for the gate -----------------------------------------

  /** The verdict a run gives a fact. */
  ghost predicate Gives(fold: Fold, f: Fact, s: Surfaces, run: Scores.ScoredRun, item: Scores.Item) {
    StatusOf(fold, f, s).Ok? && item in run.verdicts
    && run.verdicts[item] == Scores.Verdict(Scores.Fact, Some(Rank(StatusOf(fold, f, s).value)))
  }

  /** Each run of the arm gives the fact what its surfaces say. */
  ghost predicate GivesAll(fold: Fold, f: Fact, surfaces: seq<Surfaces>, runs: seq<Scores.ScoredRun>, item: Scores.Item) {
    |surfaces| == |runs| && forall i :: 0 <= i < |runs| ==> Gives(fold, f, surfaces[i], runs[i], item)
  }

  /**
   Where each of the candidate's runs has all the evidence of the baseline's, the
   gate does not report the fact dropped.
   */
  lemma {:induction false} MoreEvidenceIsNeverADrop(
    fold: Fold, f: Fact, item: Scores.Item,
    before: seq<Surfaces>, after: seq<Surfaces>, baseline: Arms.Arm, candidate: Arms.Arm)
    requires FoldsByLine(fold) && OneLineSpellings(f.terms)
    requires Reading(f.kind).Some? && f.kind != "section_anomaly"
    requires GivesAll(fold, f, before, baseline.runs, item) && GivesAll(fold, f, after, candidate.runs, item)
    requires |before| == |after| && forall i :: 0 <= i < |before| ==> Extends(fold, after[i], before[i])
    requires 1 <= candidate.m <= baseline.m && item in Arms.ScaleMap(baseline.runs)
    ensures Gate.ItemOutcome(baseline, candidate, item) != Gate.Dropped
  {
    hide FoldsByLine, OneLineSpellings, Extends, StatusOf, Arms.ScaleMap, Arms.ArmLevel;
    forall i | 0 <= i < |before|
      ensures Arms.NoLower(baseline.runs[i].Level(item), candidate.runs[i].Level(item))
    {
      assert Gives(fold, f, before[i], baseline.runs[i], item) && Gives(fold, f, after[i], candidate.runs[i], item);
      MoreEvidenceNeverLowers(fold, f, before[i], after[i]);
    }
    var k := Arms.ScaleMapComesFromARun(baseline.runs, item);
    assert Gives(fold, f, before[k], baseline.runs[k], item);
    assert Arms.FitsScale(baseline.runs, item, Scores.Fact);
    assert Arms.FitsScale(candidate.runs, item, Scores.Fact);
    Arms.ArmLevelIsMonotone(baseline, candidate, item, Scores.Fact);
  }
}
