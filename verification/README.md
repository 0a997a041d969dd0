# Models of Maljan's script algorithms

Dafny models of the self-contained algorithms under `scripts/` in Maljan, with
proofs of what they promise. `dafny verify dfyconfig.toml` checks all of it.

Code that works step by step is modelled as methods with loops, arrays and
classes, each proved equal to a specification; the theorems are about the
specifications and hold for every input, every run or every reachable state.

## The models

**The known-answer gate** (`OrderStatistics`, `Scores`, `Arms`, `Provenance`,
`Totals`, `Gate`, `GateByRuns`). An arm is a list of scored runs, a run a map from
items to a verdict on one of three scales. An arm's verdict is what m of its n runs
reach, computed twice in the source: by a suffix-counted histogram and by a
quickselect whose pivot is here an arbitrary element. Both are proved to be the one
m-th largest rank. On top stands the gate, a reflexive and transitive comparison
that keeps credit, and the tag that says who found an item; all of it is also read
off sets of runs.

**Call and record pairing** (`Pairing`, `UsageAudit`, `AuditByRecords`). Model calls
are matched greedily with usage records of the same usage sent no later than the
call was received. Each call in turn is given the earliest such record, the pairing
is one to one, loses nothing, pairs as many as it can, and is causal exactly when
any assignment could be; the audit built on it complains of nothing exactly when the
books can be balanced.

**The shipped-declarations record** (`Declarations`, `Compose`). Releases are
interned into versions and states and read back: without loss up to the equality the
script compares values with, and to the letter exactly when no earlier version or
default was equal in another form.

**The changelog fold** (`Lines`, `Sections`, `Groups`, `Placement`, `Changelog`,
`Incremental`, `Orders`, `Instalments`, `FoldTwice`, `FoldRules`, `FoldExamples`).
Splicing blocks into a list of lines while the region's end moves: what one entry
makes of a changelog, what the fold keeps, where each entry stands, and exactly when
folding in instalments is folding at once.

**The ATT&CK id history** (`Techniques`, `Retirement`, `RetirementRules`, `History`,
`HistoryExactly`). The catalogue and the retired set over any sequence of releases,
from the objects of the bundles to the two files, each of which a run may find
unreadable.

**The API rules and the prompt cache** (`Json`, `Requests`, `PromptCache`,
`Charges`, `Transcripts`, `TranscriptRules`, `Signing`, `SignedBlocks`). A request
body is parsed JSON. The cache is one object shared by both APIs; runs mix calls to
either. Transcript checks are proved equal to single passes, and signed thinking to
survive any conversation that only goes on. What a call is charged, which
transcripts pass and which thinking is caught are stated over the fields of the
bodies themselves.

**Text search and blocks** (`TextSearch`, `SearchRules`, `MarkdownBlocks`). Finding
a value whole or cut by an ellipsis, how short a declared cut may be, and cutting
Markdown at its headings outside fences.

**Calibration** (`NameHash`, `Bytes`, `ConfigBlob`, `Folding`, `FactScore`,
`FactRules`). The ROR-13 hash, the XOR config blob, and the status a fact gets from
the texts a run stored, joined and folded, carried through to the gate.

## Where the code and its promise part

Each of these is a lemma with a concrete input, an exact condition, or both:

* Without a strict majority an arm's tag can hide that m runs found the item by
  analysis (`Provenance.MinorityTagCanHideAnalysis`; exact for any m in
  `Provenance.AnalysisTagCondition`).
* Two passing gates compose, but the outer comparison can still be refused over
  an item the middle arm does not score (`Gate.OnlyUngatedItemsCanMismatch`, at an
  input in `Gate.OuterArmsCanMismatch`).
* A send time of zero reads as unknown, so before time zero the audit can call
  late a record the pairing chose (`UsageAudit.NegativeTimesMisreport`). No run
  gets there: a call's time is `time.time()` (`scripts/rehearsal/stub_model.py:189`).
* A field outside the defaults that is null is left out of the record and not
  restored (`Declarations.TrimmingIsLossless`, `Declarations.ANullFieldIsLost`).
* Values are compared with Python's `==`, so a declaration or a field can read back
  as an equal value in another form (`Declarations.TrueReadsBackAsOne`,
  `Declarations.AZeroComesBackAsFalse`; exact in `Compose.RecordIsExact`).
* A heading that is the last line before the next release sends its block past
  that release's opening line (`FoldExamples.AnEntryPastARelease`; exact in
  `Incremental.FoldKeepsFrameExactly` and `Changelog.OverrunsExactly`).
* Without a final newline, folding in instalments can leave one newline more than
  folding at once (`FoldExamples.ANewlineTooMany`; exact in
  `FoldTwice.FoldTwiceExactly`).
* Folding in instalments can make sections in another order than folding at once, and
  put a blank line elsewhere where a section stands at the end of the text
  (`FoldExamples.MadeInAnotherOrder`, `FoldExamples.ABlankLineElsewhere`; exact in
  `Instalments.RegionInstalmentsExactly`).
* An id goes from both files where the retired set is not written, or either file is
  unreadable and the release does not name the id (`History.AnIdLostWhereNotWritten`,
  `History.AnIdLostWhereUnreadable`, `History.AnIdLostWithTheCatalogue`; exact in
  `History.NoIdIsLostExactly`).
* Where the retired set is not written an id can stand in both files
  (`HistoryExactly.AnIdInBothFiles`; exact in `HistoryExactly.AlwaysSoundExactly`).
* Where it is unreadable the release an id was retired in is forgotten, and the same
  release run again changes the set (`HistoryExactly.ARetirementForgotten`; exact in
  `HistoryExactly.FirstRetirementExactly` and `HistoryExactly.RepeatingExactly`).
* No line and one empty line give a Markdown block the same text
  (`MarkdownBlocks.TextTellsLines`).
* A section listed but not flagged ranks below the same section not listed at all
  but claimed (`FactScore.ListingASectionCanLowerIt`; exact in
  `FactScore.MoreEvidenceLowersExactly`).
* A spelling that goes over a newline can be found across two texts and hidden by a
  third (`FactScore.ASpellingOverTwoTextsIsLost`; exact in
  `FactScore.NeverLoweredExactly`).

## Conventions

* A dictionary is a map. Where the source's result does not rest on the order of
  its keys the loops pick keys arbitrarily.
* A raised error is an `Err` or a refusal; error texts are left out.
* `wire.tokens_of` is an arbitrary function from JSON to a natural number, SHA-256
  of a canonical text is the stripped JSON itself, and the keyed digest is an
  arbitrary function, taken as injective only where a theorem says so.
* The reader of a config blob (`ConfigBlob.Read`) is the inverse the blob's layout
  calls for; the platform's own decoder is not part of this model.
* Heading recognition in Markdown is a function parameter. So is the folding of a
  text, taken to fold line by line; `Folding.FoldedByLine` proves that of refanging
  followed by any case folding of characters.
* A fragment's text is stripped when it is parsed (`scripts/changelog/fold.py:70`), so
  the theorems on sections that are made take texts whose last line is not blank.
* Equality of JSON values is that of what a function parameter takes each to count
  as, so the theorems about the record hold for any equality.

## Model

| member | source | states |
|---|---|---|
| OrderStatistics.MthLargest | scripts/benchmark/gate.py:112-128 | For every choice of pivots: none exactly when there are fewer than m values; otherwise the one value with fewer than m values above it and at least m at or above it |
| OrderStatistics.MthLargestIsUnique | scripts/benchmark/gate.py:112-128 | Two values that both have fewer than m above and at least m at or above are the same value, so the answer does not rest on the pivots |
| OrderStatistics.MthLargestIsAValue | scripts/benchmark/gate.py:112-128 | The answer is one of the values given |
| OrderStatistics.MthLargestIgnoresOrder | scripts/benchmark/gate.py:112-128 | Listing the same values in another order gives the same answer |
| OrderStatistics.MthLargestIsAntitoneInM | scripts/benchmark/gate.py:112-128 | Asking for more runs never raises the answer |
| OrderStatistics.BestBelowCharacterised | scripts/benchmark/gate.py:101-109 | The downward scan stops at a rank that m of the values reach and that no higher rank below the top does; it finds none only when no rank is reached by m |
| OrderStatistics.ScanFindsMthLargest | scripts/benchmark/gate.py:92-128 | The histogram scan and the quickselect agree: none in the same cases, else the m-th largest |
| Arms.MadeArmIsValid | scripts/benchmark/gate.py:67-77 | An arm that is made has runs, an m between one and their number, and unique run names; the default m is a strict majority |
| Arms.MadeExactly | scripts/benchmark/gate.py:67-77 | An arm is made if and only if there are runs, no two of one name, and m is not given or is from one to their number; it is of those runs, with the m given or the least strict majority; each error exactly in its case |
| Arms.ScalesOf | scripts/benchmark/gate.py:80-89 | The scales are given exactly when every item is on one scale in all runs; the item complained of really is on two |
| Arms.Histogram | scripts/benchmark/gate.py:92-100 | The count array holds, rank by rank, how many runs gave the item exactly that rank |
| Arms.Reached | scripts/benchmark/gate.py:92-109 | The loop over the array gives the arm's verdict and, for each rank, how many runs reach it |
| Arms.ArmLevelIsMthLargest | scripts/benchmark/gate.py:92-109 | The arm's verdict on an item is the m-th largest of its known ranks, and none exactly when fewer than m are known |
| Arms.ArmLevelIgnoresRunOrder | scripts/benchmark/gate.py:92-109 | Two arms of the same runs in different orders give every item the same verdict |
| Arms.ArmLevelIsMonotone | scripts/benchmark/gate.py:92-109 | Where every run's verdict is no lower and m is no larger, the arm's verdict is no lower |
| Arms.UnknownAndReachedAddUp | scripts/benchmark/gate.py:176-184 | For every item the runs that do not know it and the runs that reach the lowest rank add up to n |
| Provenance.TagsReachingSize | scripts/benchmark/gate.py:142-149 | As many runs are tagged as reach the verdict, and no more than there are runs |
| Provenance.AtMostOneSharedTag | scripts/benchmark/gate.py:150-153 | Under a strict majority no two tags are each held by m runs |
| Provenance.AnalysisTagCondition | scripts/benchmark/gate.py:150-158 | For any m: the arm's tag is one of the by-analysis tags if and only if m runs found the item by analysis and no other tag is the only one m runs share |
| Provenance.MajorityTagIsExact | scripts/benchmark/gate.py:150-158 | Under a strict majority: a by-analysis tag if and only if at least m of the reaching runs are tagged by analysis |
| Provenance.MinorityTagCanHideAnalysis | scripts/benchmark/gate.py:150-158 | Without a strict majority that fails: two of four runs by analysis and two by lookup, m = 2 |
| Provenance.TagExactly | scripts/benchmark/provenance.py:100-107 | Each tag if and only if: own, an analysis entry and no lookup; both, both; lookup only, a lookup and neither analysis nor undeclared; untold, an undeclared and no analysis; no entry, none of the three |
| Provenance.MajorityTagReadsTheLedgers | scripts/benchmark/provenance.py:100-107 | From the ledgers: a by-analysis tag if and only if at least m of the reaching runs have an analysis entry among those that credited the item |
| Provenance.ReachingRuns | scripts/benchmark/gate.py:140-149 | The map by run name holds exactly the reaching runs, each with its own tag, and counts every tag as often as the runs hold it |
| Provenance.TagFromCounts | scripts/benchmark/gate.py:150-158 | The tag taken from the counts is the arm's tag: the one shared by m runs, else both or mixed |
| Provenance.ProvenanceOf | scripts/benchmark/gate.py:136-163 | A tag exactly for a credited item; the map per run is as large as the number of runs at or above the verdict |
| Totals.TotalsOf | scripts/benchmark/gate.py:187-207 | One pass counts each word of each scale, the credited, creditable and unknown items; verdict counts and unknown items add up to all items |
| Totals.TagsPartition | scripts/benchmark/provenance.py:246-255 | The seven tags' counts add up to everything held |
| Totals.Split | scripts/benchmark/provenance.py:246-255 | Each tag's count is the number of items under it, their sum is what is credited, and the two columns count the by-analysis and the lookup-only items |
| Gate.GateIsReflexive | scripts/benchmark/gate.py:261-351 | An arm compared with itself is comparable and passes, every item held or not gated |
| Gate.GateIsTransitive | scripts/benchmark/gate.py:261-351 | If the gate passes from a first arm to a second and from the second to a third, it passes from the first to the third, the beyond-human count included |
| Gate.OnlyUngatedItemsCanMismatch | scripts/benchmark/gate.py:266-272 | Exactly when the first and third arm can then be compared at all: when the items the middle arm does not score agree on their scale |
| Gate.OuterArmsCanMismatch | scripts/benchmark/gate.py:266-272 | It can be refused: an item unknown in the first arm, absent from the middle one and on another scale in the last, the gate passing both times between |
| Gate.DropsWhenTooFewRunsReach | scripts/benchmark/gate.py:279-290 | An item is reported dropped if and only if the baseline has a verdict on it that fewer than m of the candidate's runs reach |
| Gate.PassingKeepsCredit | scripts/benchmark/gate.py:261-351 | A passing gate loses no credit: what the baseline credits the candidate credits |
| Gate.CompareItem | scripts/benchmark/gate.py:279-307 | One row's two verdicts, two tags, count of candidate runs at the baseline's verdict, and outcome are those of the two arms |
| Gate.ScoreArm | scripts/benchmark/gate.py:222-245 | Within an arm the totals' credited count, the tags' credited count, the sum over the tags and the number of credited items are one number |
| Gate.Decide | scripts/benchmark/gate.py:261-351 | A report exactly when the arms are comparable; passed exactly when no gated item drops nor the beyond-human count; its lists are the items of that outcome and those whose two tags differ, and dropped, improved, held and not-gated items partition the baseline's |
| Gate.RowsDecide | scripts/benchmark/gate.py:329-331 | Passing read off the rows is passing as defined on the arms |
| GateByRuns.LevelByRuns | scripts/benchmark/gate.py:92-128 | Counting sets of run indices: an arm's verdict is none where fewer than m runs know the item, else the one rank m runs are at and fewer than m above |
| GateByRuns.BeyondByRuns | scripts/benchmark/gate.py:210-220 | An arm's beyond-human count is none exactly when fewer than m runs state one; else at least m runs state it or more, and fewer than m more than it |
| GateByRuns.ItemOutcomeExactly | scripts/benchmark/gate.py:279-290 | An item is not gated where fewer than m baseline runs know it; dropped if and only if m baseline runs reach a rank fewer than m candidate runs do; improved the other way round; held otherwise |
| GateByRuns.BeyondOutcomeExactly | scripts/benchmark/gate.py:319-327 | The beyond-human count is not gated where fewer than m baseline runs state one; it drops if and only if m baseline runs state a number that fewer than m candidate runs reach; improves the other way round; is held otherwise |
| GateByRuns.PassesExactly | scripts/benchmark/gate.py:328-331 | The gate passes if and only if the candidate's runs reach every rank of every item, and every beyond-human number, that the baseline's runs reach |
| GateByRuns.ComparableExactly | scripts/benchmark/gate.py:261-272 | Two arms can be compared if and only if some baseline run scores something and any two of all their runs agree on an item's scale |
| GateByRuns.CreditedExactly | scripts/benchmark/scores.py:46-55 | A verdict is credited if and only if its scale has a credit word and it stands at that word or past it, the words written out |
| GateByRuns.ArmTagByRuns | scripts/benchmark/gate.py:150-163 | The arm's tag is the one tag m of the reaching runs have, where there is one such; else both if m of them found the item by analysis, else mixed |
| GateByRuns.RowByRuns | scripts/benchmark/gate.py:279-307 | A row counts the candidate runs that reach the baseline's verdict, and has each arm's tag exactly where it credits the item |
| GateByRuns.AFallenCountIsDropped | scripts/benchmark/gate.py:319-331 | Verdicts alike, a beyond-human count of 5 and then of 2: dropped, and the gate does not pass |
| Pairing.ByArrivalSorts | scripts/rehearsal/checklist.py:648-648 | The calls are taken in order of arrival, none lost and none repeated |
| Pairing.RecordsAreConserved | scripts/rehearsal/checklist.py:633-656 | Paired and left-over records together are the pool there was |
| Pairing.RowsMatchTheirCalls | scripts/rehearsal/checklist.py:633-656 | A call is only ever given a record of the pool that carries its own usage |
| Pairing.PairingIsOneToOne | scripts/rehearsal/checklist.py:633-656 | No record is given to two calls |
| Pairing.PairsAsManyAsPossible | scripts/rehearsal/checklist.py:633-656 | Per usage key exactly min(calls, records) are paired, and the rest is left |
| Pairing.AnEligibleRecordIsLeft | scripts/rehearsal/checklist.py:648-656 | The exchange step: where a causal assignment of all the calls of a key exists, the next call still finds an eligible record after the greedy choices before it |
| Pairing.GreedyIsCausal | scripts/rehearsal/checklist.py:648-656 | Taken in order of arrival, every call of the key gets an eligible record of its own if any assignment gives each one |
| Pairing.CausalWheneverPossible | scripts/rehearsal/checklist.py:648-656 | For calls in any order: the pairing of a key is fully causal if and only if some one-to-one causal assignment exists |
| Pairing.EachTakesTheBest | scripts/rehearsal/checklist.py:648-656 | In turn each call is given, of the records of its usage still there, the one sent earliest of those sent in time, the first of those on a tie; the first of its usage where none was in time; nothing where there is none. The other records keep their order |
| Pairing.OneIsBest | scripts/rehearsal/checklist.py:653-655 | That leaves no choice: two records that are both so are the same one |
| Pairing.ByArrivalIsStable | scripts/rehearsal/checklist.py:648-648 | Calls received at one time are taken in the order they were logged |
| Pairing.TheEarlierSentIsTaken | scripts/rehearsal/checklist.py:653-655 | A call received at 10.0 is given the record sent at 4.0, not the one before it sent at 9.0 |
| Pairing.Pair | scripts/rehearsal/checklist.py:633-656 | The method that empties the caller's pool and fills the shared rows ends in the state the specification names |
| UsageAudit.PairedRecords | scripts/rehearsal/checklist.py:659-684 | Answered calls are paired by whole usage and broken streams by their prompt's, in one set of rows, leaving the two pools |
| UsageAudit.RecordProblems | scripts/rehearsal/checklist.py:687-800 | The problems listed are the wrong counts, the calls with no record, the records sent late and the records left over, in that order |
| UsageAudit.EligibleIsNotLate | scripts/rehearsal/checklist.py:721-726 | From time zero on, a record the pairing finds eligible is one the audit does not call late, and the other way round |
| UsageAudit.QuietMeansReconcilable | scripts/rehearsal/checklist.py:687-800 | Whatever the times: where no problem is listed, some one-to-one, on-time pairing accounts for every call, every broken stream and every record |
| UsageAudit.AuditIsExact | scripts/rehearsal/checklist.py:687-800 | From time zero on the converse holds too: no problem is listed if and only if there is such a pairing |
| AuditByRecords.QuietExactly | scripts/rehearsal/checklist.py:687-800 | Field by field, from time zero on: no problem is listed if and only if every answered call has a record of no failed attempt with its input, output and cached tokens, every broken stream one of a failed attempt with its input and cached tokens, each on time and its own, and no record is left |
| UsageAudit.NegativeTimesMisreport | scripts/rehearsal/checklist.py:653-656 | Before time zero that fails: a record stamped zero is taken as unstamped and then called late although another record would do |
| Declarations.TrimmingIsLossless | scripts/dev/write_shipped_tool_declarations.py:157-157 | With any notion of equal values: leaving out the fields equal to their default and completing again gives an equal declaration back if and only if no field outside the defaults is null |
| Declarations.TrimmingIsExact | scripts/dev/write_shipped_tool_declarations.py:157-157 | It gives the very values back if and only if no field equals its default in another form |
| Declarations.ANullFieldIsLost | scripts/dev/write_shipped_tool_declarations.py:157-157 | A null field the defaults do not have is dropped and not restored |
| Declarations.AZeroComesBackAsFalse | scripts/dev/write_shipped_tool_declarations.py:157-157 | A zero over a default of false is left out and comes back as false |
| Declarations.GrowingExtends | scripts/dev/write_shipped_tool_declarations.py:156-161 | Adding a release's declarations only appends versions, covers all of the release's, and keeps any two versions of a tool unequal |
| Declarations.CodeIsStable | scripts/dev/write_shipped_tool_declarations.py:161-161 | An index given out keeps its meaning however many versions later releases add |
| Declarations.DecodingInvertsCode | scripts/dev/write_shipped_tool_declarations.py:156-161 | A state's indices are valid and decode to declarations equal to those they were made of |
| Declarations.OneCodeMeansAlike | scripts/dev/write_shipped_tool_declarations.py:156-161 | Two releases' declarations get the same indices if and only if they are equal tool by tool |
| Declarations.EncodingIsFaithful | scripts/dev/write_shipped_tool_declarations.py:146-171 | After any releases: versions pairwise unequal and states distinct, every version the very declaration of the first release that had an equal one, every state listing exactly its own releases in order |
| Declarations.EveryReleaseReadsBack | scripts/dev/write_shipped_tool_declarations.py:146-171 | Each release's state decodes, tool by tool, to declarations equal to those that release shipped |
| Declarations.TheFirstIsReadBack | scripts/dev/write_shipped_tool_declarations.py:156-161 | What is read back for a tool is the very declaration of the first release that shipped an equal one |
| Declarations.ReadsBackExactly | scripts/dev/write_shipped_tool_declarations.py:156-161 | It is the release's own declaration to the letter if and only if the first equal one is the same |
| Declarations.TrueReadsBackAsOne | scripts/dev/write_shipped_tool_declarations.py:158-161 | A release that ships true where an earlier one shipped 1 reads back as 1 |
| Declarations.SharedStateMeansEqual | scripts/dev/write_shipped_tool_declarations.py:162-166 | Two releases share a state if and only if their trimmed declarations are equal tool by tool |
| Declarations.CommitNamesItsState | scripts/dev/write_shipped_tool_declarations.py:162-166 | A commit is listed under its own state and under no other |
| Declarations.ReleasesPartitionTheCommits | scripts/dev/write_shipped_tool_declarations.py:162-166 | Together the release lists are as long as the list of releases |
| Compose.StateOf | scripts/dev/write_shipped_tool_declarations.py:155-161 | One release interned tool by tool, in any order of the tools, gives the same grown versions and the same state |
| Compose.ComposeBlock | scripts/dev/write_shipped_tool_declarations.py:147-171 | One block's record, or the first release that ships nothing for it |
| Compose.ComposeBlocks | scripts/dev/write_shipped_tool_declarations.py:145-171 | One record for each block any release names, given exactly when every release ships every one of them |
| Compose.ComposeRecord | scripts/dev/write_shipped_tool_declarations.py:137-172 | A record exactly when there are releases, their defaults agree with the last one's and each ships every block; else the first release whose defaults differ, or the first without some block |
| Compose.RecordReadsBack | scripts/dev/write_shipped_tool_declarations.py:146-171 | Under a release's commit the record reads back one thing, equal to what that release shipped, and nothing else |
| Compose.RecordReadsBackExactly | scripts/dev/write_shipped_tool_declarations.py:146-171 | It reads back the release's own declarations to the letter if and only if each is the same as the first one equal to it |
| Compose.RecordIsLossless | scripts/dev/write_shipped_tool_declarations.py:137-172 | What the composed record gives under a commit, completed with the defaults, equals the shipped declaration completed, exactly when no field outside the defaults was null |
| Compose.RecordIsExact | scripts/dev/write_shipped_tool_declarations.py:137-172 | It is that declaration to the letter if and only if the first trimmed declaration equal to it is the same and no field equals its default in another form |
| Compose.AgreeMeansSaysTheSame | scripts/dev/write_shipped_tool_declarations.py:140-144 | Two releases' defaults agree if and only if no declaration whatever says anything else, of any field, under the one than under the other |
| Compose.ComposableExactly | scripts/dev/write_shipped_tool_declarations.py:137-149 | Releases are composed if and only if there are some, no declaration says anything else under any one's defaults than under the last one's, and all name the same blocks |
| Compose.RecordSaysAsShipped | scripts/dev/write_shipped_tool_declarations.py:137-172 | With no null outside the defaults: what reads back, under the record's defaults, says of every field of the declaration and of the release's own defaults what the release said under its own |
| Compose.OtherDefaultsAreRefused | scripts/dev/write_shipped_tool_declarations.py:140-144 | A release whose default timeout is 5 is not composed with a last one whose default is 10 |
| Lines.JoinOfSplit | scripts/changelog/fold.py:121-121 | Splitting a text at newlines and joining again gives the text |
| Lines.SplitOfJoin | scripts/changelog/fold.py:148-148 | Joining lines and splitting again gives the lines |
| Sections.PutUnder | scripts/changelog/fold.py:144-146 | A block put under a heading that has a next line stands right after that line |
| Sections.PutMakes | scripts/changelog/fold.py:137-143 | Where the heading is missing the block makes it at the end of the text lines, with a blank line on either side |
| Sections.PutsMerge | scripts/changelog/fold.py:135-147 | Two blocks put under one heading are one block, the later first, with a blank line between |
| Sections.PutsCommute | scripts/changelog/fold.py:135-147 | Blocks put under two different ready headings come to the same in either order |
| Orders.PutAndMakeCommuteExactly | scripts/changelog/fold.py:135-147 | A put under a heading that stands and the making of a section come to the same in either order if and only if the heading's next line is empty or text comes after that line |
| Orders.CalmOrders | scripts/changelog/fold.py:134-147 | Where every heading that stands is so, or nothing is to be made: two orders of the same sections come to the same lines if and only if they make the missing ones in the same order |
| Orders.AnyOrders | scripts/changelog/fold.py:134-147 | In any region: if and only if they make the missing sections in the same order and, if there are any, both or neither come to a heading that is not so before the first |
| Instalments.GatheredInOrder | scripts/changelog/fold.py:131-147 | Folding the gathered entries is putting one block for each section, in the order the sections are first named |
| Instalments.PutsAfterPuts | scripts/changelog/fold.py:131-147 | Blocks put after other blocks come to one put for each section, in the order first met, the later block before the earlier |
| Instalments.RegionInstalmentsExactly | scripts/changelog/fold.py:131-147 | In one region, sections standing and missing in any mix: folding earlier entries and then later ones is folding them together if and only if both halves, either first, first name the missing sections in the same order and, if there are any, both or neither come to a heading at the end of the text before them |
| Instalments.OneByOneExactly | scripts/changelog/fold.py:131-147 | Folding by section is folding the entries one at a time, the last first, if and only if the list makes its sections alike read from either end |
| Instalments.AllMissingExactly | scripts/changelog/fold.py:131-147 | Where none of the sections stands, as right after a release: folding in instalments is folding at once if and only if the sections are first named in the same order whichever half comes first |
| Placement.FoldKeepsLines | scripts/changelog/fold.py:131-147 | The old lines are all there after a fold, in their order |
| Placement.PutKeepsLines | scripts/changelog/fold.py:135-147 | A put adds exactly the block and a blank line, and two more lines where it makes the section |
| Placement.FoldAddsExactly | scripts/changelog/fold.py:131-147 | Putting every section of a list adds each block and a blank line, and two more lines for each section that was missing at the start |
| Placement.EachSectionStands | scripts/changelog/fold.py:131-147 | With sections that stand and sections that are missing in any mix: each section's entries stand contiguously and in order right under its heading and one line, however many blocks were put above or below |
| Changelog.RegionEnd | scripts/changelog/fold.py:126-130 | The region ends at the first later line that opens a release |
| Changelog.SpliceGroup | scripts/changelog/fold.py:134-147 | The slice assignment and the moved end for one section are those of the specification, whichever branch is taken |
| Changelog.FoldText | scripts/changelog/fold.py:117-149 | The whole fold by splicing with a moving end is the fold as specified, and is refused where there is no Unreleased heading |
| Changelog.SurroundingsKeptExactly | scripts/changelog/fold.py:134-147 | One section: what stands before and after the region is unchanged if and only if the section's heading is not the last line before the next release |
| Changelog.EscapesRegion | scripts/changelog/fold.py:144-146 | In the other case the block lands behind the next release's opening line, and what follows the region is not kept |
| Changelog.FoldKeepsSurroundingsExactly | scripts/changelog/fold.py:131-147 | All the sections: what stands before and after the region is unchanged if and only if no section on the way finds its heading as the region's last line |
| Changelog.OverrunsExactly | scripts/changelog/fold.py:131-147 | Told before the fold, where no named heading stands right on another: that happens if and only if one section's heading is the region's last line and every section before it stands already |
| Changelog.FoldStaysInRegion | scripts/changelog/fold.py:131-147 | With every named heading that stands followed by a line of its region, and any others missing, the fold changes the region alone |
| Changelog.FoldKeepsOldLines | scripts/changelog/fold.py:131-147 | Whatever the lines and the sections, the splices of a whole fold only add lines: the old ones are all there, in their order |
| Incremental.EveryChangelogHasAShape | scripts/changelog/fold.py:121-130 | Every changelog with an Unreleased heading falls into the lines up to it, a region that opens no release, and what follows |
| Incremental.FoldKeepsFrame | scripts/changelog/fold.py:117-149 | On a whole changelog, sections standing and missing in any mix: the fold keeps everything up to the Unreleased heading and from the next release on, and rewrites the region between section by section |
| Incremental.FoldKeepsFrameExactly | scripts/changelog/fold.py:117-149 | On a whole changelog and for any entries: what surrounds the region is kept if and only if nothing follows it or the fold does not overrun it |
| Incremental.OldLinesStay | scripts/changelog/fold.py:117-149 | The old lines of a changelog are all there after any fold, in their order |
| Incremental.LinesAddedExactly | scripts/changelog/fold.py:131-147 | A fold adds to a changelog exactly each section's block and a blank line, and two more lines for each section it makes, wherever its blocks land |
| Incremental.EntriesStandInFold | scripts/changelog/fold.py:117-149 | In the folded changelog every section's entries stand contiguously and in order right under its heading and one line, whether it stood or was made |
| Incremental.FoldAtTheEnd | scripts/changelog/fold.py:144-149 | A fold leaves an empty last line exactly when there was one or an entry went under the heading whose next line was the last |
| FoldTwice.LastAfterPuts | scripts/changelog/fold.py:134-147 | A fold leaves an empty last line where there was none if and only if it puts a block after the region's last line before it makes any section |
| FoldTwice.FoldTwiceExactly | scripts/changelog/fold.py:117-149 | On whole changelogs, with or without a final newline, sections standing and missing in any mix: folding earlier fragments and then later ones is folding the later before the earlier at once if and only if the sections are made alike and the final newline does not show |
| FoldTwice.OnlyANewlineMore | scripts/changelog/fold.py:148-149 | Where the sections are made alike and the two still differ, folding in instalments leaves one newline more and nothing else |
| FoldExamples.AnEntryPastARelease | scripts/changelog/fold.py:144-146 | A changelog whose one heading is the last line before a release: its entry lands behind that release's opening line |
| FoldExamples.ANewlineTooMany | scripts/changelog/fold.py:148-149 | A changelog without a final newline and two entries: folded in instalments it ends in one newline more than folded at once |
| FoldExamples.MadeInAnotherOrder | scripts/changelog/fold.py:134-143 | Added and then Fixed folded into an empty Unreleased section differ from Fixed before Added folded at once |
| FoldExamples.ABlankLineElsewhere | scripts/changelog/fold.py:134-146 | So they do where Added stands over the last line of the text and Fixed is to be made |
| FoldRules.EntryGoesUnder | scripts/changelog/fold.py:120-149 | Line by line, one entry: under the first line that is its heading it goes behind the line after that, a blank line behind it, and nothing else changes but a missing final newline |
| FoldRules.SectionIsMade | scripts/changelog/fold.py:136-143 | Where no line of the region is its heading: behind the last line that says something come a blank line, the heading, a blank line and the entry; the blank lines that were there follow |
| FoldRules.EntryGoesBeyond | scripts/changelog/fold.py:144-146 | Where the heading is the region's last line it goes behind the line that opens the next release, or to the end |
| FoldRules.OneCaseApplies | scripts/changelog/fold.py:121-136 | Every changelog with the heading has its parts, and every region is one of these three |
| FoldRules.RefusedExactly | scripts/changelog/fold.py:118-125 | A fold is refused if and only if there is an entry and no line is the Unreleased heading; with no entry the text is as it was |
| Techniques.ActiveIds | scripts/knowledge/prepare_attck_malware_fixtures.py:266-277 | The ids of exactly the attack-patterns neither revoked nor deprecated |
| Techniques.RetiredStates | scripts/knowledge/prepare_attck_malware_fixtures.py:325-339 | Exactly the ids the bundle marks retired, each with the status of the first object that marks it |
| Techniques.BuildIndex | scripts/knowledge/prepare_attck_malware_fixtures.py:241-243 | Each STIX id's last object |
| Techniques.Replacements | scripts/knowledge/prepare_attck_malware_fixtures.py:303-322 | Exactly the ids a revoked-by relationship between two attack-patterns names, each with the first other id named |
| Techniques.ActiveExactly | scripts/knowledge/prepare_attck_malware_fixtures.py:266-277 | An id is active if and only if some attack-pattern whose first own technique reference is to it is marked neither revoked nor deprecated |
| Techniques.StatedExactly | scripts/knowledge/prepare_attck_malware_fixtures.py:325-339 | An id is stated retired if and only if some attack-pattern for it is marked revoked or deprecated |
| Techniques.StatesExactly | scripts/knowledge/prepare_attck_malware_fixtures.py:325-339 | Its status is revoked if the first attack-pattern that marks it retired says revoked, and deprecated if not |
| Techniques.TechniqueIdExactly | scripts/knowledge/prepare_attck_malware_fixtures.py:251-251 | An id is T and four digits, or those, a dot and three digits; one newline may follow |
| Techniques.TechniqueInExactly | scripts/knowledge/prepare_attck_malware_fixtures.py:246-253 | The id of an object is that of its first reference that is the catalogue's own and a technique's, and none where there is none such |
| Retirement.BeginAll | scripts/knowledge/prepare_attck_malware_fixtures.py:367-370 | Over the three domains a row is begun for exactly the previous ids that are active nowhere, in the first domain that had them, at this release |
| Retirement.MarkAll | scripts/knowledge/prepare_attck_malware_fixtures.py:371-376 | Over the three domains every stated id that is not active gets the status of the last domain that states it |
| Retirement.RetiredIds | scripts/knowledge/prepare_attck_malware_fixtures.py:342-383 | The dictionary built by deletions, insertions and updates is the retired set as specified, whatever order ids are met in |
| Retirement.RefuseMixedOrThin | scripts/knowledge/prepare_attck_malware_fixtures.py:170-213 | No refusal exactly when the release is acceptable; else the first domain with no active id or with ids missing, and which those are, or else a domain of another version |
| RetirementRules.KeptExactly | scripts/knowledge/prepare_attck_malware_fixtures.py:359-377 | The ids kept are exactly those no domain has now that had a row, were in some domain's catalogue, or are stated retired by some domain |
| RetirementRules.RowExactly | scripts/knowledge/prepare_attck_malware_fixtures.py:359-382 | A row is the one row with: the domain and release it had, or else the first domain that had the id and this release, or else the first domain to state it and no release; the status the last domain to state it gives; and a replacement exactly where one is named, is not empty and is active |
| RetirementRules.AReplacementIsNamed | scripts/knowledge/prepare_attck_malware_fixtures.py:377-382 | An id that two catalogues had goes, one domain states it deprecated and a later one revoked, and its replacement is active: all of that is in the row |
| RetirementRules.AcceptableExactly | scripts/knowledge/prepare_attck_malware_fixtures.py:187-213 | A release goes through if and only if no domain is empty, the domains are of one version, and, unless that is accepted, every id a domain's catalogue had is active in some domain or stated retired by that one |
| HistoryExactly.SoundExactly | scripts/knowledge/prepare_attck_malware_fixtures.py:659-677 | One run from any files: active and retired ids are disjoint and every replacement named is active afterwards if and only if the run wrote the retired set or, where it did not, no retired id is back and every replacement is in the release |
| HistoryExactly.AlwaysSoundExactly | scripts/knowledge/prepare_attck_malware_fixtures.py:659-677 | Over any sequence of runs from sound files they are sound after each if and only if each run met that condition |
| History.StepLosesNothingExactly | scripts/knowledge/prepare_attck_malware_fixtures.py:659-677 | One run: no id goes from both files if and only if, where the retired set is not written, every active id is in the release or the set; where it is unreadable or the catalogue is, every id only that file had is named by the release or the other file. A run that reads and writes both needs nothing |
| History.LeavingIsRecorded | scripts/knowledge/prepare_attck_malware_fixtures.py:342-383 | An id that leaves in an accepted release that writes the retired set is retired in it, in a domain that had it, and unless lost ids are accepted with the status a bundle gives |
| HistoryExactly.RowStaysExactly | scripts/knowledge/prepare_attck_malware_fixtures.py:342-383 | One run, whichever file it could read: a retired id that is not active keeps its release and domain if and only if the retired file was read, or the bundle states the id and the row had no release and the first stating domain |
| HistoryExactly.FirstRetirementExactly | scripts/knowledge/prepare_attck_malware_fixtures.py:342-383 | Over any later runs, until it comes back, an id keeps its release and domain after each if and only if each run met that condition |
| History.NoIdIsLostExactly | scripts/knowledge/prepare_attck_malware_fixtures.py:659-677 | Over any sequence of runs no id either file ever held has gone after any of them if and only if each run met that condition |
| History.NoIdIsLost | scripts/knowledge/prepare_attck_malware_fixtures.py:659-677 | Over any runs that read and write both files every id ever active is active or retired, never both, and no retired id is forgotten |
| History.AnIdLostWhereNotWritten | scripts/knowledge/prepare_attck_malware_fixtures.py:668-668 | A run that does not write the retired set loses an id the release retires |
| History.AnIdLostWhereUnreadable | scripts/knowledge/prepare_attck_malware_fixtures.py:669-677 | A run that finds the retired file unreadable loses an id only that file had |
| History.AnIdLostWithTheCatalogue | scripts/knowledge/prepare_attck_malware_fixtures.py:288-300 | A run that finds the catalogue unreadable accepts a release that lacks an id, lost ids not accepted, and loses it |
| HistoryExactly.AnIdInBothFiles | scripts/knowledge/prepare_attck_malware_fixtures.py:668-668 | A run that does not write the retired set leaves an id that is back in both files |
| HistoryExactly.ARetirementForgotten | scripts/knowledge/prepare_attck_malware_fixtures.py:669-677 | The same release again, the retired file unreadable, forgets the release an id was retired in |
| History.RetiredInTheReleaseThatDroppedIt | scripts/knowledge/prepare_attck_malware_fixtures.py:342-383 | The release a retired id names is the one whose run dropped it last |
| HistoryExactly.ReleaseNamedExactly | scripts/knowledge/prepare_attck_malware_fixtures.py:353-358 | From an empty disk, over any runs: after each, retired ids name a release exactly when once active, if and only if each run met its condition (unwritten: no set id without a release comes back; written: no id seen before is known from the bundle alone) |
| HistoryExactly.RepeatingExactly | scripts/knowledge/prepare_attck_malware_fixtures.py:659-677 | A release accepted once is accepted again, and changes neither file if and only if the set is not written, or it is up to date with the release and, where it is unreadable, no row says more than the bundle |
| HistoryExactly.RepeatingOnceWritten | scripts/knowledge/prepare_attck_malware_fixtures.py:659-677 | Once the set was written, only an unreadable file can bring change, and does if and only if some row says more than the bundle |
| History.ReadRelease | scripts/knowledge/prepare_attck_malware_fixtures.py:631-658 | The three bundles read into one release, an earlier domain's word on a replacement standing over a later one's |
| History.MergedExactly | scripts/knowledge/prepare_attck_malware_fixtures.py:655-657 | What replaced an id is what the first domain to name a replacement for it names, in the order the domains are read, and nothing where none does |
| History.Files.Prepare | scripts/knowledge/prepare_attck_malware_fixtures.py:631-677 | One run of the script on the two files, each readable or not and the retired one written or not: refused and nothing written, or written as the step says |
| Json.WithoutMarksIsUnmarked | scripts/rehearsal/validate.py:58-63 | After stripping, no cache mark is left at any depth |
| Json.UnmarkedIsKept | scripts/rehearsal/validate.py:58-63 | A value without marks is unchanged by stripping |
| Json.OnlyMarksAreTaken | scripts/rehearsal/validate.py:58-63 | Stripping takes the cache marks out at every depth and leaves all else as it stands; no other value does |
| Requests.Breakpoints | scripts/rehearsal/validate.py:251-269 | The marks listed are exactly the set ones, each once, tools before system before messages before the request's own |
| Requests.MarksAreOne | scripts/rehearsal/validate.py:251-269 | That leaves no choice: a body's marks are one list |
| Requests.MarksAreThoseHeld | scripts/rehearsal/validate.py:251-269 | The marks listed are exactly those that tools, system blocks, message blocks and the body itself hold with a value Python takes for true |
| PromptCache.Cache.ReadAt | scripts/rehearsal/validate.py:462-465 | The scan from the end finds the last of the keys that is held |
| PromptCache.StoringHolds | scripts/rehearsal/validate.py:470-472 | Storing keeps all that is held and adds exactly the keys that meet the floor |
| PromptCache.Cache.MarkedPrefixes | scripts/rehearsal/validate.py:453-460 | The keys of all the marks, and an hour's lifetime exactly when some mark asks for it |
| PromptCache.Cache.Anthropic | scripts/rehearsal/validate.py:446-482 | One Messages call changes the cache and is charged as specified for its marks |
| PromptCache.Cache.Openai | scripts/rehearsal/validate.py:484-509 | One chat call changes the same cache and is charged as specified for its message boundaries |
| PromptCache.EveryTokenIsChargedOnce | scripts/rehearsal/validate.py:473-482 | For any state of the cache: input, read, five-minute write and one-hour write add up to the request's total, and at most one kind of write is charged |
| PromptCache.HeldWereStored | scripts/rehearsal/validate.py:470-472 | After any calls to either API the cache holds exactly the prefixes some call had at or above its own floor |
| PromptCache.ReadsTheLatestStored | scripts/rehearsal/validate.py:461-465 | In any run a call reads the last of its prefixes that an earlier call stored, and nothing when none was |
| PromptCache.NoPrefixIsWrittenTwice | scripts/rehearsal/validate.py:466-469 | In any run no two calls are charged for writing the same last prefix |
| PromptCache.RepeatingWritesNothing | scripts/rehearsal/validate.py:466-469 | Once a last prefix has met the floor, any later call that ends in it writes nothing and reads all of it |
| PromptCache.GrowingChatIsRead | scripts/rehearsal/validate.py:484-509 | A chat call that repeats all of an earlier call's messages and adds to them reads those messages or more |
| PromptCache.MarkedBlockIsRead | scripts/rehearsal/validate.py:446-482 | A marked block an earlier call stored is read, or a later mark is, wherever other marks stood or went in what precedes it |
| Charges.ChargedAsGiven | scripts/rehearsal/validate.py:473-482 | In any run a call's size is shared out among input, read and written, and its output and reasoning are as given |
| Charges.WritesExactly | scripts/rehearsal/validate.py:461-472 | In any run, a Messages call whose last prefix meets the floor and was stored by no earlier call: read and written together are the smaller of its size and the larger of that prefix and the one read. Every other call writes nothing |
| Charges.WrittenForAnHourExactly | scripts/rehearsal/validate.py:473-482 | All of what is written is one-hour where the call asks for an hour, and none of it is where it does not |
| Charges.ForAnHourExactly | scripts/rehearsal/validate.py:453-460 | A call asks for an hour if and only if some mark its tools, system prompt, messages or body hold does |
| Charges.PrefixesAre | scripts/rehearsal/validate.py:446-509 | A chat call's prefixes are its first messages, one more each; a Messages call's are what its marks close |
| Charges.UpToExactly | scripts/rehearsal/validate.py:488-495 | What ends a chat prefix is the same exactly where the tools and the messages so far are, marks aside |
| Charges.KeyOfTool | scripts/rehearsal/validate.py:532-544 | What a mark on a tool closes: the tools up to it, marks aside |
| Charges.KeyOfSystem | scripts/rehearsal/validate.py:532-544 | What a mark on a system block closes: the tools, and the system blocks up to it |
| Charges.KeyOfRequest | scripts/rehearsal/validate.py:532-544 | What a mark on the request closes: tools, system prompt and all the messages |
| Charges.CutKeeps | scripts/rehearsal/validate.py:532-544 | A message cut after a block keeps its other fields and the blocks up to it |
| Charges.ChatReadsExactly | scripts/rehearsal/validate.py:484-509 | In any run a chat call reads the most of its messages an earlier call stored, short of the last unless it is the only one, and writes nothing |
| Charges.OnlyTheRestIsWritten | scripts/rehearsal/validate.py:461-482 | 2000 tokens stored, the next prefix of 3000 not, 3500 in all: 2000 read, 1000 written, 500 input |
| Transcripts.CheckToolPairs | scripts/rehearsal/validate.py:155-189 | A transcript passes exactly when every assistant call but those of a last message is answered in a user's next turn and every result answers a call of the message before; else it is refused for the first message with unanswered calls, or for the first with stray results, and the ids named are all of those |
| Transcripts.CallsEqualResults | scripts/rehearsal/validate.py:155-189 | In an accepted transcript an assistant turn that is not the last has the ids of exactly the results in the next |
| Transcripts.PassIsTheScans | scripts/rehearsal/validate.py:155-189 | The two scans accept just the transcripts one pass from the left with the owed ids accepts |
| Transcripts.CheckChat | scripts/rehearsal/validate.py:408-436 | The nested scans accept exactly when every assistant call is answered in the run of tool messages after it and every tool message answers a call of the message its run follows; else the first message at fault is named, with all the calls it leaves waiting |
| Transcripts.CallsEqualAnswers | scripts/rehearsal/validate.py:408-436 | In an accepted transcript a calling assistant turn's ids are just those its run of tool messages answers |
| Transcripts.PassChatIsTheScans | scripts/rehearsal/validate.py:408-436 | The nested forward and backward scans accept just the transcripts one pass from the left ends with nothing owed |
| TranscriptRules.WellPairedExactly | scripts/rehearsal/validate.py:155-189 | Read off the content item by item: well paired if and only if every tool_use block of an assistant turn that is not the last has a tool_result block for its id in the next turn, a user's, and every tool_result block a tool_use block in the turn before |
| TranscriptRules.AcceptedExactly | scripts/rehearsal/validate.py:408-436 | Read off the messages: accepted if and only if every id in an assistant's tool_calls is the tool_call_id of a message in the unbroken run of tool messages after it, and every tool message's is in the tool_calls of the message its run follows |
| TranscriptRules.TheSecondCallIsUnanswered | scripts/rehearsal/validate.py:155-176 | A turn that calls twice and is answered once is refused, and the second call alone is named |
| Signing.CheckSignatures | scripts/rehearsal/validate.py:330-350 | Every invalid thinking block is dropped in order where that was asked for; otherwise the first one refuses the request |
| Signing.SignedThinkingSurvives | scripts/rehearsal/stub_model.py:287-290 | In any conversation that only goes on, with system and tools the same, no thinking block the signer issued is ever refused or dropped, whatever cache marks come, go or move |
| Signing.GoingOnStaysGood | scripts/rehearsal/validate.py:94-110 | One more exchange leaves every thinking block valid |
| Signing.PassesExactlyWhereWritten | scripts/rehearsal/validate.py:87-110 | With the digest injective, on a prefix-bound model a block passes if and only if system, tools and every earlier message are, marks aside, those it was written after, and its own text is what was signed |
| Signing.UnboundHoldsOnlyTheText | scripts/rehearsal/validate.py:102-110 | On a model that binds no prefix only the text is held to |
| Signing.WhatIsNotGoodIsCaught | scripts/rehearsal/validate.py:330-350 | A request passes whole if and only if all its thinking is valid; an invalid block always refuses the request or is dropped |
| SignedBlocks.PassesWholeExactly | scripts/rehearsal/validate.py:330-350 | Read off the items: a request passes whole if and only if every thinking or redacted_thinking item of an assistant turn carries the seal for its text and what comes before it |
| SignedBlocks.CaughtExactly | scripts/rehearsal/validate.py:330-350 | Where dropping is asked for nothing is refused and exactly the messages with such an item out of place are dropped; where not, nothing is dropped and the first one refuses the request |
| SignedBlocks.IssuedElsewhere | scripts/rehearsal/validate.py:78-110 | With the digest injective, on a prefix-bound model: thinking issued at some place is in place if and only if, marks aside, the same came before it there and, unless redacted, its text is the one issued |
| SignedBlocks.ElsewhereIsCaught | scripts/rehearsal/validate.py:330-350 | Thinking issued elsewhere or for another text refuses the request or has its message dropped |
| SignedBlocks.IssuedHerePasses | scripts/rehearsal/validate.py:330-350 | A request all of whose thinking was issued where it stands passes whole |
| SignedBlocks.AForgedBlockIsCaught | scripts/rehearsal/validate.py:330-350 | A thinking block with a forged signature refuses the request, or is dropped where that was asked for |
| TextSearch.ReadNext | scripts/audit/surfaces.py:328-336 | Reading one character more adds a space only after a word, and anything else as it is: the collapsed, left-stripped text |
| TextSearch.ShortestCut | scripts/audit/surfaces.py:317-339 | The streaming counter gives the length of the collapsed, left-stripped prefix at which the limit is first written, less two |
| TextSearch.IntervalIsEmptyOnlyAtZero | scripts/audit/surfaces.py:314-339 | The lengths taken for a declared cut are some if and only if the limit is at least one |
| TextSearch.ShortestCutIsMonotone | scripts/audit/surfaces.py:317-339 | A longer limit never takes a shorter cut |
| TextSearch.RenderedCutsAreTaken | scripts/audit/surfaces.py:317-323 | What a renderer that cuts the defanged value at the limit leaves to be read, with or without the space it ends in, has a length that is taken |
| TextSearch.LongestAndSplit | scripts/audit/surfaces.py:297-310 | The scan finds the longest common prefix that an ellipsis ends, over every place the head stands at, and whether some place splits a defang mark |
| TextSearch.Find | scripts/audit/surfaces.py:285-314 | Present, cut, truncated and missing exactly as the declarative meaning says |
| TextSearch.ShownCutIsSeen | scripts/audit/surfaces.py:297-310 | A value shown cut anywhere in the text is found cut at no less than is shown |
| SearchRules.NormalisedExactly | scripts/audit/surfaces.py:277-278 | What is searched for is the value's words, the runs between white space, with one space between each two and none around |
| SearchRules.ShortestCutExactly | scripts/audit/surfaces.py:317-339 | The least a cut keeps is what is read of the value, words and single spaces, where its size with two more for each dot, colon and at sign first reaches the limit, less two and not below nothing; all of it where it never does |
| SearchRules.CutExactly | scripts/audit/surfaces.py:297-307 | A cut is a place where twelve or more characters of the value stand, then no more of it, then an ellipsis |
| SearchRules.SplitExactly | scripts/audit/surfaces.py:307-309 | A split mark is such a place followed by an opening bracket, one character and an ellipsis |
| SearchRules.AnswerExactly | scripts/audit/surfaces.py:285-314 | Present if and only if the value's words stand in the text; else missing if and only if no cut and no split mark does; else cut if and only if the longest cut is of a length the declared cut leaves; else truncated |
| MarkdownBlocks.OpenFenceMeans | scripts/audit/surfaces.py:1075-1080 | A fence is open exactly when some line opened it and no line since closed it with the same character at least as often |
| MarkdownBlocks.OpenedExactly | scripts/audit/surfaces.py:1028-1028 | A line opens a fence if and only if three or more backticks or tildes stand in it behind at most three spaces; the fence is all of them |
| MarkdownBlocks.ClosesExactly | scripts/audit/surfaces.py:1075-1080 | A line closes a fence if and only if one of the same character, at least as long, stands in it so |
| MarkdownBlocks.MdBlocks | scripts/audit/surfaces.py:1068-1089 | The blocks are the document cut at just the heading lines outside fences: one more block than headings, each with its heading's words and its lines' text |
| MarkdownBlocks.BlocksAreTheDocument | scripts/audit/surfaces.py:1068-1089 | The headings and the blocks' lines in order are the document, each line once |
| MarkdownBlocks.FencedLinesStartNothing | scripts/audit/surfaces.py:1075-1083 | No line while a fence is open, nor the line that opens it, starts a block |
| MarkdownBlocks.TextTellsLines | scripts/audit/surfaces.py:1084-1089 | A block's text tells its lines, save that no line and one empty line read alike |
| NameHash.Ror13 | scripts/calibration/cases.py:351-357 | The loop gives the hash as folded from the left |
| NameHash.StepIsABijection | scripts/calibration/cases.py:355-356 | Each step on a given byte is a bijection of the 32-bit states, with the inverse stated |
| NameHash.StatesStayApart | scripts/calibration/cases.py:351-357 | From two states the same name leads to the same hash if and only if the states were the same |
| NameHash.OneByteChangesTheHash | scripts/calibration/cases.py:351-357 | A name with one byte replaced hashes the same if and only if the byte is the same |
| NameHash.RotatedExactly | scripts/calibration/cases.py:355-355 | The word with its high nineteen bits and its low thirteen exchanged, and no other |
| NameHash.HashOfTwoLetters | scripts/calibration/cases.py:351-357 | The hash of "ab" is 0x03080062 |
| ConfigBlob.KeyByte | scripts/calibration/cases.py:360-361 | Whatever the random bits, a key byte has its top bit set |
| ConfigBlob.XorTwice | scripts/calibration/cases.py:364-369 | The same XOR again gives the byte back |
| ConfigBlob.XorExactly | scripts/calibration/cases.py:364-369 | Each of the eight bits is set if and only if the two bytes differ in it |
| ConfigBlob.RepeatingTwice | scripts/calibration/cases.py:368-369 | The same repeating XOR again gives the text back |
| ConfigBlob.Xor8IsRepeating | scripts/calibration/cases.py:364-369 | The single-byte XOR is the repeating XOR under a key of one byte |
| ConfigBlob.EncodedHasNoAscii | scripts/calibration/cases.py:360-369 | Under keys with their top bits set every encoded byte is 0x80 or more if and only if the text is ASCII |
| ConfigBlob.BlobReadsBack | scripts/calibration/cases.py:473-475 | Whatever follows it, the blob reads back as the key and the text, for either length width |
| Folding.FoldedByLine | src/maljan/pipeline/claim_drops.py:52-55 | Refanging and removing case read nothing across a newline: folding texts joined line by line is joining the folded texts |
| FactRules.DefangedReadsBack | src/maljan/pipeline/claim_drops.py:52-55 | A text without brackets of its own is read back from its defanged form |
| FactRules.HiddenExactly | src/maljan/pipeline/claim_drops.py:52-55 | Refanging puts http where hxxp, in any case, starts a word, and leaves every other character |
| Folding.OneLineStandsInOne | scripts/calibration/score.py:322-323 | A needle of one line stands in the joined texts if and only if it stands in one of them |
| Folding.TokensOfText | scripts/calibration/score.py:328-328 | The tokens of the joined texts are the tokens of each |
| FactRules.TokensExactly | scripts/calibration/score.py:103-103 | A text's tokens are the longest runs of lower-case letters, digits, dots, hyphens and underscores in it |
| Folding.OneLineStays | scripts/calibration/score.py:350-351 | What goes over no newline and stands in the texts joined stands in any texts joined that have them all, in any order and with others between |
| Folding.OneLineIsNeverLost | scripts/calibration/score.py:350-351 | What is searched for is hidden by no texts put between others if and only if it goes over no newline |
| FactScore.MoreEvidenceLowersExactly | scripts/calibration/score.py:377-409 | If one run has every text of another, each anywhere among its own, the status of a fact whose spellings go over no newline is lower if and only if it is a section, newly listed and not flagged, that the smaller run had found by a claim or a published indicator |
| FactScore.MoreEvidenceNeverLowers | scripts/calibration/score.py:377-409 | For such a fact read from tokens or decoded text more evidence never lowers its status |
| FactScore.NeverLoweredExactly | scripts/calibration/score.py:344-409 | A fact of one decoded spelling is lowered by more evidence in no run if and only if the spelling goes over no newline |
| FactScore.ListingASectionCanLowerIt | scripts/calibration/score.py:385-386 | A section found by its published indicator becomes only partial once its token is listed |
| FactScore.ASpellingOverTwoTextsIsLost | scripts/calibration/score.py:322-347 | A spelling over a newline, found across two tool rows, is missed where a third row comes between them |
| FactScore.MoreEvidenceIsNeverADrop | scripts/calibration/score.py:344-409 | Where each of the candidate's runs has every text of the baseline's, the gate does not report such a fact dropped |
| FactRules.CountSays | scripts/calibration/score.py:344-383 | All terms are counted if and only if each is held, and some if and only if one is: anywhere in the tool rows for a decoded kind, as a whole token for any other |
| FactRules.CoversExactly | scripts/calibration/cases.py:395-398 | A technique stands for itself, those under it and the one it is under, in any case of letters |
| FactRules.StatusExactly | scripts/calibration/score.py:377-402 | Found, partial, mentioned and refused kinds, each if and only if, spelled in what stands in the tool rows, claims, citations, publications, evidence and free text |
| FactRules.OneTermOfTwo | scripts/calibration/score.py:387-394 | Rows that hold one of a fact's two terms make it partial |

## Left out

- Labels, notes, per-run beyond counts and the text of the reports, in the gate and the scores.
- Provenance.ProvenanceOf: the per-run `entries` copied beside a tag; the map by run name is modelled, the copies are not.
- Reading runs, ledgers, manifests, fragments, bundles and settings from files, the network or a subprocess: parsed values come in as arguments.
- Price, charge and estimate checks of the usage audit, and the seconds a late record is late by.
- UsageAudit.RecordProblems: the problems about charges and estimates are not among those listed.
- Retirement.RetiredIds: the result's sorted key order is not modelled.
- FoldTwice.FoldTwiceExactly: a region where a named heading is the last line or stands right on another named one, and entries that hold a named heading, are not compared.
- Techniques.ActiveIds: the result is a set, not a sorted list; a technique id's digits are the ASCII ones.
- Compose.ComposeRecord: a default the last release lacks is refused as a differing default, where the script stops on a missing key; sorted keys and the rendered text are left out.
- Changelog fragments: parsing and collecting them, and their check for problems.
- Declarations: a value equal to nothing, not even itself (`NaN`), is not modelled.
- Json: numbers are integers; two JSON numbers Python compares equal but writes differently are not modelled.
- Signing.CheckSignatures: text fields of a thinking block hold strings; another type reads as empty. The rule that a tool loop's last turn leads with its thinking block is left out, and so are headers, sizes, sampling and empty-text rules.
- PromptCache.Cache.Anthropic: the lock; calls are taken one at a time.
- TextSearch.Find: the refanged and unescaped forms a text is given in, and the HTML forms.
- MarkdownBlocks.MdBlocks: splitting a document at its line ends and the heading pattern; lines come in as a sequence and the pattern as a function.
- History.Files.Prepare: what is written is written in one step; a stop between the two writes is not modelled, nor are the technique table and the labelled sentences.
- NameHash.Ror13: encoding the name as UTF-8; the name comes in as bytes.
- FactScore: reading the surfaces of a stored run, traps and absences, totals and rendering; letter case of technique ids is folded for ASCII letters only.
- The synthetic PE images, random case generation and the other scripts.
