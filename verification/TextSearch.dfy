/** Finding a value in a rendering, whole or cut short. */
module TextSearch {
  import opened Wrappers
  import opened Lines

  const MIN_CUT := 12
  const ELLIPSIS := '\U{2026}'

  // ----- White space read as one space --------------------------------------

  predicate EndsInSpace(s: string) { s != "" && IsSpace(s[|s| - 1]) }

  /** Each run of white space as one space. */
  function Collapse(s: string): string {
    if s == "" then ""
    else
      var front, c := s[..|s| - 1], s[|s| - 1];
      if !IsSpace(c) then Collapse(front) + [c]
      else if EndsInSpace(front) then Collapse(front)
      else Collapse(front) + " "
  }

  function LeftStripped(s: string): string {
    if s != "" && IsSpace(s[0]) then LeftStripped(s[1..]) else s
  }

  function RightStripped(s: string): (r: string)
    ensures |r| <= |s|
  {
    if EndsInSpace(s) then RightStripped(s[..|s| - 1]) else s
  }

  /** The text as a reader sees it so far: white space collapsed, none in front. */
  function ReadSoFar(s: string): string { LeftStripped(Collapse(s)) }

  function Normalised(value: string): string { RightStripped(ReadSoFar(value)) }

  lemma {:induction false} LeftStrippedNext(s: string, c: char)
    ensures LeftStripped(s + [c]) == if LeftStripped(s) == "" && IsSpace(c) then "" else LeftStripped(s) + [c]
  {
    if s == "" {
      assert s + [c] == [c];
      assert [c][1..] == "";
    } else if IsSpace(s[0]) {
      assert (s + [c])[1..] == s[1..] + [c];
      LeftStrippedNext(s[1..], c);
    }
  }

  lemma {:induction false} CollapsedEnds(s: string)
    ensures EndsInSpace(Collapse(s)) <==> EndsInSpace(s)
    ensures s != "" ==> Collapse(s) != ""
  {
    if s != "" && EndsInSpace(s) && EndsInSpace(s[..|s| - 1]) {
      CollapsedEnds(s[..|s| - 1]);
    }
  }

  /** One more character read: a space only after a word, anything else as it is. */
  lemma {:induction false} ReadNext(s: string, c: char)
    ensures ReadSoFar(s + [c]) ==
      if !IsSpace(c) then ReadSoFar(s) + [c]
      else if EndsInSpace(s) || ReadSoFar(s) == "" then ReadSoFar(s)
      else ReadSoFar(s) + " "
  {
    assert (s + [c])[..|s|] == s;
    LeftStrippedNext(Collapse(s), if IsSpace(c) then ' ' else c);
  }

  /** What is read ends in at most one space. */
  lemma {:induction false} OneTrailingSpace(s: string)
    ensures |RightStripped(ReadSoFar(s))| >= |ReadSoFar(s)| - 1
    ensures EndsInSpace(ReadSoFar(s)) ==> EndsInSpace(s)
  {
    if s != "" {
      var front, c := s[..|s| - 1], s[|s| - 1];
      assert s == front + [c];
      ReadNext(front, c);
      OneTrailingSpace(front);
      var read := ReadSoFar(front);
      if IsSpace(c) && !EndsInSpace(front) && read != "" {
        assert ReadSoFar(s)[..|read|] == read;
      }
    }
  }

  // ----- How short a cut may be ---------------------------------------------

  /** What a renderer writes of the text: three characters for each mark it defangs. */
  function Written(s: string): (w: nat)
    ensures |s| <= w
  {
    if s == "" then 0
    else Written(s[..|s| - 1]) + if s[|s| - 1] in ".:@" then 3 else 1
  }

  /** The first length of the text that writes `limit` characters or more. */
  function FirstWriting(value: string, limit: int): (n: Option<nat>)
    ensures n.Some? ==> 0 < n.value <= |value|
  {
    if value == "" then None
    else
      var before := FirstWriting(value[..|value| - 1], limit);
      if before.Some? then before
      else if Written(value) >= limit then Some(|value|)
      else None
  }

  lemma {:induction false} FirstWritingIsFirst(value: string, limit: int)
    ensures FirstWriting(value, limit).Some? ==> Written(value[..FirstWriting(value, limit).value]) >= limit
    ensures forall n :: 1 <= n <= |value| && (FirstWriting(value, limit).Some? ==> n < FirstWriting(value, limit).value) ==>
      Written(value[..n]) < limit
  {
    if value != "" {
      var front := value[..|value| - 1];
      FirstWritingIsFirst(front, limit);
      assert value[..|value|] == value;
      assert forall n :: 0 <= n <= |front| ==> front[..n] == value[..n];
    }
  }

  /** The least a declared cut keeps. */
  function ShortestCutOf(value: string, cutAt: int): nat {
    var n := FirstWriting(value, cutAt - 1);
    if n.None? then |ReadSoFar(value)|
    else if |ReadSoFar(value[..n.value])| >= 2 then |ReadSoFar(value[..n.value])| - 2
    else 0
  }

  lemma {:induction false} FirstWritingOfMore(value: string, n: nat, limit: int)
    requires n <= |value| && FirstWriting(value[..n], limit).Some?
    ensures FirstWriting(value, limit) == FirstWriting(value[..n], limit)
    decreases |value| - n
  {
    if n < |value| {
      assert value[..n + 1] == value[..n] + [value[n]];
      FirstWritingOfMore(value, n + 1, limit);
    } else {
      assert value[..n] == value;
    }
  }

  lemma {:induction false} StopsHere(value: string, n: nat, cutAt: int)
    requires n < |value| && FirstWriting(value[..n], cutAt - 1).None? && Written(value[..n + 1]) >= cutAt - 1
    ensures var kept := |ReadSoFar(value[..n + 1])|; ShortestCutOf(value, cutAt) == if kept >= 2 then kept - 2 else 0
  {
    hide ReadSoFar, Written;
    assert value[..n + 1] == value[..n] + [value[n]];
    FirstWritingOfMore(value, n + 1, cutAt - 1);
  }

  lemma {:induction false} GoesOn(value: string, n: nat, limit: int)
    requires n < |value| && FirstWriting(value[..n], limit).None? && Written(value[..n + 1]) < limit
    ensures FirstWriting(value[..n + 1], limit).None?
  {
    hide Written;
    assert value[..n + 1] == value[..n] + [value[n]];
  }

  lemma {:induction false} CountsNext(value: string, n: nat)
    requires n < |value|
    ensures Written(value[..n + 1]) == Written(value[..n]) + if value[n] in ".:@" then 3 else 1
    ensures |ReadSoFar(value[..n + 1])| == |ReadSoFar(value[..n])| +
      if IsSpace(value[n]) && (EndsInSpace(value[..n]) || |ReadSoFar(value[..n])| == 0) then 0 else 1
    ensures EndsInSpace(value[..n + 1]) <==> IsSpace(value[n])
  {
    hide ReadSoFar, IsSpace;
    assert value[..n + 1] == value[..n] + [value[n]];
    assert value[..n + 1][..n] == value[..n];
    ReadNext(value[..n], value[n]);
  }

  /** One scan of the value counts what is written and what is read. */
  method ShortestCut(value: string, cutAt: int) returns (least: nat)
    ensures least == ShortestCutOf(value, cutAt)
  {
    hide ReadSoFar, FirstWriting, Written, IsSpace, EndsInSpace;
    var written, kept := 0, 0;
    var space := false;
    EmptyCounts(cutAt - 1);
    for n := 0 to |value|
      invariant written == Written(value[..n]) && kept == |ReadSoFar(value[..n])|
      invariant space <==> EndsInSpace(value[..n])
      invariant FirstWriting(value[..n], cutAt - 1).None?
    {
      CountsNext(value, n);
      written := written + if value[n] in ".:@" then 3 else 1;
      if IsSpace(value[n]) {
        kept := kept + if space || kept == 0 then 0 else 1;
        space := true;
      } else {
        kept := kept + 1;
        space := false;
      }
      if written >= cutAt - 1 {
        StopsHere(value, n, cutAt);
        return if kept >= 2 then kept - 2 else 0;
      }
      GoesOn(value, n, cutAt - 1);
    }
    assert value[..|value|] == value;
    return kept;
  }

  lemma EmptyCounts(limit: int)
    ensures Written("") == 0 && |ReadSoFar("")| == 0 && FirstWriting("", limit).None? && !EndsInSpace("")
  {}

  lemma {:induction false} ReadIsWithinWritten(value: string, n: nat)
    requires n <= |value|
    ensures |ReadSoFar(value[..n])| <= Written(value[..n])
    ensures n > 0 ==> |ReadSoFar(value[..n])| <= |ReadSoFar(value[..n - 1])| + 1
    ensures n > 0 ==> |ReadSoFar(value[..n - 1])| <= |ReadSoFar(value[..n])|
  {
    if n > 0 {
      assert value[..n] == value[..n - 1] + [value[n - 1]];
      assert value[..n][..n - 1] == value[..n - 1];
      ReadNext(value[..n - 1], value[n - 1]);
      ReadIsWithinWritten(value, n - 1);
    } else {
      EmptyCounts(0);
    }
  }

  lemma {:induction false} ReadGrows(value: string, m: nat, n: nat)
    requires m <= n <= |value|
    ensures |ReadSoFar(value[..m])| <= |ReadSoFar(value[..n])| && Written(value[..m]) + (n - m) <= Written(value[..n])
  {
    if m < n {
      ReadGrows(value, m, n - 1);
      ReadIsWithinWritten(value, n);
      assert value[..n][..n - 1] == value[..n - 1];
    }
  }

  /** The lengths taken for the declared cut are some just when there can be a cut at all. */
  lemma {:induction false} IntervalIsEmptyOnlyAtZero(value: string, cutAt: int)
    ensures ShortestCutOf(value, cutAt) <= cutAt - 1 <==> cutAt >= 1
  {
    FirstWritingIsFirst(value, cutAt - 1);
    var n := FirstWriting(value, cutAt - 1);
    if n.Some? {
      ReadIsWithinWritten(value, n.value);
      ReadIsWithinWritten(value, n.value - 1);
      EmptyCounts(0);
    } else {
      ReadIsWithinWritten(value, |value|);
      assert value[..|value|] == value;
      EmptyCounts(0);
    }
  }

  /** A longer limit never takes a shorter cut. */
  lemma {:induction false} ShortestCutIsMonotone(value: string, cutAt: int, more: int)
    requires cutAt <= more
    ensures ShortestCutOf(value, cutAt) <= ShortestCutOf(value, more)
  {
    FirstWritingIsFirst(value, cutAt - 1);
    FirstWritingIsFirst(value, more - 1);
    var m, n := FirstWriting(value, cutAt - 1), FirstWriting(value, more - 1);
    assert value[..|value|] == value;
    if m.Some? {
      if n.Some? {
        ReadGrows(value, m.value, n.value);
      } else {
        ReadGrows(value, m.value, |value|);
      }
    }
  }

  /** The renderer has room for `n` characters of the value in `cutAt - 1`, and not for one more. */
  ghost predicate Fits(value: string, n: nat, cutAt: int) {
    n < |value| && Written(value[..n]) <= cutAt - 1 < Written(value[..n + 1])
  }

  /**
   What a renderer that cuts the defanged value leaves to be read, with the space it
   may end in or without it, is a length the search takes for the declared cut.
   */
  lemma {:induction false} RenderedCutsAreTaken(value: string, n: nat, cutAt: int)
    requires Fits(value, n, cutAt)
    ensures ShortestCutOf(value, cutAt) <= |RightStripped(ReadSoFar(value[..n]))|
    ensures |ReadSoFar(value[..n])| <= cutAt - 1
  {
    OneTrailingSpace(value[..n]);
    ReadIsWithinWritten(value, n);
    ReadIsWithinWritten(value, n + 1);
    FirstWritingIsFirst(value, cutAt - 1);
    var k := FirstWriting(value, cutAt - 1);
    assert k.Some? && k.value <= n + 1;
    if k.value <= n {
      ReadGrows(value, k.value, n);
    }
  }

  // ----- Where a value stands in a text -------------------------------------

  datatype Outcome = Present | Cut | Truncated | Missing

  predicate Occurs(text: string, part: string, at: int) {
    0 <= at && at + |part| <= |text| && text[at..at + |part|] == part
  }

  predicate Contains(text: string, part: string) {
    exists at :: 0 <= at <= |text| && Occurs(text, part, at)
  }

  /** How many characters the text from `at` on shares with the value from its start. */
  function Shared(text: string, at: nat, needle: string): (n: nat)
    requires at <= |text|
    ensures n <= |needle| && at + n <= |text| && text[at..at + n] == needle[..n]
    ensures n < |needle| && at + n < |text| ==> text[at + n] != needle[n]
    decreases |needle|
  {
    if needle == "" || at == |text| || text[at] != needle[0] then 0
    else
      var rest := Shared(text, at + 1, needle[1..]);
      assert text[at..at + 1 + rest] == [text[at]] + text[at + 1..at + 1 + rest];
      assert needle[..rest + 1] == [needle[0]] + needle[1..][..rest];
      rest + 1
  }

  predicate EndsInEllipsis(text: string, at: nat, needle: string)
    requires at <= |text|
  {
    var end := at + Shared(text, at, needle);
    end < |text| && text[end] == ELLIPSIS
  }

  predicate SplitsAMark(text: string, at: nat, needle: string)
    requires at <= |text|
  {
    var end := at + Shared(text, at, needle);
    !EndsInEllipsis(text, at, needle) && end + 2 < |text| && text[end] == '[' && text[end + 2] == ELLIPSIS
  }

  /** The value stands at `at`, long enough to be told, and an ellipsis cuts it after `kept`. */
  ghost predicate CutAt(text: string, needle: string, at: int, kept: int) {
    |needle| > MIN_CUT && Occurs(text, needle[..MIN_CUT], at)
    && EndsInEllipsis(text, at, needle) && Shared(text, at, needle) == kept
  }

  ghost predicate SplitAt(text: string, needle: string, at: int) {
    |needle| > MIN_CUT && Occurs(text, needle[..MIN_CUT], at) && SplitsAMark(text, at, needle)
  }

  /** The longest of the cuts; 0 where there is none. */
  ghost predicate LongestCut(text: string, needle: string, best: nat) {
    && (best == 0 || exists at :: CutAt(text, needle, at, best))
    && (forall at, kept :: CutAt(text, needle, at, kept) ==> kept <= best)
  }

  /** What the search answers, said of all the places the value's head stands at. */
  ghost predicate Answers(text: string, value: string, cutAt: Option<int>, best: nat, answer: Outcome) {
    var needle := Normalised(value);
    && (answer == Present <==> Contains(text, needle))
    && (!Contains(text, needle) ==>
          && LongestCut(text, needle, best)
          && (answer == Cut <==> best > 0 && cutAt.Some? && ShortestCutOf(value, cutAt.value) <= best <= cutAt.value - 1)
          && (answer == Missing <==> best == 0 && !exists at :: SplitAt(text, needle, at)))
  }

  /** The first place from `start` on where the part stands, or -1. */
  method Position(text: string, part: string, start: nat) returns (at: int)
    ensures at == -1 || (start <= at && Occurs(text, part, at))
    ensures forall k :: start <= k && (at == -1 || k < at) ==> !Occurs(text, part, k)
  {
    at := start;
    while at + |part| <= |text|
      invariant start <= at
      invariant forall k :: start <= k < at ==> !Occurs(text, part, k)
    {
      if text[at..at + |part|] == part {
        return;
      }
      at := at + 1;
    }
    return -1;
  }

  /** How far the text goes on as the value does, from a place where its head stands. */
  method SharedFrom(text: string, needle: string, start: nat) returns (kept: nat)
    requires |needle| > MIN_CUT && Occurs(text, needle[..MIN_CUT], start)
    ensures kept == Shared(text, start, needle) && kept >= MIN_CUT
  {
    kept := MIN_CUT;
    assert text[start..start + kept] == needle[..kept];
    while start + kept < |text| && kept < |needle| && text[start + kept] == needle[kept]
      invariant MIN_CUT <= kept <= |needle| && start + kept <= |text|
      invariant text[start..start + kept] == needle[..kept]
    {
      assert text[start..start + kept + 1] == text[start..start + kept] + [text[start + kept]];
      assert needle[..kept + 1] == needle[..kept] + [needle[kept]];
      kept := kept + 1;
    }
  }

  ghost predicate Answered(text: string, value: string, cutAt: Option<int>, answer: Outcome) {
    exists best: nat :: Answers(text, value, cutAt, best, answer)
  }

  method Find(text: string, value: string, cutAt: Option<int>) returns (answer: Outcome)
    ensures Answered(text, value, cutAt, answer)
  {
    hide Normalised, ShortestCutOf, Shared, EndsInEllipsis, SplitsAMark;
    var needle := Normalised(value);
    var whole := Position(text, needle, 0);
    if needle == "" || whole != -1 {
      assert needle == "" ==> Occurs(text, needle, 0);
      assert Answers(text, value, cutAt, 0, Present);
      return Present;
    }
    if |needle| <= MIN_CUT {
      assert Answers(text, value, cutAt, 0, Missing);
      return Missing;
    }
    var longest, split := LongestAndSplit(text, needle);
    answer := Truncated;
    if longest == 0 {
      answer := if split then Truncated else Missing;
    } else if cutAt.Some? {
      var least := ShortestCut(value, cutAt.value);
      if least <= longest <= cutAt.value - 1 {
        answer := Cut;
      }
    }
    assert Answers(text, value, cutAt, longest, answer);
  }

  /** All the places before `seen` are told of. */
  ghost predicate ScannedTo(text: string, needle: string, seen: int, best: nat, split: bool) {
    && (best == 0 || exists at :: CutAt(text, needle, at, best))
    && (forall at, kept :: CutAt(text, needle, at, kept) && at < seen ==> kept <= best)
    && (split <==> exists at :: SplitAt(text, needle, at) && at < seen)
  }

  lemma {:induction false} ScanSkips(text: string, needle: string, seen: int, next: int, best: nat, split: bool)
    requires |needle| > MIN_CUT && ScannedTo(text, needle, seen, best, split) && seen <= next
    requires forall k :: seen <= k < next ==> !Occurs(text, needle[..MIN_CUT], k)
    ensures ScannedTo(text, needle, next, best, split)
  {
    hide EndsInEllipsis, SplitsAMark, Shared;
    forall at, kept | CutAt(text, needle, at, kept) && at < next ensures kept <= best {
      assert Occurs(text, needle[..MIN_CUT], at);
    }
    if at :| SplitAt(text, needle, at) && at < next {
      assert Occurs(text, needle[..MIN_CUT], at);
    }
  }

  lemma {:induction false} ScanHere(text: string, needle: string, at: nat, best: nat, split: bool, best': nat, split': bool)
    requires |needle| > MIN_CUT && Occurs(text, needle[..MIN_CUT], at)
    requires ScannedTo(text, needle, at, best, split)
    requires best' == if EndsInEllipsis(text, at, needle) && Shared(text, at, needle) > best then Shared(text, at, needle) else best
    requires split' == (split || SplitsAMark(text, at, needle))
    ensures ScannedTo(text, needle, at + 1, best', split')
  {
    assert at <= |text|;
    hide EndsInEllipsis, SplitsAMark, Shared, Occurs;
    if EndsInEllipsis(text, at, needle) {
      assert CutAt(text, needle, at, Shared(text, at, needle));
    }
    assert SplitsAMark(text, at, needle) ==> SplitAt(text, needle, at);
    forall k, kept | CutAt(text, needle, k, kept) && k < at + 1 ensures kept <= best' {
      if k == at {
        assert kept == Shared(text, at, needle);
      }
    }
    if split {
      var k :| SplitAt(text, needle, k) && k < at;
      assert SplitAt(text, needle, k) && k < at + 1;
    }
  }

  lemma {:induction false} ScanIsWhole(text: string, needle: string, seen: int, best: nat, split: bool)
    requires |needle| > MIN_CUT && ScannedTo(text, needle, seen, best, split)
    requires forall k :: seen <= k ==> !Occurs(text, needle[..MIN_CUT], k)
    ensures LongestCut(text, needle, best) && (split <==> exists at :: SplitAt(text, needle, at))
  {
    hide EndsInEllipsis, SplitsAMark, Shared;
    forall at, kept | CutAt(text, needle, at, kept) ensures kept <= best {
      assert Occurs(text, needle[..MIN_CUT], at);
    }
    if at :| SplitAt(text, needle, at) {
      assert Occurs(text, needle[..MIN_CUT], at);
      assert at < seen;
    }
  }

  lemma NothingScanned(text: string, needle: string)
    ensures ScannedTo(text, needle, 0, 0, false)
  {}

  /** The scan over every place the value's head stands at. */
  method LongestAndSplit(text: string, needle: string) returns (best: nat, split: bool)
    requires |needle| > MIN_CUT
    ensures LongestCut(text, needle, best)
    ensures split <==> exists at :: SplitAt(text, needle, at)
  {
    hide Shared, ScannedTo, LongestCut;
    var head := needle[..MIN_CUT];
    var start := Position(text, head, 0);
    best, split := 0, false;
    ghost var seen := 0;
    NothingScanned(text, needle);
    while start != -1
      invariant 0 <= seen && ScannedTo(text, needle, seen, best, split)
      invariant start == -1 || (seen <= start && Occurs(text, head, start))
      invariant forall k :: seen <= k && (start == -1 || k < start) ==> !Occurs(text, head, k)
      decreases if start == -1 then 0 else |text| - start + 1
    {
      ScanSkips(text, needle, seen, start, best, split);
      ghost var best', split' := best, split;
      var kept := SharedFrom(text, needle, start);
      var at := start + kept;
      if at < |text| && text[at] == ELLIPSIS {
        best := if best >= kept then best else kept;
      } else if at + 2 < |text| && text[at] == '[' && text[at + 2] == ELLIPSIS {
        split := true;
      }
      ScanHere(text, needle, start, best', split', best, split);
      seen := start + 1;
      start := Position(text, head, start + 1);
    }
    ScanIsWhole(text, needle, seen, best, split);
  }

  /** A value shown cut is found cut: at least as much as is shown, wherever that stands. */
  lemma {:induction false} ShownCutIsSeen(text: string, needle: string, at: nat, shown: nat, best: nat)
    requires MIN_CUT <= shown < |needle| && needle[shown] != ELLIPSIS
    requires at + shown < |text| && text[at..at + shown] == needle[..shown] && text[at + shown] == ELLIPSIS
    requires LongestCut(text, needle, best)
    ensures shown <= best
  {
    hide Shared;
    assert text[at..at + MIN_CUT] == text[at..at + shown][..MIN_CUT];
    assert CutAt(text, needle, at, shown);
  }
}
