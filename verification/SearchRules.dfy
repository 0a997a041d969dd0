/** What a search for a value answers, read off the text: the value's words, where its head stands, and what follows. */
module SearchRules {
  import opened Wrappers
  import opened Lines
  import opened TextSearch

  ghost predicate Stands(text: string, part: string) {
    exists before, after :: text == before + part + after
  }

  lemma {:induction false} ContainsIs(text: string, part: string)
    ensures Contains(text, part) <==> Stands(text, part)
  {
    if Contains(text, part) {
      var at :| 0 <= at <= |text| && Occurs(text, part, at);
      assert text == text[..at] + part + text[at + |part|..];
    }
    if before, after :| text == before + part + after {
      assert text[|before|..|before| + |part|] == part;
      assert Occurs(text, part, |before|);
    }
  }

  // ----- The words of a text ------------------------------------------------

  /** The runs of characters between white space. */
  function Words(s: string): (words: seq<string>)
    ensures s != "" && !IsSpace(s[|s| - 1]) ==> words != []
  {
    if s == "" then []
    else
      var front, c := s[..|s| - 1], s[|s| - 1];
      if IsSpace(c) then Words(front)
      else if front == "" || IsSpace(front[|front| - 1]) then Words(front) + [[c]]
      else
        var words := Words(front);
        words[..|words| - 1] + [words[|words| - 1] + [c]]
  }

  /** The words with one space between each two. */
  function Spaced(words: seq<string>): string {
    if words == [] then ""
    else if |words| == 1 then words[0]
    else Spaced(words[..|words| - 1]) + " " + words[|words| - 1]
  }

  /** Words have something in them and no white space. */
  lemma {:induction false} WordsHaveNoSpace(s: string)
    ensures forall k :: 0 <= k < |Words(s)| ==> Words(s)[k] != "" && forall i :: 0 <= i < |Words(s)[k]| ==> !IsSpace(Words(s)[k][i])
  {
    hide IsSpace;
    if s != "" {
      WordsHaveNoSpace(s[..|s| - 1]);
    }
  }

  lemma {:induction false} SpacedNext(words: seq<string>, c: char)
    ensures Spaced(words + [[c]]) == if words == [] then [c] else Spaced(words) + " " + [c]
    ensures words != [] ==>
      Spaced(words[..|words| - 1] + [words[|words| - 1] + [c]]) == Spaced(words) + [c]
  {
    assert (words + [[c]])[..|words|] == words;
    if words != [] {
      var front, last := words[..|words| - 1], words[|words| - 1];
      assert (front + [last + [c]])[..|front|] == front;
      assert |words| > 1 ==> Spaced(words) + [c] == Spaced(front) + " " + (last + [c]);
    }
  }

  lemma SpacedIsNothing(words: seq<string>)
    requires forall k :: 0 <= k < |words| ==> words[k] != ""
    ensures Spaced(words) == "" <==> words == []
  {}

  /** The size of what a reader has of the text so far: its words, and a space where one follows them. */
  function ReadText(s: string): string {
    Spaced(Words(s)) + if s != "" && IsSpace(s[|s| - 1]) && Words(s) != [] then " " else ""
  }

  /** The words with one more character: as they are, with a new one, or with the last one longer. */
  lemma WordsNext(s: string, c: char)
    ensures IsSpace(c) ==> Words(s + [c]) == Words(s)
    ensures !IsSpace(c) && (s == "" || EndsInSpace(s)) ==> Words(s + [c]) == Words(s) + [[c]]
    ensures !IsSpace(c) && s != "" && !EndsInSpace(s) ==> Words(s) != []
    ensures !IsSpace(c) && s != "" && !EndsInSpace(s) ==>
      Words(s + [c]) == Words(s)[..|Words(s)| - 1] + [Words(s)[|Words(s)| - 1] + [c]]
  {
    hide IsSpace;
    assert (s + [c])[..|s|] == s;
  }

  lemma SpaceBehind(words: seq<string>, ends: bool)
    requires words == [] <==> Spaced(words) == ""
    ensures var read := Spaced(words) + if ends && words != [] then " " else "";
      read == (if ends && words != [] then Spaced(words) + " " else Spaced(words)) && (read == "" <==> words == [])
  {
    hide Spaced;
  }

  lemma {:induction false} ReadTextNext(s: string, c: char)
    ensures ReadText(s + [c]) ==
      if !IsSpace(c) then ReadText(s) + [c]
      else if EndsInSpace(s) || ReadText(s) == "" then ReadText(s)
      else ReadText(s) + " "
  {
    var words := Words(s);
    WordsNext(s, c);
    WordsHaveNoSpace(s);
    SpacedIsNothing(words);
    SpacedNext(words, c);
    SpaceBehind(words, EndsInSpace(s));
    hide Spaced, IsSpace, Words;
    assert ReadText(s) == if EndsInSpace(s) && words != [] then Spaced(words) + " " else Spaced(words);
    if IsSpace(c) {
      assert ReadText(s + [c]) == Spaced(words) + if words != [] then " " else "";
      assert words == [] ==> ReadText(s) == "" && ReadText(s + [c]) == "";
    } else {
      assert ReadText(s + [c]) == Spaced(Words(s + [c]));
      if s == "" || EndsInSpace(s) {
        assert words != [] ==> s != "";
      }
    }
  }

  lemma {:induction false} ReadIs(s: string)
    ensures ReadSoFar(s) == ReadText(s)
  {
    if s != "" {
      var front, c := s[..|s| - 1], s[|s| - 1];
      assert s == front + [c];
      ReadIs(front);
      ReadNext(front, c);
      ReadTextNext(front, c);
      hide ReadText, IsSpace, ReadSoFar;
    }
  }

  lemma {:induction false} WordsEndInNoSpace(words: seq<string>)
    requires words != [] && forall k :: 0 <= k < |words| ==> words[k] != "" && forall i :: 0 <= i < |words[k]| ==> !IsSpace(words[k][i])
    ensures Spaced(words) != "" && !IsSpace(Spaced(words)[|Spaced(words)| - 1])
  {
    hide IsSpace;
    var last := words[|words| - 1];
    assert Spaced(words)[|Spaced(words)| - 1] == last[|last| - 1];
  }

  /** What is searched for is the value's words with single spaces between, and nothing around them. */
  lemma {:induction false} NormalisedExactly(value: string)
    ensures Normalised(value) == Spaced(Words(value))
  {
    var words, read := Words(value), Spaced(Words(value));
    ReadIs(value);
    WordsHaveNoSpace(value);
    if words != [] {
      WordsEndInNoSpace(words);
      hide Spaced, Words;
      assert !EndsInSpace(read) && RightStripped(read) == read;
      assert (read + " ")[..|read + " "| - 1] == read;
      assert EndsInSpace(read + " ");
      assert read + "" == read;
    }
  }

  // ----- The least a cut keeps ----------------------------------------------

  /** What a renderer writes of the text: two characters more for each dot, colon and at sign. */
  ghost function Size(s: string): int {
    |s| + 2 * |Marks(s)|
  }

  ghost function Marks(s: string): set<int> {
    set k | 0 <= k < |s| && (s[k] == '.' || s[k] == ':' || s[k] == '@')
  }

  lemma {:induction false} WrittenIs(s: string)
    ensures Written(s) == Size(s)
  {
    if s != "" {
      var front, c := s[..|s| - 1], s[|s| - 1];
      WrittenIs(front);
      assert Marks(s) == Marks(front) + if c == '.' || c == ':' || c == '@' then {|s| - 1} else {};
      assert c in ".:@" <==> c == '.' || c == ':' || c == '@';
    } else {
      assert Marks(s) == {};
    }
  }

  /** The renderer's limit is first reached with the value's `n`-th character. */
  ghost predicate FirstReaches(value: string, n: int, limit: int) {
    && 1 <= n <= |value| && Size(value[..n]) >= limit
    && forall m :: 1 <= m < n ==> Size(value[..m]) < limit
  }

  ghost predicate NeverReaches(value: string, limit: int) {
    forall n :: !FirstReaches(value, n, limit)
  }

  /**
   The least a cut keeps is what is read of the value where the limit is first reached,
   less two and at least nothing; where it is never reached, all that is read.
   */
  lemma {:induction false} ShortestCutExactly(value: string, cutAt: int)
    ensures forall n :: FirstReaches(value, n, cutAt - 1) ==>
      ShortestCutOf(value, cutAt) == if |ReadText(value[..n])| < 2 then 0 else |ReadText(value[..n])| - 2
    ensures NeverReaches(value, cutAt - 1) ==> ShortestCutOf(value, cutAt) == |ReadText(value)|
  {
    var limit := cutAt - 1;
    FirstWritingIsFirst(value, limit);
    forall s ensures Written(s) == Size(s) && ReadSoFar(s) == ReadText(s) {
      WrittenIs(s);
      ReadIs(s);
    }
    hide Size, Written, ReadSoFar, ReadText;
    var first := FirstWriting(value, limit);
    if first.Some? {
      assert FirstReaches(value, first.value, limit);
      forall n | FirstReaches(value, n, limit) ensures n == first.value {}
    } else {
      forall n ensures !FirstReaches(value, n, limit) {
        assert 1 <= n <= |value| ==> Written(value[..n]) < limit;
      }
    }
  }

  // ----- Cuts and split marks -----------------------------------------------

  /** The text goes on as the value does for `n` characters from `at`, twelve or more, and then no further. */
  ghost predicate GoesOnFor(text: string, needle: string, at: int, n: int) {
    && |needle| > 12 && 12 <= n <= |needle| && 0 <= at && at + n <= |text| && text[at..at + n] == needle[..n]
    && (n < |needle| && at + n < |text| ==> text[at + n] != needle[n])
  }

  ghost predicate ShownCut(text: string, needle: string, at: int, n: int) {
    GoesOnFor(text, needle, at, n) && at + n < |text| && text[at + n] == '\U{2026}'
  }

  ghost predicate ShownSplit(text: string, needle: string, at: int, n: int) {
    GoesOnFor(text, needle, at, n) && at + n + 2 < |text| && text[at + n] == '[' && text[at + n + 2] == '\U{2026}'
  }

  lemma {:induction false} SharedIs(text: string, needle: string, at: int, n: int)
    ensures |needle| > MIN_CUT && Occurs(text, needle[..MIN_CUT], at) && Shared(text, at, needle) == n
      <==> GoesOnFor(text, needle, at, n)
  {
    hide Shared;
    if |needle| > MIN_CUT && 0 <= at <= |text| {
      var k := Shared(text, at, needle);
      if Occurs(text, needle[..MIN_CUT], at) {
        assert text[at..at + MIN_CUT] == needle[..MIN_CUT];
        assert forall j :: 0 <= j < MIN_CUT ==> needle[j] == text[at..at + MIN_CUT][j];
      }
      if GoesOnFor(text, needle, at, n) {
        assert text[at..at + MIN_CUT] == text[at..at + n][..MIN_CUT] == needle[..MIN_CUT];
        assert forall j :: 0 <= j < n ==> needle[j] == text[at..at + n][j];
        assert forall j :: 0 <= j < k ==> needle[j] == text[at..at + k][j];
      }
    }
  }

  lemma {:induction false} CutExactly(text: string, needle: string, at: int, n: int)
    ensures CutAt(text, needle, at, n) <==> ShownCut(text, needle, at, n)
  {
    SharedIs(text, needle, at, n);
    hide Shared;
  }

  lemma {:induction false} SplitExactly(text: string, needle: string, at: int)
    ensures SplitAt(text, needle, at) <==> exists n :: ShownSplit(text, needle, at, n)
  {
    hide Shared;
    forall n ensures |needle| > MIN_CUT && Occurs(text, needle[..MIN_CUT], at) && Shared(text, at, needle) == n
      <==> GoesOnFor(text, needle, at, n)
    {
      SharedIs(text, needle, at, n);
    }
    if SplitAt(text, needle, at) {
      assert ShownSplit(text, needle, at, Shared(text, at, needle));
    }
    hide Occurs;
  }

  /** The longest cut keeps a number of characters the declared cut may keep. */
  ghost predicate AsDeclared(text: string, value: string, cutAt: Option<int>, n: int) {
    && cutAt.Some? && ShortestCutOf(value, cutAt.value) <= n < cutAt.value
    && (exists at :: ShownCut(text, Spaced(Words(value)), at, n))
    && forall at, more :: ShownCut(text, Spaced(Words(value)), at, more) ==> more <= n
  }

  ghost predicate ShownShort(text: string, needle: string) {
    exists at, n :: ShownCut(text, needle, at, n) || ShownSplit(text, needle, at, n)
  }

  /**
   What the search answers: present where the value's words stand in the text, missing where
   neither they nor a beginning of them cut short do, cut where the longest such beginning is of a
   length the declared cut leaves, and truncated in every other case.
   */
  lemma {:induction false} AnswerExactly(text: string, value: string, cutAt: Option<int>, answer: Outcome)
    requires Answered(text, value, cutAt, answer)
    ensures answer == Present <==> Stands(text, Spaced(Words(value)))
    ensures answer == Missing <==> !Stands(text, Spaced(Words(value))) && !ShownShort(text, Spaced(Words(value)))
    ensures answer == Cut <==> !Stands(text, Spaced(Words(value))) && exists n :: AsDeclared(text, value, cutAt, n)
  {
    var needle := Spaced(Words(value));
    NormalisedExactly(value);
    ContainsIs(text, needle);
    forall at, n ensures CutAt(text, needle, at, n) <==> ShownCut(text, needle, at, n) {
      CutExactly(text, needle, at, n);
    }
    forall at ensures SplitAt(text, needle, at) <==> exists n :: ShownSplit(text, needle, at, n) {
      SplitExactly(text, needle, at);
    }
    CutsAreLong(text, needle);
    hide Contains, Stands, CutAt, SplitAt, ShownCut, ShownSplit, ShortestCutOf, Spaced, Words;
    var best: nat :| Answers(text, value, cutAt, best, answer);
    if answer != Present {
      forall n | AsDeclared(text, value, cutAt, n) ensures n == best {
        var at :| ShownCut(text, needle, at, n);
        assert CutAt(text, needle, at, n);
      }
      if answer == Cut {
        assert AsDeclared(text, value, cutAt, best);
      }
      ShortIs(text, needle, best);
    }
  }

  lemma CutsAreLong(text: string, needle: string)
    ensures forall at, n :: ShownCut(text, needle, at, n) ==> n >= 12
  {}

  lemma {:induction false} ShortIs(text: string, needle: string, best: nat)
    requires LongestCut(text, needle, best)
    ensures ShownShort(text, needle) <==> best > 0 || exists at :: SplitAt(text, needle, at)
  {
    forall at, n ensures CutAt(text, needle, at, n) <==> ShownCut(text, needle, at, n) {
      CutExactly(text, needle, at, n);
    }
    forall at ensures SplitAt(text, needle, at) <==> exists n :: ShownSplit(text, needle, at, n) {
      SplitExactly(text, needle, at);
    }
    CutsAreLong(text, needle);
    hide CutAt, SplitAt, ShownCut, ShownSplit;
    if best > 0 {
      var at :| CutAt(text, needle, at, best);
      assert ShownCut(text, needle, at, best);
    }
    if at :| SplitAt(text, needle, at) {
      var n :| ShownSplit(text, needle, at, n);
    }
    if ShownShort(text, needle) {
      var at, n :| ShownCut(text, needle, at, n) || ShownSplit(text, needle, at, n);
      assert ShownCut(text, needle, at, n) ==> CutAt(text, needle, at, n);
      assert ShownSplit(text, needle, at, n) ==> SplitAt(text, needle, at);
    }
  }
}
