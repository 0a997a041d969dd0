/** Texts joined line by line, folded and searched. */
module Folding {
  import opened Lines
  import opened TextSearch

  type Fold = string -> string

  // ----- Folding ------------------------------------------------------------

  predicate Marked(s: string) {
    |s| >= 3 && ((s[0] == '[' && s[1] in ".:" && s[2] == ']') || (s[0] == '(' && s[1] == '.' && s[2] == ')'))
  }

  /** A bracketed dot or colon without its brackets. */
  function Unbracketed(s: string): string {
    if s == "" then ""
    else if Marked(s) then [s[1]] + Unbracketed(s[3..])
    else [s[0]] + Unbracketed(s[1..])
  }

  predicate IsHxxp(s: string) {
    |s| >= 4 && s[0] in "hH" && s[1] in "xX" && s[2] in "xX" && s[3] in "pP"
  }

  /** hxxp at the start of a word as http. */
  function Unhidden(word: char -> bool, inWord: bool, s: string): string
    decreases |s|
  {
    if s == "" then ""
    else if !inWord && IsHxxp(s) then "http" + Unhidden(word, true, s[4..])
    else [s[0]] + Unhidden(word, word(s[0]), s[1..])
  }

  function Caseless(casefold: char -> string, s: string): string {
    if s == "" then "" else casefold(s[0]) + Caseless(casefold, s[1..])
  }

  /** A text refanged, its case removed; which characters are of a word, and how each is folded, is given. */
  function Folded(word: char -> bool, casefold: char -> string, s: string): string {
    Caseless(casefold, Unhidden(word, false, Unbracketed(s)))
  }

  lemma BehindLines(a: string, b: string, n: nat)
    requires n <= |a|
    ensures (a + "\n" + b)[n..] == a[n..] + "\n" + b
    ensures n == |a| ==> (a + "\n" + b)[n] == '\n' && (a + "\n" + b)[n + 1..] == b
  {
  }

  lemma InFrontOfLines(front: string, a: string, b: string)
    ensures front + (a + "\n" + b) == (front + a) + "\n" + b
  {
  }

  lemma MarkedInLine(a: string, b: string)
    ensures Marked(a + "\n" + b) <==> Marked(a)
  {
    assert (a + "\n" + b)[|a|] == '\n';
  }

  lemma HxxpInLine(a: string, b: string)
    ensures IsHxxp(a + "\n" + b) <==> IsHxxp(a)
  {
    assert (a + "\n" + b)[|a|] == '\n';
  }

  lemma {:induction false} UnbracketedLines(a: string, b: string)
    ensures Unbracketed(a + "\n" + b) == Unbracketed(a) + "\n" + Unbracketed(b)
  {
    if a == "" {
      BehindLines(a, b, 0);
    } else {
      var n := if Marked(a) then 3 else 1;
      MarkedInLine(a, b);
      BehindLines(a, b, n);
      UnbracketedLines(a[n..], b);
      InFrontOfLines([a[if n == 3 then 1 else 0]], Unbracketed(a[n..]), Unbracketed(b));
      hide Marked;
    }
  }

  lemma {:induction false} UnhiddenLines(word: char -> bool, inWord: bool, a: string, b: string)
    requires !word('\n')
    decreases |a|
    ensures Unhidden(word, inWord, a + "\n" + b) == Unhidden(word, inWord, a) + "\n" + Unhidden(word, false, b)
  {
    if a == "" {
      BehindLines(a, b, 0);
    } else if !inWord && IsHxxp(a) {
      HxxpInLine(a, b);
      BehindLines(a, b, 4);
      UnhiddenLines(word, true, a[4..], b);
      InFrontOfLines("http", Unhidden(word, true, a[4..]), Unhidden(word, false, b));
    } else {
      HxxpInLine(a, b);
      BehindLines(a, b, 1);
      hide IsHxxp;
      UnhiddenLines(word, word(a[0]), a[1..], b);
      InFrontOfLines([a[0]], Unhidden(word, word(a[0]), a[1..]), Unhidden(word, false, b));
    }
  }

  lemma {:induction false} CaselessLines(casefold: char -> string, a: string, b: string)
    requires casefold('\n') == "\n"
    ensures Caseless(casefold, a + "\n" + b) == Caseless(casefold, a) + "\n" + Caseless(casefold, b)
  {
    if a == "" {
      BehindLines(a, b, 0);
    } else {
      BehindLines(a, b, 1);
      CaselessLines(casefold, a[1..], b);
      InFrontOfLines(casefold(a[0]), Caseless(casefold, a[1..]), Caseless(casefold, b));
    }
  }

  ghost predicate KeepsNewline(fold: Fold, a: string, b: string) {
    fold(a + "\n" + b) == fold(a) + "\n" + fold(b)
  }

  ghost predicate KeepsOneLine(fold: Fold, a: string) {
    OneLine(a) ==> OneLine(fold(a))
  }

  /** What a line folds to is one line and does not rest on the lines around it. */
  ghost predicate FoldsByLine(fold: Fold) {
    && fold("") == ""
    && (forall a, b :: KeepsNewline(fold, a, b))
    && (forall a :: KeepsOneLine(fold, a))
  }

  lemma {:induction false} UnbracketedIsOneLine(s: string)
    requires OneLine(s)
    ensures OneLine(Unbracketed(s))
  {
    if s != "" {
      UnbracketedIsOneLine(s[if Marked(s) then 3 else 1..]);
    }
  }

  lemma {:induction false} UnhiddenIsOneLine(word: char -> bool, inWord: bool, s: string)
    requires OneLine(s)
    ensures OneLine(Unhidden(word, inWord, s))
    decreases |s|
  {
    if s != "" {
      if !inWord && IsHxxp(s) {
        UnhiddenIsOneLine(word, true, s[4..]);
      } else {
        UnhiddenIsOneLine(word, word(s[0]), s[1..]);
      }
    }
  }

  lemma {:induction false} CaselessIsOneLine(casefold: char -> string, s: string)
    requires OneLine(s) && forall c :: c != '\n' ==> OneLine(casefold(c))
    ensures OneLine(Caseless(casefold, s))
  {
    if s != "" {
      CaselessIsOneLine(casefold, s[1..]);
    }
  }

  /** Nothing is read across a newline: neither a bracketed mark nor where a word starts. */
  lemma {:induction false} FoldedByLine(word: char -> bool, casefold: char -> string)
    requires !word('\n') && casefold('\n') == "\n" && forall c :: c != '\n' ==> OneLine(casefold(c))
    ensures FoldsByLine(s => Folded(word, casefold, s))
  {
    var fold := s => Folded(word, casefold, s);
    assert fold("") == "";
    forall a, b ensures KeepsNewline(fold, a, b) {
      UnbracketedLines(a, b);
      UnhiddenLines(word, false, Unbracketed(a), Unbracketed(b));
      CaselessLines(casefold, Unhidden(word, false, Unbracketed(a)), Unhidden(word, false, Unbracketed(b)));
    }
    forall a ensures KeepsOneLine(fold, a) {
      if OneLine(a) {
        UnbracketedIsOneLine(a);
        UnhiddenIsOneLine(word, false, Unbracketed(a));
        CaselessIsOneLine(casefold, Unhidden(word, false, Unbracketed(a)));
      }
    }
  }

  // ----- Texts joined -------------------------------------------------------

  /** The texts one after another, each from a line of its own. */
  function Text(parts: seq<string>): string {
    if parts == [] then "" else Join(parts)
  }

  function Each(fold: Fold, parts: seq<string>): (folded: seq<string>)
    ensures |folded| == |parts| && forall i :: 0 <= i < |parts| ==> folded[i] == fold(parts[i])
  {
    if parts == [] then [] else [fold(parts[0])] + Each(fold, parts[1..])
  }

  function Texts(entries: seq<seq<string>>): (texts: seq<string>)
    ensures |texts| == |entries| && forall i :: 0 <= i < |entries| ==> texts[i] == Text(entries[i])
  {
    if entries == [] then [] else [Text(entries[0])] + Texts(entries[1..])
  }

  lemma {:induction false} FoldOfText(fold: Fold, parts: seq<string>)
    requires FoldsByLine(fold)
    ensures fold(Text(parts)) == Text(Each(fold, parts))
  {
    if |parts| > 1 {
      FoldOfText(fold, parts[1..]);
      assert KeepsNewline(fold, parts[0], Join(parts[1..]));
      assert Each(fold, parts)[1..] == Each(fold, parts[1..]);
    } else if parts != [] {
      assert Each(fold, parts) == [fold(parts[0])];
    }
  }

  lemma {:induction false} ContainsThrough(large: string, small: string, needle: string)
    requires Contains(large, small) && Contains(small, needle)
    ensures Contains(large, needle)
  {
    var at :| 0 <= at <= |large| && Occurs(large, small, at);
    var k :| 0 <= k <= |small| && Occurs(small, needle, k);
    assert forall i :: 0 <= i < |small| ==> small[i] == large[at + i];
    assert forall i :: 0 <= i < |needle| ==> needle[i] == small[k + i];
    assert large[at + k..at + k + |needle|] == needle;
    assert Occurs(large, needle, at + k);
  }

  /** Texts that are all among the larger ones, in any order and with any others between, are had. */
  lemma PartsAreHad(fold: Fold, large: seq<string>, small: seq<string>)
    requires forall part :: part in small ==> part in large
    ensures HasAll(fold, large, small)
  {
    hide Contains, Tokens;
    forall i | 0 <= i < |small| ensures HasPart(fold, large, small[i]) {
      assert small[i] in large;
      var k :| 0 <= k < |large| && large[k] == small[i];
      ContainsItself(fold(small[i]));
      assert Keeps(fold, large[k], small[i]);
    }
  }

  lemma {:induction false} OneLineInTwo(a: string, b: string, needle: string)
    requires OneLine(needle)
    ensures Contains(a + "\n" + b, needle) <==> Contains(a, needle) || Contains(b, needle)
  {
    var whole := a + "\n" + b;
    if Contains(whole, needle) {
      var at :| 0 <= at <= |whole| && Occurs(whole, needle, at);
      forall i | at <= i < at + |needle| ensures whole[i] != '\n' {
        assert needle[i - at] == whole[i];
      }
      assert whole[|a|] == '\n';
      if at + |needle| <= |a| {
        assert whole[at..at + |needle|] == a[at..at + |needle|];
        assert Occurs(a, needle, at);
      } else if at > |a| {
        assert whole[at..at + |needle|] == b[at - |a| - 1..at - |a| - 1 + |needle|];
        assert Occurs(b, needle, at - |a| - 1);
      } else {
        assert false;
      }
    }
    assert whole[..|a|] == a && whole[|a| + 1..] == b;
    assert Occurs(whole, a, 0) && Occurs(whole, b, |a| + 1);
    if Contains(a, needle) {
      ContainsThrough(whole, a, needle);
    }
    if Contains(b, needle) {
      ContainsThrough(whole, b, needle);
    }
  }

  /** A needle of one line stands in the joined texts exactly when it stands in one of them. */
  lemma {:induction false} OneLineStandsInOne(parts: seq<string>, needle: string)
    requires OneLine(needle) && parts != []
    ensures Contains(Text(parts), needle) <==> exists i :: 0 <= i < |parts| && Contains(parts[i], needle)
  {
    hide Contains;
    if |parts| > 1 {
      var rest := parts[1..];
      OneLineInTwo(parts[0], Join(rest), needle);
      OneLineStandsInOne(rest, needle);
      if i :| 0 <= i < |rest| && Contains(rest[i], needle) {
        assert Contains(parts[i + 1], needle);
      }
      if i :| 0 <= i < |parts| && Contains(parts[i], needle) {
        assert i == 0 || Contains(rest[i - 1], needle);
      }
    }
  }

  // ----- Tokens -------------------------------------------------------------

  predicate TokenChar(c: char) {
    'a' <= c <= 'z' || '0' <= c <= '9' || c in "_.-"
  }

  /** The token characters the text starts with. */
  function FirstToken(s: string): (token: string)
    ensures token <= s && (s != "" && TokenChar(s[0]) ==> token != "")
  {
    if s == "" || !TokenChar(s[0]) then "" else [s[0]] + FirstToken(s[1..])
  }

  /** The longest runs of token characters. */
  function Tokens(s: string): set<string> {
    if s == "" then {}
    else if TokenChar(s[0]) then {FirstToken(s)} + Tokens(s[|FirstToken(s)|..])
    else Tokens(s[1..])
  }

  lemma {:induction false} FirstTokenOfLines(a: string, b: string)
    ensures FirstToken(a + "\n" + b) == FirstToken(a)
  {
    if a != "" {
      assert (a + "\n" + b)[1..] == a[1..] + "\n" + b;
      FirstTokenOfLines(a[1..], b);
    }
  }

  lemma {:induction false} TokensOfLines(a: string, b: string)
    ensures Tokens(a + "\n" + b) == Tokens(a) + Tokens(b)
    decreases |a|
  {
    var whole := a + "\n" + b;
    if a == "" {
      assert whole[1..] == b;
    } else {
      FirstTokenOfLines(a, b);
      var n := if TokenChar(a[0]) then |FirstToken(a)| else 1;
      assert whole[n..] == a[n..] + "\n" + b;
      TokensOfLines(a[n..], b);
    }
  }

  lemma {:induction false} TokensOfText(parts: seq<string>, token: string)
    ensures token in Tokens(Text(parts)) <==> exists i :: 0 <= i < |parts| && token in Tokens(parts[i])
  {
    if |parts| > 1 {
      hide Tokens;
      var rest := parts[1..];
      TokensOfLines(parts[0], Join(rest));
      TokensOfText(rest, token);
      if i :| 0 <= i < |rest| && token in Tokens(rest[i]) {
        assert token in Tokens(parts[i + 1]);
      }
      if i :| 0 <= i < |parts| && token in Tokens(parts[i]) {
        assert i == 0 || token in Tokens(rest[i - 1]);
      }
    }
  }

  // ----- More texts ---------------------------------------------------------

  /** The one text has all that the other has: the whole of it, and its tokens. */
  ghost predicate Keeps(fold: Fold, large: string, small: string) {
    Contains(fold(large), fold(small)) && Tokens(fold(small)) <= Tokens(fold(large))
  }

  /** Each of the texts is among the larger ones, wherever it stands there, whole or in more around it. */
  ghost predicate HasAll(fold: Fold, large: seq<string>, small: seq<string>) {
    forall i :: 0 <= i < |small| ==> HasPart(fold, large, small[i])
  }

  ghost predicate HasPart(fold: Fold, large: seq<string>, part: string) {
    exists k :: 0 <= k < |large| && Keeps(fold, large[k], part)
  }

  lemma ContainsItself(s: string)
    ensures Contains(s, s)
  {
    assert Occurs(s, s, 0);
  }

  /** A needle of one line that stands in the texts joined stands in the larger texts joined. */
  lemma {:induction false} OneLineStays(fold: Fold, small: seq<string>, large: seq<string>, needle: string)
    requires FoldsByLine(fold) && HasAll(fold, large, small) && OneLine(needle)
    requires Contains(fold(Text(small)), needle)
    ensures Contains(fold(Text(large)), needle)
  {
    FoldOfText(fold, small);
    FoldOfText(fold, large);
    if small == [] {
      assert needle == "";
      assert Occurs(fold(Text(large)), needle, 0);
    } else {
      hide Tokens, Text, FoldsByLine, Contains;
      OneLineStandsInOne(Each(fold, small), needle);
      var i :| 0 <= i < |small| && Contains(Each(fold, small)[i], needle);
      assert HasPart(fold, large, small[i]);
      var k :| 0 <= k < |large| && Keeps(fold, large[k], small[i]);
      ContainsThrough(fold(large[k]), fold(small[i]), needle);
      assert Contains(Each(fold, large)[k], needle);
      OneLineStandsInOne(Each(fold, large), needle);
    }
  }

  lemma {:induction false} TokensStay(fold: Fold, small: seq<string>, large: seq<string>)
    requires FoldsByLine(fold) && HasAll(fold, large, small)
    ensures Tokens(fold(Text(small))) <= Tokens(fold(Text(large)))
  {
    hide Tokens, Text, FoldsByLine, Contains;
    FoldOfText(fold, small);
    FoldOfText(fold, large);
    forall token | token in Tokens(fold(Text(small))) ensures token in Tokens(fold(Text(large))) {
      TokensOfText(Each(fold, small), token);
      TokensOfText(Each(fold, large), token);
      var i :| 0 <= i < |small| && token in Tokens(Each(fold, small)[i]);
      assert HasPart(fold, large, small[i]);
      var k :| 0 <= k < |large| && Keeps(fold, large[k], small[i]);
      assert token in Tokens(Each(fold, large)[k]);
    }
  }

  // ----- Needles over several lines -----------------------------------------

  /** What stands in the texts joined, and not in others joined that are all of them and more. */
  ghost predicate Lost(fold: Fold, needle: string, small: seq<string>, large: seq<string>) {
    && (forall part :: part in small ==> part in large)
    && Contains(fold(Text(small)), fold(needle)) && !Contains(fold(Text(large)), fold(needle))
  }

  ghost predicate NeverLost(fold: Fold, needle: string) {
    forall small, large :: !Lost(fold, needle, small, large)
  }

  function Rotated(lines: seq<string>): seq<string>
    requires lines != []
  {
    lines[1..] + [lines[0]]
  }

  lemma {:induction false} RotatedLength(lines: seq<string>)
    requires |lines| > 1
    ensures |Join(Rotated(lines))| == |Join(lines)|
    ensures |Join(lines)| > |lines[0]|
  {
    assert lines == [lines[0]] + lines[1..];
    JoinConcat(lines[1..], [lines[0]]);
    JoinConcat([lines[0]], lines[1..]);
  }

  lemma RotatedEach(fold: Fold, lines: seq<string>)
    requires lines != []
    ensures Each(fold, Rotated(lines)) == Rotated(Each(fold, lines))
  {
  }

  lemma NoLonger(text: string, needle: string)
    requires Contains(text, needle)
    ensures |needle| <= |text| && (|needle| == |text| ==> needle == text)
  {
  }

  lemma RotatedStands(lines: seq<string>)
    requires |lines| > 1 && AllOneLine(lines) && Contains(Join(Rotated(lines)), Join(lines))
    ensures Rotated(lines) == lines
  {
    RotatedLength(lines);
    NoLonger(Join(Rotated(lines)), Join(lines));
    SplitOfJoin(lines);
    assert AllOneLine(Rotated(lines));
    SplitOfJoin(Rotated(lines));
  }

  lemma {:induction false} AllTheSame(lines: seq<string>)
    requires lines != [] && Rotated(lines) == lines
    ensures forall i :: 0 <= i < |lines| ==> lines[i] == lines[0]
  {
    var i := 0;
    while i + 1 < |lines|
      invariant i < |lines| && forall k :: 0 <= k <= i ==> lines[k] == lines[0]
    {
      assert Rotated(lines)[i] == lines[i + 1];
      i := i + 1;
    }
  }

  /** What goes over a newline can be lost: its lines with the first put last, or, where all are alike, the line once. */
  lemma {:induction false} SeveralLinesCanBeLost(fold: Fold, needle: string)
    returns (small: seq<string>, large: seq<string>)
    requires FoldsByLine(fold) && !OneLine(needle)
    ensures Lost(fold, needle, small, large)
  {
    var lines := Split(needle);
    var folded := Each(fold, lines);
    SplitGivesLines(needle);
    JoinOfSplit(needle);
    assert |lines| > 1 by {
      assert OneLine(lines[0]);
    }
    forall i | 0 <= i < |folded| ensures OneLine(folded[i]) {
      assert OneLine(lines[i]) && KeepsOneLine(fold, lines[i]);
    }
    FoldOfText(fold, lines);
    RotatedLength(folded);
    hide Contains;
    ContainsItself(fold(needle));
    if Rotated(folded) == folded {
      AllTheSame(folded);
      small, large := seq(|lines|, _ => lines[0]), [lines[0]];
      assert Each(fold, small) == folded;
      FoldOfText(fold, small);
      if Contains(fold(Text(large)), fold(needle)) {
        NoLonger(folded[0], fold(needle));
      }
    } else {
      small, large := lines, Rotated(lines);
      RotatedEach(fold, lines);
      FoldOfText(fold, large);
      SameParts(lines);
      if Contains(fold(Text(large)), fold(needle)) {
        RotatedStands(folded);
      }
    }
  }

  lemma SameParts(lines: seq<string>)
    requires lines != []
    ensures forall part :: part in lines ==> part in Rotated(lines)
  {
  }

  /** Texts put between others never hide what is searched for exactly when it goes over no newline. */
  lemma {:induction false} OneLineIsNeverLost(fold: Fold, needle: string)
    requires FoldsByLine(fold)
    ensures NeverLost(fold, needle) <==> OneLine(needle)
  {
    if OneLine(needle) {
      assert KeepsOneLine(fold, needle);
      forall small, large ensures !Lost(fold, needle, small, large) {
        if Lost(fold, needle, small, large) {
          PartsAreHad(fold, large, small);
          OneLineStays(fold, small, large, fold(needle));
          assert false;
        }
      }
    } else {
      var small, large := SeveralLinesCanBeLost(fold, needle);
    }
  }

  lemma ByLineAsItIs()
    ensures FoldsByLine(s => s)
  {
    var fold: Fold := s => s;
    assert forall a, b :: KeepsNewline(fold, a, b);
    assert forall a :: KeepsOneLine(fold, a);
  }
}
