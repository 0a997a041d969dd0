/** A fact's status, read off the run's texts: what stands where, and which term is held. */
module FactRules {
  import opened Wrappers
  import opened Lines
  import opened TextSearch
  import opened SearchRules
  import opened Folding
  import opened FactScore

  // ----- Tokens -------------------------------------------------------------

  /** A lower-case letter, a digit, `_`, `.` or `-`, by its code. */
  predicate IsTokenChar(c: char) {
    96 < c as int < 123 || 47 < c as int < 58 || c as int in {45, 46, 95}
  }

  /** The token stands at `at`, and goes on neither before nor behind. */
  ghost predicate TokenAt(s: string, at: int, token: string) {
    && 0 <= at && token != "" && at + |token| <= |s| && s[at..at + |token|] == token
    && (forall i :: 0 <= i < |token| ==> IsTokenChar(token[i]))
    && (at > 0 ==> !IsTokenChar(s[at - 1]))
    && (at + |token| < |s| ==> !IsTokenChar(s[at + |token|]))
  }

  ghost predicate HasToken(s: string, token: string) {
    exists at :: TokenAt(s, at, token)
  }

  lemma TokenCharIs(c: char)
    ensures TokenChar(c) <==> IsTokenChar(c)
  {
    assert forall d: char :: d in "_.-" <==> d == '_' || d == '.' || d == '-';
  }

  lemma {:induction false} FirstTokenEnds(s: string)
    ensures forall i :: 0 <= i < |FirstToken(s)| ==> IsTokenChar(s[i])
    ensures |FirstToken(s)| < |s| ==> !IsTokenChar(s[|FirstToken(s)|])
  {
    hide IsTokenChar;
    if s != "" {
      TokenCharIs(s[0]);
      FirstTokenEnds(s[1..]);
    }
  }

  /** Runs further on are the runs of the rest. */
  lemma {:induction false} TokensBehind(s: string, n: nat, at: int, token: string)
    requires 0 < n <= |s| && at >= n
    requires n < |s| ==> !IsTokenChar(s[n - 1]) || !IsTokenChar(s[n])
    ensures TokenAt(s, at, token) <==> TokenAt(s[n..], at - n, token)
  {
    hide IsTokenChar;
    if at + |token| <= |s| {
      assert s[at..at + |token|] == s[n..][at - n..at - n + |token|];
    }
    assert at > n ==> at <= |s| ==> s[at - 1] == s[n..][at - n - 1];
    assert at + |token| < |s| ==> s[at + |token|] == s[n..][at - n + |token|];
    if at == n && at + |token| <= |s| && token != "" && s[at..at + |token|] == token {
      assert s[at] == token[0];
    }
  }

  /** The tokens are the longest runs of the token characters, wherever they stand. */
  lemma {:induction false} TokensExactly(s: string, token: string)
    ensures token in Tokens(s) <==> HasToken(s, token)
    decreases |s|
  {
    if s != "" {
      TokenCharIs(s[0]);
      FirstTokenEnds(s);
      hide IsTokenChar, TokenChar;
      var f := FirstToken(s);
      var n := if IsTokenChar(s[0]) then |f| else 1;
      TokensExactly(s[n..], token);
      assert Tokens(s) == (if IsTokenChar(s[0]) then {f} else {}) + Tokens(s[n..]);
      forall at | at >= n ensures TokenAt(s, at, token) <==> TokenAt(s[n..], at - n, token) {
        TokensBehind(s, n, at, token);
      }
      assert IsTokenChar(s[0]) ==> TokenAt(s, 0, f);
      if at :| TokenAt(s, at, token) {
        if at < n {
          OneTokenInFront(s, n, at, token);
        } else {
          assert TokenAt(s[n..], at - n, token);
        }
      }
      if at :| TokenAt(s[n..], at, token) {
        assert TokenAt(s, at + n, token);
      }
    } else {
      assert forall at :: !TokenAt(s, at, token);
    }
  }

  lemma {:induction false} OneTokenInFront(s: string, n: nat, at: int, token: string)
    requires s != "" && n == if IsTokenChar(s[0]) then |FirstToken(s)| else 1
    requires TokenAt(s, at, token) && at < n
    ensures IsTokenChar(s[0]) && token == FirstToken(s)
  {
    TokenCharIs(s[0]);
    FirstTokenEnds(s);
    hide IsTokenChar, TokenChar;
    assert s[at] == s[at..at + |token|][0] == token[0];
    assert IsTokenChar(s[at]);
    assert at == 0 && token == s[..|token|];
    assert |token| < |s| ==> !IsTokenChar(s[|token|]);
    assert n < |s| ==> !IsTokenChar(s[n]);
  }

  // ----- What refanging does -------------------------------------------------

  /** The text as an indicator is defanged: each dot and each colon in square brackets. */
  function Defanged(s: string): string {
    if s == "" then ""
    else (if s[0] == '.' || s[0] == ':' then ['[', s[0], ']'] else [s[0]]) + Defanged(s[1..])
  }

  /** A text that has no bracket of its own is read back from its defanged form. */
  lemma {:induction false} DefangedReadsBack(s: string)
    requires forall i :: 0 <= i < |s| ==> s[i] != '[' && s[i] != '('
    ensures Unbracketed(Defanged(s)) == s
  {
    if s != "" {
      DefangedReadsBack(s[1..]);
      var head := if s[0] == '.' || s[0] == ':' then ['[', s[0], ']'] else [s[0]];
      var rest := Defanged(s[1..]);
      assert Defanged(s) == head + rest;
      assert (head + rest)[|head|..] == rest;
      assert Marked(head + rest) <==> |head| == 3;
    }
  }

  /** The text has hxxp at `i`, at the start of a word. */
  ghost predicate HiddenAt(word: char -> bool, inWord: bool, s: string, i: int) {
    && 0 <= i && i + 4 <= |s| && (if i == 0 then !inWord else !word(s[i - 1]))
    && SameLetter(s[i], 'h') && SameLetter(s[i + 1], 'x') && SameLetter(s[i + 2], 'x') && SameLetter(s[i + 3], 'p')
  }

  lemma HxxpIs(word: char -> bool, inWord: bool, s: string)
    ensures HiddenAt(word, inWord, s, 0) <==> !inWord && IsHxxp(s)
  {}

  lemma {:induction false} HiddenBehind(word: char -> bool, inWord: bool, s: string, n: nat, goesOn: bool, i: nat)
    requires 0 < n <= |s| && goesOn == word(s[n - 1])
    ensures i >= n ==> (HiddenAt(word, inWord, s, i) <==> HiddenAt(word, goesOn, s[n..], i - n))
  {
    if n <= i && i + 4 <= |s| {
      assert s[n..][i - n..i - n + 4] == s[i..i + 4];
      assert i > n ==> s[n..][i - n - 1] == s[i - 1];
    }
  }

  /** A word that starts here starts at no letter of hxxp further on. */
  lemma InWordHere(word: char -> bool, inWord: bool, s: string, i: nat)
    requires IsHxxp(s) && 0 < i < 4 && forall c :: c in "hHxXpP" ==> word(c)
    ensures !HiddenAt(word, inWord, s, i)
  {
    assert s[i - 1] in "hHxXpP";
  }

  /** The letters of http over those of hxxp, wherever that starts a word. */
  ghost predicate HttpAt(word: char -> bool, inWord: bool, s: string, r: string, i: int)
    requires 0 <= i < |s| == |r|
  {
    && (forall j :: i - 3 <= j <= i && HiddenAt(word, inWord, s, j) ==> r[i] == "http"[i - j])
    && ((forall j :: i - 3 <= j <= i ==> !HiddenAt(word, inWord, s, j)) ==> r[i] == s[i])
  }

  /** Where the letters of hxxp are of a word, http stands where hxxp started one, and all else as it did. */
  lemma {:induction false} HiddenExactly(word: char -> bool, inWord: bool, s: string)
    requires forall c :: c in "hHxXpP" ==> word(c)
    decreases |s|
    ensures |Unhidden(word, inWord, s)| == |s|
    ensures forall i :: 0 <= i < |s| ==> HttpAt(word, inWord, s, Unhidden(word, inWord, s), i)
  {
    if s != "" {
      var r := Unhidden(word, inWord, s);
      HxxpIs(word, inWord, s);
      var n := if !inWord && IsHxxp(s) then 4 else 1;
      var goesOn := if n == 4 then true else word(s[0]);
      assert goesOn == word(s[n - 1]);
      HiddenExactly(word, goesOn, s[n..]);
      var rest := Unhidden(word, goesOn, s[n..]);
      assert r == (if n == 4 then "http" else [s[0]]) + rest;
      forall i | 0 <= i < n ensures i > 0 ==> !HiddenAt(word, inWord, s, i) {
        if n == 4 && i > 0 {
          InWordHere(word, inWord, s, i);
        }
      }
      hide HiddenAt, IsHxxp, HttpAt, Unhidden;
      forall i | 0 <= i < |s| ensures HttpAt(word, inWord, s, r, i) {
        if i >= n {
          assert HttpAt(word, goesOn, s[n..], rest, i - n);
          HttpBehind(word, inWord, s, r, n, goesOn, rest, i);
        } else {
          HttpInFront(word, inWord, s, r, n, i);
        }
      }
    }
  }

  lemma {:induction false} HttpBehind(
    word: char -> bool, inWord: bool, s: string, r: string, n: nat, goesOn: bool, rest: string, i: nat)
    requires 0 < n <= i < |s| == |r| && |rest| == |s| - n && goesOn == word(s[n - 1]) && r[i] == rest[i - n]
    requires HttpAt(word, goesOn, s[n..], rest, i - n)
    requires forall j :: 0 < j < n ==> !HiddenAt(word, inWord, s, j)
    requires n == 4 || !HiddenAt(word, inWord, s, 0)
    ensures HttpAt(word, inWord, s, r, i)
  {
    forall j: nat ensures j >= n ==> (HiddenAt(word, inWord, s, j) <==> HiddenAt(word, goesOn, s[n..], j - n)) {
      HiddenBehind(word, inWord, s, n, goesOn, j);
    }
    NoneBelow(word, inWord, s);
    NoneBelow(word, goesOn, s[n..]);
    hide HiddenAt;
    assert s[i] == s[n..][i - n];
    assert forall j :: i - 3 <= j <= i && HiddenAt(word, inWord, s, j) ==> HiddenAt(word, goesOn, s[n..], j - n);
    assert forall j :: i - n - 3 <= j <= i - n && HiddenAt(word, goesOn, s[n..], j) ==> HiddenAt(word, inWord, s, j + n);
  }

  lemma NoneBelow(word: char -> bool, inWord: bool, s: string)
    ensures forall j :: HiddenAt(word, inWord, s, j) ==> j >= 0
  {}

  lemma {:induction false} HttpInFront(word: char -> bool, inWord: bool, s: string, r: string, n: nat, i: nat)
    requires i < n <= |s| == |r| && (n == 1 || n == 4)
    requires forall j :: 0 < j < n ==> !HiddenAt(word, inWord, s, j)
    requires HiddenAt(word, inWord, s, 0) <==> n == 4
    requires if n == 4 then r[..4] == "http" else r[0] == s[0]
    ensures HttpAt(word, inWord, s, r, i)
  {
    NoneBelow(word, inWord, s);
    hide HiddenAt;
    assert n == 4 ==> r[i] == r[..4][i];
  }

  // ----- Which terms are held -----------------------------------------------

  /** Some spelling of the term stands in the text. */
  ghost predicate SpelledIn(fold: Fold, term: seq<string>, text: string) {
    exists k :: 0 <= k < |term| && Stands(text, fold(term[k]))
  }

  lemma {:induction false} InIs(fold: Fold, term: seq<string>, text: string)
    ensures In(fold, term, text) <==> SpelledIn(fold, term, text)
  {
    forall part ensures Contains(text, part) <==> Stands(text, part) {
      ContainsIs(text, part);
    }
    hide Contains, Stands;
    if spelling :| spelling in term && Contains(text, fold(spelling)) {
      var k :| 0 <= k < |term| && term[k] == spelling;
      assert Stands(text, fold(term[k]));
    }
    if k :| 0 <= k < |term| && Stands(text, fold(term[k])) {
      assert term[k] in term && Contains(text, fold(term[k]));
    }
  }

  /** The tool rows hold the term: anywhere in them for a decoded kind, and as a token for any other. */
  ghost predicate HoldsTerm(fold: Fold, kind: string, term: seq<string>, s: Surfaces) {
    var text := fold(Text(s.toolParts));
    if kind == "xor_string" || kind == "config" then SpelledIn(fold, term, text)
    else exists k :: 0 <= k < |term| && HasToken(text, fold(term[k]))
  }

  lemma {:induction false} HeldIs(fold: Fold, kind: string, term: seq<string>, s: Surfaces)
    requires Reading(kind).Some?
    ensures Held(fold, Reading(kind).value, term, s) <==> HoldsTerm(fold, kind, term, s)
  {
    var text := fold(Text(s.toolParts));
    assert Reading(kind).value == Decoded <==> kind == "xor_string" || kind == "config";
    InIs(fold, term, text);
    forall token ensures token in Tokens(text) <==> HasToken(text, token) {
      TokensExactly(text, token);
    }
    hide Reading, In, SpelledIn, Tokens, HasToken;
    if spelling :| spelling in term && fold(spelling) in Tokens(text) {
      var k :| 0 <= k < |term| && term[k] == spelling;
      assert HasToken(text, fold(term[k]));
    }
    if k :| 0 <= k < |term| && HasToken(text, fold(term[k])) {
      assert term[k] in term;
    }
  }

  ghost predicate AllHeld(fold: Fold, kind: string, terms: seq<seq<string>>, s: Surfaces) {
    forall k :: 0 <= k < |terms| ==> HoldsTerm(fold, kind, terms[k], s)
  }

  ghost predicate SomeHeld(fold: Fold, kind: string, terms: seq<seq<string>>, s: Surfaces) {
    exists k :: 0 <= k < |terms| && HoldsTerm(fold, kind, terms[k], s)
  }

  /** All the terms are counted when all are held, and none when none is. */
  lemma {:induction false} CountSays(fold: Fold, kind: string, terms: seq<seq<string>>, s: Surfaces)
    requires Reading(kind).Some?
    ensures HeldCount(fold, Reading(kind).value, terms, s) == |terms| <==> AllHeld(fold, kind, terms, s)
    ensures HeldCount(fold, Reading(kind).value, terms, s) > 0 <==> SomeHeld(fold, kind, terms, s)
  {
    hide HoldsTerm, Held, Reading;
    if terms != [] {
      HeldIs(fold, kind, terms[0], s);
      CountSays(fold, kind, terms[1..], s);
      assert forall k :: 1 <= k < |terms| ==> terms[k] == terms[1..][k - 1];
      assert forall k :: 0 <= k < |terms| - 1 ==> terms[1..][k] == terms[k + 1];
    }
  }

  // ----- Claims and publications --------------------------------------------

  /** A kept claim says every term itself, and so do the texts it cites. */
  ghost predicate ClaimSays(fold: Fold, terms: seq<seq<string>>, c: Claim) {
    forall k :: 0 <= k < |terms| ==> SpelledIn(fold, terms[k], fold(c.text)) && SpelledIn(fold, terms[k], Cited(fold, c.cited))
  }

  ghost predicate SomeClaim(fold: Fold, terms: seq<seq<string>>, s: Surfaces) {
    terms != [] && exists k :: 0 <= k < |s.keptClaims| && ClaimSays(fold, terms, s.keptClaims[k])
  }

  lemma {:induction false} ClaimedIs(fold: Fold, terms: seq<seq<string>>, s: Surfaces)
    ensures Claimed(fold, terms, s) <==> SomeClaim(fold, terms, s)
  {
    forall c ensures States(fold, terms, c) <==> ClaimSays(fold, terms, c) {
      forall term, text ensures In(fold, term, text) <==> SpelledIn(fold, term, text) {
        InIs(fold, term, text);
      }
      hide In, SpelledIn;
      assert forall k :: 0 <= k < |terms| ==> terms[k] in terms;
    }
    hide States, ClaimSays;
    assert forall k :: 0 <= k < |s.keptClaims| ==> s.keptClaims[k] in s.keptClaims;
  }

  /** The text without the dots at its end, and with all its others. */
  ghost predicate Undotted(s: string, r: string) {
    && |r| <= |s| && s[..|r|] == r && (forall i :: |r| <= i < |s| ==> s[i] == '.')
    && (r != "" ==> r[|r| - 1] != '.')
  }

  lemma {:induction false} UndottedIs(s: string, r: string)
    ensures r == WithoutDots(s) <==> Undotted(s, r)
  {
    if s != "" && s[|s| - 1] == '.' {
      UndottedIs(s[..|s| - 1], r);
      if |r| < |s| {
        assert s[..|s| - 1][..|r|] == s[..|r|];
        assert forall i :: |r| <= i < |s| - 1 ==> s[..|s| - 1][i] == s[i];
      }
    } else {
      assert s[..|s|] == s;
    }
  }

  /** The value, dots at its end aside, has the indicator in it, dots at its end aside. */
  ghost predicate HasIndicator(fold: Fold, indicator: string, value: string) {
    exists part, whole :: Undotted(fold(indicator), part) && Undotted(fold(value), whole) && Stands(whole, part)
  }

  lemma {:induction false} NamesIs(fold: Fold, indicator: string, value: string)
    ensures Names(fold, indicator, value) <==> HasIndicator(fold, indicator, value)
  {
    var part, whole := WithoutDots(fold(indicator)), WithoutDots(fold(value));
    ContainsIs(whole, part);
    forall r ensures r == part <==> Undotted(fold(indicator), r) {
      UndottedIs(fold(indicator), r);
    }
    forall r ensures r == whole <==> Undotted(fold(value), r) {
      UndottedIs(fold(value), r);
    }
    hide Undotted, Stands, Contains, WithoutDots;
  }

  ghost predicate SomeIndicator(fold: Fold, f: Fact, s: Surfaces) {
    s.indicators.Some? && exists i, k ::
      0 <= i < |f.indicators| && 0 <= k < |s.indicators.value| && HasIndicator(fold, f.indicators[i], s.indicators.value[k])
  }

  lemma {:induction false} IndicatorIs(fold: Fold, f: Fact, s: Surfaces)
    ensures IndicatorPublished(fold, f, s) <==> SomeIndicator(fold, f, s)
  {
    forall k, v ensures Names(fold, k, v) <==> HasIndicator(fold, k, v) {
      NamesIs(fold, k, v);
    }
    hide Names, HasIndicator;
    if IndicatorPublished(fold, f, s) {
      var v :| v in OrNone(s.indicators) && exists k :: k in f.indicators && Names(fold, k, v);
      var k :| k in f.indicators && Names(fold, k, v);
      var i :| 0 <= i < |f.indicators| && f.indicators[i] == k;
      var j :| 0 <= j < |s.indicators.value| && s.indicators.value[j] == v;
      assert HasIndicator(fold, f.indicators[i], s.indicators.value[j]);
    }
    if SomeIndicator(fold, f, s) {
      var i, k :| 0 <= i < |f.indicators| && 0 <= k < |s.indicators.value|
        && HasIndicator(fold, f.indicators[i], s.indicators.value[k]);
      assert f.indicators[i] in f.indicators && s.indicators.value[k] in OrNone(s.indicators);
      assert Names(fold, f.indicators[i], s.indicators.value[k]);
    }
  }

  /** The same character, or a letter and its capital. */
  predicate SameLetter(a: char, b: char) {
    a == b || (97 <= a as int <= 122 && b as int == a as int - 32) || (97 <= b as int <= 122 && a as int == b as int - 32)
  }

  ghost predicate SameLetters(a: string, b: string) {
    |a| == |b| && forall i :: 0 <= i < |a| ==> SameLetter(a[i], b[i])
  }

  /** The one is the other, a dot, and more. */
  ghost predicate UnderIt(a: string, b: string) {
    |b| < |a| && a[|b|] == '.' && SameLetters(a[..|b|], b)
  }

  lemma {:induction false} UpperIs(a: string, b: string)
    ensures Upper(a) == Upper(b) <==> SameLetters(a, b)
    ensures |Upper(a)| == |a|
  {
    if a != "" && b != "" {
      UpperIs(a[1..], b[1..]);
      assert forall i :: 1 <= i < |a| ==> a[i] == a[1..][i - 1];
      assert forall i :: 1 <= i < |b| ==> b[i] == b[1..][i - 1];
      assert Upper(a) == Upper(b) <==> Upper(a)[0] == Upper(b)[0] && Upper(a)[1..] == Upper(b)[1..];
      assert SameLetters(a, b) <==> SameLetter(a[0], b[0]) && SameLetters(a[1..], b[1..]);
    } else if a != "" {
      UpperIs(a[1..], b);
    }
  }

  lemma {:induction false} UpperConcat(a: string, b: string)
    ensures Upper(a + b) == Upper(a) + Upper(b)
  {
    if a == "" {
      assert a + b == b;
    } else {
      assert (a + b)[1..] == a[1..] + b;
      UpperConcat(a[1..], b);
    }
  }

  lemma UpperOfOne(c: char)
    ensures Upper([c]) == [if 'a' <= c <= 'z' then c - 'a' + 'A' else c]
  {
    assert [c][1..] == "";
  }

  lemma {:induction false} UnderItIs(a: string, b: string)
    ensures Upper(b) + "." <= Upper(a) <==> UnderIt(a, b)
  {
    UpperIs(a, a);
    UpperIs(b, b);
    if |b| < |a| {
      UpperIs(a[..|b|], b);
      UpperIs(a[..|b|], a[..|b|]);
      assert a == a[..|b|] + [a[|b|]] + a[|b| + 1..];
      UpperConcat(a[..|b|] + [a[|b|]], a[|b| + 1..]);
      UpperConcat(a[..|b|], [a[|b|]]);
      hide SameLetters;
      UpperOfOne(a[|b|]);
      assert Upper([a[|b|]]) == "." <==> a[|b|] == '.';
      assert Upper(a)[..|b|] == Upper(a[..|b|]) && Upper(a)[|b|..|b| + 1] == Upper([a[|b|]]);
      assert (Upper(b) + ".")[..|b|] == Upper(b) && (Upper(b) + ".")[|b|] == '.';
    }
  }

  /** A technique stands for itself, those under it and the one it is under, whatever the case it is written in. */
  lemma {:induction false} CoversExactly(claimed: string, technique: string)
    ensures Covers(claimed, technique) <==>
      SameLetters(claimed, technique) || UnderIt(claimed, technique) || UnderIt(technique, claimed)
  {
    UpperIs(claimed, technique);
    UnderItIs(claimed, technique);
    UnderItIs(technique, claimed);
  }

  ghost predicate SomeTechnique(f: Fact, s: Surfaces) {
    s.techniques.Some? && exists i, k ::
      0 <= i < |f.techniques| && 0 <= k < |s.techniques.value| && CoveredBy(f.techniques[i], s.techniques.value[k])
  }

  ghost predicate CoveredBy(technique: string, claimed: string) {
    SameLetters(claimed, technique) || UnderIt(claimed, technique) || UnderIt(technique, claimed)
  }

  lemma {:induction false} TechniqueIs(f: Fact, s: Surfaces)
    ensures TechniquePublished(f, s) <==> SomeTechnique(f, s)
  {
    forall t, k ensures Covers(t, k) <==> CoveredBy(k, t) {
      CoversExactly(t, k);
    }
    hide Covers, CoveredBy;
    if TechniquePublished(f, s) {
      var t :| t in OrNone(s.techniques) && exists k :: k in f.techniques && Covers(t, k);
      var k :| k in f.techniques && Covers(t, k);
      var i :| 0 <= i < |f.techniques| && f.techniques[i] == k;
      var j :| 0 <= j < |s.techniques.value| && s.techniques.value[j] == t;
      assert CoveredBy(f.techniques[i], s.techniques.value[j]);
    }
    if SomeTechnique(f, s) {
      var i, k :| 0 <= i < |f.techniques| && 0 <= k < |s.techniques.value|
        && CoveredBy(f.techniques[i], s.techniques.value[k]);
      assert f.techniques[i] in f.techniques && s.techniques.value[k] in OrNone(s.techniques);
      assert Covers(s.techniques.value[k], f.techniques[i]);
    }
  }

  // ----- The status ---------------------------------------------------------

  /** A section is listed that the run does not flag. */
  ghost predicate ListedUnflagged(fold: Fold, f: Fact, s: Surfaces) {
    && f.kind == "section_anomaly" && SomeHeld(fold, f.kind, f.terms, s)
    && forall i, k :: 0 <= i < |f.terms| && 0 <= k < |f.terms[i]| ==> fold(f.terms[i][k]) !in s.flaggedSections
  }

  /** The rows hold every term, or a claim says every term, or the fact's own indicator is published. */
  ghost predicate ShowsAll(fold: Fold, f: Fact, s: Surfaces) {
    || (f.terms != [] && AllHeld(fold, f.kind, f.terms, s))
    || SomeClaim(fold, f.terms, s) || SomeIndicator(fold, f, s)
  }

  ghost predicate EverySpelled(fold: Fold, f: Fact, text: string) {
    f.terms != [] && forall k :: 0 <= k < |f.terms| ==> SpelledIn(fold, f.terms[k], text)
  }

  ghost predicate SomeSpelled(fold: Fold, f: Fact, text: string) {
    exists k :: 0 <= k < |f.terms| && SpelledIn(fold, f.terms[k], text)
  }

  /** Some of it shows: a term in the rows, its technique, or all its terms in the evidence. */
  ghost predicate ShowsSome(fold: Fold, f: Fact, s: Surfaces) {
    || SomeHeld(fold, f.kind, f.terms, s) || SomeTechnique(f, s)
    || EverySpelled(fold, f, fold(Text(s.evidenceParts)))
  }

  lemma {:induction false} TextsAre(fold: Fold, f: Fact, s: Surfaces)
    ensures EvidenceHolds(fold, f, s) <==> EverySpelled(fold, f, fold(Text(s.evidenceParts)))
    ensures Mentions(fold, f, s) <==> SomeSpelled(fold, f, fold(Text(s.freeParts)))
  {
    forall term, text ensures In(fold, term, text) <==> SpelledIn(fold, term, text) {
      InIs(fold, term, text);
    }
    hide In, SpelledIn;
    assert forall k :: 0 <= k < |f.terms| ==> f.terms[k] in f.terms;
  }

  lemma {:induction false} FlaggedIs(fold: Fold, f: Fact, s: Surfaces)
    ensures !Flagged(fold, f, s) <==>
      forall i, k :: 0 <= i < |f.terms| && 0 <= k < |f.terms[i]| ==> fold(f.terms[i][k]) !in s.flaggedSections
  {
    if i, k :| 0 <= i < |f.terms| && 0 <= k < |f.terms[i]| && fold(f.terms[i][k]) in s.flaggedSections {
      assert f.terms[i] in f.terms && f.terms[i][k] in f.terms[i];
    }
    if Flagged(fold, f, s) {
      var term :| term in f.terms && exists spelling :: spelling in term && fold(spelling) in s.flaggedSections;
      var spelling :| spelling in term && fold(spelling) in s.flaggedSections;
      var i :| 0 <= i < |f.terms| && f.terms[i] == term;
      var k :| 0 <= k < |term| && f.terms[i][k] == spelling;
    }
  }

  ghost predicate KnownKind(kind: string) {
    kind in {"import", "export", "string", "api_hash", "packed", "xor_string", "config", "section_anomaly"}
  }

  /**
   A fact of a known kind is found where all of it shows and no unflagged section is
   listed, partial where some of it shows otherwise, mentioned where only the free text
   says a term, and missed where nothing does.
   */
  lemma {:induction false} StatusExactly(fold: Fold, f: Fact, s: Surfaces)
    ensures StatusOf(fold, f, s) == Err(f.kind) <==> !KnownKind(f.kind)
    ensures StatusOf(fold, f, s) == Ok(Found) <==>
      KnownKind(f.kind) && ShowsAll(fold, f, s) && !ListedUnflagged(fold, f, s)
    ensures StatusOf(fold, f, s) == Ok(Partial) <==>
      KnownKind(f.kind) && (ListedUnflagged(fold, f, s) || (!ShowsAll(fold, f, s) && ShowsSome(fold, f, s)))
    ensures StatusOf(fold, f, s) == Ok(Mentioned) <==>
      KnownKind(f.kind) && !ShowsAll(fold, f, s) && !ShowsSome(fold, f, s) && SomeSpelled(fold, f, fold(Text(s.freeParts)))
  {
    if Reading(f.kind).Some? {
      CountSays(fold, f.kind, f.terms, s);
    }
    ClaimedIs(fold, f.terms, s);
    IndicatorIs(fold, f, s);
    TechniqueIs(f, s);
    TextsAre(fold, f, s);
    FlaggedIs(fold, f, s);
    hide HeldCount, Claimed, IndicatorPublished, TechniquePublished, EvidenceHolds, Mentions, Flagged, Text;
    hide SomeHeld, AllHeld, SomeClaim, SomeIndicator, SomeTechnique, EverySpelled, SomeSpelled;
  }

  // ----- One term of two ----------------------------------------------------

  /** Rows that hold the first of a fact's two terms and nothing of the second make it partial. */
  lemma {:induction false} OneTermOfTwo() returns (fold: Fold, f: Fact, s: Surfaces)
    ensures forall x :: fold(x) == x
    ensures f == Fact("string", [["a"], ["b"]], [], []) && s == Surfaces(["a"], {}, [], [], [], None, None)
    ensures StatusOf(fold, f, s) == Ok(Partial)
  {
    fold := x => x;
    f := Fact("string", [["a"], ["b"]], [], []);
    s := Surfaces(["a"], {}, [], [], [], None, None);
    assert Text(s.toolParts) == "a" && fold("a") == "a" && fold("b") == "b";
    assert TokenAt("a", 0, "a");
    forall at ensures !TokenAt("a", at, "b") {
      assert at == 0 ==> "a"[0..1] == "a" && "a"[0] != "b"[0];
    }
    assert f.terms[0] == ["a"] && f.terms[1] == ["b"];
    assert HoldsTerm(fold, "string", f.terms[0], s) by { assert HasToken(fold("a"), fold(f.terms[0][0])); }
    assert !HoldsTerm(fold, "string", f.terms[1], s);
    StatusExactly(fold, f, s);
  }
}
