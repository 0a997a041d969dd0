/** Thinking blocks signed to what came before them. */
module Signing {
  import opened Wrappers
  import opened Json
  import opened Requests

  /** The keyed digest of a prefix's canonical text and a thinking text. */
  type Mac = (Json, string) -> string

  ghost predicate Injective(mac: Mac) {
    forall p, t, p', t' :: mac(p, t) == mac(p', t') ==> p == p' && t == t'
  }

  function Sign(mac: Mac, prefix: Json, thinking: string): string {
    "stubsig-" + mac(WithoutMarks(prefix), thinking)
  }

  function Redacted(mac: Mac, prefix: Json): string {
    "stubredacted-" + Sign(mac, prefix, "")[8..]
  }

  predicate IsRedacted(block: Fields) { Kind(block) == Str("redacted_thinking") }

  predicate IsThinking(block: Fields) { Kind(block) == Str("thinking") || IsRedacted(block) }

  function Thought(block: Fields): string { Text(Get(block, "thinking")) }

  predicate Valid(mac: Mac, prefix: Json, block: Fields) {
    if IsRedacted(block) then Text(Get(block, "data")) == Redacted(mac, prefix)
    else Text(Get(block, "signature")) == Sign(mac, prefix, Thought(block))
  }

  /** What a thinking block written after the first `upto` messages is bound to. */
  function Prefix(body: Fields, upto: nat, bound: bool): Json
    requires upto <= |Messages(body)|
  {
    if !bound then Dict(map[])
    else Dict(map["system" := Get(body, "system"), "tools" := Get(body, "tools"), "messages" := List(Messages(body)[..upto])])
  }

  // ----- The check ----------------------------------------------------------

  /** Block `n` of message `i` is an assistant's thinking. */
  predicate ThinkingAt(body: Fields, i: nat, n: nat) {
    i < |Messages(body)| && Role(Messages(body)[i]) == Str("assistant")
    && n < |Blocks(Messages(body)[i])| && IsThinking(Blocks(Messages(body)[i])[n])
  }

  predicate InvalidAt(mac: Mac, body: Fields, bound: bool, i: nat, n: nat) {
    ThinkingAt(body, i, n) && !Valid(mac, Prefix(body, i, bound), Blocks(Messages(body)[i])[n])
  }

  type Place = (nat, nat)

  predicate Earlier(a: Place, b: Place) { a.0 < b.0 || (a.0 == b.0 && a.1 < b.1) }

  /** The invalid blocks before `end`, each once and in order. */
  ghost predicate InvalidBefore(mac: Mac, body: Fields, bound: bool, places: seq<Place>, end: Place) {
    && (forall k, l :: 0 <= k < l < |places| ==> Earlier(places[k], places[l]))
    && (forall p: Place :: p in places <==> InvalidAt(mac, body, bound, p.0, p.1) && Earlier(p, end))
  }

  datatype Outcome = Outcome(dropped: seq<nat>, refused: Option<Place>)

  ghost predicate DropsAt(outcome: Outcome, places: seq<Place>) {
    |outcome.dropped| == |places| && forall k :: 0 <= k < |places| ==> outcome.dropped[k] == places[k].0
  }

  lemma {:induction false} NextPlace(
    mac: Mac, body: Fields, bound: bool, places: seq<Place>, more: seq<Place>, at: Place, end: Place)
    requires InvalidBefore(mac, body, bound, places, at)
    requires more == if InvalidAt(mac, body, bound, at.0, at.1) then places + [at] else places
    requires forall p: Place :: InvalidAt(mac, body, bound, p.0, p.1) ==> (Earlier(p, end) <==> Earlier(p, at) || p == at)
    ensures InvalidBefore(mac, body, bound, more, end)
  {
    hide InvalidAt, Earlier;
    forall k, l | 0 <= k < l < |more| ensures Earlier(more[k], more[l]) {
      if l == |places| {
        assert more[k] in places;
      }
    }
  }

  lemma {:induction false} SkipPlaces(mac: Mac, body: Fields, bound: bool, places: seq<Place>, at: Place, end: Place)
    requires InvalidBefore(mac, body, bound, places, at)
    requires forall p: Place :: InvalidAt(mac, body, bound, p.0, p.1) ==> (Earlier(p, end) <==> Earlier(p, at))
    ensures InvalidBefore(mac, body, bound, places, end)
  {
    hide InvalidAt, Earlier;
  }

  /** Each invalid block is dropped, where that was asked for; else the first one refuses the request. */
  ghost predicate Checked(mac: Mac, body: Fields, bound: bool, mayDrop: bool, outcome: Outcome, places: seq<Place>) {
    match outcome.refused
    case None =>
      InvalidBefore(mac, body, bound, places, (|Messages(body)|, 0)) && DropsAt(outcome, places) && (mayDrop || places == [])
    case Some(at) =>
      !mayDrop && outcome.dropped == [] && InvalidAt(mac, body, bound, at.0, at.1) && InvalidBefore(mac, body, bound, [], at)
  }

  ghost predicate IsOutcome(mac: Mac, body: Fields, bound: bool, mayDrop: bool, outcome: Outcome) {
    exists places :: Checked(mac, body, bound, mayDrop, outcome, places)
  }

  /** Every invalid block is dropped where that was asked for; else the first refuses the request. */
  method CheckSignatures(mac: Mac, body: Fields, bound: bool, mayDrop: bool)
    returns (outcome: Outcome)
    ensures IsOutcome(mac, body, bound, mayDrop, outcome)
  {
    hide InvalidBefore, InvalidAt, Valid, Role, Blocks, Prefix;
    var messages := Messages(body);
    var dropped: seq<nat> := [];
    ghost var places: seq<Place> := [];
    NoPlaces(mac, body, bound);
    for i := 0 to |messages|
      invariant InvalidBefore(mac, body, bound, places, (i, 0)) && DropsAt(Outcome(dropped, None), places)
      invariant !mayDrop ==> places == []
    {
      if Role(messages[i]) == Str("assistant") {
        var blocks := Blocks(messages[i]);
        for n := 0 to |blocks|
          invariant InvalidBefore(mac, body, bound, places, (i, n)) && DropsAt(Outcome(dropped, None), places)
          invariant !mayDrop ==> places == []
        {
          ghost var before := places;
          if IsThinking(blocks[n]) && !Valid(mac, Prefix(body, i, bound), blocks[n]) {
            IsInvalid(mac, body, bound, i, n);
            if !mayDrop {
              assert Checked(mac, body, bound, mayDrop, Outcome([], Some((i, n))), []);
              return Outcome([], Some((i, n)));
            }
            dropped := dropped + [i];
            places := places + [(i, n)];
          } else {
            IsInvalid(mac, body, bound, i, n);
          }
          NextPlace(mac, body, bound, before, places, (i, n), (i, n + 1));
        }
        BlocksEnd(mac, body, bound, i);
        SkipPlaces(mac, body, bound, places, (i, |blocks|), (i + 1, 0));
      } else {
        NotThinking(mac, body, bound, i);
        SkipPlaces(mac, body, bound, places, (i, 0), (i + 1, 0));
      }
    }
    outcome := Outcome(dropped, None);
    assert Checked(mac, body, bound, mayDrop, outcome, places);
  }

  lemma NoPlaces(mac: Mac, body: Fields, bound: bool)
    ensures InvalidBefore(mac, body, bound, [], (0, 0))
  {}

  lemma IsInvalid(mac: Mac, body: Fields, bound: bool, i: nat, n: nat)
    requires i < |Messages(body)| && Role(Messages(body)[i]) == Str("assistant") && n < |Blocks(Messages(body)[i])|
    ensures InvalidAt(mac, body, bound, i, n) <==>
      IsThinking(Blocks(Messages(body)[i])[n]) && !Valid(mac, Prefix(body, i, bound), Blocks(Messages(body)[i])[n])
  {}

  lemma BlocksEnd(mac: Mac, body: Fields, bound: bool, i: nat)
    requires i < |Messages(body)|
    ensures forall p: Place :: InvalidAt(mac, body, bound, p.0, p.1) ==>
      (Earlier(p, (i + 1, 0)) <==> Earlier(p, (i, |Blocks(Messages(body)[i])|)))
  {}

  lemma NotThinking(mac: Mac, body: Fields, bound: bool, i: nat)
    requires i < |Messages(body)| && Role(Messages(body)[i]) != Str("assistant")
    ensures forall p: Place :: InvalidAt(mac, body, bound, p.0, p.1) ==> (Earlier(p, (i + 1, 0)) <==> Earlier(p, (i, 0)))
  {}

  // ----- Marks do not matter ------------------------------------------------

  function Bare(fields: Fields): Fields {
    map key | key in fields && key != MARK :: WithoutMarks(fields[key])
  }

  function AllBare(blocks: seq<Fields>): (r: seq<Fields>)
    ensures |r| == |blocks| && forall n :: 0 <= n < |blocks| ==> r[n] == Bare(blocks[n])
  {
    if blocks == [] then [] else AllBare(blocks[..|blocks| - 1]) + [Bare(blocks[|blocks| - 1])]
  }

  lemma AllBareNext(blocks: seq<Fields>, block: Fields)
    ensures AllBare(blocks + [block]) == AllBare(blocks) + [Bare(block)]
  {
    assert (blocks + [block])[..|blocks|] == blocks;
  }

  lemma {:induction false} DictsWithoutMarks(items: seq<Json>)
    ensures DictsIn(AllWithoutMarks(items)) == AllBare(DictsIn(items))
  {
    if items != [] {
      var n := |items| - 1;
      DictsWithoutMarks(items[..n]);
      AllWithoutMarksTake(items, n);
      var bare := AllWithoutMarks(items);
      assert bare[n] == WithoutMarks(items[n]) && |bare| == n + 1;
      hide WithoutMarks, AllWithoutMarks, Bare, AllBare;
      if items[n].Dict? {
        AllBareNext(DictsIn(items[..n]), items[n].fields);
      }
    }
  }

  lemma {:induction false} BlocksWithoutMarks(message: Json)
    ensures Blocks(WithoutMarks(message)) == AllBare(Blocks(message))
    ensures Role(message).Str? || Role(WithoutMarks(message)).Str? ==> Role(WithoutMarks(message)) == Role(message)
  {
    hide DictsIn, AllBare;
    DictsWithoutMarks(Items(Get(FieldsOf(message), "content")));
  }

  lemma {:induction false} BareKeepsTexts(block: Fields, key: string)
    requires key != MARK
    ensures Get(block, key).Str? || Get(Bare(block), key).Str? ==> Get(Bare(block), key) == Get(block, key)
  {}

  lemma {:induction false} ValidWithoutMarks(mac: Mac, prefix: Json, block: Fields)
    ensures Valid(mac, prefix, Bare(block)) == Valid(mac, prefix, block)
    ensures IsThinking(Bare(block)) == IsThinking(block)
  {
    BareKeepsTexts(block, "type");
    BareKeepsTexts(block, "data");
    BareKeepsTexts(block, "signature");
    BareKeepsTexts(block, "thinking");
  }

  lemma {:induction false} OnlyBareMatters(mac: Mac, p: Json, q: Json, a: Fields, b: Fields)
    requires WithoutMarks(p) == WithoutMarks(q) && Bare(a) == Bare(b)
    ensures Valid(mac, p, a) == Valid(mac, q, b) && IsThinking(a) == IsThinking(b)
  {
    hide Bare;
    ValidWithoutMarks(mac, p, a);
    ValidWithoutMarks(mac, p, b);
    assert Valid(mac, p, b) == Valid(mac, q, b);
  }

  // ----- Conversations ------------------------------------------------------

  /** Marks aside, the same system prompt, tools and messages up to the two places. */
  ghost predicate SameBefore(a: Fields, i: nat, b: Fields, k: nat)
    requires i <= |Messages(a)| && k <= |Messages(b)|
  {
    && WithoutMarks(Get(a, "system")) == WithoutMarks(Get(b, "system"))
    && WithoutMarks(Get(a, "tools")) == WithoutMarks(Get(b, "tools"))
    && AllWithoutMarks(Messages(a)[..i]) == AllWithoutMarks(Messages(b)[..k])
  }

  lemma {:induction false} BoundPrefixWithoutMarks(body: Fields, i: nat)
    requires i <= |Messages(body)|
    ensures WithoutMarks(Prefix(body, i, true)) == Dict(map[
        "system" := WithoutMarks(Get(body, "system")), "tools" := WithoutMarks(Get(body, "tools")),
        "messages" := List(AllWithoutMarks(Messages(body)[..i]))])
  {
    hide AllWithoutMarks, Messages, Get, WithoutMarks;
    assert WithoutMarks(List(Messages(body)[..i])) == List(AllWithoutMarks(Messages(body)[..i])) by {
      ListWithoutMarks(Messages(body)[..i]);
    }
    ThreeFieldsWithoutMarks(Get(body, "tools"), Get(body, "system"), List(Messages(body)[..i]));
    assert Prefix(body, i, true).fields
        == map["tools" := Get(body, "tools"), "system" := Get(body, "system"), "messages" := List(Messages(body)[..i])];
  }

  /** Two bound prefixes are one to the signer just when they agree, marks aside. */
  lemma {:induction false} SamePrefix(a: Fields, i: nat, b: Fields, k: nat)
    requires i <= |Messages(a)| && k <= |Messages(b)|
    ensures WithoutMarks(Prefix(a, i, true)) == WithoutMarks(Prefix(b, k, true)) <==> SameBefore(a, i, b, k)
  {
    hide AllWithoutMarks, Messages, Get, Prefix, WithoutMarks;
    BoundPrefixWithoutMarks(a, i);
    BoundPrefixWithoutMarks(b, k);
    var x, y := WithoutMarks(Prefix(a, i, true)).fields, WithoutMarks(Prefix(b, k, true)).fields;
    if x == y {
      assert x["system"] == y["system"] && x["tools"] == y["tools"] && x["messages"] == y["messages"];
    }
  }

  /** No thinking block of the request would be refused or dropped. */
  ghost predicate AllGood(mac: Mac, body: Fields, bound: bool) {
    forall i: nat, n: nat :: !InvalidAt(mac, body, bound, i, n)
  }

  /** The reply's thinking blocks are those the signer wrote after the request. */
  ghost predicate Signed(mac: Mac, body: Fields, bound: bool, reply: Json) {
    forall n :: 0 <= n < |Blocks(reply)| && IsThinking(Blocks(reply)[n]) ==>
      Valid(mac, Prefix(body, |Messages(body)|, bound), Blocks(reply)[n])
  }

  /**
   The next request says what the last one did, then the reply, then turns that
   hold no thinking: whatever cache marks came, went or moved.
   */
  ghost predicate GoesOn(next: Fields, body: Fields, reply: Json) {
    var k := |Messages(body)|;
    && k < |Messages(next)|
    && SameBefore(next, k, body, k)
    && WithoutMarks(Messages(next)[k]) == WithoutMarks(reply)
    && forall i: nat, n: nat :: k < i ==> !ThinkingAt(next, i, n)
  }

  lemma {:induction false} SameMessage(mac: Mac, p: Json, q: Json, a: Json, b: Json, n: nat)
    requires WithoutMarks(p) == WithoutMarks(q) && WithoutMarks(a) == WithoutMarks(b)
    ensures |Blocks(a)| == |Blocks(b)|
    ensures n < |Blocks(a)| ==>
      Valid(mac, p, Blocks(a)[n]) == Valid(mac, q, Blocks(b)[n]) && IsThinking(Blocks(a)[n]) == IsThinking(Blocks(b)[n])
    ensures Role(a) == Str("assistant") <==> Role(b) == Str("assistant")
  {
    hide Blocks, Role, Valid, IsThinking, WithoutMarks, Bare;
    BlocksWithoutMarks(a);
    BlocksWithoutMarks(b);
    if n < |Blocks(a)| {
      OnlyBareMatters(mac, p, q, Blocks(a)[n], Blocks(b)[n]);
    }
  }

  lemma {:induction false} EarlierPrefixesAgree(next: Fields, body: Fields, i: nat, bound: bool)
    requires |Messages(body)| <= |Messages(next)| && i <= |Messages(body)|
    requires SameBefore(next, |Messages(body)|, body, |Messages(body)|)
    ensures WithoutMarks(Prefix(next, i, bound)) == WithoutMarks(Prefix(body, i, bound))
    ensures i < |Messages(body)| ==> WithoutMarks(Messages(next)[i]) == WithoutMarks(Messages(body)[i])
  {
    var k := |Messages(body)|;
    var x, y := Messages(next)[..k], Messages(body)[..k];
    AllWithoutMarksTake(x, i);
    AllWithoutMarksTake(y, i);
    assert x[..i] == Messages(next)[..i] && y[..i] == Messages(body)[..i];
    assert SameBefore(next, i, body, i);
    if bound {
      SamePrefix(next, i, body, i);
    }
    if i < k {
      assert AllWithoutMarks(x)[i] == WithoutMarks(x[i]) && AllWithoutMarks(y)[i] == WithoutMarks(y[i]);
    }
  }

  /** One more exchange leaves every thinking block good. */
  lemma {:induction false} GoingOnStaysGood(mac: Mac, bound: bool, body: Fields, reply: Json, next: Fields)
    requires AllGood(mac, body, bound) && Signed(mac, body, bound, reply) && GoesOn(next, body, reply)
    ensures AllGood(mac, next, bound)
  {
    hide Blocks, Role, Valid, IsThinking, WithoutMarks, SameBefore, Prefix, Messages;
    var k := |Messages(body)|;
    forall i: nat, n: nat ensures !InvalidAt(mac, next, bound, i, n) {
      if i <= k && ThinkingAt(next, i, n) {
        EarlierPrefixesAgree(next, body, i, bound);
        var was := if i < k then Messages(body)[i] else reply;
        SameMessage(mac, Prefix(next, i, bound), Prefix(body, i, bound), Messages(next)[i], was, n);
        assert i < k ==> !InvalidAt(mac, body, bound, i, n);
      }
    }
  }

  datatype Exchange = Exchange(body: Fields, reply: Json)

  /** Each request goes on from the exchange before it, and each reply is as it was signed. */
  ghost predicate Conversation(mac: Mac, bound: bool, run: seq<Exchange>) {
    && (forall k :: 0 <= k < |run| ==> Signed(mac, run[k].body, bound, run[k].reply))
    && (forall k :: 0 <= k < |run| - 1 ==> GoesOn(run[k + 1].body, run[k].body, run[k].reply))
  }

  /** However long a conversation goes on, none of its thinking is ever refused or dropped. */
  lemma {:induction false} SignedThinkingSurvives(mac: Mac, bound: bool, run: seq<Exchange>, k: nat)
    requires Conversation(mac, bound, run) && k < |run|
    requires forall i: nat, n: nat :: !ThinkingAt(run[0].body, i, n)
    ensures AllGood(mac, run[k].body, bound)
  {
    hide ThinkingAt;
    if k > 0 {
      SignedThinkingSurvives(mac, bound, run, k - 1);
      hide AllGood, Signed, GoesOn;
      GoingOnStaysGood(mac, bound, run[k - 1].body, run[k - 1].reply, run[k].body);
    } else {
      NoThinkingIsGood(mac, bound, run[0].body);
    }
  }

  lemma NoThinkingIsGood(mac: Mac, bound: bool, body: Fields)
    requires forall i: nat, n: nat :: !ThinkingAt(body, i, n)
    ensures AllGood(mac, body, bound)
  {}

  // ----- And nothing else does ----------------------------------------------

  /** The block carries what the signer issued for a thinking text after the first `k` messages of `written`. */
  ghost predicate Issued(mac: Mac, block: Fields, written: Fields, k: nat, bound: bool, thought: string)
    requires k <= |Messages(written)|
  {
    if IsRedacted(block) then Text(Get(block, "data")) == Redacted(mac, Prefix(written, k, bound))
    else Text(Get(block, "signature")) == Sign(mac, Prefix(written, k, bound), thought)
  }

  lemma {:induction false} LabelledApart(tag: string, a: string, b: string)
    requires tag + a == tag + b
    ensures a == b
  {
    assert (tag + a)[|tag|..] == a && (tag + b)[|tag|..] == b;
  }

  /**
   On a prefix-bound model a block passes exactly in the conversation it was signed
   in, marks aside: the same system prompt, tools and messages before it, and the
   same text of its own.
   */
  lemma {:induction false} PassesExactlyWhereWritten(
    mac: Mac, body: Fields, i: nat, block: Fields, written: Fields, k: nat, thought: string)
    requires Injective(mac) && i <= |Messages(body)| && k <= |Messages(written)|
    requires Issued(mac, block, written, k, true, thought)
    ensures Valid(mac, Prefix(body, i, true), block)
       <==> SameBefore(body, i, written, k) && (IsRedacted(block) || Thought(block) == thought)
  {
    SamePrefix(body, i, written, k);
    hide SameBefore, Prefix, Messages, WithoutMarks;
    var p, q := WithoutMarks(Prefix(body, i, true)), WithoutMarks(Prefix(written, k, true));
    if Valid(mac, Prefix(body, i, true), block) {
      if IsRedacted(block) {
        LabelledApart("stubredacted-", mac(p, ""), mac(q, ""));
        assert mac(p, "") == mac(q, "");
      } else {
        LabelledApart("stubsig-", mac(p, Thought(block)), mac(q, thought));
        assert mac(p, Thought(block)) == mac(q, thought);
      }
    }
  }

  /** On a model that binds no prefix only the text is held to. */
  lemma {:induction false} UnboundHoldsOnlyTheText(
    mac: Mac, body: Fields, i: nat, block: Fields, written: Fields, k: nat, thought: string)
    requires Injective(mac) && i <= |Messages(body)| && k <= |Messages(written)|
    requires Issued(mac, block, written, k, false, thought)
    ensures Valid(mac, Prefix(body, i, false), block) <==> IsRedacted(block) || Thought(block) == thought
  {
    if !IsRedacted(block) && Valid(mac, Prefix(body, i, false), block) {
      var p := WithoutMarks(Dict(map[]));
      LabelledApart("stubsig-", mac(p, Thought(block)), mac(p, thought));
      assert mac(p, Thought(block)) == mac(p, thought);
    }
  }

  /** A request passes whole just when all its thinking is good; a block that is not is refused or dropped. */
  lemma {:induction false} WhatIsNotGoodIsCaught(
    mac: Mac, body: Fields, bound: bool, mayDrop: bool, outcome: Outcome)
    requires IsOutcome(mac, body, bound, mayDrop, outcome)
    ensures outcome.refused.None? && outcome.dropped == [] <==> AllGood(mac, body, bound)
    ensures forall i: nat, n: nat :: InvalidAt(mac, body, bound, i, n) ==> outcome.refused.Some? || i in outcome.dropped
  {
    var places: seq<Place> :| Checked(mac, body, bound, mayDrop, outcome, places);
    hide Valid, IsThinking, Blocks, Role, Prefix, Messages;
    if outcome.refused.None? {
      forall i: nat, n: nat | InvalidAt(mac, body, bound, i, n) ensures i in outcome.dropped {
        assert Earlier((i, n), (|Messages(body)|, 0));
        assert (i, n) in places;
        var k :| 0 <= k < |places| && places[k] == (i, n);
        assert outcome.dropped[k] == i;
      }
      if places != [] {
        assert places[0] in places;
        assert InvalidAt(mac, body, bound, places[0].0, places[0].1);
      }
    }
  }
}
