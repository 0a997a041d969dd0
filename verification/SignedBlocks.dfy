/** Which blocks are checked, and for what. */
module SignedBlocks {
  // The check of signatures, said of the fields of the request: its assistant turns,
  // the types of their blocks, and the very text each block must carry.

  import opened Wrappers
  import opened Json
  import opened Requests
  import opened Signing

  // ----- The blocks that are checked ----------------------------------------

  ghost predicate IsAssistant(message: Json) {
    message.Dict? && "role" in message.fields && message.fields["role"] == Str("assistant")
  }

  /** The items of an assistant turn's content; of any other message, none. */
  ghost function TurnItems(body: Fields, i: nat): seq<Json> {
    if i < |ListAt(body, "messages")| && IsAssistant(ListAt(body, "messages")[i])
    then ListAt(ListAt(body, "messages")[i].fields, "content") else []
  }

  ghost predicate TypeIs(item: Json, kind: string) {
    item.Dict? && "type" in item.fields && item.fields["type"] == Str(kind)
  }

  /** Item `k` of message `i` is an assistant's thinking, plain or redacted. */
  ghost predicate Thinks(body: Fields, i: nat, k: nat) {
    k < |TurnItems(body, i)|
    && (TypeIs(TurnItems(body, i)[k], "thinking") || TypeIs(TurnItems(body, i)[k], "redacted_thinking"))
  }

  /** The value of a field; null where there is none. */
  ghost function Value(fields: Fields, key: string): Json {
    if key in fields then fields[key] else Null
  }

  /** What thinking after the first `m` messages of a body is sealed with. */
  ghost function Seal(mac: Mac, body: Fields, m: nat, bound: bool, redacted: bool, thought: string): string {
    var prefix := if !bound then map[] else map[
      "system" := WithoutMarks(Value(body, "system")), "tools" := WithoutMarks(Value(body, "tools")),
      "messages" := List(AllWithoutMarks(Take(ListAt(body, "messages"), m)))];
    if redacted then "stubredacted-" + mac(Dict(prefix), "") else "stubsig-" + mac(Dict(prefix), thought)
  }

  /** The text a thinking item holds; one that holds none holds the empty one. */
  ghost function OwnText(item: Json): string
    requires item.Dict?
  {
    if "thinking" in item.fields && item.fields["thinking"].Str? then item.fields["thinking"].text else ""
  }

  /** The item carries the seal in the field its type has for it. */
  ghost predicate Carries(item: Json, seal: string)
    requires item.Dict?
  {
    if TypeIs(item, "redacted_thinking") then "data" in item.fields && item.fields["data"] == Str(seal)
    else "signature" in item.fields && item.fields["signature"] == Str(seal)
  }

  /** The thinking carries what is issued for its own text where it stands. */
  ghost predicate InPlace(mac: Mac, body: Fields, bound: bool, i: nat, k: nat)
    requires Thinks(body, i, k)
  {
    var item := TurnItems(body, i)[k];
    Carries(item, Seal(mac, body, i, bound, TypeIs(item, "redacted_thinking"), OwnText(item)))
  }

  /** An assistant's thinking that does not. */
  ghost predicate OutOfPlace(mac: Mac, body: Fields, bound: bool, i: nat, k: nat) {
    Thinks(body, i, k) && !InPlace(mac, body, bound, i, k)
  }

  lemma {:induction false} PrefixIs(mac: Mac, body: Fields, i: nat, bound: bool, thought: string)
    requires i <= |Messages(body)|
    ensures Seal(mac, body, i, bound, false, thought) == Sign(mac, Prefix(body, i, bound), thought)
    ensures Seal(mac, body, i, bound, true, thought) == Redacted(mac, Prefix(body, i, bound))
  {
    if bound {
      BoundPrefixWithoutMarks(body, i);
    } else {
      assert WithoutMarks(Dict(map[])).fields == map[];
    }
    assert Messages(body) == ListAt(body, "messages") && Take(Messages(body), i) == Messages(body)[..i];
    hide WithoutMarks, AllWithoutMarks, Prefix;
    assert ("stubsig-" + mac(WithoutMarks(Prefix(body, i, bound)), ""))[8..] == mac(WithoutMarks(Prefix(body, i, bound)), "");
  }

  lemma {:induction false} ValidIsCarried(mac: Mac, body: Fields, i: nat, bound: bool, item: Json)
    requires i <= |Messages(body)| && item.Dict?
    ensures IsThinking(item.fields) <==> TypeIs(item, "thinking") || TypeIs(item, "redacted_thinking")
    ensures IsRedacted(item.fields) <==> TypeIs(item, "redacted_thinking")
    ensures Valid(mac, Prefix(body, i, bound), item.fields)
       <==> Carries(item, Seal(mac, body, i, bound, TypeIs(item, "redacted_thinking"), OwnText(item)))
  {
    PrefixIs(mac, body, i, bound, OwnText(item));
    assert Thought(item.fields) == OwnText(item);
    hide Prefix;
    var seal := Seal(mac, body, i, bound, TypeIs(item, "redacted_thinking"), OwnText(item));
    assert seal != "" by { SealIsText(mac, body, i, bound, TypeIs(item, "redacted_thinking"), OwnText(item)); }
    hide Seal, Sign, Redacted;
  }

  lemma SealIsText(mac: Mac, body: Fields, m: nat, bound: bool, redacted: bool, thought: string)
    ensures Seal(mac, body, m, bound, redacted, thought) != ""
  {}

  /** Block `n` of message `i`, counted among its blocks, is thinking out of place. */
  ghost predicate OutAt(mac: Mac, body: Fields, bound: bool, i: nat, n: nat) {
    exists k: nat :: OutOfPlace(mac, body, bound, i, k) && Numbered(body, i, k, n)
  }

  /** Item `k` of the turn is its `n`-th block. */
  ghost predicate Numbered(body: Fields, i: nat, k: nat, n: nat) {
    k < |TurnItems(body, i)| && DictCount(TurnItems(body, i)[..k]) == n
  }

  /** The blocks the check finds invalid are the thinking out of place. */
  lemma {:induction false} InvalidExactly(mac: Mac, body: Fields, bound: bool, i: nat, n: nat)
    ensures InvalidAt(mac, body, bound, i, n) <==> OutAt(mac, body, bound, i, n)
  {
    var items := TurnItems(body, i);
    DictsAreCounted(items);
    TurnBlocks(body, i);
    hide Prefix, Valid, IsThinking, DictsIn, Carries, Seal, TypeIs, TurnItems;
    if InvalidAt(mac, body, bound, i, n) {
      var k := NthDict(items, n);
      ValidIsCarried(mac, body, i, bound, items[k]);
      assert OutOfPlace(mac, body, bound, i, k) && Numbered(body, i, k, n);
    }
    if OutAt(mac, body, bound, i, n) {
      var k: nat :| OutOfPlace(mac, body, bound, i, k) && Numbered(body, i, k, n);
      TypedIsDict(items[k]);
      ValidIsCarried(mac, body, i, bound, items[k]);
      assert DictsIn(items)[n] == items[k].fields;
    }
  }

  lemma TypedIsDict(item: Json)
    requires TypeIs(item, "thinking") || TypeIs(item, "redacted_thinking")
    ensures item.Dict?
  {}

  lemma TurnBlocks(body: Fields, i: nat)
    ensures i < |Messages(body)| && Role(Messages(body)[i]) == Str("assistant") ==>
      Blocks(Messages(body)[i]) == DictsIn(TurnItems(body, i))
    ensures !(i < |Messages(body)| && Role(Messages(body)[i]) == Str("assistant")) ==> TurnItems(body, i) == []
  {}

  // ----- What comes of it ---------------------------------------------------

  /** A request passes whole exactly when every thinking item of an assistant turn is in place. */
  lemma {:induction false} PassesWholeExactly(mac: Mac, body: Fields, bound: bool, mayDrop: bool, outcome: Outcome)
    requires IsOutcome(mac, body, bound, mayDrop, outcome)
    ensures outcome == Outcome([], None) <==> forall i: nat, k: nat :: !OutOfPlace(mac, body, bound, i, k)
  {
    WhatIsNotGoodIsCaught(mac, body, bound, mayDrop, outcome);
    hide InvalidAt, IsOutcome, OutOfPlace, TurnItems;
    if forall i: nat, k: nat :: !OutOfPlace(mac, body, bound, i, k) {
      forall i: nat, n: nat ensures !InvalidAt(mac, body, bound, i, n) {
        InvalidExactly(mac, body, bound, i, n);
      }
    }
    if AllGood(mac, body, bound) {
      forall i: nat, k: nat ensures !OutOfPlace(mac, body, bound, i, k) {
        if OutOfPlace(mac, body, bound, i, k) {
          var n := OutIsNumbered(mac, body, bound, i, k);
          InvalidExactly(mac, body, bound, i, n);
          assert false;
        }
      }
    }
  }

  lemma OutIsNumbered(mac: Mac, body: Fields, bound: bool, i: nat, k: nat) returns (n: nat)
    requires OutOfPlace(mac, body, bound, i, k)
    ensures OutAt(mac, body, bound, i, n)
  {
    n := DictCount(TurnItems(body, i)[..k]);
    assert Numbered(body, i, k, n);
  }

  /**
   Where dropping was asked for nothing is refused and each message with thinking out
   of place is listed, and no other. Where it was not, nothing is dropped, and a
   request that is refused is refused at the first thinking out of place.
   */
  lemma {:induction false} CaughtExactly(mac: Mac, body: Fields, bound: bool, mayDrop: bool, outcome: Outcome)
    requires IsOutcome(mac, body, bound, mayDrop, outcome)
    ensures mayDrop ==> outcome.refused.None?
    ensures mayDrop ==> forall i :: i in outcome.dropped <==> exists n: nat :: OutAt(mac, body, bound, i, n)
    ensures !mayDrop ==> outcome.dropped == []
    ensures outcome.refused.Some? ==> OutAt(mac, body, bound, outcome.refused.value.0, outcome.refused.value.1)
    ensures outcome.refused.Some? ==>
      forall i: nat, n: nat :: Earlier((i, n), outcome.refused.value) ==> !OutAt(mac, body, bound, i, n)
  {
    var places: seq<Place> :| Checked(mac, body, bound, mayDrop, outcome, places);
    forall i: nat, n: nat ensures InvalidAt(mac, body, bound, i, n) <==> OutAt(mac, body, bound, i, n) {
      InvalidExactly(mac, body, bound, i, n);
    }
    hide OutAt;
    if outcome.refused.Some? {
      hide InvalidAt;
      forall i: nat, n: nat | Earlier((i, n), outcome.refused.value) ensures !OutAt(mac, body, bound, i, n) {
        var at: Place := (i, n);
        assert InvalidAt(mac, body, bound, at.0, at.1) ==> at in [];
      }
    } else {
      forall i ensures i in outcome.dropped <==> exists n: nat :: OutAt(mac, body, bound, i, n) {
        DroppedExactly(mac, body, bound, outcome, places, i);
      }
    }
  }

  lemma {:induction false} DroppedExactly(
    mac: Mac, body: Fields, bound: bool, outcome: Outcome, places: seq<Place>, i: nat)
    requires InvalidBefore(mac, body, bound, places, (|Messages(body)|, 0)) && DropsAt(outcome, places)
    ensures i in outcome.dropped <==> exists n: nat :: InvalidAt(mac, body, bound, i, n)
  {
    hide Valid, IsThinking, Prefix, Blocks, Role;
    if i in outcome.dropped {
      var l :| 0 <= l < |places| && outcome.dropped[l] == i;
      assert places[l] in places;
      assert InvalidAt(mac, body, bound, i, places[l].1);
    }
    if n: nat :| InvalidAt(mac, body, bound, i, n) {
      var at: Place := (i, n);
      assert InvalidAt(mac, body, bound, at.0, at.1) && Earlier(at, (|Messages(body)|, 0));
      var l :| 0 <= l < |places| && places[l] == at;
      assert outcome.dropped[l] == i;
    }
  }

  // ----- Thinking issued elsewhere ------------------------------------------

  /** Thinking that carries what was issued for `thought` after the first `m` messages of `written`. */
  ghost predicate IssuedAt(mac: Mac, body: Fields, i: nat, k: nat, written: Fields, m: nat, thought: string)
    requires Thinks(body, i, k)
  {
    var item := TurnItems(body, i)[k];
    Carries(item, Seal(mac, written, m, true, TypeIs(item, "redacted_thinking"), thought))
  }

  /**
   On a prefix-bound model thinking that was issued somewhere is in place exactly
   where what comes before it is, marks aside, what came before it there, and, unless
   redacted, its text is the one it was issued for.
   */
  lemma {:induction false} IssuedElsewhere(
    mac: Mac, body: Fields, i: nat, k: nat, written: Fields, m: nat, thought: string)
    requires Injective(mac) && m <= |Messages(written)|
    requires Thinks(body, i, k) && IssuedAt(mac, body, i, k, written, m, thought)
    ensures i <= |Messages(body)|
    ensures OutOfPlace(mac, body, true, i, k) <==>
      !(SameBefore(body, i, written, m)
        && (TypeIs(TurnItems(body, i)[k], "redacted_thinking") || OwnText(TurnItems(body, i)[k]) == thought))
  {
    TurnBlocks(body, i);
    var item := TurnItems(body, i)[k];
    TypedIsDict(item);
    ValidIsCarried(mac, body, i, true, item);
    PrefixIs(mac, written, m, true, thought);
    assert Messages(body) == ListAt(body, "messages");
    assert Thought(item.fields) == OwnText(item);
    hide Prefix, Valid, Seal, Sign, Redacted, SameBefore, Injective;
    CarriedIsIssued(item, written, m, mac, thought);
    PassesExactlyWhereWritten(mac, body, i, item.fields, written, m, thought);
  }

  lemma CarriedIsIssued(item: Json, written: Fields, m: nat, mac: Mac, thought: string)
    requires item.Dict? && m <= |Messages(written)| && (TypeIs(item, "redacted_thinking") <==> IsRedacted(item.fields))
    requires Carries(item, Seal(mac, written, m, true, TypeIs(item, "redacted_thinking"), thought))
    ensures Issued(mac, item.fields, written, m, true, thought)
  {
    PrefixIs(mac, written, m, true, thought);
    hide Seal, Sign, Redacted, Prefix;
  }

  /** Thinking issued elsewhere, or for another text, refuses the request or has its message dropped. */
  lemma {:induction false} ElsewhereIsCaught(
    mac: Mac, body: Fields, mayDrop: bool, outcome: Outcome, i: nat, k: nat, written: Fields, m: nat, thought: string)
    requires Injective(mac) && m <= |Messages(written)| && IsOutcome(mac, body, true, mayDrop, outcome)
    requires Thinks(body, i, k) && IssuedAt(mac, body, i, k, written, m, thought) && i <= |Messages(body)|
    requires !SameBefore(body, i, written, m)
      || (!TypeIs(TurnItems(body, i)[k], "redacted_thinking") && OwnText(TurnItems(body, i)[k]) != thought)
    ensures if mayDrop then i in outcome.dropped else outcome.refused.Some?
  {
    IssuedElsewhere(mac, body, i, k, written, m, thought);
    hide Injective, SameBefore, IssuedAt, TurnItems, OutOfPlace, IsOutcome;
    var n := OutIsNumbered(mac, body, true, i, k);
    CaughtExactly(mac, body, true, mayDrop, outcome);
    PassesWholeExactly(mac, body, true, mayDrop, outcome);
  }

  /** Thinking issued where it stands, for its own text. */
  ghost predicate IssuedHere(mac: Mac, body: Fields, i: nat, k: nat, written: Fields, m: nat)
    requires Thinks(body, i, k)
  {
    m <= |Messages(written)| && i <= |Messages(body)| && SameBefore(body, i, written, m)
    && IssuedAt(mac, body, i, k, written, m, OwnText(TurnItems(body, i)[k]))
  }

  /** A request all of whose thinking was issued where it stands passes whole. */
  lemma {:induction false} IssuedHerePasses(mac: Mac, body: Fields, mayDrop: bool, outcome: Outcome)
    requires Injective(mac) && IsOutcome(mac, body, true, mayDrop, outcome)
    requires forall i: nat, k: nat | Thinks(body, i, k) :: exists written, m: nat :: IssuedHere(mac, body, i, k, written, m)
    ensures outcome == Outcome([], None)
  {
    hide Injective, SameBefore, IssuedAt, TurnItems, OutOfPlace, IsOutcome, TypeIs;
    forall i: nat, k: nat ensures !OutOfPlace(mac, body, true, i, k) {
      OutThinks(mac, body, true, i, k);
      if Thinks(body, i, k) {
        assert TurnItems(body, i)[k].Dict? by { TypedIsDict(TurnItems(body, i)[k]); }
        var written, m: nat :| IssuedHere(mac, body, i, k, written, m);
        IssuedElsewhere(mac, body, i, k, written, m, OwnText(TurnItems(body, i)[k]));
      }
    }
    PassesWholeExactly(mac, body, true, mayDrop, outcome);
  }

  lemma OutThinks(mac: Mac, body: Fields, bound: bool, i: nat, k: nat)
    ensures OutOfPlace(mac, body, bound, i, k) ==> Thinks(body, i, k)
  {}

  /** The first turn of a chat, answered with thinking that no signer issued. */
  function ForgedTurn(signature: string): Fields {
    var thought := Dict(map["type" := Str("thinking"), "thinking" := Str("so"), "signature" := Str(signature)]);
    map["messages" := List([Dict(map["role" := Str("assistant"), "content" := List([thought])])])]
  }

  /** A forged signature refuses the request where dropping was not asked for, and drops the message where it was. */
  lemma {:induction false} AForgedBlockIsCaught(mac: Mac, signature: string, mayDrop: bool, outcome: Outcome)
    requires signature != Seal(mac, ForgedTurn(signature), 0, true, false, "so")
    requires IsOutcome(mac, ForgedTurn(signature), true, mayDrop, outcome)
    ensures if mayDrop then outcome.refused.None? && 0 in outcome.dropped else outcome.refused.Some?
  {
    var body := ForgedTurn(signature);
    hide Seal;
    assert TurnItems(body, 0)[0] == ListAt(ListAt(body, "messages")[0].fields, "content")[0];
    assert OutOfPlace(mac, body, true, 0, 0) by {
      assert "thinking" != "redacted_thinking" by { assert "thinking"[0] != "redacted_thinking"[0]; }
    }
    hide OutOfPlace, ForgedTurn, IsOutcome;
    assert Numbered(body, 0, 0, 0) by { hide ListAt, IsAssistant; }
    assert OutAt(mac, body, true, 0, 0);
    CaughtExactly(mac, body, true, mayDrop, outcome);
    PassesWholeExactly(mac, body, true, mayDrop, outcome);
  }
}
