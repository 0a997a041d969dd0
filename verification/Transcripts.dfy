/** Tool calls and their answers: which transcripts the two APIs take. */
module Transcripts {
  import opened Wrappers
  import opened Json
  import opened Requests

  // ----- The Messages API ---------------------------------------------------

  /** The ids of the message's tool calls. */
  function Uses(message: Json): seq<Json> { IdsOf(Blocks(message), "tool_use", "id") }

  /** The ids the message's tool results answer. */
  function Results(message: Json): seq<Json> { IdsOf(Blocks(message), "tool_result", "tool_use_id") }

  function IdsOf(blocks: seq<Fields>, kind: string, key: string): seq<Json> {
    if blocks == [] then []
    else if Kind(blocks[0]) == Str(kind) then [Get(blocks[0], key)] + IdsOf(blocks[1..], kind, key)
    else IdsOf(blocks[1..], kind, key)
  }

  function Lacking(ids: seq<Json>, among: set<Json>): (lacking: seq<Json>)
    ensures lacking == [] <==> forall id :: id in ids ==> id in among
    ensures forall id :: id in lacking <==> id in ids && id !in among
  {
    if ids == [] then []
    else if ids[0] in among then Lacking(ids[1..], among)
    else [ids[0]] + Lacking(ids[1..], among)
  }

  function SetOf(ids: seq<Json>): (s: set<Json>)
    ensures forall id :: id in s <==> id in ids
  {
    set id | id in ids
  }

  datatype Refusal =
    | Unanswered(message: nat, ids: seq<Json>)
    | Stray(message: nat, ids: seq<Json>)

  /** The assistant's calls in message `i`, unless it is the last, are all answered in the next, a user's. */
  ghost predicate AnsweredNext(messages: seq<Json>, i: nat)
    requires i < |messages|
  {
    Role(messages[i]) == Str("assistant") && i + 1 < |messages| ==>
      forall id :: id in Uses(messages[i]) ==>
        Role(messages[i + 1]) == Str("user") && id in Results(messages[i + 1])
  }

  /** The results in message `i` all answer calls of the message before. */
  ghost predicate CalledBefore(messages: seq<Json>, i: nat)
    requires i < |messages|
  {
    forall id :: id in Results(messages[i]) ==> i > 0 && id in Uses(messages[i - 1])
  }

  ghost predicate WellPaired(messages: seq<Json>) {
    forall i :: 0 <= i < |messages| ==> AnsweredNext(messages, i) && CalledBefore(messages, i)
  }

  /** The assistant's calls in message `i` the next message does not answer: there is a next, and these are all of them. */
  ghost predicate LeftUnanswered(messages: seq<Json>, i: nat, ids: seq<Json>) {
    && i + 1 < |messages| && Role(messages[i]) == Str("assistant") && ids != []
    && forall id :: id in ids <==>
         id in Uses(messages[i]) && !(Role(messages[i + 1]) == Str("user") && id in Results(messages[i + 1]))
  }

  /** The results in message `i` that answer no call of the message before: these are all of them. */
  ghost predicate LeftUncalled(messages: seq<Json>, i: nat, ids: seq<Json>) {
    && i < |messages| && ids != []
    && forall id :: id in ids <==> id in Results(messages[i]) && !(i > 0 && id in Uses(messages[i - 1]))
  }

  /** What a refusal says: the first message with unanswered calls, or else the first with stray results, and which they are. */
  ghost predicate Names(messages: seq<Json>, refusal: Refusal) {
    match refusal
    case Unanswered(next, ids) =>
      next > 0 && LeftUnanswered(messages, next - 1, ids)
      && forall k :: 0 <= k < next - 1 && k < |messages| ==> AnsweredNext(messages, k)
    case Stray(i, ids) =>
      LeftUncalled(messages, i, ids)
      && (forall k :: 0 <= k < |messages| ==> AnsweredNext(messages, k))
      && forall k :: 0 <= k < i && k < |messages| ==> CalledBefore(messages, k)
  }

  method CheckToolPairs(messages: seq<Json>) returns (refusal: Option<Refusal>)
    ensures refusal.None? <==> WellPaired(messages)
    ensures refusal.Some? ==> Names(messages, refusal.value)
  {
    hide Uses, Results, Role;
    for i := 0 to |messages|
      invariant forall k :: 0 <= k < i ==> AnsweredNext(messages, k)
    {
      var uses := Uses(messages[i]);
      if Role(messages[i]) == Str("assistant") && uses != [] {
        var answered := if i + 1 < |messages| && Role(messages[i + 1]) == Str("user") then SetOf(Results(messages[i + 1])) else {};
        var missing := Lacking(uses, answered);
        if missing != [] && i + 1 < |messages| {
          assert missing[0] in missing;
          assert !AnsweredNext(messages, i);
          assert LeftUnanswered(messages, i, missing);
          return Some(Unanswered(i + 1, missing));
        }
      }
    }
    for i := 0 to |messages|
      invariant forall k :: 0 <= k < i ==> CalledBefore(messages, k)
    {
      var results := Results(messages[i]);
      if results != [] {
        var called := if i > 0 then SetOf(Uses(messages[i - 1])) else {};
        var stray := Lacking(results, called);
        if stray != [] {
          assert stray[0] in stray;
          assert !CalledBefore(messages, i);
          assert LeftUncalled(messages, i, stray);
          return Some(Stray(i, stray));
        }
      }
    }
    return None;
  }

  /** In an accepted transcript an answered turn's calls and the next turn's results are the same ids. */
  lemma {:induction false} CallsEqualResults(messages: seq<Json>, i: nat)
    requires WellPaired(messages) && i + 1 < |messages| && Role(messages[i]) == Str("assistant")
    ensures SetOf(Uses(messages[i])) == SetOf(Results(messages[i + 1]))
    ensures Uses(messages[i]) != [] ==> Role(messages[i + 1]) == Str("user")
  {
    hide Uses, Results, Role;
    assert AnsweredNext(messages, i) && CalledBefore(messages, i + 1);
    if Uses(messages[i]) != [] {
      assert Uses(messages[i])[0] in Uses(messages[i]);
    }
  }

  /** What one pass from the left carries: the ids the last message called, and those still to be answered. */
  datatype Carry = Carry(called: set<Json>, owed: set<Json>)

  function Owed(message: Json, ids: seq<Json>): set<Json> {
    if Role(message) == Str("assistant") then SetOf(ids) else {}
  }

  /** One pass: each message's results among the calls just made, each owed answer given at once by a user. */
  function Pass(messages: seq<Json>): Option<Carry> {
    if messages == [] then Some(Carry({}, {}))
    else
      var before := Pass(messages[..|messages| - 1]);
      var m := messages[|messages| - 1];
      if before.None? || !(SetOf(Results(m)) <= before.value.called) then None
      else if before.value.owed != {} && !(Role(m) == Str("user") && before.value.owed <= SetOf(Results(m))) then None
      else Some(Carry(SetOf(Uses(m)), Owed(m, Uses(m))))
  }

  /** The two scans accept just what the one pass does. */
  lemma {:induction false} PassIsTheScans(messages: seq<Json>)
    ensures Pass(messages).Some? <==> WellPaired(messages)
    ensures Pass(messages).Some? && messages != [] ==>
      Pass(messages).value.called == SetOf(Uses(messages[|messages| - 1]))
      && Pass(messages).value.owed == Owed(messages[|messages| - 1], Uses(messages[|messages| - 1]))
  {
    hide Uses, Results, Role;
    if messages != [] {
      var n := |messages| - 1;
      var front := messages[..n];
      PassIsTheScans(front);
      assert forall i :: 0 <= i < n ==> front[i] == messages[i];
      assert forall i :: 0 <= i < n ==> (CalledBefore(front, i) <==> CalledBefore(messages, i));
      assert forall i :: 0 <= i < n - 1 ==> (AnsweredNext(front, i) <==> AnsweredNext(messages, i));
      assert AnsweredNext(messages, n);
      if n > 0 {
        assert AnsweredNext(front, n - 1);
      }
    }
  }

  // ----- Chat completions ---------------------------------------------------

  predicate IsTool(message: Json) { Role(message) == Str("tool") }

  function Answers(message: Json): Json { Get(FieldsOf(message), "tool_call_id") }

  /** The ids of the message's calls. */
  function Calls(message: Json): seq<Json> {
    IdsIn(DictsIn(Items(Get(FieldsOf(message), "tool_calls"))))
  }

  function IdsIn(calls: seq<Fields>): (ids: seq<Json>)
    ensures |ids| == |calls|
  {
    if calls == [] then [] else [Get(calls[0], "id")] + IdsIn(calls[1..])
  }

  /** Every message after `i` up to `j` is a tool's. */
  ghost predicate InRun(messages: seq<Json>, i: int, j: int) {
    0 <= i < j < |messages| && forall k :: i < k <= j ==> IsTool(messages[k])
  }

  ghost predicate AnsweredIn(messages: seq<Json>, i: int, id: Json) {
    exists j :: InRun(messages, i, j) && Answers(messages[j]) == id
  }

  /** An assistant's calls are all answered in the run of tool messages after it. */
  ghost predicate AllAnswered(messages: seq<Json>, i: nat)
    requires i < |messages|
  {
    Role(messages[i]) == Str("assistant") ==> forall id :: id in Calls(messages[i]) ==> AnsweredIn(messages, i, id)
  }

  /** A tool message answers a call of the message its run follows. */
  ghost predicate HasOrigin(messages: seq<Json>, i: nat)
    requires i < |messages|
  {
    IsTool(messages[i]) ==>
      exists b :: InRun(messages, b, i) && !IsTool(messages[b]) && Answers(messages[i]) in Calls(messages[b])
  }

  ghost predicate Accepted(messages: seq<Json>) {
    forall i :: 0 <= i < |messages| ==> AllAnswered(messages, i) && HasOrigin(messages, i)
  }

  /** The ids answered in the run after message `i`. */
  method AnsweredAfter(messages: seq<Json>, i: nat) returns (answered: set<Json>)
    requires i < |messages|
    ensures forall id :: id in answered <==> AnsweredIn(messages, i, id)
  {
    hide IsTool, Answers;
    answered := {};
    var later := i + 1;
    while later < |messages| && IsTool(messages[later])
      invariant i < later <= |messages| && forall k :: i < k < later ==> IsTool(messages[k])
      invariant forall id :: id in answered <==> exists j :: i < j < later && Answers(messages[j]) == id
    {
      answered := answered + {Answers(messages[later])};
      later := later + 1;
    }
    forall id | AnsweredIn(messages, i, id) ensures id in answered {
      var j :| InRun(messages, i, j) && Answers(messages[j]) == id;
      assert later < |messages| ==> !IsTool(messages[later]);
    }
    forall id | id in answered ensures AnsweredIn(messages, i, id) {
      var j :| i < j < later && Answers(messages[j]) == id;
      assert InRun(messages, i, j);
    }
  }

  /** The calls of the message the run up to `i` follows. */
  method OriginOf(messages: seq<Json>, i: nat) returns (ids: set<Json>)
    requires i < |messages| && IsTool(messages[i])
    ensures forall id :: id in ids <==>
      exists b :: InRun(messages, b, i) && !IsTool(messages[b]) && id in Calls(messages[b])
  {
    hide IsTool, Calls;
    var before := i - 1;
    while before >= 0 && IsTool(messages[before])
      invariant -1 <= before < i && forall k :: before < k <= i ==> IsTool(messages[k])
    {
      before := before - 1;
    }
    ids := if before >= 0 then SetOf(Calls(messages[before])) else {};
    forall id, b | InRun(messages, b, i) && !IsTool(messages[b]) && id in Calls(messages[b]) ensures id in ids {
      assert b == before;
    }
    assert before >= 0 ==> InRun(messages, before, i);
  }

  datatype ChatRefusal =
    | Waiting(message: nat, ids: seq<Json>)
    | NoCall(message: nat)

  /** The assistant's calls in message `i` that its run of tool messages does not answer: these are all of them. */
  ghost predicate LeftWaiting(messages: seq<Json>, i: nat, ids: seq<Json>) {
    && i < |messages| && Role(messages[i]) == Str("assistant") && ids != []
    && forall id :: id in ids <==> id in Calls(messages[i]) && !AnsweredIn(messages, i, id)
  }

  /** What a refusal says: the first message at fault, and the calls it leaves waiting. */
  ghost predicate NamesChat(messages: seq<Json>, refusal: ChatRefusal) {
    && (forall k :: 0 <= k < refusal.message && k < |messages| ==> AllAnswered(messages, k) && HasOrigin(messages, k))
    && match refusal
       case Waiting(i, ids) => LeftWaiting(messages, i, ids)
       case NoCall(i) => i < |messages| && AllAnswered(messages, i) && !HasOrigin(messages, i)
  }

  method CheckChat(messages: seq<Json>) returns (refusal: Option<ChatRefusal>)
    ensures refusal.None? <==> Accepted(messages)
    ensures refusal.Some? ==> NamesChat(messages, refusal.value)
  {
    hide IsTool, Calls, Answers, Role, AnsweredIn;
    for i := 0 to |messages|
      invariant forall k :: 0 <= k < i ==> AllAnswered(messages, k) && HasOrigin(messages, k)
    {
      var calls := Calls(messages[i]);
      if Role(messages[i]) == Str("assistant") && calls != [] {
        var answered := AnsweredAfter(messages, i);
        var missing := Lacking(calls, answered);
        if missing != [] {
          assert missing[0] in missing;
          assert !AllAnswered(messages, i);
          assert LeftWaiting(messages, i, missing);
          return Some(Waiting(i, missing));
        }
      }
      assert AllAnswered(messages, i);
      if IsTool(messages[i]) {
        var ids := OriginOf(messages, i);
        if Answers(messages[i]) !in ids {
          assert !HasOrigin(messages, i);
          return Some(NoCall(i));
        }
      }
    }
    return None;
  }

  /** In an accepted transcript a calling turn's ids are just those its tool messages answer. */
  lemma {:induction false} CallsEqualAnswers(messages: seq<Json>, i: nat, id: Json)
    requires Accepted(messages) && i < |messages| && Role(messages[i]) == Str("assistant")
    ensures id in Calls(messages[i]) <==> AnsweredIn(messages, i, id)
  {
    hide Calls, Answers;
    assert AllAnswered(messages, i);
    if AnsweredIn(messages, i, id) {
      var j :| InRun(messages, i, j) && Answers(messages[j]) == id;
      assert IsTool(messages[j]) && HasOrigin(messages, j);
      var b :| InRun(messages, b, j) && !IsTool(messages[b]) && Answers(messages[j]) in Calls(messages[b]);
      assert b == i;
    }
  }

  /** One pass: the last other message's calls, and which of them still wait for an answer. */
  function PassChat(messages: seq<Json>): Option<Carry> {
    if messages == [] then Some(Carry({}, {}))
    else
      var before := PassChat(messages[..|messages| - 1]);
      var m := messages[|messages| - 1];
      if before.None? then None
      else if IsTool(m) then
        if Answers(m) !in before.value.called then None
        else Some(Carry(before.value.called, before.value.owed - {Answers(m)}))
      else if before.value.owed != {} then None
      else Some(Carry(SetOf(Calls(m)), Owed(m, Calls(m))))
  }

  /** The last message that is no tool's, or -1. */
  function LastOther(messages: seq<Json>): (b: int)
    ensures -1 <= b < |messages|
    ensures b >= 0 ==> !IsTool(messages[b])
    ensures forall k :: b < k < |messages| ==> IsTool(messages[k])
  {
    if messages == [] then -1
    else if !IsTool(messages[|messages| - 1]) then |messages| - 1
    else LastOther(messages[..|messages| - 1])
  }

  /** What the pass has made sure of. */
  ghost predicate GoodSoFar(messages: seq<Json>) {
    && (forall i :: 0 <= i < |messages| ==> HasOrigin(messages, i))
    && (forall i :: 0 <= i < LastOther(messages) ==> AllAnswered(messages, i))
  }

  ghost predicate Carries(messages: seq<Json>, carry: Carry) {
    var b := LastOther(messages);
    && (forall id :: id in carry.called <==> b >= 0 && id in Calls(messages[b]))
    && (forall id :: id in carry.owed <==>
          b >= 0 && Role(messages[b]) == Str("assistant") && id in Calls(messages[b]) && !AnsweredIn(messages, b, id))
  }

  lemma {:induction false} RunsOfFront(messages: seq<Json>, i: int, j: int)
    requires messages != [] && j < |messages| - 1
    ensures InRun(messages[..|messages| - 1], i, j) <==> InRun(messages, i, j)
  {
    hide IsTool;
  }

  lemma {:induction false} OriginsOfFront(messages: seq<Json>, i: nat)
    requires messages != [] && i < |messages| - 1
    ensures HasOrigin(messages[..|messages| - 1], i) <==> HasOrigin(messages, i)
  {
    hide IsTool, Calls, Answers;
    var front := messages[..|messages| - 1];
    forall b ensures InRun(front, b, i) <==> InRun(messages, b, i) {
      RunsOfFront(messages, b, i);
    }
  }

  /** A call is answered in the longer transcript if it was, or if the run goes on to the new message that answers it. */
  lemma {:induction false} AnswersOfFront(messages: seq<Json>, i: int, id: Json)
    requires messages != []
    ensures var n := |messages| - 1;
      AnsweredIn(messages, i, id) <==>
        AnsweredIn(messages[..n], i, id) || (InRun(messages, i, n) && Answers(messages[n]) == id)
  {
    hide IsTool, Answers;
    var n := |messages| - 1;
    var front := messages[..n];
    forall j | j < n ensures InRun(front, i, j) <==> InRun(messages, i, j) {
      RunsOfFront(messages, i, j);
    }
    if AnsweredIn(messages, i, id) {
      var j :| InRun(messages, i, j) && Answers(messages[j]) == id;
      assert j < n ==> InRun(front, i, j) && front[j] == messages[j];
    }
    if AnsweredIn(front, i, id) {
      var j :| InRun(front, i, j) && Answers(front[j]) == id;
      assert InRun(messages, i, j) && front[j] == messages[j];
    }
  }

  lemma {:induction false} PassMeans(messages: seq<Json>)
    ensures PassChat(messages).Some? <==> GoodSoFar(messages)
    ensures PassChat(messages).Some? ==> Carries(messages, PassChat(messages).value)
  {
    if messages != [] {
      var n := |messages| - 1;
      var front, m := messages[..n], messages[n];
      PassMeans(front);
      if PassChat(front).Some? {
        if IsTool(m) {
          ToolStep(messages, PassChat(front).value);
        } else {
          OtherStep(messages, PassChat(front).value);
          OtherCarries(messages);
        }
      } else {
        StaysBad(messages);
      }
    }
  }

  lemma {:induction false} AnsweredOfFront(messages: seq<Json>, i: nat)
    requires messages != [] && i < LastOther(messages[..|messages| - 1])
    ensures AllAnswered(messages[..|messages| - 1], i) <==> AllAnswered(messages, i)
  {
    var n := |messages| - 1;
    var front := messages[..n];
    var b := LastOther(front);
    assert !IsTool(messages[b]) && front[i] == messages[i];
    assert !InRun(messages, i, n);
    hide IsTool, Calls, Answers, Role, InRun;
    forall id ensures AnsweredIn(messages, i, id) <==> AnsweredIn(front, i, id) {
      AnswersOfFront(messages, i, id);
    }
  }

  lemma {:induction false} StaysBad(messages: seq<Json>)
    requires messages != [] && !GoodSoFar(messages[..|messages| - 1])
    ensures !GoodSoFar(messages)
  {
    var n := |messages| - 1;
    var front := messages[..n];
    hide HasOrigin, AllAnswered;
    forall i | 0 <= i < n ensures HasOrigin(front, i) <==> HasOrigin(messages, i) {
      OriginsOfFront(messages, i);
    }
    forall i | 0 <= i < LastOther(front) ensures AllAnswered(front, i) <==> AllAnswered(messages, i) {
      AnsweredOfFront(messages, i);
    }
    assert LastOther(front) <= LastOther(messages);
  }

  /** The ids answered in the run of the last other message once one more answer joins it. */
  lemma {:induction false} OneMoreAnswer(messages: seq<Json>, b: int)
    requires messages != [] && IsTool(messages[|messages| - 1]) && b == LastOther(messages[..|messages| - 1])
    ensures LastOther(messages) == b && (b >= 0 ==> messages[b] == messages[..|messages| - 1][b])
    ensures forall id :: b >= 0 ==>
      (AnsweredIn(messages, b, id) <==>
         AnsweredIn(messages[..|messages| - 1], b, id) || Answers(messages[|messages| - 1]) == id)
  {
    var n := |messages| - 1;
    assert b >= 0 ==> InRun(messages, b, n);
    hide IsTool, Calls, Answers, Role, InRun;
    forall id ensures b >= 0 ==>
      (AnsweredIn(messages, b, id) <==> AnsweredIn(messages[..n], b, id) || Answers(messages[n]) == id)
    {
      AnswersOfFront(messages, b, id);
    }
  }

  lemma {:induction false} ToolStaysGood(messages: seq<Json>, carry: Carry)
    requires messages != [] && IsTool(messages[|messages| - 1])
    requires GoodSoFar(messages[..|messages| - 1]) && Carries(messages[..|messages| - 1], carry)
    ensures GoodSoFar(messages) <==> Answers(messages[|messages| - 1]) in carry.called
  {
    var b := LastOther(messages[..|messages| - 1]);
    OneMoreAnswer(messages, b);
    OriginOfLast(messages, b);
    FrontStaysGood(messages);
    hide IsTool, Calls, Answers, Role, InRun, HasOrigin, AllAnswered, AnsweredIn;
  }

  lemma {:induction false} ToolCarries(messages: seq<Json>, carry: Carry)
    requires messages != [] && IsTool(messages[|messages| - 1]) && Carries(messages[..|messages| - 1], carry)
    ensures Carries(messages, Carry(carry.called, carry.owed - {Answers(messages[|messages| - 1])}))
  {
    var b := LastOther(messages[..|messages| - 1]);
    OneMoreAnswer(messages, b);
    hide IsTool, Calls, Answers, Role, InRun, AnsweredIn, LastOther;
  }

  lemma {:induction false} ToolStep(messages: seq<Json>, carry: Carry)
    requires messages != [] && IsTool(messages[|messages| - 1])
    requires GoodSoFar(messages[..|messages| - 1]) && Carries(messages[..|messages| - 1], carry)
    ensures var m := messages[|messages| - 1];
      && (GoodSoFar(messages) <==> Answers(m) in carry.called)
      && Carries(messages, Carry(carry.called, carry.owed - {Answers(m)}))
  {
    hide GoodSoFar, Carries, IsTool, Answers;
    ToolStaysGood(messages, carry);
    ToolCarries(messages, carry);
  }

  lemma {:induction false} OriginOfLast(messages: seq<Json>, b: int)
    requires messages != [] && IsTool(messages[|messages| - 1]) && b == LastOther(messages)
    ensures HasOrigin(messages, |messages| - 1) <==> b >= 0 && Answers(messages[|messages| - 1]) in Calls(messages[b])
  {
    hide Calls, Answers;
    var n := |messages| - 1;
    if HasOrigin(messages, n) {
      var o :| InRun(messages, o, n) && !IsTool(messages[o]) && Answers(messages[n]) in Calls(messages[o]);
      assert o == b;
    }
    assert b >= 0 ==> InRun(messages, b, n);
  }

  lemma {:induction false} OtherCarries(messages: seq<Json>)
    requires messages != [] && !IsTool(messages[|messages| - 1])
    ensures var m := messages[|messages| - 1]; Carries(messages, Carry(SetOf(Calls(m)), Owed(m, Calls(m))))
  {
    var n := |messages| - 1;
    assert LastOther(messages) == n;
    assert forall j :: !InRun(messages, n, j);
    hide IsTool, Calls, Answers, Role, InRun;
  }

  /** The last other message's calls are all answered just when it is owed nothing. */
  lemma {:induction false} OwedNothing(messages: seq<Json>, carry: Carry)
    requires Carries(messages, carry)
    ensures carry.owed == {} <==> LastOther(messages) < 0 || AllAnswered(messages, LastOther(messages))
  {
    hide IsTool, Calls, Answers, Role, InRun, LastOther, AnsweredIn;
    if carry.owed != {} {
      var id :| id in carry.owed;
    }
  }

  lemma {:induction false} LastOtherOfFront(messages: seq<Json>)
    requires messages != [] && !IsTool(messages[|messages| - 1])
    ensures var front := messages[..|messages| - 1]; var b := LastOther(front);
      && (forall i :: b < i < |front| ==> AllAnswered(messages, i))
      && (b >= 0 ==> (AllAnswered(messages, b) <==> AllAnswered(front, b)))
  {
    var n := |messages| - 1;
    var front := messages[..n];
    var b := LastOther(front);
    forall i | b < i < n ensures AllAnswered(messages, i) {
      assert IsTool(front[i]);
    }
    assert forall i :: !InRun(messages, i, n);
    hide IsTool, Calls, Answers, Role, InRun, LastOther;
    forall id ensures b >= 0 ==> (AnsweredIn(messages, b, id) <==> AnsweredIn(front, b, id)) {
      AnswersOfFront(messages, b, id);
    }
    assert b >= 0 ==> messages[b] == front[b];
  }

  lemma NoToolHasOrigin(messages: seq<Json>, i: nat)
    requires i < |messages| && !IsTool(messages[i])
    ensures HasOrigin(messages, i)
  {}

  /** After a message that is no tool's, the pass has been good so far when all before it is. */
  lemma {:induction false} GoodAtOther(messages: seq<Json>)
    requires messages != [] && !IsTool(messages[|messages| - 1])
    ensures var n := |messages| - 1;
      GoodSoFar(messages) <==>
        (forall i :: 0 <= i < n ==> HasOrigin(messages, i)) && (forall i :: 0 <= i < n ==> AllAnswered(messages, i))
  {
    hide HasOrigin, AllAnswered;
    assert LastOther(messages) == |messages| - 1;
    NoToolHasOrigin(messages, |messages| - 1);
  }

  lemma {:induction false} FrontStaysGood(messages: seq<Json>)
    requires messages != [] && GoodSoFar(messages[..|messages| - 1])
    ensures forall i :: 0 <= i < |messages| - 1 ==> HasOrigin(messages, i)
    ensures forall i :: 0 <= i < LastOther(messages[..|messages| - 1]) ==> AllAnswered(messages, i)
  {
    hide HasOrigin, AllAnswered, LastOther, IsTool;
    forall i | 0 <= i < |messages| - 1 ensures HasOrigin(messages, i) {
      OriginsOfFront(messages, i);
    }
    forall i | 0 <= i < LastOther(messages[..|messages| - 1]) ensures AllAnswered(messages, i) {
      AnsweredOfFront(messages, i);
    }
  }

  lemma {:induction false} OtherStep(messages: seq<Json>, carry: Carry)
    requires messages != [] && !IsTool(messages[|messages| - 1])
    requires GoodSoFar(messages[..|messages| - 1]) && Carries(messages[..|messages| - 1], carry)
    ensures GoodSoFar(messages) <==> carry.owed == {}
  {
    hide HasOrigin, AllAnswered, Carries, IsTool, GoodSoFar, LastOther;
    OwedNothing(messages[..|messages| - 1], carry);
    LastOtherOfFront(messages);
    GoodAtOther(messages);
    FrontStaysGood(messages);
  }

  /** The nested scans accept just the transcripts the one pass ends with nothing owed. */
  lemma {:induction false} PassChatIsTheScans(messages: seq<Json>)
    ensures Accepted(messages) <==> PassChat(messages).Some? && PassChat(messages).value.owed == {}
  {
    PassMeans(messages);
    var b := LastOther(messages);
    forall i | b < i < |messages| ensures AllAnswered(messages, i) {
      assert IsTool(messages[i]);
    }
    if PassChat(messages).Some? {
      OwedNothing(messages, PassChat(messages).value);
    }
    hide IsTool, AllAnswered, HasOrigin, PassChat, LastOther;
  }
}
