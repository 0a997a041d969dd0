/** The two rules of tool calls and answers, read off the transcript itself, item by item. */
module TranscriptRules {
  import opened Wrappers
  import opened Json
  import opened Requests
  import opened Transcripts

  /** The field holds the value; a field that is not there reads as null. */
  ghost predicate Reads(item: Json, key: string, value: Json) {
    item.Dict? && value == if key in item.fields then item.fields[key] else Null
  }

  ghost predicate HasRole(message: Json, role: string) {
    message.Dict? && "role" in message.fields && message.fields["role"] == Str(role)
  }

  /** The list the field of the message holds; of any other field, nothing. */
  ghost function ListIn(message: Json, key: string): seq<Json> {
    if message.Dict? then ListAt(message.fields, key) else []
  }

  ghost predicate IsBlock(item: Json, kind: string, key: string, id: Json) {
    Reads(item, "type", Str(kind)) && Reads(item, key, id)
  }

  /** Some block of the content is of that type and has that id under the key. */
  ghost predicate HasBlock(message: Json, kind: string, key: string, id: Json) {
    exists k :: 0 <= k < |ListIn(message, "content")| && IsBlock(ListIn(message, "content")[k], kind, key, id)
  }

  ghost predicate CallsTool(message: Json, id: Json) { HasBlock(message, "tool_use", "id", id) }

  ghost predicate GivesResult(message: Json, id: Json) { HasBlock(message, "tool_result", "tool_use_id", id) }

  /** Some call of the message has that id. */
  ghost predicate CallsFor(message: Json, id: Json) {
    exists k :: 0 <= k < |ListIn(message, "tool_calls")| && Reads(ListIn(message, "tool_calls")[k], "id", id)
  }

  lemma RoleIs(message: Json, role: string)
    ensures Role(message) == Str(role) <==> HasRole(message, role)
  {}

  lemma ListIs(message: Json, key: string)
    ensures Items(Get(FieldsOf(message), key)) == ListIn(message, key)
  {}

  lemma {:induction false} IdsAre(blocks: seq<Fields>, kind: string, key: string, id: Json)
    ensures id in IdsOf(blocks, kind, key) <==>
      exists n :: 0 <= n < |blocks| && IsBlock(Dict(blocks[n]), kind, key, id)
  {
    if blocks != [] {
      IdsAre(blocks[1..], kind, key, id);
      assert forall n :: 1 <= n < |blocks| ==> blocks[n] == blocks[1..][n - 1];
    }
  }

  /** The blocks are the dictionaries of the content. */
  lemma {:induction false} BlocksAre(message: Json, kind: string, key: string, id: Json)
    ensures id in IdsOf(Blocks(message), kind, key) <==> HasBlock(message, kind, key, id)
  {
    var items := ListIn(message, "content");
    ListIs(message, "content");
    IdsAre(DictsIn(items), kind, key, id);
    DictsAreCounted(items);
    hide DictsIn, DictCount, IdsOf, ListIn;
    if n :| 0 <= n < |DictsIn(items)| && IsBlock(Dict(DictsIn(items)[n]), kind, key, id) {
      var k := NthDict(items, n);
      assert IsBlock(items[k], kind, key, id);
    }
    if k :| 0 <= k < |items| && IsBlock(items[k], kind, key, id) {
      assert Dict(DictsIn(items)[DictCount(items[..k])]) == items[k];
    }
  }

  lemma {:induction false} CallIdsAre(calls: seq<Fields>, id: Json)
    ensures id in IdsIn(calls) <==> exists n :: 0 <= n < |calls| && Reads(Dict(calls[n]), "id", id)
  {
    if calls != [] {
      CallIdsAre(calls[1..], id);
      assert forall n :: 1 <= n < |calls| ==> calls[n] == calls[1..][n - 1];
    }
  }

  lemma {:induction false} CallsAre(message: Json, id: Json)
    ensures id in Calls(message) <==> CallsFor(message, id)
  {
    var items := ListIn(message, "tool_calls");
    ListIs(message, "tool_calls");
    CallIdsAre(DictsIn(items), id);
    DictsAreCounted(items);
    hide DictsIn, DictCount, IdsIn, ListIn;
    if n :| 0 <= n < |DictsIn(items)| && Reads(Dict(DictsIn(items)[n]), "id", id) {
      var k := NthDict(items, n);
      assert Reads(items[k], "id", id);
    }
    if k :| 0 <= k < |items| && Reads(items[k], "id", id) {
      assert Dict(DictsIn(items)[DictCount(items[..k])]) == items[k];
    }
  }

  // ----- The Messages API ---------------------------------------------------

  /** A call of an assistant turn that is not the last is answered in the next turn, a user's. */
  ghost predicate CallAnswered(messages: seq<Json>, i: int, id: Json) {
    0 <= i < |messages| - 1 && HasRole(messages[i], "assistant") && CallsTool(messages[i], id) ==>
      HasRole(messages[i + 1], "user") && GivesResult(messages[i + 1], id)
  }

  /** A result answers a call of the message before it. */
  ghost predicate ResultCalled(messages: seq<Json>, i: int, id: Json) {
    0 <= i < |messages| && GivesResult(messages[i], id) ==> i > 0 && CallsTool(messages[i - 1], id)
  }

  /** A transcript is well paired just when every call and every result in it has its partner next to it. */
  lemma {:induction false} WellPairedExactly(messages: seq<Json>)
    ensures WellPaired(messages) <==> forall i, id :: CallAnswered(messages, i, id) && ResultCalled(messages, i, id)
  {
    hide Role, HasRole, HasBlock, Uses, Results;
    forall i, id | 0 <= i < |messages|
      ensures Role(messages[i]) == Str("assistant") <==> HasRole(messages[i], "assistant")
      ensures Role(messages[i]) == Str("user") <==> HasRole(messages[i], "user")
      ensures id in Uses(messages[i]) <==> CallsTool(messages[i], id)
      ensures id in Results(messages[i]) <==> GivesResult(messages[i], id)
    {
      MessageIs(messages[i], id);
    }
    forall i | 0 <= i < |messages|
      ensures AnsweredNext(messages, i) <==> forall id :: CallAnswered(messages, i, id)
      ensures CalledBefore(messages, i) <==> forall id :: ResultCalled(messages, i, id)
    {
      if forall id :: CallAnswered(messages, i, id) {
        forall id | id in Uses(messages[i]) ensures CallAnswered(messages, i, id) {}
      }
      if forall id :: ResultCalled(messages, i, id) {
        forall id | id in Results(messages[i]) ensures ResultCalled(messages, i, id) {}
      }
    }
    if WellPaired(messages) {
      forall i, id ensures CallAnswered(messages, i, id) && ResultCalled(messages, i, id) {
        assert 0 <= i < |messages| ==> AnsweredNext(messages, i) && CalledBefore(messages, i);
      }
    }
  }

  lemma MessageIs(message: Json, id: Json)
    ensures forall role :: Role(message) == Str(role) <==> HasRole(message, role)
    ensures id in Uses(message) <==> CallsTool(message, id)
    ensures id in Results(message) <==> GivesResult(message, id)
    ensures id in Calls(message) <==> CallsFor(message, id)
  {
    BlocksAre(message, "tool_use", "id", id);
    BlocksAre(message, "tool_result", "tool_use_id", id);
    CallsAre(message, id);
  }

  // ----- Chat completions ---------------------------------------------------

  /** Message `j` stands in the run of tool messages after `i`, and answers that id. */
  ghost predicate AnswerIn(messages: seq<Json>, i: int, j: int, id: Json) {
    && 0 <= i < j < |messages|
    && (forall k :: i < k <= j ==> HasRole(messages[k], "tool"))
    && Replies(messages[j], id)
  }

  /** The id the message answers. */
  ghost predicate Replies(message: Json, id: Json) {
    id == if message.Dict? && "tool_call_id" in message.fields then message.fields["tool_call_id"] else Null
  }

  /** Message `b` is the one the run of tool messages up to `i` follows, and calls for that id. */
  ghost predicate CallBefore(messages: seq<Json>, b: int, i: int, id: Json) {
    && 0 <= b < i < |messages| && !HasRole(messages[b], "tool") && CallsFor(messages[b], id)
    && forall k :: b < k <= i ==> HasRole(messages[k], "tool")
  }

  ghost predicate ChatCallAnswered(messages: seq<Json>, i: int, id: Json) {
    0 <= i < |messages| && HasRole(messages[i], "assistant") && CallsFor(messages[i], id) ==>
      exists j :: AnswerIn(messages, i, j, id)
  }

  ghost predicate ToolCalled(messages: seq<Json>, i: int, id: Json) {
    0 <= i < |messages| && HasRole(messages[i], "tool") && Replies(messages[i], id) ==>
      exists b :: CallBefore(messages, b, i, id)
  }

  lemma ToolIs(messages: seq<Json>)
    ensures forall k :: 0 <= k < |messages| ==> (IsTool(messages[k]) <==> HasRole(messages[k], "tool"))
    ensures forall k, id :: 0 <= k < |messages| ==> (id == Answers(messages[k]) <==> Replies(messages[k], id))
  {}

  lemma {:induction false} AnsweredAt(messages: seq<Json>, i: nat)
    requires i < |messages|
    ensures AllAnswered(messages, i) <==> forall id :: ChatCallAnswered(messages, i, id)
  {
    ToolIs(messages);
    hide Role, HasRole, CallsFor, Calls, IsTool, Answers, Replies;
    forall id
      ensures Role(messages[i]) == Str("assistant") <==> HasRole(messages[i], "assistant")
      ensures id in Calls(messages[i]) <==> CallsFor(messages[i], id)
    {
      MessageIs(messages[i], id);
    }
    forall id
      ensures ChatCallAnswered(messages, i, id) <==>
        (Role(messages[i]) == Str("assistant") && id in Calls(messages[i]) ==> AnsweredIn(messages, i, id))
    {
      if AnsweredIn(messages, i, id) {
        var j :| InRun(messages, i, j) && Answers(messages[j]) == id;
        assert AnswerIn(messages, i, j, id);
      }
      if j :| AnswerIn(messages, i, j, id) {
        assert InRun(messages, i, j) && Answers(messages[j]) == id;
      }
    }
  }

  lemma {:induction false} OriginAt(messages: seq<Json>, i: nat)
    requires i < |messages|
    ensures HasOrigin(messages, i) <==> forall id :: ToolCalled(messages, i, id)
  {
    ToolIs(messages);
    hide Role, HasRole, CallsFor, Calls, IsTool, Answers, Replies;
    var id := Answers(messages[i]);
    forall b ensures InRun(messages, b, i) && !IsTool(messages[b]) && id in Calls(messages[b]) <==> CallBefore(messages, b, i, id) {
      if 0 <= b < |messages| {
        MessageIs(messages[b], id);
      }
    }
    hide InRun, CallBefore;
    assert HasOrigin(messages, i) <==> ToolCalled(messages, i, id);
    assert forall other :: other != id ==> ToolCalled(messages, i, other);
  }

  /** A chat is accepted just when every call is answered in the run after it and every tool message was called for. */
  lemma {:induction false} AcceptedExactly(messages: seq<Json>)
    ensures Accepted(messages) <==> forall i, id :: ChatCallAnswered(messages, i, id) && ToolCalled(messages, i, id)
  {
    hide HasRole, CallsFor, AllAnswered, HasOrigin, Replies;
    forall i | 0 <= i < |messages|
      ensures AllAnswered(messages, i) <==> forall id :: ChatCallAnswered(messages, i, id)
      ensures HasOrigin(messages, i) <==> forall id :: ToolCalled(messages, i, id)
    {
      AnsweredAt(messages, i);
      OriginAt(messages, i);
    }
    assert forall i, id :: !(0 <= i < |messages|) ==> ChatCallAnswered(messages, i, id) && ToolCalled(messages, i, id);
    hide ChatCallAnswered, ToolCalled;
    if Accepted(messages) {
      forall i, id ensures ChatCallAnswered(messages, i, id) && ToolCalled(messages, i, id) {
        assert 0 <= i < |messages| ==> AllAnswered(messages, i) && HasOrigin(messages, i);
      }
    }
  }

  // ----- A turn with two calls ----------------------------------------------

  function UseBlock(id: string): Json { Dict(map["type" := Str("tool_use"), "id" := Str(id)]) }

  function ResultBlock(id: string): Json { Dict(map["type" := Str("tool_result"), "tool_use_id" := Str(id)]) }

  function Turn(role: string, content: seq<Json>): Json { Dict(map["role" := Str(role), "content" := List(content)]) }

  /** A turn that calls twice and is answered once is refused, for its second call. */
  lemma {:induction false} TheSecondCallIsUnanswered() returns (messages: seq<Json>)
    ensures messages == [Turn("assistant", [UseBlock("a"), UseBlock("b")]), Turn("user", [ResultBlock("a")])]
    ensures forall refusal :: Names(messages, refusal) ==> refusal.Unanswered? && refusal.message == 1
    ensures forall refusal, id :: Names(messages, refusal) ==> (id in refusal.ids <==> id == Str("b"))
    ensures !WellPaired(messages)
  {
    messages := [Turn("assistant", [UseBlock("a"), UseBlock("b")]), Turn("user", [ResultBlock("a")])];
    forall id
      ensures id in Uses(messages[0]) <==> id in [Str("a"), Str("b")]
      ensures id in Results(messages[1]) <==> id == Str("a")
    {
      MessageIs(messages[0], id);
      MessageIs(messages[1], id);
      assert ListIn(messages[0], "content") == [UseBlock("a"), UseBlock("b")];
      assert ListIn(messages[1], "content") == [ResultBlock("a")];
    }
    assert Role(messages[0]) == Str("assistant");
    hide Uses, Results, Role, Turn, UseBlock, ResultBlock;
    assert Str("b") in Uses(messages[0]) && Str("b") !in Results(messages[1]);
    assert !AnsweredNext(messages, 0);
  }
}
