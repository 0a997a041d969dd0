/** What a call is charged, in any run. */
module Charges {
  // The sizes read and written, said of what earlier calls stored and of the fields of
  // the requests, not of how they are computed.

  import opened Json
  import opened Requests
  import opened PromptCache

  /** What call `j` of a run is charged. */
  ghost function ChargeOf(tokens: Tokens, calls: seq<Call>, j: nat, output: nat, reasoning: nat): Usage
    requires j < |calls|
  {
    Charge(tokens, After(tokens, calls[..j]), calls[j], output, reasoning)
  }

  /** The whole request's size: of its system prompt, messages and tools. */
  ghost function Total(tokens: Tokens, body: Fields): nat {
    tokens(Dict(map key | key in body && key in {"system", "messages", "tools"} :: body[key]))
  }

  lemma TotalIsTrimmed(tokens: Tokens, body: Fields)
    ensures Total(tokens, body) == tokens(Trimmed(body))
  {
    assert (map key | key in body && key in {"system", "messages", "tools"} :: body[key]) == Trimmed(body).fields;
  }

  function Max(a: nat, b: nat): nat { if a < b then b else a }

  /** A call's size is shared out among input, read and written; the output and the reasoning are what was given. */
  lemma {:induction false} ChargedAsGiven(tokens: Tokens, calls: seq<Call>, j: nat, output: nat, reasoning: nat)
    requires j < |calls|
    ensures var u := ChargeOf(tokens, calls, j, output, reasoning);
      u.input + u.read + u.write5m + u.write1h == Total(tokens, calls[j].body) && u.output == output && u.reasoning == reasoning
  {
    EveryTokenIsChargedOnce(tokens, After(tokens, calls[..j]), calls[j], output, reasoning);
    TotalIsTrimmed(tokens, calls[j].body);
    hide Read, Written, After;
  }

  // ----- How much is written ------------------------------------------------

  /** A Messages call whose last prefix meets its floor and was stored by no earlier call. */
  ghost predicate BringsNew(tokens: Tokens, calls: seq<Call>, j: nat)
    requires j < |calls|
  {
    && calls[j].ToMessages? && calls[j].keys != []
    && tokens(calls[j].keys[|calls[j].keys| - 1]) >= calls[j].floor
    && !StoredBefore(tokens, calls, j, calls[j].keys[|calls[j].keys| - 1])
  }

  lemma {:induction false} WrittenInAll(tokens: Tokens, held: Held, c: Call)
    requires c.ToMessages? && c.keys != []
    requires tokens(c.keys[|c.keys| - 1]) >= c.floor && c.keys[|c.keys| - 1] !in held
    ensures Read(tokens, held, c) + Written(tokens, held, c)
         == Min(tokens(Trimmed(c.body)), Max(tokens(c.keys[|c.keys| - 1]), SizeAt(tokens, c.keys, LatestHeld(c.keys, held))))
  {
    hide LatestHeld, Trimmed, SizeAt;
  }

  lemma LatestIsHeld(tokens: Tokens, calls: seq<Call>, j: nat, p: int)
    requires j < |calls| && LatestStored(tokens, calls, j, Sought(calls[j]), p)
    ensures LatestHeld(Sought(calls[j]), After(tokens, calls[..j])) == p
  {
    var held, keys := After(tokens, calls[..j]), Sought(calls[j]);
    forall k ensures k in held <==> StoredBefore(tokens, calls, j, k) {
      HeldBefore(tokens, calls, j, k);
    }
    hide StoredBefore, After, Sought;
  }

  /**
   A Messages call that brings a new last prefix reads and writes up to the end of
   that prefix, or of what it reads where that is larger, within the request's size.
   Any other call writes nothing.
   */
  lemma {:induction false} WritesExactly(tokens: Tokens, calls: seq<Call>, j: nat, p: int, output: nat, reasoning: nat)
    requires j < |calls| && LatestStored(tokens, calls, j, Sought(calls[j]), p)
    ensures var u, c := ChargeOf(tokens, calls, j, output, reasoning), calls[j];
      if BringsNew(tokens, calls, j) then
        |Sought(c)| == |c.keys| && p < |c.keys|
        && u.read + u.write5m + u.write1h
           == Min(Total(tokens, c.body), Max(tokens(c.keys[|c.keys| - 1]), if p < 0 then 0 else tokens(c.keys[p])))
      else u.write5m == 0 && u.write1h == 0
  {
    var held, c := After(tokens, calls[..j]), calls[j];
    TotalIsTrimmed(tokens, c.body);
    LatestIsHeld(tokens, calls, j, p);
    if c.ToMessages? && c.keys != [] {
      HeldBefore(tokens, calls, j, c.keys[|c.keys| - 1]);
    }
    hide StoredBefore, After, Trimmed, LatestHeld, AnthropicRead;
    if BringsNew(tokens, calls, j) {
      WrittenInAll(tokens, held, c);
    }
    KindsOfWrite(tokens, held, c, output, reasoning);
  }

  lemma KindsOfWrite(tokens: Tokens, held: Held, c: Call, output: nat, reasoning: nat)
    ensures var u := Charge(tokens, held, c, output, reasoning);
      u.read == Read(tokens, held, c) && u.write5m + u.write1h == Written(tokens, held, c)
  {
    hide Read, AnthropicWritten;
  }

  /** All that is written is written for an hour where some mark asks for one, and none of it is where none does. */
  lemma {:induction false} WrittenForAnHourExactly(tokens: Tokens, calls: seq<Call>, j: nat, output: nat, reasoning: nat)
    requires j < |calls| && calls[j].ToMessages?
    ensures var u := ChargeOf(tokens, calls, j, output, reasoning);
      if calls[j].forAnHour then u.write5m == 0 else u.write1h == 0
  {
    hide Read, Written, After;
  }

  // ----- Marks that ask for an hour -----------------------------------------

  /** The value holds a cache mark that is a dictionary and asks for an hour. */
  ghost predicate AsksForAnHour(j: Json) {
    && j.Dict? && "cache_control" in j.fields && j.fields["cache_control"].Dict?
    && "ttl" in j.fields["cache_control"].fields && j.fields["cache_control"].fields["ttl"] == Str("1h")
  }

  /** One of the tools, the system blocks, the blocks of a message or the body itself asks for an hour. */
  ghost predicate SomethingAsks(body: Fields) {
    || (exists n :: 0 <= n < |ListAt(body, "tools")| && AsksForAnHour(ListAt(body, "tools")[n]))
    || (exists n :: 0 <= n < |ListAt(body, "system")| && AsksForAnHour(ListAt(body, "system")[n]))
    || (exists i :: 0 <= i < |ListAt(body, "messages")| && BlockAsks(ListAt(body, "messages")[i]))
    || AsksForAnHour(Dict(body))
  }

  ghost predicate BlockAsks(message: Json) {
    message.Dict? && exists k :: 0 <= k < |ListAt(message.fields, "content")| && AsksForAnHour(ListAt(message.fields, "content")[k])
  }

  lemma AskingIsHeld(fields: Fields)
    ensures AsksForAnHour(Dict(fields)) <==> Marked(fields) && ForAnHour(Get(fields, MARK))
  {}

  lemma {:induction false} BlocksAsk(message: Json)
    ensures BlockAsks(message) <==>
      exists n :: 0 <= n < |Blocks(message)| && Marked(Blocks(message)[n]) && ForAnHour(Get(Blocks(message)[n], MARK))
  {
    var items := Items(Get(FieldsOf(message), "content"));
    DictsAreCounted(items);
    assert message.Dict? ==> ListAt(message.fields, "content") == items;
    assert !message.Dict? ==> Blocks(message) == [] by { NoDicts(); }
    hide Marked, ForAnHour, DictsIn, AsksForAnHour;
    if BlockAsks(message) {
      var k :| 0 <= k < |items| && AsksForAnHour(items[k]);
      assert items[k].Dict? by { AsksOfDict(items[k]); }
      AskingIsHeld(items[k].fields);
      assert Blocks(message)[DictCount(items[..k])] == items[k].fields;
    }
    if n :| 0 <= n < |Blocks(message)| && Marked(Blocks(message)[n]) && ForAnHour(Get(Blocks(message)[n], MARK)) {
      assert message.Dict?;
      var k := NthDict(items, n);
      AskingIsHeld(items[k].fields);
      assert AsksForAnHour(ListAt(message.fields, "content")[k]);
    }
  }

  lemma AsksOfDict(j: Json)
    requires AsksForAnHour(j)
    ensures j.Dict?
  {}

  lemma DictOf(j: Json)
    ensures AsksForAnHour(j) <==> Marked(FieldsOf(j)) && ForAnHour(Get(FieldsOf(j), MARK))
  {
    if j.Dict? {
      AskingIsHeld(j.fields);
    }
  }

  /** The call of a body asks for an hour exactly when something in the body does. */
  lemma {:induction false} ForAnHourExactly(body: Fields, marks: seq<Mark>, floor: nat)
    requires AllMarks(body, marks)
    ensures CallAt(body, marks, floor).forAnHour <==> SomethingAsks(body)
  {
    hide InOrder, Marked, ForAnHour, AsksForAnHour, Blocks, BlockAsks;
    assert forall key :: ListAt(body, key) == Items(Get(body, key));
    AskingIsHeld(body);
    forall n | 0 <= n < |Tools(body)|
      ensures AsksForAnHour(Tools(body)[n]) <==> OnTool(n) in marks && ForAnHour(MarkAt(body, OnTool(n)))
    {
      DictOf(Tools(body)[n]);
    }
    forall n | 0 <= n < |Items(Get(body, "system"))|
      ensures AsksForAnHour(Items(Get(body, "system"))[n]) <==> OnSystem(n) in marks && ForAnHour(MarkAt(body, OnSystem(n)))
    {
      DictOf(Items(Get(body, "system"))[n]);
    }
    forall i | 0 <= i < |Messages(body)|
      ensures BlockAsks(Messages(body)[i]) <==> exists n: nat :: OnBlock(i, n) in marks && ForAnHour(MarkAt(body, OnBlock(i, n)))
    {
      BlocksAsk(Messages(body)[i]);
      if BlockAsks(Messages(body)[i]) {
        var n: nat :| n < |Blocks(Messages(body)[i])| && Marked(Blocks(Messages(body)[i])[n])
          && ForAnHour(Get(Blocks(Messages(body)[i])[n], MARK));
        assert OnBlock(i, n) in marks;
      }
    }
    assert AsksForAnHour(Dict(body)) <==> OnRequest in marks && ForAnHour(MarkAt(body, OnRequest));
    if AnyForAnHour(body, marks) {
      var m :| m in marks && ForAnHour(MarkAt(body, m));
      hide MarkAt;
      assert IsSet(body, m);
      match m
      case OnTool(n) => assert AsksForAnHour(ListAt(body, "tools")[n]);
      case OnSystem(n) => assert AsksForAnHour(ListAt(body, "system")[n]);
      case OnBlock(i, n) => assert BlockAsks(ListAt(body, "messages")[i]);
      case OnRequest =>
    }
    if SomethingAsks(body) {
      hide MarkAt, IsSet;
      assert ListAt(body, "tools") == Tools(body) && ListAt(body, "messages") == Messages(body);
      assert ListAt(body, "system") == Items(Get(body, "system"));
      if n :| 0 <= n < |Tools(body)| && AsksForAnHour(Tools(body)[n]) {
        assert OnTool(n) in marks;
      } else if n :| 0 <= n < |Items(Get(body, "system"))| && AsksForAnHour(Items(Get(body, "system"))[n]) {
        assert OnSystem(n) in marks;
      } else if i :| 0 <= i < |Messages(body)| && BlockAsks(Messages(body)[i]) {
        var n: nat :| OnBlock(i, n) in marks && ForAnHour(MarkAt(body, OnBlock(i, n)));
      } else {
        assert AsksForAnHour(Dict(body));
        assert OnRequest in marks;
      }
    }
  }

  // ----- The prefixes of a call ---------------------------------------------

  /** A chat call's prefixes are its first messages, one more each time; a Messages call's, what its marks close. */
  lemma {:induction false} PrefixesAre(body: Fields, marks: seq<Mark>, floor: nat, key: Json)
    ensures key in ToChat(body, floor).Prefixes() <==> exists n :: 1 <= n <= |Messages(body)| && key == UpTo(body, n)
    ensures key in CallAt(body, marks, floor).Prefixes() <==> exists m :: m in marks && key == Key(body, m)
  {
    hide UpTo, Key;
    var ends, keys := ToChat(body, floor).Prefixes(), CallAt(body, marks, floor).Prefixes();
    forall i | 0 <= i < |ends| ensures ends[i] == UpTo(body, i + 1) {
      BoundaryKeyAt(body, |Messages(body)|, i);
    }
    forall n | 1 <= n <= |Messages(body)| ensures UpTo(body, n) in ends {
      assert ends[n - 1] == UpTo(body, n);
    }
    forall i | 0 <= i < |marks| ensures keys[i] == Key(body, marks[i]) {
      MarkKeyAt(body, marks, i);
    }
  }

  /** The value of a field of a body, marks aside; null where it has none. */
  ghost function At(body: Fields, key: string): Json {
    if key in body then WithoutMarks(body[key]) else Null
  }

  /** What is cached at the end of the first messages is those messages and the tools, and nothing else. */
  lemma {:induction false} UpToExactly(a: Fields, m: nat, b: Fields, n: nat)
    requires m <= |Messages(a)| && n <= |Messages(b)|
    ensures UpTo(a, m) == UpTo(b, n) <==>
      At(a, "tools") == At(b, "tools") && AllWithoutMarks(Messages(a)[..m]) == AllWithoutMarks(Messages(b)[..n])
  {
    UpToIs(a, m);
    UpToIs(b, n);
    hide AllWithoutMarks, UpTo, WithoutMarks;
    var x, y := UpTo(a, m).fields, UpTo(b, n).fields;
    if UpTo(a, m) == UpTo(b, n) {
      assert x["tools"] == y["tools"] && x["messages"] == y["messages"];
    }
  }

  lemma {:induction false} UpToIs(body: Fields, n: nat)
    requires n <= |Messages(body)|
    ensures UpTo(body, n) == Dict(map["tools" := At(body, "tools"), "messages" := List(AllWithoutMarks(Messages(body)[..n]))])
  {
    var whole := map["tools" := Get(body, "tools"), "messages" := List(Messages(body)[..n])];
    DictWithoutMarks(whole);
    ListWithoutMarks(Messages(body)[..n]);
    assert At(body, "tools") == WithoutMarks(Get(body, "tools"));
    hide WithoutMarks, AllWithoutMarks;
    assert UpTo(body, n).fields == map key | key in whole :: WithoutMarks(whole[key]);
  }

  lemma OneFieldWithoutMarks(tools: Json)
    ensures WithoutMarks(Dict(map["tools" := tools])) == Dict(map["tools" := WithoutMarks(tools)])
  {
    var one := map["tools" := tools];
    DictWithoutMarks(one);
    hide WithoutMarks;
    assert (map key | key in one :: WithoutMarks(one[key])) == map["tools" := WithoutMarks(tools)];
  }

  lemma TwoFieldsWithoutMarks(tools: Json, system: Json)
    ensures WithoutMarks(Dict(map["tools" := tools, "system" := system]))
         == Dict(map["tools" := WithoutMarks(tools), "system" := WithoutMarks(system)])
  {
    var two := map["tools" := tools, "system" := system];
    DictWithoutMarks(two);
    hide WithoutMarks;
    assert (map key | key in two :: WithoutMarks(two[key])) == map["tools" := WithoutMarks(tools), "system" := WithoutMarks(system)];
  }

  /** What a mark on a tool closes: the tools up to it. */
  lemma {:induction false} KeyOfTool(body: Fields, n: nat)
    ensures Key(body, OnTool(n)) == Dict(map["tools" := List(AllWithoutMarks(Take(Tools(body), n + 1)))])
  {
    OneFieldWithoutMarks(List(Take(Tools(body), n + 1)));
    ListWithoutMarks(Take(Tools(body), n + 1));
    hide WithoutMarks, AllWithoutMarks, Tools, Take;
  }

  /** What a mark on a system block closes: the tools, and the blocks up to it. */
  lemma {:induction false} KeyOfSystem(body: Fields, n: nat)
    ensures Key(body, OnSystem(n)) == Dict(map[
      "tools" := List(AllWithoutMarks(Tools(body))), "system" := List(AllWithoutMarks(Take(Items(Get(body, "system")), n + 1)))])
  {
    var system := Take(Items(Get(body, "system")), n + 1);
    TwoFieldsWithoutMarks(List(Tools(body)), List(system));
    ListWithoutMarks(Tools(body));
    ListWithoutMarks(system);
    hide WithoutMarks, AllWithoutMarks, Get, Tools, Items, Take;
  }

  /** What a mark on the request itself closes: tools, system prompt and all messages; with no message, one empty one. */
  lemma {:induction false} KeyOfRequest(body: Fields)
    ensures Key(body, OnRequest) == Dict(map[
      "tools" := List(AllWithoutMarks(Tools(body))), "system" := WithoutMarks(Get(body, "system")),
      "messages" := List(if Messages(body) == [] then [Dict(map[])] else AllWithoutMarks(Messages(body)))])
  {
    var all := if Messages(body) == [] then [Dict(map[])] else Messages(body);
    ThreeFieldsWithoutMarks(List(Tools(body)), Get(body, "system"), List(all));
    ListWithoutMarks(Tools(body));
    ListWithoutMarks(all);
    EmptyDictIsUnmarked();
    hide WithoutMarks, Get, Tools, Messages;
  }

  lemma EmptyDictIsUnmarked()
    ensures AllWithoutMarks([Dict(map[])]) == [Dict(map[])]
  {
    assert WithoutMarks(Dict(map[])).fields == map[];
  }

  /** A message cut after a block keeps its other fields and, of a list of blocks, those up to it. */
  lemma CutKeeps(message: Json, n: nat)
    ensures var cut := CutAfter(message, n);
      && cut.Dict? && cut.fields.Keys == FieldsOf(message).Keys
      && (forall key | key in cut.fields && key != "content" :: cut.fields[key] == FieldsOf(message)[key])
      && ("content" in cut.fields ==>
            var content := FieldsOf(message)["content"];
            cut.fields["content"] == if content.List? then List(Take(content.items, n + 1)) else content)
  {}

  lemma TakenAre(items: seq<Json>, n: nat)
    ensures |Take(items, n)| == Min(n, |items|) && Take(items, n) <= items
  {}

  // ----- What a chat reads --------------------------------------------------

  /** The most messages a chat call can read: all but the last, or the only one. */
  function MostReadable(body: Fields): nat {
    if |Messages(body)| <= 1 then |Messages(body)| else |Messages(body)| - 1
  }

  /** `n` is the most of them that an earlier call stored; 0 if it stored none. */
  ghost predicate MostStored(tokens: Tokens, calls: seq<Call>, j: nat, n: nat)
    requires j < |calls|
  {
    var body := calls[j].body;
    && n <= MostReadable(body)
    && (n > 0 ==> StoredBefore(tokens, calls, j, UpTo(body, n)))
    && forall k | n < k <= MostReadable(body) :: !StoredBefore(tokens, calls, j, UpTo(body, k))
  }

  /** A chat call reads the most of its messages that an earlier call stored, short of the last unless it is the only one, and writes nothing. */
  lemma {:induction false} ChatReadsExactly(tokens: Tokens, calls: seq<Call>, j: nat, n: nat, output: nat, reasoning: nat)
    requires j < |calls| && calls[j].ToChat? && MostStored(tokens, calls, j, n)
    ensures var u, body := ChargeOf(tokens, calls, j, output, reasoning), calls[j].body;
      && u.read == (if n == 0 then 0 else Min(tokens(UpTo(body, n)), Total(tokens, body)))
      && u.write5m == 0 && u.write1h == 0
  {
    var body := calls[j].body;
    TotalIsTrimmed(tokens, body);
    SoughtInChat(calls[j]);
    hide UpTo, StoredBefore, After, Trimmed, Sought, MostReadable, Messages;
    assert LatestStored(tokens, calls, j, Sought(calls[j]), n - 1);
    ReadsTheLatestStored(tokens, calls, j, n - 1);
    KindsOfWrite(tokens, After(tokens, calls[..j]), calls[j], output, reasoning);
  }

  lemma {:induction false} SoughtInChat(c: Call)
    requires c.ToChat?
    ensures |Sought(c)| == MostReadable(c.body) <= |Messages(c.body)|
    ensures forall k :: 0 <= k < |Sought(c)| ==> Sought(c)[k] == UpTo(c.body, k + 1)
  {
    hide UpTo;
    forall k | 0 <= k < |Sought(c)| ensures Sought(c)[k] == UpTo(c.body, k + 1) {
      BoundaryKeyAt(c.body, |Messages(c.body)|, k);
    }
  }

  // ----- A second mark ------------------------------------------------------

  /** The first marked prefix, of 2000, was stored; the second, of 3000, was not; of 3500 in all, 1000 are written and 500 are input. */
  lemma {:induction false} OnlyTheRestIsWritten(tokens: Tokens, first: Fields, second: Fields, a: Json, b: Json)
    requires a != b && tokens(a) == 2000 && tokens(b) == 3000 && Total(tokens, second) == 3500
    ensures var calls := [ToMessages(first, [a], false, 1024), ToMessages(second, [a, b], false, 1024)];
      ChargeOf(tokens, calls, 1, 7, 0) == Usage(500, 7, 2000, 1000, 0, 0)
  {
    var calls := [ToMessages(first, [a], false, 1024), ToMessages(second, [a, b], false, 1024)];
    assert Stores(tokens, calls[0], a) && !Stores(tokens, calls[0], b);
    assert StoredBefore(tokens, calls, 1, a) && !StoredBefore(tokens, calls, 1, b);
    hide After, StoredBefore, Total;
    assert Sought(calls[1]) == [a, b];
    assert LatestStored(tokens, calls, 1, Sought(calls[1]), 0);
    TotalIsTrimmed(tokens, second);
    ReadsTheLatestStored(tokens, calls, 1, 0);
    WritesExactly(tokens, calls, 1, 0, 7, 0);
    WrittenForAnHourExactly(tokens, calls, 1, 7, 0);
    ChargedAsGiven(tokens, calls, 1, 7, 0);
    KindsOfWrite(tokens, After(tokens, calls[..1]), calls[1], 7, 0);
    hide Charge, Sought;
  }
}
