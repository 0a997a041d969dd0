/** The prompt cache, and what each request is charged. */
module PromptCache {
  import opened Json
  import opened Requests

  datatype Lifetime = FiveMinutes | OneHour | Automatic

  datatype Usage = Usage(input: nat, output: nat, read: nat, write5m: nat, write1h: nat, reasoning: nat)
  {
    function Prompt(): nat { input + read + write5m + write1h }
  }

  type Tokens = Json -> nat

  type Held = map<Json, Lifetime>

  function Min(a: nat, b: nat): nat { if a <= b then a else b }

  // ----- Keys ---------------------------------------------------------------

  /** A prefix as the cache knows it: the marks taken out. */
  function Key(body: Fields, m: Mark): Json {
    WithoutMarks(PrefixUpTo(body, m))
  }

  function MarkKeys(body: Fields, marks: seq<Mark>): (keys: seq<Json>)
    ensures |keys| == |marks|
  {
    if marks == [] then [] else MarkKeys(body, marks[..|marks| - 1]) + [Key(body, marks[|marks| - 1])]
  }

  predicate ForAnHour(mark: Json) {
    mark.Dict? && Get(mark.fields, "ttl") == Str("1h")
  }

  ghost predicate AnyForAnHour(body: Fields, marks: seq<Mark>) {
    exists m :: m in marks && ForAnHour(MarkAt(body, m))
  }

  lemma NoneForAnHour(body: Fields)
    ensures !AnyForAnHour(body, [])
  {}

  lemma {:induction false} OneMoreForAnHour(body: Fields, marks: seq<Mark>, m: Mark)
    ensures AnyForAnHour(body, marks + [m]) <==> AnyForAnHour(body, marks) || ForAnHour(MarkAt(body, m))
  {
    hide MarkAt, ForAnHour;
    assert m in marks + [m];
    assert forall x :: x in marks + [m] <==> x in marks || x == m;
    if AnyForAnHour(body, marks) {
      var x :| x in marks && ForAnHour(MarkAt(body, x));
      assert x in marks + [m];
    }
  }

  function UpTo(body: Fields, n: nat): Json
    requires n <= |Messages(body)|
  {
    WithoutMarks(Dict(map["tools" := Get(body, "tools"), "messages" := List(Messages(body)[..n])]))
  }

  /** The prefixes at each message boundary. */
  function BoundaryKeys(body: Fields, n: nat): (keys: seq<Json>)
    requires n <= |Messages(body)|
    ensures |keys| == n
  {
    if n == 0 then [] else BoundaryKeys(body, n - 1) + [UpTo(body, n)]
  }

  function Trimmed(body: Fields): Json {
    Dict(map key | key in body && (key == "system" || key == "messages" || key == "tools") :: body[key])
  }

  // ----- What is read and what is held after --------------------------------

  /** The last of the keys that is held, as its position; -1 if none is. */
  function LatestHeld(keys: seq<Json>, held: Held): (at: int)
    ensures -1 <= at < |keys|
    ensures at >= 0 ==> keys[at] in held
    ensures forall i :: at < i < |keys| ==> keys[i] !in held
  {
    if keys == [] then -1
    else if keys[|keys| - 1] in held then |keys| - 1
    else LatestHeld(keys[..|keys| - 1], held)
  }

  function SizeAt(tokens: Tokens, keys: seq<Json>, at: int): nat
    requires -1 <= at < |keys|
  {
    if at < 0 then 0 else tokens(keys[at])
  }

  /** The keys held once all that meet the floor are stored. */
  function Storing(tokens: Tokens, held: Held, keys: seq<Json>, floor: nat, lifetime: Lifetime): Held {
    if keys == [] then held
    else
      var before := Storing(tokens, held, keys[..|keys| - 1], floor, lifetime);
      if tokens(keys[|keys| - 1]) >= floor then before[keys[|keys| - 1] := lifetime] else before
  }

  /** Storing keeps what is held and adds the keys that meet the floor, and no other. */
  lemma {:induction false} StoringHolds(
    tokens: Tokens, held: Held, keys: seq<Json>, floor: nat, lifetime: Lifetime, k: Json)
    ensures var after := Storing(tokens, held, keys, floor, lifetime);
      && (k in after <==> k in held || (k in keys && tokens(k) >= floor))
      && (k in after ==> after[k] == if k in keys && tokens(k) >= floor then lifetime else held[k])
  {
    if keys != [] {
      var front, last := keys[..|keys| - 1], keys[|keys| - 1];
      assert keys == front + [last];
      StoringHolds(tokens, held, front, floor, lifetime, k);
    }
  }

  function AnthropicRead(tokens: Tokens, held: Held, body: Fields, keys: seq<Json>): nat {
    Min(SizeAt(tokens, keys, LatestHeld(keys, held)), tokens(Trimmed(body)))
  }

  /** What is written: the last prefix over what was read, if it meets the floor and was not held. */
  function AnthropicWritten(tokens: Tokens, held: Held, body: Fields, keys: seq<Json>, floor: nat): nat {
    if keys == [] || tokens(keys[|keys| - 1]) < floor || keys[|keys| - 1] in held then 0
    else
      var over := tokens(keys[|keys| - 1]) - SizeAt(tokens, keys, LatestHeld(keys, held));
      Min(if over < 0 then 0 else over, tokens(Trimmed(body)) - AnthropicRead(tokens, held, body, keys))
  }

  /** The keys a read is looked for among: all but the whole request, unless it has only one message. */
  function Readable(keys: seq<Json>): seq<Json> {
    if |keys| <= 1 then keys else keys[..|keys| - 1]
  }

  function OpenaiRead(tokens: Tokens, held: Held, body: Fields): nat {
    var keys := Readable(BoundaryKeys(body, |Messages(body)|));
    Min(tokens(Trimmed(body)), SizeAt(tokens, keys, LatestHeld(keys, held)))
  }

  /** The keys of all the body's marks, and the lifetime they ask for. */
  ghost predicate PrefixesAt(body: Fields, marks: seq<Mark>, keys: seq<Json>, lifetime: Lifetime) {
    && AllMarks(body, marks) && keys == MarkKeys(body, marks)
    && lifetime == if AnyForAnHour(body, marks) then OneHour else FiveMinutes
  }

  // ----- The cache ----------------------------------------------------------

  class Cache {
    const tokens: Tokens
    var held: Held

    constructor (tokens: Tokens)
      ensures this.tokens == tokens && held == map[]
    {
      this.tokens := tokens;
      held := map[];
    }

    /** The last held of the keys, scanned from the end. */
    method ReadAt(keys: seq<Json>) returns (read: nat)
      ensures read == SizeAt(tokens, keys, LatestHeld(keys, held))
    {
      var i := |keys|;
      while i > 0
        invariant 0 <= i <= |keys|
        invariant LatestHeld(keys, held) == LatestHeld(keys[..i], held)
      {
        assert keys[..i][..i - 1] == keys[..i - 1];
        i := i - 1;
        if keys[i] in held {
          return tokens(keys[i]);
        }
      }
      return 0;
    }

    method Store(keys: seq<Json>, floor: nat, lifetime: Lifetime)
      modifies this
      ensures held == Storing(tokens, old(held), keys, floor, lifetime)
    {
      for n := 0 to |keys|
        invariant held == Storing(tokens, old(held), keys[..n], floor, lifetime)
      {
        assert keys[..n + 1][..n] == keys[..n];
        if tokens(keys[n]) >= floor {
          held := held[keys[n] := lifetime];
        }
      }
      assert keys[..|keys|] == keys;
    }

    /** The prefixes at the request's marks, and how long they are to be kept. */
    method MarkedPrefixes(body: Fields) returns (keys: seq<Json>, lifetime: Lifetime)
      ensures exists marks :: PrefixesAt(body, marks, keys, lifetime)
    {
      hide AllMarks, MarkAt, ForAnHour, Key, AnyForAnHour;
      var found := Breakpoints(body);
      keys, lifetime := [], FiveMinutes;
      NoneForAnHour(body);
      for n := 0 to |found|
        invariant keys == MarkKeys(body, found[..n])
        invariant lifetime == if AnyForAnHour(body, found[..n]) then OneHour else FiveMinutes
      {
        assert found[..n + 1] == found[..n] + [found[n]];
        OneMoreForAnHour(body, found[..n], found[n]);
        keys := keys + [Key(body, found[n])];
        if ForAnHour(MarkAt(body, found[n])) {
          lifetime := OneHour;
        }
      }
      assert found[..|found|] == found;
      assert PrefixesAt(body, found, keys, lifetime);
    }

    /** Reads at the longest cached mark; writes up to the last mark. */
    method Anthropic(body: Fields, output: nat, reasoning: nat, floor: nat)
      returns (usage: Usage, ghost marks: seq<Mark>)
      modifies this
      ensures AllMarks(body, marks)
      ensures held == HeldAfter(tokens, old(held), CallAt(body, marks, floor))
      ensures usage == Charge(tokens, old(held), CallAt(body, marks, floor), output, reasoning)
    {
      hide AllMarks, LatestHeld, MarkKeys, Storing, Trimmed, AnyForAnHour, BoundaryKeys;
      var total := tokens(Trimmed(body));
      var keys, lifetime;
      keys, lifetime := MarkedPrefixes(body);
      marks :| PrefixesAt(body, marks, keys, lifetime);
      var read := ReadAt(keys);
      var written := 0;
      if keys != [] {
        var last := tokens(keys[|keys| - 1]);
        if last >= floor && keys[|keys| - 1] !in held {
          written := if last > read then last - read else 0;
        }
      }
      Store(keys, floor, lifetime);
      read := Min(read, total);
      written := Min(written, total - read);
      usage := Usage(
        total - read - written, output, read,
        if lifetime == FiveMinutes then written else 0,
        if lifetime == OneHour then written else 0, reasoning);
    }

    /** A chat call reads up to the last of its messages' ends that is held. */
    method Openai(body: Fields, output: nat, reasoning: nat, floor: nat) returns (usage: Usage)
      modifies this
      ensures held == HeldAfter(tokens, old(held), ToChat(body, floor))
      ensures usage == Charge(tokens, old(held), ToChat(body, floor), output, reasoning)
    {
      var total := tokens(Trimmed(body));
      var keys := [];
      var count := |Messages(body)|;
      for n := 0 to count
        invariant keys == BoundaryKeys(body, n)
      {
        keys := keys + [UpTo(body, n + 1)];
      }
      var read := ReadAt(Readable(keys));
      read := Min(total, read);
      Store(keys, floor, Automatic);
      usage := Usage(total - read, output, read, 0, 0, reasoning);
    }
  }

  // ----- Runs of calls ------------------------------------------------------

  /** One call: to the Messages API, with the prefixes at its marks, or to a chat-completions one. */
  datatype Call =
    | ToMessages(body: Fields, keys: seq<Json>, forAnHour: bool, floor: nat)
    | ToChat(body: Fields, floor: nat)
  {
    function Prefixes(): seq<Json> {
      if ToMessages? then keys else BoundaryKeys(body, |Messages(body)|)
    }

    function Keeps(): Lifetime {
      if ToChat? then Automatic else if forAnHour then OneHour else FiveMinutes
    }
  }

  /** The call a Messages body with these marks makes. */
  ghost function CallAt(body: Fields, marks: seq<Mark>, floor: nat): Call {
    ToMessages(body, MarkKeys(body, marks), AnyForAnHour(body, marks), floor)
  }

  ghost function HeldAfter(tokens: Tokens, held: Held, c: Call): Held {
    Storing(tokens, held, c.Prefixes(), c.floor, c.Keeps())
  }

  ghost function Read(tokens: Tokens, held: Held, c: Call): nat {
    if c.ToMessages? then AnthropicRead(tokens, held, c.body, c.Prefixes()) else OpenaiRead(tokens, held, c.body)
  }

  ghost function Written(tokens: Tokens, held: Held, c: Call): nat {
    if c.ToMessages? then AnthropicWritten(tokens, held, c.body, c.Prefixes(), c.floor) else 0
  }

  ghost function Charge(tokens: Tokens, held: Held, c: Call, output: nat, reasoning: nat): Usage {
    var read, written := Read(tokens, held, c), Written(tokens, held, c);
    Usage(tokens(Trimmed(c.body)) - read - written, output, read,
      if c.Keeps() == FiveMinutes then written else 0, if c.Keeps() == OneHour then written else 0, reasoning)
  }

  /** Every prompt token is charged once: new, read, or written under one lifetime. */
  lemma {:induction false} EveryTokenIsChargedOnce(tokens: Tokens, held: Held, c: Call, output: nat, reasoning: nat)
    ensures var u := Charge(tokens, held, c, output, reasoning);
      u.Prompt() == tokens(Trimmed(c.body)) && (u.write5m == 0 || u.write1h == 0)
    ensures Charge(tokens, held, c, output, reasoning).write1h > 0 ==>
      c.ToMessages? && c.forAnHour
  {
    hide Read, AnthropicWritten;
  }

  /** What is held after the calls, from an empty cache. */
  ghost function After(tokens: Tokens, calls: seq<Call>): Held {
    if calls == [] then map[]
    else HeldAfter(tokens, After(tokens, calls[..|calls| - 1]), calls[|calls| - 1])
  }

  /** The call has the prefix among its own, at or above its floor. */
  ghost predicate Stores(tokens: Tokens, c: Call, key: Json) {
    key in c.Prefixes() && tokens(key) >= c.floor
  }

  lemma OneCallStores(tokens: Tokens, held: Held, c: Call, key: Json)
    ensures key in HeldAfter(tokens, held, c) <==> key in held || Stores(tokens, c, key)
  {
    StoringHolds(tokens, held, c.Prefixes(), c.floor, c.Keeps(), key);
  }

  /** The cache holds just the prefixes some call stored. */
  lemma {:induction false} HeldWereStored(tokens: Tokens, calls: seq<Call>, key: Json)
    ensures key in After(tokens, calls) <==> exists i :: 0 <= i < |calls| && Stores(tokens, calls[i], key)
  {
    hide Stores, HeldAfter;
    if calls != [] {
      var front, last := calls[..|calls| - 1], calls[|calls| - 1];
      assert forall i :: 0 <= i < |front| ==> front[i] == calls[i];
      HeldWereStored(tokens, front, key);
      OneCallStores(tokens, After(tokens, front), last, key);
      assert key in After(tokens, calls) <==> key in After(tokens, front) || Stores(tokens, last, key);
      hide After;
      if exists i :: 0 <= i < |front| && Stores(tokens, front[i], key) {
        var i :| 0 <= i < |front| && Stores(tokens, front[i], key);
        assert Stores(tokens, calls[i], key);
      }
      if i :| 0 <= i < |calls| && Stores(tokens, calls[i], key) {
        assert i < |front| ==> Stores(tokens, front[i], key);
      }
    }
  }

  /** Call `i` comes before call `j` and stored the prefix. */
  ghost predicate StoredBefore(tokens: Tokens, calls: seq<Call>, j: nat, key: Json)
    requires j <= |calls|
  {
    exists i :: 0 <= i < j && Stores(tokens, calls[i], key)
  }

  lemma {:induction false} HeldBefore(tokens: Tokens, calls: seq<Call>, j: nat, key: Json)
    requires j <= |calls|
    ensures key in After(tokens, calls[..j]) <==> StoredBefore(tokens, calls, j, key)
  {
    HeldWereStored(tokens, calls[..j], key);
    hide Stores, After;
    if StoredBefore(tokens, calls, j, key) {
      var i :| 0 <= i < j && Stores(tokens, calls[i], key);
      assert Stores(tokens, calls[..j][i], key);
    }
    if i :| 0 <= i < |calls[..j]| && Stores(tokens, calls[..j][i], key) {
      assert Stores(tokens, calls[i], key);
    }
  }

  /** The keys a call's read is looked for among. */
  ghost function Sought(c: Call): seq<Json> {
    if c.ToMessages? then c.Prefixes() else Readable(c.Prefixes())
  }

  /** Of the sought prefixes, the last that an earlier call stored stands at `p`; none was stored if `p` is -1. */
  ghost predicate LatestStored(tokens: Tokens, calls: seq<Call>, j: nat, keys: seq<Json>, p: int)
    requires j <= |calls|
  {
    && -1 <= p < |keys|
    && (p >= 0 ==> StoredBefore(tokens, calls, j, keys[p]))
    && (forall q :: p < q < |keys| ==> !StoredBefore(tokens, calls, j, keys[q]))
  }

  /**
   What a call reads is the last of its prefixes that an earlier call stored at or
   above that call's own floor; with none stored it reads nothing.
   */
  lemma {:induction false} ReadsTheLatestStored(tokens: Tokens, calls: seq<Call>, j: nat, p: int)
    requires j < |calls| && LatestStored(tokens, calls, j, Sought(calls[j]), p)
    ensures Read(tokens, After(tokens, calls[..j]), calls[j])
         == if p < 0 then 0 else Min(tokens(Sought(calls[j])[p]), tokens(Trimmed(calls[j].body)))
  {
    var held, keys := After(tokens, calls[..j]), Sought(calls[j]);
    forall k ensures k in held <==> StoredBefore(tokens, calls, j, k) {
      HeldBefore(tokens, calls, j, k);
    }
    assert LatestHeld(keys, held) == p by {
      hide StoredBefore, After, Read, Sought;
    }
  }

  ghost function LastKey(c: Call): Json
    requires c.Prefixes() != []
  {
    c.Prefixes()[|c.Prefixes()| - 1]
  }

  /** No prefix is charged as written twice. */
  lemma {:induction false} NoPrefixIsWrittenTwice(tokens: Tokens, calls: seq<Call>, i: nat, j: nat)
    requires i < j < |calls|
    requires Written(tokens, After(tokens, calls[..i]), calls[i]) > 0
    requires Written(tokens, After(tokens, calls[..j]), calls[j]) > 0
    ensures calls[i].Prefixes() != [] && calls[j].Prefixes() != []
    ensures LastKey(calls[i]) != LastKey(calls[j])
  {
    assert Stores(tokens, calls[i], LastKey(calls[i]));
    HeldBefore(tokens, calls, j, LastKey(calls[i]));
    assert StoredBefore(tokens, calls, j, LastKey(calls[i]));
  }

  /** Once a last prefix has met the floor, a call that ends in it writes nothing and reads all of it. */
  lemma {:induction false} RepeatingWritesNothing(tokens: Tokens, calls: seq<Call>, i: nat, j: nat)
    requires i < j < |calls| && calls[j].ToMessages?
    requires calls[i].Prefixes() != [] && calls[j].Prefixes() != [] && LastKey(calls[i]) == LastKey(calls[j])
    requires tokens(LastKey(calls[i])) >= calls[i].floor
    ensures var held := After(tokens, calls[..j]);
      && Written(tokens, held, calls[j]) == 0
      && Read(tokens, held, calls[j]) == Min(tokens(LastKey(calls[j])), tokens(Trimmed(calls[j].body)))
  {
    hide After, Read, BoundaryKeys, LatestHeld, SizeAt;
    var keys := calls[j].Prefixes();
    assert Stores(tokens, calls[i], LastKey(calls[i]));
    assert StoredBefore(tokens, calls, j, LastKey(calls[i]));
    HeldBefore(tokens, calls, j, LastKey(calls[i]));
    assert Sought(calls[j]) == keys && LatestStored(tokens, calls, j, keys, |keys| - 1);
    ReadsTheLatestStored(tokens, calls, j, |keys| - 1);
  }

  // ----- Conversations that grow --------------------------------------------

  /** A prefix stored before is read, or a later one of the call's is. */
  lemma {:induction false} ReadsAtLeastThere(tokens: Tokens, calls: seq<Call>, j: nat, p: nat) returns (q: nat)
    requires j < |calls| && p < |Sought(calls[j])|
    requires StoredBefore(tokens, calls, j, Sought(calls[j])[p])
    ensures p <= q < |Sought(calls[j])|
    ensures Read(tokens, After(tokens, calls[..j]), calls[j])
         == Min(tokens(Sought(calls[j])[q]), tokens(Trimmed(calls[j].body)))
  {
    hide StoredBefore, After, Read, Sought;
    var keys := Sought(calls[j]);
    q := |keys| - 1;
    while !StoredBefore(tokens, calls, j, keys[q])
      invariant p <= q < |keys|
      invariant forall k :: q < k < |keys| ==> !StoredBefore(tokens, calls, j, keys[k])
      decreases q
    {
      q := q - 1;
    }
    ReadsTheLatestStored(tokens, calls, j, q);
  }

  /** The bodies agree on tools and on their first messages, marks aside. */
  ghost predicate SameUpTo(a: Fields, b: Fields, n: nat) {
    && WithoutMarks(Get(a, "tools")) == WithoutMarks(Get(b, "tools"))
    && n <= |Messages(a)| && n <= |Messages(b)|
    && AllWithoutMarks(Messages(a)[..n]) == AllWithoutMarks(Messages(b)[..n])
  }

  lemma {:induction false} UpToIgnoresMarks(a: Fields, b: Fields, n: nat)
    requires SameUpTo(a, b, n)
    ensures UpTo(a, n) == UpTo(b, n)
  {
    hide AllWithoutMarks, Get, Messages;
    var x := map["tools" := Get(a, "tools"), "messages" := List(Messages(a)[..n])];
    var y := map["tools" := Get(b, "tools"), "messages" := List(Messages(b)[..n])];
    assert forall key :: key in x && key != MARK ==> WithoutMarks(x[key]) == WithoutMarks(y[key]);
    assert UpTo(a, n).fields == UpTo(b, n).fields;
  }

  lemma {:induction false} BoundaryKeyAt(body: Fields, n: nat, i: nat)
    requires i < n <= |Messages(body)|
    ensures BoundaryKeys(body, n)[i] == UpTo(body, i + 1)
  {
    if i < n - 1 {
      BoundaryKeyAt(body, n - 1, i);
    }
  }

  /**
   A chat that went on is read back: when a call repeats all the messages of an
   earlier one and adds to them, it reads those messages or more.
   */
  lemma {:induction false} GrowingChatIsRead(tokens: Tokens, calls: seq<Call>, i: nat, j: nat) returns (n: nat)
    requires i < j < |calls| && calls[i].ToChat? && calls[j].ToChat?
    requires 0 < |Messages(calls[i].body)| < |Messages(calls[j].body)|
    requires SameUpTo(calls[i].body, calls[j].body, |Messages(calls[i].body)|)
    requires tokens(UpTo(calls[i].body, |Messages(calls[i].body)|)) >= calls[i].floor
    ensures |Messages(calls[i].body)| <= n < |Messages(calls[j].body)|
    ensures Read(tokens, After(tokens, calls[..j]), calls[j])
         == Min(tokens(UpTo(calls[j].body, n)), tokens(Trimmed(calls[j].body)))
  {
    hide After, Read, SameUpTo, UpTo, Messages;
    var a, b := calls[i].body, calls[j].body;
    var m := |Messages(a)|;
    UpToIgnoresMarks(a, b, m);
    BoundaryKeyAt(a, m, m - 1);
    BoundaryKeyAt(b, |Messages(b)|, m - 1);
    assert Stores(tokens, calls[i], UpTo(a, m));
    assert StoredBefore(tokens, calls, j, Sought(calls[j])[m - 1]);
    var q := ReadsAtLeastThere(tokens, calls, j, m - 1);
    BoundaryKeyAt(b, |Messages(b)|, q);
    n := q + 1;
  }

  lemma {:induction false} MarkKeyAt(body: Fields, marks: seq<Mark>, p: nat)
    requires p < |marks|
    ensures MarkKeys(body, marks)[p] == Key(body, marks[p])
  {
    if p < |marks| - 1 {
      MarkKeyAt(body, marks[..|marks| - 1], p);
    }
  }

  /** Cutting a message and taking its marks out can be done in either order. */
  lemma {:induction false} CutIgnoresMarks(message: Json, n: nat)
    ensures WithoutMarks(CutAfter(message, n)) == CutAfter(WithoutMarks(message), n)
  {
    var fields := FieldsOf(message);
    if Get(fields, "content").List? {
      var items := fields["content"].items;
      if n + 1 <= |items| {
        AllWithoutMarksTake(items, n + 1);
      }
      assert WithoutMarks(CutAfter(message, n)).fields == CutAfter(WithoutMarks(message), n).fields;
    }
  }

  /** The bodies agree, marks aside, on tools, system and messages up to block `n` of message `i`. */
  ghost predicate SameThrough(a: Fields, b: Fields, i: nat, n: nat) {
    && AllWithoutMarks(Tools(a)) == AllWithoutMarks(Tools(b))
    && WithoutMarks(Get(a, "system")) == WithoutMarks(Get(b, "system"))
    && i < |Messages(a)| && i < |Messages(b)|
    && AllWithoutMarks(Messages(a)[..i]) == AllWithoutMarks(Messages(b)[..i])
    && CutAfter(WithoutMarks(Messages(a)[i]), n) == CutAfter(WithoutMarks(Messages(b)[i]), n)
  }

  lemma {:induction false} KeyAtBlock(body: Fields, i: nat, n: nat)
    requires i < |Messages(body)|
    ensures Key(body, OnBlock(i, n)) == Dict(map[
        "tools" := List(AllWithoutMarks(Tools(body))),
        "system" := WithoutMarks(Get(body, "system")),
        "messages" := List(AllWithoutMarks(Messages(body)[..i]) + [CutAfter(WithoutMarks(Messages(body)[i]), n)])])
  {
    hide CutAfter, Messages, Tools, Get, AllWithoutMarks;
    CutIgnoresMarks(Messages(body)[i], n);
    var head, last := Messages(body)[..i], CutAfter(Messages(body)[i], n);
    AllWithoutMarksConcat(head, [last]);
    assert AllWithoutMarks([last]) == [WithoutMarks(last)];
    ThreeFieldsWithoutMarks(List(Tools(body)), Get(body, "system"), List(head + [last]));
  }

  lemma {:induction false} KeyOfSame(a: Fields, b: Fields, i: nat, n: nat)
    requires SameThrough(a, b, i, n)
    ensures Key(a, OnBlock(i, n)) == Key(b, OnBlock(i, n))
  {
    hide CutAfter, Messages, Tools, Get, AllWithoutMarks, Key, WithoutMarks;
    KeyAtBlock(a, i, n);
    KeyAtBlock(b, i, n);
  }

  /**
   A marked block that an earlier call stored is read, or something after it is:
   wherever other marks stood, came or went in the part before it.
   */
  lemma {:induction false} MarkedBlockIsRead(
    tokens: Tokens, calls: seq<Call>, i: nat, j: nat,
    marksThen: seq<Mark>, marksNow: seq<Mark>, message: nat, n: nat, p: nat) returns (q: nat)
    requires i < j < |calls|
    requires calls[i] == CallAt(calls[i].body, marksThen, calls[i].floor)
    requires calls[j] == CallAt(calls[j].body, marksNow, calls[j].floor)
    requires SameThrough(calls[i].body, calls[j].body, message, n)
    requires OnBlock(message, n) in marksThen && p < |marksNow| && marksNow[p] == OnBlock(message, n)
    requires tokens(Key(calls[i].body, OnBlock(message, n))) >= calls[i].floor
    ensures p <= q < |marksNow|
    ensures Read(tokens, After(tokens, calls[..j]), calls[j])
         == Min(tokens(Key(calls[j].body, marksNow[q])), tokens(Trimmed(calls[j].body)))
  {
    hide After, Read, SameThrough, Key, AnyForAnHour;
    KeyOfSame(calls[i].body, calls[j].body, message, n);
    var k :| 0 <= k < |marksThen| && marksThen[k] == OnBlock(message, n);
    MarkKeyAt(calls[i].body, marksThen, k);
    MarkKeyAt(calls[j].body, marksNow, p);
    assert Stores(tokens, calls[i], Key(calls[i].body, OnBlock(message, n)));
    q := ReadsAtLeastThere(tokens, calls, j, p);
    MarkKeyAt(calls[j].body, marksNow, q);
  }
}
