/** A request body: its messages and their blocks, the places its cache marks stand at, and what each closes. */
module Requests {
  import opened Json

  type Fields = map<string, Json>

  function FieldsOf(j: Json): Fields {
    if j.Dict? then j.fields else map[]
  }

  function Messages(body: Fields): seq<Json> { Items(Get(body, "messages")) }

  function Tools(body: Fields): seq<Json> { Items(Get(body, "tools")) }

  function DictsIn(items: seq<Json>): (dicts: seq<Fields>)
    ensures |dicts| <= |items|
  {
    if items == [] then []
    else if items[|items| - 1].Dict? then DictsIn(items[..|items| - 1]) + [items[|items| - 1].fields]
    else DictsIn(items[..|items| - 1])
  }

  /** The content blocks of a message; a message of plain text has none. */
  function Blocks(message: Json): seq<Fields> {
    DictsIn(Items(Get(FieldsOf(message), "content")))
  }

  function Role(message: Json): Json { Get(FieldsOf(message), "role") }

  function Kind(block: Fields): Json { Get(block, "type") }

  predicate Marked(fields: Fields) { Truthy(Get(fields, MARK)) }

  // ----- Cache marks --------------------------------------------------------

  datatype Mark =
    | OnTool(n: nat)
    | OnSystem(n: nat)
    | OnBlock(message: nat, n: nat)
    | OnRequest

  /** The mark is set. */
  predicate IsSet(body: Fields, m: Mark) {
    match m
    case OnTool(n) => n < |Tools(body)| && Marked(FieldsOf(Tools(body)[n]))
    case OnSystem(n) =>
      var system := Items(Get(body, "system"));
      n < |system| && Marked(FieldsOf(system[n]))
    case OnBlock(i, n) =>
      i < |Messages(body)| && n < |Blocks(Messages(body)[i])| && Marked(Blocks(Messages(body)[i])[n])
    case OnRequest => Marked(body)
  }

  /** The order the marks are met in. */
  predicate Before(a: Mark, b: Mark) {
    match a
    case OnTool(n) => b.OnTool? ==> n < b.n
    case OnSystem(n) => !b.OnTool? && (b.OnSystem? ==> n < b.n)
    case OnBlock(i, n) => !b.OnTool? && !b.OnSystem? && (b.OnBlock? ==> i < b.message || (i == b.message && n < b.n))
    case OnRequest => false
  }

  ghost predicate InOrder(marks: seq<Mark>) {
    forall i, j :: 0 <= i < j < |marks| ==> Before(marks[i], marks[j])
  }

  /** The marks are just those that are set and come before `end`, each once and in order. */
  ghost predicate MarksUpTo(body: Fields, marks: seq<Mark>, end: Mark) {
    && InOrder(marks)
    && (forall m :: m in marks <==> IsSet(body, m) && Before(m, end))
  }

  /** Every mark, each once and in order. */
  ghost predicate AllMarks(body: Fields, marks: seq<Mark>) {
    && InOrder(marks)
    && (forall m :: m in marks <==> IsSet(body, m))
  }

  /** The marks of the tools, the system prompt, the messages, and the request itself. */
  method Breakpoints(body: Fields) returns (marks: seq<Mark>)
    ensures AllMarks(body, marks)
  {
    hide MarksUpTo, IsSet;
    marks := ToolMarks(body);
    marks := SystemMarks(body, marks);
    marks := MessageMarks(body, marks);
    ghost var before := marks;
    if Marked(body) {
      marks := marks + [OnRequest];
    }
    LastMark(body, before, marks);
  }

  method ToolMarks(body: Fields) returns (marks: seq<Mark>)
    ensures MarksUpTo(body, marks, OnSystem(0))
  {
    marks := [];
    var tools := Tools(body);
    for n := 0 to |tools|
      invariant MarksUpTo(body, marks, OnTool(n))
    {
      ghost var before := marks;
      if Marked(FieldsOf(tools[n])) {
        marks := marks + [OnTool(n)];
      }
    }
  }

  method SystemMarks(body: Fields, given: seq<Mark>) returns (marks: seq<Mark>)
    requires MarksUpTo(body, given, OnSystem(0))
    ensures MarksUpTo(body, marks, OnBlock(0, 0))
  {
    marks := given;
    var system := Items(Get(body, "system"));
    for n := 0 to |system|
      invariant MarksUpTo(body, marks, OnSystem(n))
    {
      ghost var before := marks;
      if Marked(FieldsOf(system[n])) {
        marks := marks + [OnSystem(n)];
      }
    }
  }

  method MessageMarks(body: Fields, given: seq<Mark>) returns (marks: seq<Mark>)
    requires MarksUpTo(body, given, OnBlock(0, 0))
    ensures MarksUpTo(body, marks, OnRequest)
  {
    marks := given;
    var messages := Messages(body);
    for i := 0 to |messages|
      invariant MarksUpTo(body, marks, OnBlock(i, 0))
    {
      var blocks := Blocks(messages[i]);
      for n := 0 to |blocks|
        invariant MarksUpTo(body, marks, OnBlock(i, n))
      {
        ghost var before := marks;
        if Marked(blocks[n]) {
          marks := marks + [OnBlock(i, n)];
        }
      }
    }
  }

  lemma {:induction false} LastMark(body: Fields, marks: seq<Mark>, more: seq<Mark>)
    requires MarksUpTo(body, marks, OnRequest)
    requires more == if Marked(body) then marks + [OnRequest] else marks
    ensures AllMarks(body, more)
  {
    assert forall m :: IsSet(body, m) ==> Before(m, OnRequest) || m == OnRequest;
    forall i, j | 0 <= i < j < |more| ensures Before(more[i], more[j]) {
      if j == |marks| {
        assert more[i] in marks;
      }
    }
  }

  /** A body's marks are one sequence: in order and each once leaves no choice. */
  lemma {:induction false} MarksAreOne(body: Fields, a: seq<Mark>, b: seq<Mark>)
    requires AllMarks(body, a) && AllMarks(body, b)
    ensures a == b
  {
    SameInOrder(a, b);
  }

  lemma BeforeIsStrict(a: Mark, b: Mark)
    requires Before(a, b)
    ensures !Before(b, a) && a != b
  {}

  lemma {:induction false} InRest(a: seq<Mark>, m: Mark)
    requires InOrder(a) && a != []
    ensures m in a[1..] <==> m in a && m != a[0]
  {
    hide Before;
    forall i | 1 <= i < |a| ensures a[i] != a[0] {
      assert Before(a[0], a[i]);
      BeforeIsStrict(a[0], a[i]);
    }
    assert a == [a[0]] + a[1..];
  }

  lemma {:induction false} FirstIsBefore(a: seq<Mark>, m: Mark)
    requires InOrder(a) && m in a
    ensures m == a[0] || Before(a[0], m)
  {
    hide Before;
    var i :| 0 <= i < |a| && a[i] == m;
  }

  lemma SomeMark(a: seq<Mark>) returns (m: Mark)
    requires a != []
    ensures m in a
  {
    m := a[0];
  }

  lemma {:induction false} SameInOrder(a: seq<Mark>, b: seq<Mark>)
    requires InOrder(a) && InOrder(b) && forall m :: m in a <==> m in b
    ensures a == b
  {
    hide Before, InOrder;
    if a != [] && b != [] {
      FirstIsBefore(a, b[0]);
      FirstIsBefore(b, a[0]);
      assert a[0] == b[0] by {
        if a[0] != b[0] {
          BeforeIsStrict(a[0], b[0]);
        }
      }
      forall m ensures m in a[1..] <==> m in b[1..] {
        InRest(a, m);
        InRest(b, m);
      }
      RestInOrder(a);
      RestInOrder(b);
      SameInOrder(a[1..], b[1..]);
    } else if a != [] {
      var m := SomeMark(a);
    } else if b != [] {
      var m := SomeMark(b);
    }
  }

  lemma RestInOrder(a: seq<Mark>)
    requires InOrder(a) && a != []
    ensures InOrder(a[1..])
  {
    hide Before;
  }

  // ----- Where marks stand --------------------------------------------------

  /** The value holds a cache mark: it has the field, and the field is neither null, false, zero nor empty. */
  ghost predicate HoldsMark(j: Json) {
    j.Dict? && "cache_control" in j.fields
    && j.fields["cache_control"] !in {Null, Bool(false), Number(0), Str(""), List([]), Dict(map[])}
  }

  lemma HoldingIsMarked(j: Json)
    ensures HoldsMark(j) <==> j.Dict? && Marked(j.fields)
    ensures HoldsMark(j) ==> Marked(FieldsOf(j))
    ensures Marked(FieldsOf(j)) ==> HoldsMark(j)
  {}

  /** The items of a list field of the body; of any other field, none. */
  ghost function ListAt(fields: Fields, key: string): seq<Json> {
    if key in fields && fields[key].List? then fields[key].items else []
  }

  /** How many of the items are dictionaries. */
  function DictCount(items: seq<Json>): nat {
    if items == [] then 0 else DictCount(items[..|items| - 1]) + if items[|items| - 1].Dict? then 1 else 0
  }

  /** The `n`-th dictionary of the items, from 0, holds a cache mark. */
  ghost predicate NthHoldsMark(items: seq<Json>, n: nat) {
    exists k :: 0 <= k < |items| && DictCount(items[..k]) == n && HoldsMark(items[k])
  }

  lemma {:induction false} DictsAreCounted(items: seq<Json>)
    ensures |DictsIn(items)| == DictCount(items)
    ensures forall k :: 0 <= k < |items| && items[k].Dict? ==>
      DictCount(items[..k]) < |DictsIn(items)| && DictsIn(items)[DictCount(items[..k])] == items[k].fields
  {
    if items != [] {
      var front := items[..|items| - 1];
      DictsAreCounted(front);
      assert forall k :: 0 <= k <= |front| ==> front[..k] == items[..k];
    }
  }

  lemma {:induction false} NthDict(items: seq<Json>, n: nat) returns (k: nat)
    requires n < DictCount(items)
    ensures k < |items| && items[k].Dict? && DictCount(items[..k]) == n
  {
    var front, last := items[..|items| - 1], items[|items| - 1];
    if n < DictCount(front) {
      k := NthDict(front, n);
      assert front[..k] == items[..k];
    } else {
      k := |items| - 1;
    }
  }

  lemma {:induction false} NthIsMarked(items: seq<Json>, n: nat)
    ensures NthHoldsMark(items, n) <==> n < |DictsIn(items)| && Marked(DictsIn(items)[n])
  {
    DictsAreCounted(items);
    hide Truthy;
    if n < |DictsIn(items)| {
      var k := NthDict(items, n);
      HoldingIsMarked(items[k]);
    }
    forall k | 0 <= k < |items| && DictCount(items[..k]) == n && HoldsMark(items[k])
      ensures n < |DictsIn(items)| && Marked(DictsIn(items)[n])
    {
      HoldingIsMarked(items[k]);
    }
  }

  /** All the marks of a body are the cache marks its tools, system blocks, message blocks and the body itself hold. */
  lemma {:induction false} MarksAreThoseHeld(body: Fields, marks: seq<Mark>, m: Mark)
    requires AllMarks(body, marks)
    ensures m in marks <==>
      match m
      case OnTool(n) => n < |ListAt(body, "tools")| && HoldsMark(ListAt(body, "tools")[n])
      case OnSystem(n) => n < |ListAt(body, "system")| && HoldsMark(ListAt(body, "system")[n])
      case OnBlock(i, n) =>
        i < |ListAt(body, "messages")| && ListAt(body, "messages")[i].Dict?
        && NthHoldsMark(ListAt(ListAt(body, "messages")[i].fields, "content"), n)
      case OnRequest => HoldsMark(Dict(body))
  {
    hide InOrder, Marked, HoldsMark, Truthy, NthHoldsMark, DictsIn;
    assert forall key :: ListAt(body, key) == Items(Get(body, key));
    match m
    case OnTool(n) =>
      if n < |Tools(body)| {
        HoldingIsMarked(Tools(body)[n]);
      }
    case OnSystem(n) =>
      if n < |Items(Get(body, "system"))| {
        HoldingIsMarked(Items(Get(body, "system"))[n]);
      }
    case OnBlock(i, n) =>
      if i < |Messages(body)| {
        var message := Messages(body)[i];
        NthIsMarked(Items(Get(FieldsOf(message), "content")), n);
        assert message.Dict? ==> ListAt(message.fields, "content") == Items(Get(FieldsOf(message), "content"));
        assert !message.Dict? ==> Blocks(message) == [] by { NoDicts(); }
      }
    case OnRequest =>
      HoldingIsMarked(Dict(body));
  }

  lemma NoDicts()
    ensures DictsIn([]) == []
  {}

  // ----- What a mark closes -------------------------------------------------

  function Take(items: seq<Json>, n: nat): seq<Json> {
    if n <= |items| then items[..n] else items
  }

  /** The message with its content cut after block `n`. */
  function CutAfter(message: Json, n: nat): Json {
    var fields := FieldsOf(message);
    if Get(fields, "content").List? then Dict(fields["content" := List(Take(Get(fields, "content").items, n + 1))])
    else Dict(fields)
  }

  /** The part of the request up to the mark. */
  function PrefixUpTo(body: Fields, m: Mark): Json {
    var tools := Tools(body);
    var messages := Messages(body);
    match m
    case OnTool(n) => Dict(map["tools" := List(Take(tools, n + 1))])
    case OnSystem(n) => Dict(map["tools" := List(tools), "system" := List(Take(Items(Get(body, "system")), n + 1))])
    case OnBlock(i, n) =>
      var last := if i < |messages| then CutAfter(messages[i], n) else Dict(map[]);
      Dict(map["tools" := List(tools), "system" := Get(body, "system"), "messages" := List(Take(messages, i) + [last])])
    case OnRequest =>
      var all := if messages == [] then [Dict(map[])] else messages;
      Dict(map["tools" := List(tools), "system" := Get(body, "system"), "messages" := List(all)])
  }

  /** The mark itself, where one is set. */
  function MarkAt(body: Fields, m: Mark): Json {
    if !IsSet(body, m) then Null
    else
      match m
      case OnTool(n) => Get(FieldsOf(Tools(body)[n]), MARK)
      case OnSystem(n) => Get(FieldsOf(Items(Get(body, "system"))[n]), MARK)
      case OnBlock(i, n) => Get(Blocks(Messages(body)[i])[n], MARK)
      case OnRequest => Get(body, MARK)
  }
}
