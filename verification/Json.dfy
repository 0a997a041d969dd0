/** Parsed JSON as the requests hold it, what Python takes for true, and the cache marks taken out of it at every depth. */
module Json {
  datatype Json =
    | Null
    | Bool(b: bool)
    | Number(n: int)
    | Str(text: string)
    | List(items: seq<Json>)
    | Dict(fields: map<string, Json>)

  const MARK := "cache_control"

  /** Whether Python takes the value for true. */
  predicate Truthy(j: Json) {
    match j
    case Null => false
    case Bool(b) => b
    case Number(n) => n != 0
    case Str(text) => text != ""
    case List(items) => items != []
    case Dict(fields) => fields != map[]
  }

  function Get(fields: map<string, Json>, key: string): Json {
    if key in fields then fields[key] else Null
  }

  function Items(j: Json): seq<Json> {
    if j.List? then j.items else []
  }

  /** The text of a field that holds one; anything else reads as empty. */
  function Text(j: Json): string {
    if j.Str? then j.text else ""
  }

  /** The value with every cache mark taken out, at every depth. */
  function WithoutMarks(j: Json): Json {
    match j
    case List(items) => List(AllWithoutMarks(items))
    case Dict(fields) => Dict(map key | key in fields && key != MARK :: WithoutMarks(fields[key]))
    case _ => j
  }

  function AllWithoutMarks(items: seq<Json>): (r: seq<Json>)
    ensures |r| == |items| && forall i :: 0 <= i < |items| ==> r[i] == WithoutMarks(items[i])
  {
    if items == [] then [] else [WithoutMarks(items[0])] + AllWithoutMarks(items[1..])
  }

  /** No cache mark anywhere. */
  predicate Unmarked(j: Json) {
    match j
    case List(items) => forall i :: 0 <= i < |items| ==> Unmarked(items[i])
    case Dict(fields) => MARK !in fields && forall key :: key in fields ==> Unmarked(fields[key])
    case _ => true
  }

  lemma {:induction false} WithoutMarksIsUnmarked(j: Json)
    ensures Unmarked(WithoutMarks(j))
  {
    match j
    case List(items) =>
      forall i | 0 <= i < |items| ensures Unmarked(WithoutMarks(items[i])) {
        WithoutMarksIsUnmarked(items[i]);
      }
    case Dict(fields) =>
      forall key | key in fields && key != MARK ensures Unmarked(WithoutMarks(fields[key])) {
        WithoutMarksIsUnmarked(fields[key]);
      }
    case _ =>
  }

  lemma {:induction false} UnmarkedIsKept(j: Json)
    requires Unmarked(j)
    ensures WithoutMarks(j) == j
  {
    match j
    case List(items) =>
      forall i | 0 <= i < |items| ensures WithoutMarks(items[i]) == items[i] {
        UnmarkedIsKept(items[i]);
      }
    case Dict(fields) =>
      forall key | key in fields ensures WithoutMarks(fields[key]) == fields[key] {
        UnmarkedIsKept(fields[key]);
      }
    case _ =>
  }

  /** The one value is the other with nothing taken out but the cache marks. */
  ghost predicate OnlyMarksOut(j: Json, r: Json) {
    match j
    case List(items) =>
      r.List? && |r.items| == |items| && forall i :: 0 <= i < |items| ==> OnlyMarksOut(items[i], r.items[i])
    case Dict(fields) =>
      r.Dict? && (forall key :: key in r.fields <==> key in fields && key != "cache_control")
      && forall key :: key in fields && key in r.fields ==> OnlyMarksOut(fields[key], r.fields[key])
    case _ => r == j
  }

  /** Stripping takes out the cache marks and leaves everything else as it stands. */
  lemma {:induction false} OnlyMarksAreTaken(j: Json, r: Json)
    ensures OnlyMarksOut(j, r) <==> r == WithoutMarks(j)
    decreases j
  {
    match j
    case List(items) =>
      if r.List? && |r.items| == |items| {
        forall i | 0 <= i < |items| ensures OnlyMarksOut(items[i], r.items[i]) <==> r.items[i] == WithoutMarks(items[i]) {
          OnlyMarksAreTaken(items[i], r.items[i]);
        }
        assert r == WithoutMarks(j) <==> r.items == AllWithoutMarks(items);
      }
    case Dict(fields) =>
      if r.Dict? {
        forall key | key in fields && key in r.fields
          ensures OnlyMarksOut(fields[key], r.fields[key]) <==> r.fields[key] == WithoutMarks(fields[key])
        {
          OnlyMarksAreTaken(fields[key], r.fields[key]);
        }
        assert r == WithoutMarks(j) <==> r.fields == WithoutMarks(j).fields;
      }
    case _ =>
  }

  lemma {:induction false} AllWithoutMarksConcat(a: seq<Json>, b: seq<Json>)
    ensures AllWithoutMarks(a + b) == AllWithoutMarks(a) + AllWithoutMarks(b)
  {}

  lemma {:induction false} AllWithoutMarksTake(a: seq<Json>, n: nat)
    requires n <= |a|
    ensures AllWithoutMarks(a[..n]) == AllWithoutMarks(a)[..n]
  {}

  lemma {:induction false} ThreeFieldsWithoutMarks(tools: Json, system: Json, messages: Json)
    ensures WithoutMarks(Dict(map["tools" := tools, "system" := system, "messages" := messages]))
         == Dict(map["tools" := WithoutMarks(tools), "system" := WithoutMarks(system), "messages" := WithoutMarks(messages)])
  {
    var whole := map["tools" := tools, "system" := system, "messages" := messages];
    DictWithoutMarks(whole);
    hide WithoutMarks;
    MapOverThree(tools, system, messages, j => WithoutMarks(j));
  }

  lemma MapOverThree(tools: Json, system: Json, messages: Json, f: Json -> Json)
    ensures var whole := map["tools" := tools, "system" := system, "messages" := messages];
      (map key | key in whole :: f(whole[key]))
      == map["tools" := f(tools), "system" := f(system), "messages" := f(messages)]
  {}

  lemma {:induction false} DictWithoutMarks(fields: map<string, Json>)
    requires MARK !in fields
    ensures WithoutMarks(Dict(fields)) == Dict(map key | key in fields :: WithoutMarks(fields[key]))
  {
    assert WithoutMarks(Dict(fields)).fields == map key | key in fields :: WithoutMarks(fields[key]);
  }

  lemma ListWithoutMarks(items: seq<Json>)
    ensures WithoutMarks(List(items)) == List(AllWithoutMarks(items))
  {}
}
