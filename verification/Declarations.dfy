/** Tool declarations, interned. */
module Declarations {
  // Block by block, what the releases shipped is kept as versions and states: a
  // declaration, trimmed of its defaults, is a version of its tool, and a state
  // gives each tool the index of one.

  /** A JSON value of a declaration's field; `Null` is what an absent field reads as. */
  datatype Value = Null | Json(text: string)

  datatype Declaration = Declaration(fields: map<string, Value>)

  /** What one release shipped for one block. */
  type Shipped = map<string, Declaration>

  /** A release and what it shipped for the block at hand, trimmed or not. */
  datatype Entry = Entry(commit: string, tools: Shipped)

  // ----- Equal values -------------------------------------------------------

  /** What a value counts as: two values are equal when they count as the same, as `1` and `true` do. */
  type Canon = Value -> Value

  function Canonical(canon: Canon, declaration: Declaration): Declaration {
    Declaration(map field | field in declaration.fields :: canon(declaration.fields[field]))
  }

  /** Equal as the script compares them: the same fields with equal values. */
  predicate Alike(canon: Canon, a: Declaration, b: Declaration) {
    Canonical(canon, a) == Canonical(canon, b)
  }

  /** The same tools, each declared alike. */
  ghost predicate AllAlike(canon: Canon, a: Shipped, b: Shipped) {
    a.Keys == b.Keys && forall tool | tool in a :: Alike(canon, a[tool], b[tool])
  }

  // ----- Trimming -----------------------------------------------------------

  function Get(declaration: Declaration, field: string): Value {
    if field in declaration.fields then declaration.fields[field] else Null
  }

  /** The fields that differ from their default. */
  function Trimmed(canon: Canon, declaration: Declaration, defaults: Declaration): Declaration {
    Declaration(map field |
      field in declaration.fields && canon(Get(defaults, field)) != canon(declaration.fields[field]) ::
      declaration.fields[field])
  }

  function TrimmedTools(canon: Canon, tools: Shipped, defaults: Declaration): Shipped {
    map tool | tool in tools :: Trimmed(canon, tools[tool], defaults)
  }

  /** A declaration completed with the defaults of the fields it does not state. */
  function Completed(declaration: Declaration, defaults: Declaration): Declaration {
    Declaration(defaults.fields + declaration.fields)
  }

  /** No field outside the defaults counts as null. */
  predicate NoStrayNull(canon: Canon, declaration: Declaration, defaults: Declaration) {
    forall field | field in declaration.fields && field !in defaults.fields ::
      canon(declaration.fields[field]) != canon(Null)
  }

  /**
   Trimming loses nothing exactly when no field outside the defaults is null: an
   absent default reads as null, so such a field is dropped and not restored.
   */
  lemma {:induction false} TrimmingIsLossless(canon: Canon, declaration: Declaration, defaults: Declaration)
    ensures Alike(canon, Completed(Trimmed(canon, declaration, defaults), defaults), Completed(declaration, defaults))
       <==> NoStrayNull(canon, declaration, defaults)
  {
    var whole := Canonical(canon, Completed(declaration, defaults)).fields;
    var back := Canonical(canon, Completed(Trimmed(canon, declaration, defaults), defaults)).fields;
    if NoStrayNull(canon, declaration, defaults) {
      assert back.Keys == whole.Keys;
      assert forall field :: field in whole ==> back[field] == whole[field];
    } else {
      var field :| field in declaration.fields && field !in defaults.fields
        && canon(declaration.fields[field]) == canon(Null);
      assert field in whole && field !in back;
    }
  }

  /** Every field that equals its default has the very value of the default. */
  predicate StatesDefaultsAsTheyAre(canon: Canon, declaration: Declaration, defaults: Declaration) {
    forall field | field in declaration.fields && canon(Get(defaults, field)) == canon(declaration.fields[field]) ::
      field in defaults.fields && defaults.fields[field] == declaration.fields[field]
  }

  /** Trimming gives the very values back exactly when no field equals its default in another form. */
  lemma {:induction false} TrimmingIsExact(canon: Canon, declaration: Declaration, defaults: Declaration)
    ensures Completed(Trimmed(canon, declaration, defaults), defaults) == Completed(declaration, defaults)
       <==> StatesDefaultsAsTheyAre(canon, declaration, defaults)
  {
    var whole := Completed(declaration, defaults).fields;
    var back := Completed(Trimmed(canon, declaration, defaults), defaults).fields;
    if StatesDefaultsAsTheyAre(canon, declaration, defaults) {
      assert back.Keys == whole.Keys;
      assert forall field :: field in whole ==> back[field] == whole[field];
    } else {
      var field :| field in declaration.fields && canon(Get(defaults, field)) == canon(declaration.fields[field])
        && !(field in defaults.fields && defaults.fields[field] == declaration.fields[field]);
      assert field in whole && (field in back ==> back[field] != whole[field]);
    }
  }

  /** A null field the defaults do not have is dropped for good, whatever else is equal. */
  lemma {:induction false} ANullFieldIsLost(canon: Canon) returns (declaration: Declaration, defaults: Declaration)
    ensures declaration == Declaration(map["note" := Null]) && defaults == Declaration(map[])
    ensures !Alike(canon, Completed(Trimmed(canon, declaration, defaults), defaults), Completed(declaration, defaults))
  {
    declaration, defaults := Declaration(map["note" := Null]), Declaration(map[]);
    assert "note" in declaration.fields && "note" !in defaults.fields;
    TrimmingIsLossless(canon, declaration, defaults);
  }

  /** Numbers and truth values as Python compares them, of the values named here. */
  function Numbered(value: Value): Value {
    if value == Json("true") then Json("1")
    else if value == Json("false") then Json("0")
    else value
  }

  /** A zero over a default of false is left out, and comes back as false. */
  lemma {:induction false} AZeroComesBackAsFalse() returns (declaration: Declaration, defaults: Declaration)
    ensures declaration == Declaration(map["quiet" := Json("0")])
    ensures Completed(Trimmed(Numbered, declaration, defaults), defaults) == Declaration(map["quiet" := Json("false")])
  {
    declaration, defaults := Declaration(map["quiet" := Json("0")]), Declaration(map["quiet" := Json("false")]);
    assert Trimmed(Numbered, declaration, defaults).fields == map[];
  }

  // ----- Interning ----------------------------------------------------------

  type Versions = map<string, seq<Declaration>>

  /** One block's record: versions by tool, the distinct states, and the releases that shipped each. */
  datatype BlockRecord = BlockRecord(
    releases: seq<seq<string>>,
    states: seq<map<string, nat>>,
    versions: Versions)

  function IndexOf<T(==)>(s: seq<T>, x: T): (i: nat)
    requires x in s
    ensures i < |s| && s[i] == x && x !in s[..i]
  {
    if s[0] == x then 0
    else
      assert x in s[1..];
      var i := IndexOf(s[1..], x);
      assert s[..i + 1] == [s[0]] + s[1..][..i];
      i + 1
  }

  /** Some version of the list is alike. */
  predicate Among(canon: Canon, versions: seq<Declaration>, x: Declaration) {
    exists i :: 0 <= i < |versions| && Alike(canon, versions[i], x)
  }

  /** The first version that is alike. */
  function FirstAlike(canon: Canon, versions: seq<Declaration>, x: Declaration): (i: nat)
    requires Among(canon, versions, x)
    ensures i < |versions| && Alike(canon, versions[i], x)
    ensures forall k :: 0 <= k < i ==> !Alike(canon, versions[k], x)
  {
    if Alike(canon, versions[0], x) then 0
    else
      assert Among(canon, versions[1..], x) by {
        var i :| 0 <= i < |versions| && Alike(canon, versions[i], x);
        assert versions[1..][i - 1] == versions[i];
      }
      FirstAlike(canon, versions[1..], x) + 1
  }

  function With(canon: Canon, versions: seq<Declaration>, x: Declaration): (r: seq<Declaration>)
    ensures Among(canon, r, x) && versions <= r
  {
    if Among(canon, versions, x) then versions
    else
      assert (versions + [x])[|versions|] == x;
      versions + [x]
  }

  function Held(versions: Versions, tool: string): seq<Declaration> {
    if tool in versions then versions[tool] else []
  }

  /** The versions once a release's declarations are among them. */
  function Grown(canon: Canon, versions: Versions, tools: Shipped): Versions {
    map tool | tool in versions.Keys + tools.Keys ::
      if tool in tools then With(canon, Held(versions, tool), tools[tool]) else versions[tool]
  }

  /** Every declaration of the release is a version of its tool. */
  ghost predicate Covers(canon: Canon, versions: Versions, tools: Shipped) {
    forall tool | tool in tools :: tool in versions && Among(canon, versions[tool], tools[tool])
  }

  /** The release's state: each tool's version by index. */
  function Code(canon: Canon, versions: Versions, tools: Shipped): map<string, nat>
    requires Covers(canon, versions, tools)
  {
    map tool | tool in tools :: FirstAlike(canon, versions[tool], tools[tool])
  }

  /** The record with one more release. */
  function Step(canon: Canon, b: BlockRecord, entry: Entry): BlockRecord
    requires |b.releases| == |b.states|
  {
    var versions := Grown(canon, b.versions, entry.tools);
    var state := Code(canon, versions, entry.tools);
    if state in b.states then
      var i := IndexOf(b.states, state);
      BlockRecord(b.releases[i := b.releases[i] + [entry.commit]], b.states, versions)
    else
      BlockRecord(b.releases + [[entry.commit]], b.states + [state], versions)
  }

  /** The record of the releases in order. */
  function Encode(canon: Canon, entries: seq<Entry>): (b: BlockRecord)
    ensures |b.releases| == |b.states|
  {
    if entries == [] then BlockRecord([], [], map[])
    else Step(canon, Encode(canon, entries[..|entries| - 1]), entries[|entries| - 1])
  }

  // ----- Reading the record back --------------------------------------------

  /** The indices of a state all name versions the record holds. */
  ghost predicate ValidState(versions: Versions, state: map<string, nat>) {
    forall tool | tool in state :: tool in versions && state[tool] < |versions[tool]|
  }

  function Decode(versions: Versions, state: map<string, nat>): Shipped
    requires ValidState(versions, state)
  {
    map tool | tool in state :: versions[tool][state[tool]]
  }

  ghost predicate Distinct<T>(s: seq<T>) {
    forall i, j :: 0 <= i < j < |s| ==> s[i] != s[j]
  }

  /** No two versions are alike. */
  ghost predicate Apart(canon: Canon, versions: seq<Declaration>) {
    forall i, j :: 0 <= i < j < |versions| ==> !Alike(canon, versions[i], versions[j])
  }

  ghost predicate DistinctVersions(canon: Canon, versions: Versions) {
    forall tool | tool in versions :: Apart(canon, versions[tool])
  }

  /** Versions only grow at the end: every index given out stays valid and keeps its meaning. */
  ghost predicate Extends(small: Versions, large: Versions) {
    forall tool | tool in small :: tool in large && small[tool] <= large[tool]
  }

  lemma {:induction false} GrowingExtends(canon: Canon, versions: Versions, tools: Shipped)
    requires DistinctVersions(canon, versions)
    ensures Extends(versions, Grown(canon, versions, tools))
    ensures Covers(canon, Grown(canon, versions, tools), tools)
    ensures DistinctVersions(canon, Grown(canon, versions, tools))
  {
    forall tool | tool in versions ensures versions[tool] <= Grown(canon, versions, tools)[tool] {}
    forall tool | tool in Grown(canon, versions, tools) ensures Apart(canon, Grown(canon, versions, tools)[tool]) {
      assert tool in versions ==> Apart(canon, versions[tool]);
    }
  }

  lemma {:induction false} FirstInPrefix(canon: Canon, s: seq<Declaration>, t: seq<Declaration>, x: Declaration)
    requires s <= t && Among(canon, s, x)
    ensures Among(canon, t, x) && FirstAlike(canon, t, x) == FirstAlike(canon, s, x)
  {
    hide Alike;
    var i := FirstAlike(canon, s, x);
    assert t[i] == s[i];
    var j := FirstAlike(canon, t, x);
    assert forall k :: 0 <= k < |s| ==> s[k] == t[k];
  }

  /** A state keeps its code as later releases add versions. */
  lemma {:induction false} CodeIsStable(canon: Canon, small: Versions, large: Versions, tools: Shipped)
    requires Extends(small, large) && Covers(canon, small, tools)
    ensures Covers(canon, large, tools) && Code(canon, large, tools) == Code(canon, small, tools)
  {
    forall tool | tool in tools
      ensures tool in large && Among(canon, large[tool], tools[tool])
      ensures FirstAlike(canon, large[tool], tools[tool]) == FirstAlike(canon, small[tool], tools[tool])
    {
      FirstInPrefix(canon, small[tool], large[tool], tools[tool]);
    }
  }

  /** Decoding a code gives declarations alike to those it was made of. */
  lemma {:induction false} DecodingInvertsCode(canon: Canon, versions: Versions, tools: Shipped)
    requires Covers(canon, versions, tools)
    ensures ValidState(versions, Code(canon, versions, tools))
    ensures AllAlike(canon, Decode(versions, Code(canon, versions, tools)), tools)
  {
    hide Alike;
  }

  /** Declarations have one code exactly when they are alike. */
  lemma {:induction false} OneCodeMeansAlike(canon: Canon, versions: Versions, a: Shipped, b: Shipped)
    requires Covers(canon, versions, a) && Covers(canon, versions, b)
    ensures Code(canon, versions, a) == Code(canon, versions, b) <==> AllAlike(canon, a, b)
  {
    hide Canonical;
    if Code(canon, versions, a) == Code(canon, versions, b) {
      assert Code(canon, versions, a).Keys == a.Keys && Code(canon, versions, b).Keys == b.Keys;
      forall tool | tool in a ensures Alike(canon, a[tool], b[tool]) {
        assert Code(canon, versions, a)[tool] == Code(canon, versions, b)[tool];
      }
    } else if AllAlike(canon, a, b) {
      forall tool | tool in a ensures FirstAlike(canon, versions[tool], a[tool]) == FirstAlike(canon, versions[tool], b[tool]) {
        OneIndex(canon, versions[tool], a[tool], b[tool]);
      }
      assert false;
    }
  }

  lemma OneIndex(canon: Canon, versions: seq<Declaration>, a: Declaration, b: Declaration)
    requires Among(canon, versions, a) && Among(canon, versions, b) && Alike(canon, a, b)
    ensures FirstAlike(canon, versions, a) == FirstAlike(canon, versions, b)
  {
    hide Canonical;
  }

  // ----- What holds after any number of releases ----------------------------

  /** Every release is covered by the versions. */
  ghost predicate CoversAll(canon: Canon, b: BlockRecord, entries: seq<Entry>) {
    forall n :: 0 <= n < |entries| ==> Covers(canon, b.versions, entries[n].tools)
  }

  /** The release is the first that declares the tool so. */
  ghost predicate FirstShipped(canon: Canon, entries: seq<Entry>, tool: string, n: nat) {
    && n < |entries| && tool in entries[n].tools
    && forall k | 0 <= k < n && tool in entries[k].tools ::
         !Alike(canon, entries[k].tools[tool], entries[n].tools[tool])
  }

  /** The version is the declaration of the first release that declares the tool so. */
  ghost predicate Used(canon: Canon, entries: seq<Entry>, tool: string, version: Declaration) {
    exists n: nat :: FirstShipped(canon, entries, tool, n) && entries[n].tools[tool] == version
  }

  ghost predicate AllUsed(canon: Canon, versions: Versions, entries: seq<Entry>) {
    forall tool, v | tool in versions && 0 <= v < |versions[tool]| :: Used(canon, entries, tool, versions[tool][v])
  }

  /** The commits, in release order, whose declarations have the given code. */
  function CommitsWith(canon: Canon, versions: Versions, entries: seq<Entry>, state: map<string, nat>): seq<string>
    requires forall n :: 0 <= n < |entries| ==> Covers(canon, versions, entries[n].tools)
  {
    if entries == [] then []
    else
      CommitsWith(canon, versions, entries[..|entries| - 1], state)
        + (if Code(canon, versions, entries[|entries| - 1].tools) == state then [entries[|entries| - 1].commit] else [])
  }

  /** The states are exactly the codes of the releases, each with the releases that have it, in order. */
  ghost predicate Files(canon: Canon, b: BlockRecord, entries: seq<Entry>)
    requires CoversAll(canon, b, entries) && |b.releases| == |b.states|
  {
    && Distinct(b.states)
    && (forall n :: 0 <= n < |entries| ==> Code(canon, b.versions, entries[n].tools) in b.states)
    && (forall i :: 0 <= i < |b.states| ==> b.releases[i] == CommitsWith(canon, b.versions, entries, b.states[i]))
    && (forall i :: 0 <= i < |b.states| ==> b.releases[i] != [])
  }

  lemma {:induction false} CommitsStable(canon: Canon, small: Versions, large: Versions, entries: seq<Entry>, state: map<string, nat>)
    requires Extends(small, large)
    requires forall n :: 0 <= n < |entries| ==> Covers(canon, small, entries[n].tools)
    ensures forall n :: 0 <= n < |entries| ==> Covers(canon, large, entries[n].tools)
    ensures CommitsWith(canon, large, entries, state) == CommitsWith(canon, small, entries, state)
  {
    if entries != [] {
      CommitsStable(canon, small, large, entries[..|entries| - 1], state);
      CodeIsStable(canon, small, large, entries[|entries| - 1].tools);
    }
  }

  lemma {:induction false} NoCommitsWith(canon: Canon, versions: Versions, entries: seq<Entry>, state: map<string, nat>)
    requires forall n :: 0 <= n < |entries| ==> Covers(canon, versions, entries[n].tools)
    requires forall n :: 0 <= n < |entries| ==> Code(canon, versions, entries[n].tools) != state
    ensures CommitsWith(canon, versions, entries, state) == []
  {
    if entries != [] {
      NoCommitsWith(canon, versions, entries[..|entries| - 1], state);
    }
  }

  lemma {:induction false} UsedStays(
    canon: Canon, versions: Versions, entries: seq<Entry>, entry: Entry)
    requires AllUsed(canon, versions, entries)
    requires forall n :: 0 <= n < |entries| ==> Covers(canon, versions, entries[n].tools)
    ensures AllUsed(canon, Grown(canon, versions, entry.tools), entries + [entry])
  {
    var grown, more := Grown(canon, versions, entry.tools), entries + [entry];
    hide Alike, Used, Covers;
    forall tool, v | tool in grown && 0 <= v < |grown[tool]|
      ensures Used(canon, more, tool, grown[tool][v])
    {
      if v < |Held(versions, tool)| {
        UsedOnceMore(canon, entries, entry, tool, versions[tool][v]);
      } else {
        NewlyShipped(canon, versions, entries, entry, tool);
        assert grown[tool][v] == entry.tools[tool];
      }
    }
  }

  lemma {:induction false} UsedOnceMore(canon: Canon, entries: seq<Entry>, entry: Entry, tool: string, version: Declaration)
    requires Used(canon, entries, tool, version)
    ensures Used(canon, entries + [entry], tool, version)
  {
    hide Alike;
    var n: nat :| FirstShipped(canon, entries, tool, n) && entries[n].tools[tool] == version;
    assert FirstShipped(canon, entries + [entry], tool, n);
  }

  lemma {:induction false} NewlyShipped(canon: Canon, versions: Versions, entries: seq<Entry>, entry: Entry, tool: string)
    requires forall n :: 0 <= n < |entries| ==> Covers(canon, versions, entries[n].tools)
    requires tool in entry.tools && !Among(canon, Held(versions, tool), entry.tools[tool])
    ensures FirstShipped(canon, entries + [entry], tool, |entries|)
    ensures Used(canon, entries + [entry], tool, entry.tools[tool])
  {
    hide Canonical;
    var more := entries + [entry];
    forall k | 0 <= k < |entries| && tool in more[k].tools
      ensures !Alike(canon, more[k].tools[tool], more[|entries|].tools[tool])
    {
      assert Covers(canon, versions, entries[k].tools);
      var i := FirstAlike(canon, versions[tool], entries[k].tools[tool]);
      assert !Alike(canon, versions[tool][i], entry.tools[tool]);
    }
  }

  /** What holds of the record of any list of releases. */
  ghost predicate Faithful(canon: Canon, b: BlockRecord, entries: seq<Entry>) {
    && |b.releases| == |b.states|
    && DistinctVersions(canon, b.versions)
    && CoversAll(canon, b, entries)
    && AllUsed(canon, b.versions, entries)
    && Files(canon, b, entries)
  }

  /** A further release changes no earlier release's code. */
  lemma {:induction false} CodesStay(canon: Canon, b: BlockRecord, entries: seq<Entry>, entry: Entry)
    requires DistinctVersions(canon, b.versions) && CoversAll(canon, b, entries)
    ensures forall n :: 0 <= n < |entries + [entry]| ==> Covers(canon, Grown(canon, b.versions, entry.tools), (entries + [entry])[n].tools)
    ensures forall n :: 0 <= n < |entries| ==>
      Code(canon, Grown(canon, b.versions, entry.tools), entries[n].tools) == Code(canon, b.versions, entries[n].tools)
  {
    var grown, more := Grown(canon, b.versions, entry.tools), entries + [entry];
    GrowingExtends(canon, b.versions, entry.tools);
    hide Grown, Covers, Code, Extends;
    forall n | 0 <= n < |entries|
      ensures Covers(canon, grown, entries[n].tools) && Code(canon, grown, entries[n].tools) == Code(canon, b.versions, entries[n].tools)
    {
      CodeIsStable(canon, b.versions, grown, entries[n].tools);
    }
    forall n | 0 <= n < |more| ensures Covers(canon, grown, more[n].tools) {
      assert more[n] == if n < |entries| then entries[n] else entry;
    }
  }

  /** The commits under a state once the release is added: one more under its own, the same under the rest. */
  lemma {:induction false} CommitsStep(canon: Canon, b: BlockRecord, entries: seq<Entry>, entry: Entry, state: map<string, nat>)
    requires DistinctVersions(canon, b.versions) && CoversAll(canon, b, entries)
    requires forall n :: 0 <= n < |entries + [entry]| ==> Covers(canon, Grown(canon, b.versions, entry.tools), (entries + [entry])[n].tools)
    requires Covers(canon, Grown(canon, b.versions, entry.tools), entry.tools)
    ensures CommitsWith(canon, Grown(canon, b.versions, entry.tools), entries + [entry], state)
         == CommitsWith(canon, b.versions, entries, state)
          + (if Code(canon, Grown(canon, b.versions, entry.tools), entry.tools) == state then [entry.commit] else [])
  {
    GrowingExtends(canon, b.versions, entry.tools);
    hide Grown, Covers, Code, Extends;
    var grown, more := Grown(canon, b.versions, entry.tools), entries + [entry];
    CommitsStable(canon, b.versions, grown, entries, state);
    assert more[..|more| - 1] == entries && more[|more| - 1] == entry;
  }

  /** One more commit under state `i`, or under a state of its own, and nothing else moved. */
  ghost predicate FilesOneMore(
    releases: seq<seq<string>>, states: seq<map<string, nat>>, commit: string, state: map<string, nat>,
    newReleases: seq<seq<string>>, newStates: seq<map<string, nat>>)
    requires |releases| == |states|
  {
    && |newReleases| == |newStates| && Distinct(newStates)
    && states <= newStates && state in newStates
    && forall i :: 0 <= i < |newStates| ==>
         newReleases[i] == (if i < |states| then releases[i] else [])
           + (if newStates[i] == state then [commit] else [])
         && (i < |states| || newStates[i] == state)
  }

  lemma {:induction false} StepAddsOne(canon: Canon, b: BlockRecord, entry: Entry)
    requires |b.releases| == |b.states| && Distinct(b.states)
    requires Covers(canon, Grown(canon, b.versions, entry.tools), entry.tools)
    ensures FilesOneMore(b.releases, b.states, entry.commit, Code(canon, Grown(canon, b.versions, entry.tools), entry.tools),
                         Step(canon, b, entry).releases, Step(canon, b, entry).states)
    ensures Step(canon, b, entry).versions == Grown(canon, b.versions, entry.tools)
  {
    hide Grown, Covers, Code;
    var state, next := Code(canon, Grown(canon, b.versions, entry.tools), entry.tools), Step(canon, b, entry);
    if state in b.states {
      var j := IndexOf(b.states, state);
      assert forall i :: 0 <= i < |b.states| && i != j ==> b.states[i] != state;
    } else {
      assert next.states[|b.states|] == state;
    }
  }

  lemma {:induction false} StepFiles(canon: Canon, b: BlockRecord, entries: seq<Entry>, entry: Entry)
    requires Faithful(canon, b, entries)
    ensures CoversAll(canon, Step(canon, b, entry), entries + [entry])
    ensures Files(canon, Step(canon, b, entry), entries + [entry])
  {
    var grown, more, next := Grown(canon, b.versions, entry.tools), entries + [entry], Step(canon, b, entry);
    CodesStay(canon, b, entries, entry);
    GrowingExtends(canon, b.versions, entry.tools);
    StepAddsOne(canon, b, entry);
    hide Grown, Covers, Code, Extends, DistinctVersions, AllUsed, CommitsWith, Step;
    var state := Code(canon, grown, entry.tools);
    forall n | 0 <= n < |more| ensures Code(canon, grown, more[n].tools) in next.states {
      assert more[n] == if n < |entries| then entries[n] else entry;
    }
    forall i | 0 <= i < |next.states|
      ensures next.releases[i] == CommitsWith(canon, grown, more, next.states[i]) && next.releases[i] != []
    {
      CommitsStep(canon, b, entries, entry, next.states[i]);
      if i >= |b.states| {
        assert forall n :: 0 <= n < |entries| ==> Code(canon, b.versions, entries[n].tools) in b.states;
        NoCommitsOutside(canon, b.versions, entries, b.states, next.states, i);
      }
    }
  }

  lemma {:induction false} NoCommitsOutside(canon: Canon,
    versions: Versions, entries: seq<Entry>, states: seq<map<string, nat>>, more: seq<map<string, nat>>, i: nat)
    requires forall n :: 0 <= n < |entries| ==> Covers(canon, versions, entries[n].tools)
    requires forall n :: 0 <= n < |entries| ==> Code(canon, versions, entries[n].tools) in states
    requires states <= more && Distinct(more) && |states| <= i < |more|
    ensures CommitsWith(canon, versions, entries, more[i]) == []
  {
    hide Covers, Code, CommitsWith;
    assert more[i] !in states by {
      assert forall j :: 0 <= j < |states| ==> states[j] == more[j];
    }
    NoCommitsWith(canon, versions, entries, more[i]);
  }

  lemma {:induction false} StepIsFaithful(canon: Canon, b: BlockRecord, entries: seq<Entry>, entry: Entry)
    requires Faithful(canon, b, entries)
    ensures Faithful(canon, Step(canon, b, entry), entries + [entry])
  {
    StepFiles(canon, b, entries, entry);
    GrowingExtends(canon, b.versions, entry.tools);
    UsedStays(canon, b.versions, entries, entry);
  }

  lemma NothingIsFaithful(canon: Canon)
    ensures Faithful(canon, BlockRecord([], [], map[]), [])
  {}

  /**
   After any number of releases: versions and states are pairwise distinct, every
   index is valid, every version was shipped by some release, and each state
   lists exactly its own releases, in order.
   */
  lemma {:induction false} EncodingIsFaithful(canon: Canon, entries: seq<Entry>)
    ensures Faithful(canon, Encode(canon, entries), entries)
  {
    hide Faithful, Step;
    if entries == [] {
      NothingIsFaithful(canon);
    } else {
      var front, last := entries[..|entries| - 1], entries[|entries| - 1];
      EncodingIsFaithful(canon, front);
      StepIsFaithful(canon, Encode(canon, front), front, last);
      assert entries == front + [last];
    }
  }

  /** The state index of a release of the record. */
  ghost function Slot(canon: Canon, entries: seq<Entry>, n: nat): (i: nat)
    requires n < |entries|
    ensures i < |Encode(canon, entries).states| && ValidState(Encode(canon, entries).versions, Encode(canon, entries).states[i])
  {
    EncodingIsFaithful(canon, entries);
    DecodingInvertsCode(canon, Encode(canon, entries).versions, entries[n].tools);
    IndexOf(Encode(canon, entries).states, Code(canon, Encode(canon, entries).versions, entries[n].tools))
  }

  /** What the record gives for a release. */
  ghost function ReadBack(canon: Canon, entries: seq<Entry>, n: nat): Shipped
    requires n < |entries|
  {
    Decode(Encode(canon, entries).versions, Encode(canon, entries).states[Slot(canon, entries, n)])
  }

  /** Lossless: a release's state decodes to declarations alike to those it shipped, tool by tool. */
  lemma {:induction false} EveryReleaseReadsBack(canon: Canon, entries: seq<Entry>, n: nat)
    requires n < |entries|
    ensures AllAlike(canon, ReadBack(canon, entries, n), entries[n].tools)
  {
    EncodingIsFaithful(canon, entries);
    hide AllAlike;
    DecodingInvertsCode(canon, Encode(canon, entries).versions, entries[n].tools);
  }

  /** What is read back is the very declaration of the first release that declared the tool so. */
  lemma {:induction false} TheFirstIsReadBack(canon: Canon, entries: seq<Entry>, n: nat, tool: string) returns (first: nat)
    requires n < |entries| && tool in entries[n].tools
    ensures FirstShipped(canon, entries, tool, first) && first <= n
    ensures Alike(canon, entries[first].tools[tool], entries[n].tools[tool])
    ensures tool in ReadBack(canon, entries, n) && ReadBack(canon, entries, n)[tool] == entries[first].tools[tool]
  {
    var read := ReadBack(canon, entries, n);
    EveryReleaseReadsBack(canon, entries, n);
    hide Alike, ReadBack;
    assert Alike(canon, read[tool], entries[n].tools[tool]);
    ReadBackIsUsed(canon, entries, n, tool);
    first :| FirstShipped(canon, entries, tool, first) && entries[first].tools[tool] == read[tool];
    if n < first {
      AlikeTurned(canon, read[tool], entries[n].tools[tool]);
      assert false;
    }
  }

  lemma AlikeTurned(canon: Canon, a: Declaration, b: Declaration)
    requires Alike(canon, a, b)
    ensures Alike(canon, b, a)
  {
  }

  lemma {:induction false} ReadBackIsUsed(canon: Canon, entries: seq<Entry>, n: nat, tool: string)
    requires n < |entries| && tool in ReadBack(canon, entries, n)
    ensures Used(canon, entries, tool, ReadBack(canon, entries, n)[tool])
  {
    EncodingIsFaithful(canon, entries);
    hide Encode, Slot, Used, Files;
    var b, slot := Encode(canon, entries), Slot(canon, entries, n);
    assert ReadBack(canon, entries, n)[tool] == b.versions[tool][b.states[slot][tool]];
  }

  /** No earlier release declared the tool alike without declaring it the same: the first that did declared it the same. */
  ghost predicate FirstIsTheSame(canon: Canon, entries: seq<Entry>, n: nat, tool: string)
    requires n < |entries| && tool in entries[n].tools
  {
    forall first: nat | FirstShipped(canon, entries, tool, first)
        && Alike(canon, entries[first].tools[tool], entries[n].tools[tool]) ::
      entries[first].tools[tool] == entries[n].tools[tool]
  }

  /** A declaration reads back as it was shipped exactly when the first one alike to it is the same. */
  lemma {:induction false} ReadsBackExactly(canon: Canon, entries: seq<Entry>, n: nat, tool: string)
    requires n < |entries| && tool in entries[n].tools
    ensures tool in ReadBack(canon, entries, n)
    ensures ReadBack(canon, entries, n)[tool] == entries[n].tools[tool] <==> FirstIsTheSame(canon, entries, n, tool)
  {
    var first := TheFirstIsReadBack(canon, entries, n, tool);
    hide Canonical, ReadBack;
    forall k: nat | FirstShipped(canon, entries, tool, k) && Alike(canon, entries[k].tools[tool], entries[n].tools[tool])
      ensures k == first
    {
    }
  }

  /** A release that ships `true` where an earlier one shipped `1` reads back as `1`. */
  lemma {:induction false} TrueReadsBackAsOne() returns (entries: seq<Entry>)
    ensures |entries| == 2 && "ping" in ReadBack(Numbered, entries, 1)
    ensures entries[1].tools == map["ping" := Declaration(map["retries" := Json("true")])]
    ensures ReadBack(Numbered, entries, 1)["ping"] == Declaration(map["retries" := Json("1")])
  {
    var one, yes := Declaration(map["retries" := Json("1")]), Declaration(map["retries" := Json("true")]);
    entries := [Entry("a", map["ping" := one]), Entry("b", map["ping" := yes])];
    assert Alike(Numbered, one, yes);
    hide ReadBack, Alike;
    assert "ping" in entries[0].tools && entries[0].tools["ping"] == one && entries[1].tools["ping"] == yes;
    var first := TheFirstIsReadBack(Numbered, entries, 1, "ping");
  }

  /** Canonical: two releases share a state exactly when their declarations are alike. */
  lemma {:induction false} SharedStateMeansEqual(canon: Canon, entries: seq<Entry>, n: nat, m: nat)
    requires n < |entries| && m < |entries|
    ensures Slot(canon, entries, n) == Slot(canon, entries, m)
       <==> AllAlike(canon, entries[n].tools, entries[m].tools)
  {
    EncodingIsFaithful(canon, entries);
    hide AllAlike;
    OneCodeMeansAlike(canon, Encode(canon, entries).versions, entries[n].tools, entries[m].tools);
  }

  lemma {:induction false} CommitsAreListed(canon: Canon, versions: Versions, entries: seq<Entry>, state: map<string, nat>, commit: string)
    requires forall n :: 0 <= n < |entries| ==> Covers(canon, versions, entries[n].tools)
    ensures commit in CommitsWith(canon, versions, entries, state) <==>
              exists n :: 0 <= n < |entries| && entries[n].commit == commit
                && Code(canon, versions, entries[n].tools) == state
  {
    if entries != [] {
      var front, last := entries[..|entries| - 1], entries[|entries| - 1];
      assert forall n :: 0 <= n < |front| ==> front[n] == entries[n];
      CommitsAreListed(canon, versions, front, state, commit);
      if commit in CommitsWith(canon, versions, entries, state) && commit !in CommitsWith(canon, versions, front, state) {
        assert entries[|front|] == last;
      }
    }
  }

  ghost predicate DistinctCommits(entries: seq<Entry>) {
    forall i, j :: 0 <= i < j < |entries| ==> entries[i].commit != entries[j].commit
  }

  /** A commit is listed under its own state and under no other. */
  lemma {:induction false} CommitNamesItsState(canon: Canon, entries: seq<Entry>, n: nat, i: nat)
    requires DistinctCommits(entries) && n < |entries| && i < |Encode(canon, entries).states|
    ensures entries[n].commit in Encode(canon, entries).releases[i] <==> i == Slot(canon, entries, n)
  {
    var b := Encode(canon, entries);
    EncodingIsFaithful(canon, entries);
    CommitsAreListed(canon, b.versions, entries, b.states[i], entries[n].commit);
  }

  lemma {:induction false} CommitsWithinCount(canon: Canon, versions: Versions, entries: seq<Entry>, states: seq<map<string, nat>>)
    requires forall n :: 0 <= n < |entries| ==> Covers(canon, versions, entries[n].tools)
    requires forall n :: 0 <= n < |entries| ==> Code(canon, versions, entries[n].tools) in states
    requires Distinct(states)
    ensures SumOfCommits(canon, versions, entries, states) == |entries|
  {
    if entries == [] {
      NoEntriesNoCommits(canon, versions, states);
    } else {
      var front, last := entries[..|entries| - 1], entries[|entries| - 1];
      CommitsWithinCount(canon, versions, front, states);
      OneMoreCommit(canon, versions, entries, states);
    }
  }

  function SumOfCommits(canon: Canon, versions: Versions, entries: seq<Entry>, states: seq<map<string, nat>>): nat
    requires forall n :: 0 <= n < |entries| ==> Covers(canon, versions, entries[n].tools)
  {
    if states == [] then 0
    else |CommitsWith(canon, versions, entries, states[0])| + SumOfCommits(canon, versions, entries, states[1..])
  }

  lemma {:induction false} NoEntriesNoCommits(canon: Canon, versions: Versions, states: seq<map<string, nat>>)
    ensures SumOfCommits(canon, versions, [], states) == 0
  {
    if states != [] {
      NoEntriesNoCommits(canon, versions, states[1..]);
    }
  }

  /** A further release is listed once, under its own state. */
  lemma {:induction false} OneMoreCommit(canon: Canon, versions: Versions, entries: seq<Entry>, states: seq<map<string, nat>>)
    requires entries != [] && Distinct(states)
    requires forall n :: 0 <= n < |entries| ==> Covers(canon, versions, entries[n].tools)
    ensures SumOfCommits(canon, versions, entries, states) == SumOfCommits(canon, versions, entries[..|entries| - 1], states)
         + (if Code(canon, versions, entries[|entries| - 1].tools) in states then 1 else 0)
  {
    if states != [] {
      var state := Code(canon, versions, entries[|entries| - 1].tools);
      OneMoreCommit(canon, versions, entries, states[1..]);
      assert state in states <==> state == states[0] || state in states[1..];
      if state == states[0] {
        assert forall i :: 1 <= i < |states| ==> states[i] != states[0];
      }
    }
  }

  /** The release lists share out the commits: together they are as long as the list of releases. */
  lemma {:induction false} ReleasesPartitionTheCommits(canon: Canon, entries: seq<Entry>)
    ensures SumOfLengths(Encode(canon, entries).releases) == |entries|
  {
    var b := Encode(canon, entries);
    EncodingIsFaithful(canon, entries);
    CommitsWithinCount(canon, b.versions, entries, b.states);
    SumsAgree(canon, b.versions, entries, b.states, b.releases);
  }

  function SumOfLengths(lists: seq<seq<string>>): nat {
    if lists == [] then 0 else |lists[0]| + SumOfLengths(lists[1..])
  }

  lemma {:induction false} SumsAgree(canon: Canon,
    versions: Versions, entries: seq<Entry>, states: seq<map<string, nat>>, releases: seq<seq<string>>)
    requires forall n :: 0 <= n < |entries| ==> Covers(canon, versions, entries[n].tools)
    requires |states| == |releases|
    requires forall i :: 0 <= i < |states| ==> releases[i] == CommitsWith(canon, versions, entries, states[i])
    ensures SumOfLengths(releases) == SumOfCommits(canon, versions, entries, states)
  {
    if states != [] {
      assert releases[0] == CommitsWith(canon, versions, entries, states[0]);
      SumsAgree(canon, versions, entries, states[1..], releases[1..]);
    }
  }
}
