/** The record of every block, composed. */
module Compose {
  import opened Wrappers
  import opened Declarations

  /** One release as read: its commit, its defaults, and block by block what it ships. */
  datatype Dump = Dump(commit: string, defaults: Declaration, blocks: map<string, Shipped>)

  datatype ComposeError =
    | NoReleases
    | OtherDefaults(commit: string)
    | MissingBlock(commit: string, block: string)

  datatype Record = Record(blocks: map<string, BlockRecord>, defaults: Declaration)

  /** Each default the release has is the last release's too; the last may have more. */
  predicate DefaultsAgree(canon: Canon, defaults: Declaration, last: Declaration) {
    forall field | field in defaults.fields ::
      field in last.fields && canon(last.fields[field]) == canon(defaults.fields[field])
  }

  /** What each release shipped for one block, trimmed. */
  function Entries(canon: Canon, dumps: seq<Dump>, block: string, defaults: Declaration): seq<Entry>
    requires forall n :: 0 <= n < |dumps| ==> block in dumps[n].blocks
  {
    seq(|dumps|, n requires 0 <= n < |dumps| =>
      Entry(dumps[n].commit, TrimmedTools(canon, dumps[n].blocks[block], defaults)))
  }

  function BlockNames(dumps: seq<Dump>): set<string> {
    set n, block | 0 <= n < |dumps| && block in dumps[n].blocks :: block
  }

  /** The dumps can be composed: they agree on defaults and each ships every block. */
  ghost predicate Composable(canon: Canon, dumps: seq<Dump>) {
    && dumps != []
    && (forall n :: 0 <= n < |dumps| ==> DefaultsAgree(canon, dumps[n].defaults, dumps[|dumps| - 1].defaults))
    && (forall block | block in BlockNames(dumps) :: ShippedByAll(dumps, block))
  }

  /** A declaration is put among a tool's versions unless it is one, and stands at `index`. */
  ghost predicate InternedAt(canon: Canon, before: seq<Declaration>, entry: Declaration, after: seq<Declaration>, index: nat) {
    after == With(canon, before, entry) && index == FirstAlike(canon, after, entry)
  }

  lemma OneOutcome(canon: Canon,
    before: seq<Declaration>, entry: Declaration,
    a: seq<Declaration>, i: nat, b: seq<Declaration>, j: nat)
    requires InternedAt(canon, before, entry, a, i) && InternedAt(canon, before, entry, b, j)
    ensures a == b && i == j
  {}

  /** `target` and `codes` are what interning the release tool by tool comes to. */
  ghost predicate Interned(canon: Canon, versions: Versions, trimmed: Shipped, target: Versions, codes: map<string, nat>) {
    && target.Keys == versions.Keys + trimmed.Keys
    && codes.Keys == trimmed.Keys
    && (forall tool | tool in versions && tool !in trimmed :: target[tool] == versions[tool])
    && (forall tool | tool in trimmed :: InternedAt(canon, Held(versions, tool), trimmed[tool], target[tool], codes[tool]))
  }

  lemma {:induction false} OneTool(canon: Canon, versions: Versions, trimmed: Shipped, tool: string)
    requires tool in trimmed && Covers(canon, Grown(canon, versions, trimmed), trimmed)
    ensures tool in Grown(canon, versions, trimmed)
    ensures InternedAt(canon, Held(versions, tool), trimmed[tool], Grown(canon, versions, trimmed)[tool],
                       Code(canon, Grown(canon, versions, trimmed), trimmed)[tool])
  {
    hide Among, Held;
  }

  lemma GrownKeys(canon: Canon, versions: Versions, trimmed: Shipped)
    requires Covers(canon, Grown(canon, versions, trimmed), trimmed)
    ensures Grown(canon, versions, trimmed).Keys == versions.Keys + trimmed.Keys
    ensures Code(canon, Grown(canon, versions, trimmed), trimmed).Keys == trimmed.Keys
    ensures forall tool | tool in versions && tool !in trimmed :: Grown(canon, versions, trimmed)[tool] == versions[tool]
  {
    hide Covers, Among, With;
  }

  lemma {:induction false} GrownIsInterned(canon: Canon, versions: Versions, trimmed: Shipped)
    requires DistinctVersions(canon, versions)
    ensures Covers(canon, Grown(canon, versions, trimmed), trimmed)
    ensures Interned(canon, versions, trimmed, Grown(canon, versions, trimmed),
                     Code(canon, Grown(canon, versions, trimmed), trimmed))
  {
    GrowingExtends(canon, versions, trimmed);
    GrownKeys(canon, versions, trimmed);
    hide InternedAt, Covers, Extends, DistinctVersions, Among, Grown, Code, Held;
    forall tool | tool in trimmed
      ensures InternedAt(canon, Held(versions, tool), trimmed[tool], Grown(canon, versions, trimmed)[tool],
                         Code(canon, Grown(canon, versions, trimmed), trimmed)[tool])
    {
      OneTool(canon, versions, trimmed, tool);
    }
  }

  /** One release's state, its versions interned as they are met. */
  method StateOf(canon: Canon, versions: Versions, held: Shipped, defaults: Declaration)
    returns (state: map<string, nat>, grown: Versions)
    requires DistinctVersions(canon, versions)
    ensures Covers(canon, Grown(canon, versions, TrimmedTools(canon, held, defaults)), TrimmedTools(canon, held, defaults))
    ensures grown == Grown(canon, versions, TrimmedTools(canon, held, defaults))
    ensures state == Code(canon, Grown(canon, versions, TrimmedTools(canon, held, defaults)), TrimmedTools(canon, held, defaults))
  {
    hide Grown, Code, Covers, Trimmed, Interned, DistinctVersions;
    ghost var trimmed := TrimmedTools(canon, held, defaults);
    GrownIsInterned(canon, versions, trimmed);
    state, grown := InternAll(canon, versions, held, defaults, Grown(canon, versions, trimmed), Code(canon, Grown(canon, versions, trimmed), trimmed));
  }

  lemma InternedTool(canon: Canon,
    versions: Versions, held: Shipped, defaults: Declaration, target: Versions, codes: map<string, nat>, tool: string)
    requires Interned(canon, versions, TrimmedTools(canon, held, defaults), target, codes) && tool in held
    ensures tool in target && tool in codes
    ensures InternedAt(canon, Held(versions, tool), Trimmed(canon, held[tool], defaults), target[tool], codes[tool])
  {
    assert TrimmedTools(canon, held, defaults)[tool] == Trimmed(canon, held[tool], defaults);
  }

  lemma InternedKeys(canon: Canon, versions: Versions, held: Shipped, defaults: Declaration, target: Versions, codes: map<string, nat>)
    requires Interned(canon, versions, TrimmedTools(canon, held, defaults), target, codes)
    ensures target.Keys == versions.Keys + held.Keys && codes.Keys == held.Keys
    ensures forall tool | tool in versions && tool !in held :: target[tool] == versions[tool]
  {}

  method InternAll(canon: Canon,
    versions: Versions, held: Shipped, defaults: Declaration, ghost target: Versions, ghost codes: map<string, nat>)
    returns (state: map<string, nat>, grown: Versions)
    requires Interned(canon, versions, TrimmedTools(canon, held, defaults), target, codes)
    ensures grown == target
    ensures state == codes
  {
    hide Trimmed, InternedAt, Held, Interned, TrimmedTools;
    InternedKeys(canon, versions, held, defaults, target, codes);
    grown, state := versions, map[];
    var todo := held.Keys;
    while todo != {}
      invariant todo <= held.Keys
      invariant grown.Keys == versions.Keys + (held.Keys - todo)
      invariant state.Keys == held.Keys - todo
      invariant forall tool | tool in state :: grown[tool] == target[tool] && state[tool] == codes[tool]
      invariant forall tool | tool in grown && tool !in state :: tool in versions && grown[tool] == versions[tool]
    {
      var tool :| tool in todo;
      assert Held(grown, tool) == Held(versions, tool) by { SameHeld(grown, versions, tool); }
      var seen, index := Intern(canon, grown, tool, Trimmed(canon, held[tool], defaults));
      InternedTool(canon, versions, held, defaults, target, codes, tool);
      OneOutcome(canon, Held(versions, tool), Trimmed(canon, held[tool], defaults), seen, index, target[tool], codes[tool]);
      grown := grown[tool := seen];
      state := state[tool := index];
      todo := todo - {tool};
    }
  }

  lemma SameHeld(a: Versions, b: Versions, tool: string)
    requires tool in a <==> tool in b
    requires tool in a ==> a[tool] == b[tool]
    ensures Held(a, tool) == Held(b, tool)
  {}

  /** One declaration put among its tool's versions, and where it stands. */
  method Intern(canon: Canon, versions: Versions, tool: string, entry: Declaration) returns (seen: seq<Declaration>, index: nat)
    ensures InternedAt(canon, Held(versions, tool), entry, seen, index)
  {
    seen := Held(versions, tool);
    if !Among(canon, seen, entry) {
      seen := seen + [entry];
    }
    assert seen == With(canon, Held(versions, tool), entry);
    index := FirstAlike(canon, seen, entry);
  }

  /** The release is the first that does not ship the block. */
  ghost predicate FirstWithout(dumps: seq<Dump>, block: string, n: int)
    requires 0 <= n < |dumps|
  {
    block !in dumps[n].blocks && forall i :: 0 <= i < n ==> block in dumps[i].blocks
  }

  /** One block's record, release by release. */
  method ComposeBlock(canon: Canon, dumps: seq<Dump>, block: string, defaults: Declaration)
    returns (r: Result<BlockRecord, ComposeError>)
    ensures r.Ok? <==> forall n :: 0 <= n < |dumps| ==> block in dumps[n].blocks
    ensures r.Ok? ==> r.value == Encode(canon, Entries(canon, dumps, block, defaults))
    ensures r.Err? ==> exists n ::
      0 <= n < |dumps| && FirstWithout(dumps, block, n) && r.error == MissingBlock(dumps[n].commit, block)
  {
    var versions: Versions := map[];
    var states: seq<map<string, nat>> := [];
    var releases: seq<seq<string>> := [];
    for n := 0 to |dumps|
      invariant forall i :: 0 <= i < n ==> block in dumps[i].blocks
      invariant |releases| == |states|
      invariant BlockRecord(releases, states, versions) == Encode(canon, Entries(canon, dumps[..n], block, defaults))
    {
      if block !in dumps[n].blocks {
        assert FirstWithout(dumps, block, n);
        return Err(MissingBlock(dumps[n].commit, block));
      }
      ghost var before := Entries(canon, dumps[..n], block, defaults);
      ghost var entry := Entry(dumps[n].commit, TrimmedTools(canon, dumps[n].blocks[block], defaults));
      EncodingIsFaithful(canon, before);
      EntriesStep(canon, dumps, n, block, defaults);
      hide Trimmed, Grown, Covers, Code, Files, AllUsed, CoversAll, Entries;
      var state, grown := StateOf(canon, versions, dumps[n].blocks[block], defaults);
      if state in states {
        var i := IndexOf(states, state);
        releases := releases[i := releases[i] + [dumps[n].commit]];
      } else {
        states := states + [state];
        releases := releases + [[dumps[n].commit]];
      }
      versions := grown;
    }
    assert dumps[..|dumps|] == dumps;
    r := Ok(BlockRecord(releases, states, versions));
  }

  lemma {:induction false} EntriesStep(canon: Canon, dumps: seq<Dump>, n: nat, block: string, defaults: Declaration)
    requires n < |dumps| && forall i :: 0 <= i <= n ==> block in dumps[i].blocks
    ensures var entry := Entry(dumps[n].commit, TrimmedTools(canon, dumps[n].blocks[block], defaults));
      Entries(canon, dumps[..n + 1], block, defaults) == Entries(canon, dumps[..n], block, defaults) + [entry]
      && Encode(canon, Entries(canon, dumps[..n + 1], block, defaults)) == Step(canon, Encode(canon, Entries(canon, dumps[..n], block, defaults)), entry)
  {
    var before := Entries(canon, dumps[..n], block, defaults);
    var entry := Entry(dumps[n].commit, TrimmedTools(canon, dumps[n].blocks[block], defaults));
    assert Entries(canon, dumps[..n + 1], block, defaults) == before + [entry];
    assert (before + [entry])[..|before|] == before;
  }

  /** The release is the first whose defaults do not agree with these. */
  ghost predicate FirstApart(canon: Canon, dumps: seq<Dump>, defaults: Declaration, n: int)
    requires 0 <= n < |dumps|
  {
    !DefaultsAgree(canon, dumps[n].defaults, defaults)
    && forall i :: 0 <= i < n ==> DefaultsAgree(canon, dumps[i].defaults, defaults)
  }

  /** The first release whose defaults differ from the last one's, if any. */
  method CheckDefaults(canon: Canon, dumps: seq<Dump>, defaults: Declaration) returns (bad: Option<ComposeError>)
    ensures bad.None? <==> forall n :: 0 <= n < |dumps| ==> DefaultsAgree(canon, dumps[n].defaults, defaults)
    ensures bad.Some? ==> exists n :: 0 <= n < |dumps| && FirstApart(canon, dumps, defaults, n) && bad.value == OtherDefaults(dumps[n].commit)
  {
    hide DefaultsAgree;
    for n := 0 to |dumps|
      invariant forall i :: 0 <= i < n ==> DefaultsAgree(canon, dumps[i].defaults, defaults)
    {
      if !DefaultsAgree(canon, dumps[n].defaults, defaults) {
        assert FirstApart(canon, dumps, defaults, n);
        return Some(OtherDefaults(dumps[n].commit));
      }
    }
    return None;
  }

  /** Every release ships the block. */
  ghost predicate ShippedByAll(dumps: seq<Dump>, block: string) {
    forall n :: 0 <= n < |dumps| ==> block in dumps[n].blocks
  }

  /** The error names a block some release ships and the first release that does not. */
  ghost predicate NamesMissing(dumps: seq<Dump>, block: string, n: int, error: ComposeError)
    requires 0 <= n < |dumps|
  {
    block in BlockNames(dumps) && FirstWithout(dumps, block, n) && error == MissingBlock(dumps[n].commit, block)
  }

  method ComposeBlocks(canon: Canon, dumps: seq<Dump>, defaults: Declaration)
    returns (r: Result<map<string, BlockRecord>, ComposeError>)
    ensures r.Ok? <==> forall block | block in BlockNames(dumps) :: ShippedByAll(dumps, block)
    ensures r.Ok? ==> r.value.Keys == BlockNames(dumps)
    ensures r.Ok? ==> forall block | block in r.value ::
      ShippedByAll(dumps, block) && r.value[block] == Encode(canon, Entries(canon, dumps, block, defaults))
    ensures r.Err? ==> exists n, block :: 0 <= n < |dumps| && NamesMissing(dumps, block, n, r.error)
  {
    hide Encode, Entries, BlockNames;
    var blocks: map<string, BlockRecord> := map[];
    var todo := BlockNames(dumps);
    while todo != {}
      invariant todo <= BlockNames(dumps) && blocks.Keys == BlockNames(dumps) - todo
      invariant forall block | block in blocks ::
        ShippedByAll(dumps, block) && blocks[block] == Encode(canon, Entries(canon, dumps, block, defaults))
    {
      var block :| block in todo;
      var one := ComposeBlock(canon, dumps, block, defaults);
      if one.Err? {
        assert !ShippedByAll(dumps, block);
        ghost var n :| 0 <= n < |dumps| && FirstWithout(dumps, block, n) && one.error == MissingBlock(dumps[n].commit, block);
        assert NamesMissing(dumps, block, n, one.error);
        return Err(one.error);
      }
      blocks := blocks[block := one.value];
      todo := todo - {block};
    }
    return Ok(blocks);
  }

  method ComposeRecord(canon: Canon, dumps: seq<Dump>) returns (r: Result<Record, ComposeError>)
    ensures r.Ok? <==> Composable(canon, dumps)
    ensures r.Ok? ==> r.value.defaults == dumps[|dumps| - 1].defaults
    ensures r.Ok? ==> r.value.blocks.Keys == BlockNames(dumps)
    ensures r.Ok? ==> forall block | block in r.value.blocks ::
      r.value.blocks[block] == Encode(canon, Entries(canon, dumps, block, r.value.defaults))
    ensures r == Err(NoReleases) <==> dumps == []
    ensures r.Err? && r.error.OtherDefaults? ==> exists n ::
      0 <= n < |dumps| && FirstApart(canon, dumps, dumps[|dumps| - 1].defaults, n) && r.error.commit == dumps[n].commit
    ensures r.Err? && r.error.MissingBlock? ==>
      forall n :: 0 <= n < |dumps| ==> DefaultsAgree(canon, dumps[n].defaults, dumps[|dumps| - 1].defaults)
    ensures r.Err? && r.error.MissingBlock? ==> exists n, block :: 0 <= n < |dumps| && NamesMissing(dumps, block, n, r.error)
  {
    hide DefaultsAgree, Encode, Entries, BlockNames;
    if dumps == [] {
      return Err(NoReleases);
    }
    var defaults := dumps[|dumps| - 1].defaults;
    var bad := CheckDefaults(canon, dumps, defaults);
    if bad.Some? {
      return Err(bad.value);
    }
    var blocks := ComposeBlocks(canon, dumps, defaults);
    if blocks.Err? {
      return Err(blocks.error);
    }
    return Ok(Record(blocks.value, defaults));
  }

  // ----- Reading a stored record --------------------------------------------

  /** A release's declarations of a block, found through the list its commit stands in. */
  ghost predicate Reads(b: BlockRecord, commit: string, tools: Shipped) {
    && |b.releases| == |b.states|
    && exists i :: 0 <= i < |b.states| && commit in b.releases[i]
         && ValidState(b.versions, b.states[i]) && Decode(b.versions, b.states[i]) == tools
  }

  /** Under a release's commit the record reads back one thing: what it gives for that release. */
  lemma {:induction false} RecordReadsBack(canon: Canon, entries: seq<Entry>, n: nat, tools: Shipped)
    requires DistinctCommits(entries) && n < |entries|
    ensures Reads(Encode(canon, entries), entries[n].commit, tools) <==> tools == ReadBack(canon, entries, n)
    ensures Reads(Encode(canon, entries), entries[n].commit, tools) ==> AllAlike(canon, tools, entries[n].tools)
  {
    var b, slot := Encode(canon, entries), Slot(canon, entries, n);
    EveryReleaseReadsBack(canon, entries, n);
    hide Encode, Decode, ValidState, Slot, AllAlike;
    forall i | 0 <= i < |b.states| ensures entries[n].commit in b.releases[i] <==> i == slot {
      CommitNamesItsState(canon, entries, n, i);
    }
  }

  /** It reads back the declarations as they were shipped exactly when each is the same as the first one alike to it. */
  lemma {:induction false} RecordReadsBackExactly(canon: Canon, entries: seq<Entry>, n: nat)
    requires DistinctCommits(entries) && n < |entries|
    ensures Reads(Encode(canon, entries), entries[n].commit, entries[n].tools)
       <==> forall tool | tool in entries[n].tools :: FirstIsTheSame(canon, entries, n, tool)
  {
    var back, tools := ReadBack(canon, entries, n), entries[n].tools;
    EveryReleaseReadsBack(canon, entries, n);
    hide Reads, ReadBack, Alike, FirstIsTheSame, Encode;
    RecordReadsBack(canon, entries, n, tools);
    forall tool | tool in tools ensures back[tool] == tools[tool] <==> FirstIsTheSame(canon, entries, n, tool) {
      ReadsBackExactly(canon, entries, n, tool);
    }
    if forall tool | tool in tools :: FirstIsTheSame(canon, entries, n, tool) {
      assert back == tools;
    }
  }

  ghost predicate OneCommitEach(dumps: seq<Dump>) {
    forall i, j :: 0 <= i < j < |dumps| ==> dumps[i].commit != dumps[j].commit
  }

  lemma EntryOf(canon: Canon, dumps: seq<Dump>, block: string, defaults: Declaration, n: nat, tool: string)
    requires ShippedByAll(dumps, block) && n < |dumps| && tool in dumps[n].blocks[block]
    requires OneCommitEach(dumps)
    ensures var entries := Entries(canon, dumps, block, defaults);
      && |entries| == |dumps| && DistinctCommits(entries)
      && entries[n].commit == dumps[n].commit && entries[n].tools.Keys == dumps[n].blocks[block].Keys
      && entries[n].tools[tool] == Trimmed(canon, dumps[n].blocks[block][tool], defaults)
  {
    hide Trimmed;
  }

  lemma {:induction false} CommitReadsBack(canon: Canon, entries: seq<Entry>, n: nat, commit: string, tools: Shipped)
    requires n < |entries| && DistinctCommits(entries) && entries[n].commit == commit
    requires Reads(Encode(canon, entries), commit, tools)
    ensures tools == ReadBack(canon, entries, n) && tools.Keys == entries[n].tools.Keys
    ensures forall tool | tool in tools :: Alike(canon, tools[tool], entries[n].tools[tool])
  {
    hide Reads, Encode, ReadBack, Alike;
    RecordReadsBack(canon, entries, n, tools);
  }

  lemma CompletedAlike(canon: Canon, a: Declaration, b: Declaration, defaults: Declaration)
    requires Alike(canon, a, b)
    ensures Alike(canon, Completed(a, defaults), Completed(b, defaults))
  {
    assert a.fields.Keys == Canonical(canon, a).fields.Keys == Canonical(canon, b).fields.Keys == b.fields.Keys;
    forall field | field in a.fields ensures canon(a.fields[field]) == canon(b.fields[field]) {
      assert Canonical(canon, a).fields[field] == Canonical(canon, b).fields[field];
    }
  }

  /**
   The composed record is lossless: what a block reads back under a release's
   commit, completed with the defaults, is what the release shipped, completed and
   up to equal values, exactly when no field outside the defaults was null.
   */
  lemma {:induction false} RecordIsLossless(
    canon: Canon, dumps: seq<Dump>, block: string, n: nat, tools: Shipped, tool: string)
    requires ShippedByAll(dumps, block) && n < |dumps| && tool in dumps[n].blocks[block]
    requires OneCommitEach(dumps)
    requires Reads(Encode(canon, Entries(canon, dumps, block, dumps[|dumps| - 1].defaults)), dumps[n].commit, tools)
    ensures tools.Keys == dumps[n].blocks[block].Keys
    ensures var defaults := dumps[|dumps| - 1].defaults;
      Alike(canon, Completed(tools[tool], defaults), Completed(dumps[n].blocks[block][tool], defaults))
      <==> NoStrayNull(canon, dumps[n].blocks[block][tool], defaults)
  {
    var defaults, shipped := dumps[|dumps| - 1].defaults, dumps[n].blocks[block];
    var entries := Entries(canon, dumps, block, defaults);
    EntryOf(canon, dumps, block, defaults, n, tool);
    hide Encode, Entries, Reads, Trimmed, Completed, NoStrayNull, Alike, ReadBack;
    CommitReadsBack(canon, entries, n, dumps[n].commit, tools);
    CompletedAlike(canon, tools[tool], Trimmed(canon, shipped[tool], defaults), defaults);
    TrimmingIsLossless(canon, shipped[tool], defaults);
  }

  lemma CompletedExactly(canon: Canon, a: Declaration, whole: Declaration, defaults: Declaration)
    requires Alike(canon, a, Trimmed(canon, whole, defaults))
    ensures Completed(a, defaults) == Completed(whole, defaults)
       <==> a == Trimmed(canon, whole, defaults) && StatesDefaultsAsTheyAre(canon, whole, defaults)
  {
    var trimmed := Trimmed(canon, whole, defaults);
    assert a.fields.Keys == Canonical(canon, a).fields.Keys == Canonical(canon, trimmed).fields.Keys == trimmed.fields.Keys;
    if Completed(a, defaults) == Completed(whole, defaults) {
      forall field | field in a.fields ensures a.fields[field] == trimmed.fields[field] {
        assert Completed(a, defaults).fields[field] == Completed(whole, defaults).fields[field];
      }
      assert a.fields == trimmed.fields;
    }
    TrimmingIsExact(canon, whole, defaults);
  }

  /**
   It is the shipped declaration to the letter exactly when the first trimmed
   declaration alike to it is the same, and no field equals its default in another
   form.
   */
  lemma {:induction false} RecordIsExact(
    canon: Canon, dumps: seq<Dump>, block: string, n: nat, tools: Shipped, tool: string)
    requires ShippedByAll(dumps, block) && n < |dumps| && tool in dumps[n].blocks[block]
    requires OneCommitEach(dumps)
    requires Reads(Encode(canon, Entries(canon, dumps, block, dumps[|dumps| - 1].defaults)), dumps[n].commit, tools)
    ensures tools.Keys == dumps[n].blocks[block].Keys
    ensures var defaults := dumps[|dumps| - 1].defaults;
      Completed(tools[tool], defaults) == Completed(dumps[n].blocks[block][tool], defaults)
      <==> (FirstIsTheSame(canon, Entries(canon, dumps, block, defaults), n, tool)
            && StatesDefaultsAsTheyAre(canon, dumps[n].blocks[block][tool], defaults))
  {
    var defaults, shipped := dumps[|dumps| - 1].defaults, dumps[n].blocks[block];
    var entries := Entries(canon, dumps, block, defaults);
    EntryOf(canon, dumps, block, defaults, n, tool);
    hide Encode, Entries, Reads, Trimmed, Completed, StatesDefaultsAsTheyAre, Alike, FirstIsTheSame, ReadBack;
    CommitReadsBack(canon, entries, n, dumps[n].commit, tools);
    ReadsBackExactly(canon, entries, n, tool);
    CompletedExactly(canon, tools[tool], shipped[tool], defaults);
  }

  // ----- Defaults that agree ------------------------------------------------

  /** What a declaration says of a field: its own value, or else the default, where there is either. */
  function Says(declaration: Declaration, defaults: Declaration, field: string): Option<Value> {
    if field in declaration.fields then Some(declaration.fields[field])
    else if field in defaults.fields then Some(defaults.fields[field])
    else None
  }

  /** Under the other defaults the declaration says an equal value of every field it states and every field of its own defaults. */
  ghost predicate SaysTheSame(canon: Canon, declaration: Declaration, own: Declaration, other: Declaration) {
    forall field | field in declaration.fields || field in own.fields ::
      Says(declaration, other, field).Some?
      && canon(Says(declaration, other, field).value) == canon(Says(declaration, own, field).value)
  }

  ghost predicate AllSayTheSame(canon: Canon, own: Declaration, other: Declaration) {
    forall declaration :: SaysTheSame(canon, declaration, own, other)
  }

  /** Defaults agree exactly when no declaration could say anything else under the other ones. */
  lemma {:induction false} AgreeMeansSaysTheSame(canon: Canon, own: Declaration, last: Declaration)
    ensures DefaultsAgree(canon, own, last) <==> AllSayTheSame(canon, own, last)
  {
    if AllSayTheSame(canon, own, last) {
      assert SaysTheSame(canon, Declaration(map[]), own, last);
    }
  }

  /** Dumps are composed exactly when there are some, none could say anything else under the last one's defaults, and all ship the same blocks. */
  lemma {:induction false} ComposableExactly(canon: Canon, dumps: seq<Dump>)
    ensures Composable(canon, dumps) <==>
      (dumps != []
       && (forall n | 0 <= n < |dumps| :: AllSayTheSame(canon, dumps[n].defaults, dumps[|dumps| - 1].defaults))
       && forall n, m | 0 <= n < |dumps| && 0 <= m < |dumps| :: dumps[n].blocks.Keys == dumps[m].blocks.Keys)
  {
    hide DefaultsAgree, AllSayTheSame;
    if dumps != [] {
      var last := dumps[|dumps| - 1].defaults;
      forall n | 0 <= n < |dumps|
        ensures DefaultsAgree(canon, dumps[n].defaults, last) <==> AllSayTheSame(canon, dumps[n].defaults, last)
      {
        AgreeMeansSaysTheSame(canon, dumps[n].defaults, last);
      }
      SameBlocks(dumps);
    }
  }

  lemma {:induction false} SameBlocks(dumps: seq<Dump>)
    ensures (forall block | block in BlockNames(dumps) :: ShippedByAll(dumps, block))
       <==> forall n, m | 0 <= n < |dumps| && 0 <= m < |dumps| :: dumps[n].blocks.Keys == dumps[m].blocks.Keys
  {
    if forall n, m | 0 <= n < |dumps| && 0 <= m < |dumps| :: dumps[n].blocks.Keys == dumps[m].blocks.Keys {
      forall block | block in BlockNames(dumps) ensures ShippedByAll(dumps, block) {
        var m :| 0 <= m < |dumps| && block in dumps[m].blocks;
        assert forall n :: 0 <= n < |dumps| ==> dumps[n].blocks.Keys == dumps[m].blocks.Keys;
      }
    }
    if forall block | block in BlockNames(dumps) :: ShippedByAll(dumps, block) {
      forall n, m | 0 <= n < |dumps| && 0 <= m < |dumps| ensures dumps[n].blocks.Keys <= dumps[m].blocks.Keys {
        forall block | block in dumps[n].blocks ensures block in dumps[m].blocks {
          assert ShippedByAll(dumps, block);
        }
      }
    }
  }

  lemma AlikeSays(canon: Canon, a: Declaration, b: Declaration, defaults: Declaration, field: string)
    requires Alike(canon, Completed(a, defaults), Completed(b, defaults))
    ensures Says(a, defaults, field).Some? <==> Says(b, defaults, field).Some?
    ensures Says(a, defaults, field).Some? ==>
      canon(Says(a, defaults, field).value) == canon(Says(b, defaults, field).value)
  {
    var x, y := Completed(a, defaults), Completed(b, defaults);
    assert x.fields.Keys == Canonical(canon, x).fields.Keys == Canonical(canon, y).fields.Keys == y.fields.Keys;
    if field in x.fields {
      assert Canonical(canon, x).fields[field] == Canonical(canon, y).fields[field];
    }
  }

  /**
   What a composed record gives under a release's commit says, of every field the
   release declared and of every default it had, what the release itself said.
   */
  lemma {:induction false} RecordSaysAsShipped(
    canon: Canon, dumps: seq<Dump>, block: string, n: nat, tools: Shipped, tool: string, field: string)
    requires Composable(canon, dumps) && OneCommitEach(dumps) && n < |dumps| && block in dumps[n].blocks
    requires tool in dumps[n].blocks[block] && ShippedByAll(dumps, block)
    requires Reads(Encode(canon, Entries(canon, dumps, block, dumps[|dumps| - 1].defaults)), dumps[n].commit, tools)
    requires forall f | f in dumps[n].blocks[block][tool].fields && f !in dumps[|dumps| - 1].defaults.fields ::
      canon(dumps[n].blocks[block][tool].fields[f]) != canon(Null)
    requires field in dumps[n].blocks[block][tool].fields || field in dumps[n].defaults.fields
    ensures var own, last, shipped := dumps[n].defaults, dumps[|dumps| - 1].defaults, dumps[n].blocks[block][tool];
      && tool in tools && Says(tools[tool], last, field).Some? && Says(shipped, own, field).Some?
      && canon(Says(tools[tool], last, field).value) == canon(Says(shipped, own, field).value)
  {
    var own, last, shipped := dumps[n].defaults, dumps[|dumps| - 1].defaults, dumps[n].blocks[block][tool];
    RecordIsLossless(canon, dumps, block, n, tools, tool);
    AgreeMeansSaysTheSame(canon, own, last);
    assert SaysTheSame(canon, shipped, own, last);
    hide Encode, Entries, Reads, Completed, Alike, DefaultsAgree, Composable;
    AlikeSays(canon, tools[tool], shipped, last, field);
  }

  /** A release with another default than the last one's is refused: a tool that did not state the field would read back with the other. */
  lemma {:induction false} OtherDefaultsAreRefused() returns (dumps: seq<Dump>)
    ensures |dumps| == 2 && dumps[0].blocks == dumps[1].blocks == map["block" := map["tool" := Declaration(map[])]]
    ensures Says(Declaration(map[]), dumps[0].defaults, "timeout") == Some(Json("5"))
    ensures Says(Declaration(map[]), dumps[1].defaults, "timeout") == Some(Json("10"))
    ensures !Composable(Numbered, dumps)
  {
    var blocks := map["block" := map["tool" := Declaration(map[])]];
    var five, ten := Declaration(map["timeout" := Json("5")]), Declaration(map["timeout" := Json("10")]);
    dumps := [Dump("a", five, blocks), Dump("b", ten, blocks)];
    assert "5" != "10" && "5" != "true" && "5" != "false" && "10" != "true" && "10" != "false" by {
      assert "5"[0] != "10"[0] && "5"[0] != "true"[0] && "10"[0] != "true"[0] && "5"[0] != "false"[0] && "10"[0] != "false"[0];
    }
    assert !DefaultsAgree(Numbered, five, ten) by { assert "timeout" in five.fields; }
    assert dumps[0].defaults == five && dumps[1].defaults == ten;
  }
}
