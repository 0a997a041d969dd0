/** What one ATT&CK bundle says of its techniques: which are active, which are retired, which replaced which. */
module Techniques {
  import opened Wrappers

  type Id = string

  datatype Status = Revoked | Deprecated

  datatype Object = Object(stixId: Option<string>, body: Body)

  datatype Body =
    | AttackPattern(references: seq<Reference>, revoked: bool, deprecated: bool)
    | RevokedBy(source: string, target: string)
    | AnotherKind

  datatype Reference = Reference(source: string, externalId: string)

  predicate IsDigit(c: char) { '0' <= c <= '9' }

  /** `T` and four digits, and for a sub-technique a dot and three more. */
  predicate Shaped(t: string) {
    && (|t| == 5 || |t| == 9) && t[0] == 'T'
    && (forall i :: 1 <= i < 5 ==> IsDigit(t[i]))
    && (|t| == 9 ==> t[5] == '.' && forall i :: 6 <= i < 9 ==> IsDigit(t[i]))
  }

  /** A technique's id; one newline may follow it. */
  predicate IsTechniqueId(s: string) {
    Shaped(if s != "" && s[|s| - 1] == '\n' then s[..|s| - 1] else s)
  }

  /** The first reference of the catalogue's own that is a technique id. */
  function TechniqueIn(references: seq<Reference>): (id: Option<Id>)
    ensures id.Some? ==> IsTechniqueId(id.value)
  {
    if references == [] then None
    else if references[0].source == "mitre-attack" && IsTechniqueId(references[0].externalId)
    then Some(references[0].externalId)
    else TechniqueIn(references[1..])
  }

  ghost predicate Digits(s: string, n: nat) {
    |s| == n && forall i :: 0 <= i < n ==> 48 <= s[i] as int <= 57
  }

  /** `T` and four digits, or those, a dot and three more. */
  ghost predicate IdWritten(s: string) {
    || (exists four :: Digits(four, 4) && s == "T" + four)
    || (exists four, three :: Digits(four, 4) && Digits(three, 3) && s == "T" + four + "." + three)
  }

  /** An id is such a text, or such a text and one newline. */
  lemma {:induction false} TechniqueIdExactly(s: string)
    ensures IsTechniqueId(s) <==> IdWritten(s) || (s != "" && s[|s| - 1] == '\n' && IdWritten(s[..|s| - 1]))
  {
    var t := if s != "" && s[|s| - 1] == '\n' then s[..|s| - 1] else s;
    if IdWritten(s) {
      EndsInDigit(s);
    }
    IdShape(t);
    hide IdWritten, Shaped;
  }

  lemma EndsInDigit(s: string)
    requires IdWritten(s)
    ensures s != "" && IsDigit(s[|s| - 1])
  {
    if four :| Digits(four, 4) && s == "T" + four {
      assert s[4] == four[3];
    } else {
      var four, three :| Digits(four, 4) && Digits(three, 3) && s == "T" + four + "." + three;
      assert s[8] == three[2];
    }
  }

  lemma {:induction false} IdShape(t: string)
    ensures Shaped(t) <==> IdWritten(t)
  {
    if Shaped(t) {
      assert Digits(t[1..5], 4) && t[..5] == "T" + t[1..5];
      if |t| == 5 {
        assert t == "T" + t[1..5];
      } else {
        assert Digits(t[6..9], 3) && t == "T" + t[1..5] + "." + t[6..9];
      }
    }
    if four :| Digits(four, 4) && t == "T" + four {
      assert forall i :: 1 <= i < 5 ==> t[i] == four[i - 1];
    }
    if four, three :| Digits(four, 4) && Digits(three, 3) && t == "T" + four + "." + three {
      assert forall i :: 1 <= i < 5 ==> t[i] == four[i - 1];
      assert forall i :: 6 <= i < 9 ==> t[i] == three[i - 6];
    }
  }

  /** Reference `k` is the catalogue's own and is a technique id, and none before it is. */
  ghost predicate FirstOwn(references: seq<Reference>, k: int, id: Id) {
    && 0 <= k < |references| && Own(references[k]) && references[k].externalId == id
    && forall j :: 0 <= j < k ==> !Own(references[j])
  }

  ghost predicate Own(r: Reference) { r.source == "mitre-attack" && IsTechniqueId(r.externalId) }

  lemma {:induction false} TechniqueInExactly(references: seq<Reference>, id: Id)
    ensures TechniqueIn(references) == Some(id) <==> exists k :: FirstOwn(references, k, id)
  {
    hide IsTechniqueId;
    if references != [] {
      var rest := references[1..];
      TechniqueInExactly(rest, id);
      if Own(references[0]) {
        assert references[0].externalId == id ==> FirstOwn(references, 0, id);
      } else {
        if k :| FirstOwn(rest, k, id) {
          assert forall j :: 0 <= j <= k ==> rest[j] == references[j + 1];
          assert FirstOwn(references, k + 1, id);
        }
        if k :| FirstOwn(references, k, id) {
          assert forall j :: 0 < j <= k ==> references[j] == rest[j - 1];
          assert FirstOwn(rest, k - 1, id);
        }
      }
    }
  }

  predicate IsPatternOf(o: Object, id: Id) {
    o.body.AttackPattern? && TechniqueIn(o.body.references) == Some(id)
  }

  predicate Active(o: Object, id: Id) {
    IsPatternOf(o, id) && !o.body.revoked && !o.body.deprecated
  }

  predicate Retired(o: Object, id: Id) {
    IsPatternOf(o, id) && (o.body.revoked || o.body.deprecated)
  }

  function StatusOf(o: Object): Status
    requires o.body.AttackPattern?
  {
    if o.body.revoked then Revoked else Deprecated
  }

  /** The ids of the bundle's active attack-patterns. */
  method ActiveIds(objects: seq<Object>) returns (ids: set<Id>)
    ensures forall id :: id in ids <==> exists o :: o in objects && Active(o, id)
    ensures forall id :: id in ids ==> IsTechniqueId(id)
  {
    ids := {};
    for i := 0 to |objects|
      invariant forall id :: id in ids <==> exists o :: o in objects[..i] && Active(o, id)
      invariant forall id :: id in ids ==> IsTechniqueId(id)
    {
      var o := objects[i];
      assert objects[..i + 1] == objects[..i] + [o];
      if o.body.AttackPattern? && !o.body.revoked && !o.body.deprecated {
        var id := TechniqueIn(o.body.references);
        if id.Some? {
          assert Active(o, id.value);
          ids := ids + {id.value};
        }
      }
    }
    assert objects[..|objects|] == objects;
  }

  /** Object `i` is the first of the bundle to state the id retired. */
  ghost predicate FirstToRetire(objects: seq<Object>, i: int, id: Id) {
    0 <= i < |objects| && Retired(objects[i], id) && forall j :: 0 <= j < i ==> !Retired(objects[j], id)
  }

  ghost predicate StatesOf(objects: seq<Object>, states: map<Id, Status>) {
    && (forall i, id :: 0 <= i < |objects| && Retired(objects[i], id) ==> id in states)
    && (forall id :: id in states ==>
          IsTechniqueId(id) && exists i :: FirstToRetire(objects, i, id) && states[id] == StatusOf(objects[i]))
  }

  lemma {:induction false} StatesGrow(objects: seq<Object>, o: Object, states: map<Id, Status>, next: map<Id, Status>)
    requires StatesOf(objects, states)
    requires next == if o.body.AttackPattern? && (o.body.revoked || o.body.deprecated)
                        && TechniqueIn(o.body.references).Some? && TechniqueIn(o.body.references).value !in states
                     then states[TechniqueIn(o.body.references).value := StatusOf(o)] else states
    ensures StatesOf(objects + [o], next)
  {
    var more := objects + [o];
    forall id | id in next
      ensures IsTechniqueId(id) && exists i :: FirstToRetire(more, i, id) && next[id] == StatusOf(more[i])
    {
      if id in states {
        var i :| FirstToRetire(objects, i, id) && states[id] == StatusOf(objects[i]);
        assert FirstToRetire(more, i, id) && more[i] == objects[i];
      } else {
        assert FirstToRetire(more, |objects|, id);
      }
    }
    forall i, id | 0 <= i < |more| && Retired(more[i], id) ensures id in next {
      if i < |objects| {
        assert Retired(objects[i], id);
      }
    }
  }

  /** The ids the bundle itself marks retired, each as the first object to say so has it. */
  method RetiredStates(objects: seq<Object>) returns (states: map<Id, Status>)
    ensures StatesOf(objects, states)
  {
    states := map[];
    for n := 0 to |objects|
      invariant StatesOf(objects[..n], states)
    {
      var o := objects[n];
      var before := states;
      if o.body.AttackPattern? && (o.body.revoked || o.body.deprecated) {
        var id := TechniqueIn(o.body.references);
        if id.Some? && id.value !in states {
          states := states[id.value := StatusOf(o)];
        }
      }
      StatesGrow(objects[..n], o, before, states);
      assert objects[..n + 1] == objects[..n] + [o];
    }
    assert objects[..|objects|] == objects;
  }

  /** Object `i` is the last of the bundle with this STIX id. */
  ghost predicate LastWith(objects: seq<Object>, i: int, stixId: string) {
    0 <= i < |objects| && objects[i].stixId == Some(stixId)
    && forall j :: i < j < |objects| ==> objects[j].stixId != Some(stixId)
  }

  ghost predicate IndexOf(objects: seq<Object>, index: map<string, Object>) {
    && (forall i :: 0 <= i < |objects| && objects[i].stixId.Some? ==> objects[i].stixId.value in index)
    && (forall s :: s in index ==> exists i :: LastWith(objects, i, s) && index[s] == objects[i])
  }

  lemma {:induction false} IndexGrows(objects: seq<Object>, o: Object, before: map<string, Object>, after: map<string, Object>)
    requires IndexOf(objects, before)
    requires after == if o.stixId.Some? then before[o.stixId.value := o] else before
    ensures IndexOf(objects + [o], after)
  {
    var more := objects + [o];
    forall s | s in after ensures exists i :: LastWith(more, i, s) && after[s] == more[i] {
      if o.stixId == Some(s) {
        assert LastWith(more, |objects|, s);
      } else {
        var i :| LastWith(objects, i, s) && before[s] == objects[i];
        assert LastWith(more, i, s) && more[i] == objects[i];
      }
    }
    assert forall i :: 0 <= i < |more| && i != |objects| ==> more[i] == objects[i];
  }

  /** The bundle's objects by STIX id. */
  method BuildIndex(objects: seq<Object>) returns (index: map<string, Object>)
    ensures IndexOf(objects, index)
  {
    index := map[];
    for n := 0 to |objects|
      invariant IndexOf(objects[..n], index)
    {
      var o, before := objects[n], index;
      if o.stixId.Some? {
        index := index[o.stixId.value := o];
      }
      assert objects[..n + 1] == objects[..n] + [o];
      IndexGrows(objects[..n], o, before, index);
    }
    assert objects[..|objects|] == objects;
  }

  /** The object is a revocation of one technique by another, both in the index. */
  ghost predicate Revokes(o: Object, index: map<string, Object>, gone: Id, successor: Id) {
    && o.body.RevokedBy? && o.body.source in index && o.body.target in index
    && IsPatternOf(index[o.body.source], gone) && IsPatternOf(index[o.body.target], successor) && gone != successor
  }

  ghost predicate RevokesSome(o: Object, index: map<string, Object>, gone: Id) {
    exists successor :: Revokes(o, index, gone, successor)
  }

  /** Object `i` is the first of the bundle to name what revoked the id. */
  ghost predicate FirstToRevoke(objects: seq<Object>, index: map<string, Object>, i: int, gone: Id, successor: Id) {
    0 <= i < |objects| && Revokes(objects[i], index, gone, successor)
    && forall j :: 0 <= j < i ==> !RevokesSome(objects[j], index, gone)
  }

  ghost predicate ReplacementsOf(objects: seq<Object>, index: map<string, Object>, replacements: map<Id, Id>) {
    && (forall i, gone :: 0 <= i < |objects| && RevokesSome(objects[i], index, gone) ==> gone in replacements)
    && (forall gone :: gone in replacements ==>
          exists i :: FirstToRevoke(objects, index, i, gone, replacements[gone]))
  }

  lemma {:induction false} RevocationIsOfOne(o: Object, index: map<string, Object>, gone: Id, successor: Id, other: Id)
    requires Revokes(o, index, gone, successor) && RevokesSome(o, index, other)
    ensures other == gone
  {}

  lemma {:induction false} ReplacementsGrow(
    objects: seq<Object>, o: Object, index: map<string, Object>, before: map<Id, Id>, after: map<Id, Id>, change: Option<(Id, Id)>)
    requires ReplacementsOf(objects, index, before)
    requires change.Some? ==> Revokes(o, index, change.value.0, change.value.1)
    requires change.None? ==> forall gone :: !RevokesSome(o, index, gone)
    requires after == if change.Some? && change.value.0 !in before then before[change.value.0 := change.value.1] else before
    ensures ReplacementsOf(objects + [o], index, after)
  {
    hide RevokesSome, Revokes;
    var more := objects + [o];
    forall gone | gone in after ensures exists i :: FirstToRevoke(more, index, i, gone, after[gone]) {
      if gone in before {
        var i :| FirstToRevoke(objects, index, i, gone, before[gone]);
        assert FirstToRevoke(more, index, i, gone, after[gone]);
      } else {
        assert FirstToRevoke(more, index, |objects|, gone, after[gone]);
      }
    }
    forall i, gone | 0 <= i < |more| && RevokesSome(more[i], index, gone) ensures gone in after {
      if i < |objects| {
        assert RevokesSome(objects[i], index, gone);
      } else if change.Some? {
        RevocationIsOfOne(o, index, change.value.0, change.value.1, gone);
      }
    }
  }

  /** The revocation one object states, if it is one between two indexed attack-patterns of the catalogue. */
  method RevocationIn(o: Object, index: map<string, Object>) returns (change: Option<(Id, Id)>)
    ensures change.Some? ==> Revokes(o, index, change.value.0, change.value.1)
    ensures change.None? ==> forall gone :: !RevokesSome(o, index, gone)
  {
    change := None;
    if o.body.RevokedBy? && o.body.source in index && o.body.target in index {
      var source, target := index[o.body.source].body, index[o.body.target].body;
      if source.AttackPattern? && target.AttackPattern? {
        var gone, successor := TechniqueIn(source.references), TechniqueIn(target.references);
        if gone.Some? && successor.Some? && gone != successor {
          change := Some((gone.value, successor.value));
        }
      }
    }
  }

  /** What the bundle says replaced each id, as its first relationship to say so has it. */
  method Replacements(objects: seq<Object>, index: map<string, Object>) returns (replacements: map<Id, Id>)
    ensures ReplacementsOf(objects, index, replacements)
  {
    hide Revokes, RevokesSome, ReplacementsOf;
    replacements := map[];
    NoReplacements(index);
    for n := 0 to |objects|
      invariant ReplacementsOf(objects[..n], index, replacements)
    {
      var before := replacements;
      var change := RevocationIn(objects[n], index);
      if change.Some? && change.value.0 !in replacements {
        replacements := replacements[change.value.0 := change.value.1];
      }
      ReplacementsGrow(objects[..n], objects[n], index, before, replacements, change);
      assert objects[..n + 1] == objects[..n] + [objects[n]];
    }
    assert objects[..|objects|] == objects;
  }

  lemma NoReplacements(index: map<string, Object>)
    ensures ReplacementsOf([], index, map[])
  {}

  // ----- A bundle, object by object -----------------------------------------

  /** The object is an attack-pattern whose first own reference to a technique is to that one. */
  ghost predicate PatternFor(o: Object, id: Id) {
    o.body.AttackPattern? && exists k :: FirstOwn(o.body.references, k, id)
  }

  ghost predicate MarkedRetired(o: Object, id: Id) {
    PatternFor(o, id) && !(!o.body.revoked && !o.body.deprecated)
  }

  lemma PatternIs(o: Object, id: Id)
    ensures IsPatternOf(o, id) <==> PatternFor(o, id)
    ensures Retired(o, id) <==> MarkedRetired(o, id)
  {
    if o.body.AttackPattern? {
      TechniqueInExactly(o.body.references, id);
    }
  }

  /** An id is active exactly when some attack-pattern of the bundle for it is marked neither revoked nor deprecated. */
  lemma {:induction false} ActiveExactly(objects: seq<Object>, id: Id)
    ensures (exists o :: o in objects && Active(o, id)) <==>
      exists i :: 0 <= i < |objects| && PatternFor(objects[i], id) && objects[i].body.revoked == objects[i].body.deprecated == false
  {
    forall i | 0 <= i < |objects| ensures IsPatternOf(objects[i], id) <==> PatternFor(objects[i], id) {
      PatternIs(objects[i], id);
    }
    hide IsPatternOf, PatternFor;
    if o :| o in objects && Active(o, id) {
      var i :| 0 <= i < |objects| && objects[i] == o;
      assert PatternFor(objects[i], id);
    }
    if i :| 0 <= i < |objects| && PatternFor(objects[i], id) && objects[i].body.revoked == objects[i].body.deprecated == false {
      assert objects[i] in objects && Active(objects[i], id);
    }
  }

  /** A retired id's status is revoked exactly when the first attack-pattern that marks it retired says revoked. */
  lemma {:induction false} StatesExactly(objects: seq<Object>, states: map<Id, Status>, i: nat, id: Id)
    requires StatesOf(objects, states) && i < |objects| && MarkedRetired(objects[i], id)
    requires forall j :: 0 <= j < i ==> !MarkedRetired(objects[j], id)
    ensures id in states && states[id] == if objects[i].body.revoked then Revoked else Deprecated
  {
    forall j | 0 <= j < |objects| ensures Retired(objects[j], id) <==> MarkedRetired(objects[j], id) {
      PatternIs(objects[j], id);
    }
    hide Retired;
    var k :| FirstToRetire(objects, k, id) && states[id] == StatusOf(objects[k]);
    assert k == i;
  }

  lemma {:induction false} StatedExactly(objects: seq<Object>, states: map<Id, Status>, id: Id)
    requires StatesOf(objects, states)
    ensures id in states <==> exists i :: 0 <= i < |objects| && MarkedRetired(objects[i], id)
  {
    forall j | 0 <= j < |objects| ensures Retired(objects[j], id) <==> MarkedRetired(objects[j], id) {
      PatternIs(objects[j], id);
    }
    hide Retired, MarkedRetired;
    if id in states {
      var k :| FirstToRetire(objects, k, id) && states[id] == StatusOf(objects[k]);
      assert MarkedRetired(objects[k], id);
    }
  }
}
