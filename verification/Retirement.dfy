/** The set of retired ids, and what a release must carry. */
module Retirement {
  import opened Wrappers
  import opened Techniques

  datatype Domain = Enterprise | Mobile | Ics

  /** The order the domains are read in. */
  const DOMAINS: seq<Domain> := [Enterprise, Mobile, Ics]

  datatype Row = Row(domain: Domain, retiredIn: Option<string>, status: Option<Status>, revokedBy: Option<Id>)

  /** What the three bundles of one release say. */
  datatype Release = Release(
    versions: map<Domain, string>,
    current: map<Domain, set<Id>>,
    states: map<Domain, map<Id, Status>>,
    replacements: map<Id, Id>)
  {
    /** Every domain was read, and every id is a technique's. */
    ghost predicate Valid() {
      && (forall d: Domain :: d in versions && d in current && d in states)
      && (forall d, id :: d in current && id in current[d] ==> IsTechniqueId(id))
      && (forall d, id :: d in states && id in states[d] ==> IsTechniqueId(id))
    }

    function Version(): string
      requires Enterprise in versions
    {
      versions[Enterprise]
    }
  }

  function Of(ids: map<Domain, set<Id>>, d: Domain): set<Id> {
    if d in ids then ids[d] else {}
  }

  /** The ids of any domain. */
  function Live(ids: map<Domain, set<Id>>): set<Id> {
    Of(ids, Enterprise) + Of(ids, Mobile) + Of(ids, Ics)
  }

  function StatesIn(states: map<Domain, map<Id, Status>>, d: Domain): map<Id, Status> {
    if d in states then states[d] else map[]
  }

  function Stated(states: map<Domain, map<Id, Status>>): set<Id> {
    StatesIn(states, Enterprise).Keys + StatesIn(states, Mobile).Keys + StatesIn(states, Ics).Keys
  }

  predicate IsMeta(key: string) { key != "" && key[0] == '_' }

  // ----- What a retired row is ----------------------------------------------

  /** The first domain the id is among, in the order the domains are read. */
  function FirstDomain(among: map<Domain, set<Id>>, id: Id): Domain {
    if id in Of(among, Enterprise) then Enterprise else if id in Of(among, Mobile) then Mobile else Ics
  }

  function FirstStating(states: map<Domain, map<Id, Status>>, id: Id): Domain {
    if id in StatesIn(states, Enterprise) then Enterprise else if id in StatesIn(states, Mobile) then Mobile else Ics
  }

  /** What the last domain that states the id calls it. */
  function LastStatus(states: map<Domain, map<Id, Status>>, id: Id): Status
    requires id in Stated(states)
  {
    if id in StatesIn(states, Ics) then states[Ics][id]
    else if id in StatesIn(states, Mobile) then states[Mobile][id]
    else states[Enterprise][id]
  }

  function RetiredKeys(previous: map<Domain, set<Id>>, existing: map<Id, Row>, r: Release): set<Id> {
    ((set id | id in existing && !IsMeta(id)) + Live(previous) + Stated(r.states)) - Live(r.current)
  }

  /** The row as it was, or as the release that lost the id or the bundle that states it begins it. */
  function BeginRow(previous: map<Domain, set<Id>>, existing: map<Id, Row>, r: Release, version: string, id: Id): Row {
    if id in existing && !IsMeta(id) then existing[id]
    else if id in Live(previous) then Row(FirstDomain(previous, id), Some(version), None, None)
    else Row(FirstStating(r.states, id), None, None, None)
  }

  function MarkRow(row: Row, r: Release, id: Id): Row {
    if id in Stated(r.states) then row.(status := Some(LastStatus(r.states, id))) else row
  }

  /** Who revoked the id, where the bundle says so and that one is active. */
  function Successor(r: Release, id: Id): Option<Id> {
    if id in r.replacements && r.replacements[id] != "" && r.replacements[id] in Live(r.current)
    then Some(r.replacements[id]) else None
  }

  function RetiredRow(previous: map<Domain, set<Id>>, existing: map<Id, Row>, r: Release, version: string, id: Id): Row {
    MarkRow(BeginRow(previous, existing, r, version, id), r, id).(revokedBy := Successor(r, id))
  }

  /** The retired set after a release. */
  function RetiredSet(previous: map<Domain, set<Id>>, existing: map<Id, Row>, r: Release, version: string): map<Id, Row> {
    map id | id in RetiredKeys(previous, existing, r) :: RetiredRow(previous, existing, r, version, id)
  }

  // ----- The loops ----------------------------------------------------------

  function FromDomains(ids: map<Domain, set<Id>>, n: nat): set<Id>
    requires n <= 3
  {
    (if 1 <= n then Of(ids, Enterprise) else {}) + (if 2 <= n then Of(ids, Mobile) else {})
    + (if 3 <= n then Of(ids, Ics) else {})
  }

  function StatesFrom(states: map<Domain, map<Id, Status>>, n: nat): map<Id, Status>
    requires n <= 3
  {
    (if 1 <= n then StatesIn(states, Enterprise) else map[]) + (if 2 <= n then StatesIn(states, Mobile) else map[])
    + (if 3 <= n then StatesIn(states, Ics) else map[])
  }

  /** Rows begun for the ids in `lost` that are not live and have none. */
  ghost predicate Begun(before: map<Id, Row>, out: map<Id, Row>, lost: set<Id>, live: set<Id>, row: Row) {
    && out.Keys == before.Keys + (lost - live)
    && (forall id :: id in before ==> out[id] == before[id])
    && (forall id :: id in out && id !in before ==> out[id] == row)
  }

  method BeginLost(before: map<Id, Row>, lost: set<Id>, live: set<Id>, row: Row) returns (out: map<Id, Row>)
    ensures Begun(before, out, lost, live, row)
  {
    out := before;
    var left := lost;
    while left != {}
      invariant left <= lost
      invariant Begun(before, out, lost - left, live, row)
    {
      var id :| id in left;
      left := left - {id};
      if id !in live && id !in out {
        out := out[id := row];
      }
    }
    assert lost - left == lost;
  }

  /** Statuses written over the rows of the stated ids that are not live, each begun where there is none. */
  ghost predicate Marked(before: map<Id, Row>, out: map<Id, Row>, states: map<Id, Status>, done: set<Id>, live: set<Id>, row: Row) {
    && done <= states.Keys
    && out.Keys == before.Keys + (done - live)
    && (forall id :: id in out ==>
          out[id] == var begun := if id in before then before[id] else row;
            if id in done && id !in live then begun.(status := Some(states[id])) else begun)
  }

  method MarkStated(before: map<Id, Row>, states: map<Id, Status>, live: set<Id>, row: Row) returns (out: map<Id, Row>)
    ensures Marked(before, out, states, states.Keys, live, row)
  {
    out := before;
    var left := states.Keys;
    while left != {}
      invariant left <= states.Keys
      invariant Marked(before, out, states, states.Keys - left, live, row)
    {
      var id :| id in left;
      ghost var done := states.Keys - left;
      ghost var was := out;
      left := left - {id};
      assert states.Keys - left == done + {id};
      if id !in live {
        if id !in out {
          out := out[id := row];
        }
        out := out[id := out[id].(status := Some(states[id]))];
      }
    }
    assert states.Keys - left == states.Keys;
  }

  method SetSuccessors(before: map<Id, Row>, r: Release) returns (out: map<Id, Row>)
    ensures out == map id | id in before :: before[id].(revokedBy := Successor(r, id))
  {
    out := before;
    var left := before.Keys;
    while left != {}
      invariant left <= before.Keys && out.Keys == before.Keys
      invariant forall id :: id in before ==>
        out[id] == if id in left then before[id] else before[id].(revokedBy := Successor(r, id))
    {
      var id :| id in left;
      left := left - {id};
      if id in r.replacements && r.replacements[id] != "" && r.replacements[id] in Live(r.current) {
        out := out[id := out[id].(revokedBy := Some(r.replacements[id]))];
      } else {
        out := out[id := out[id].(revokedBy := None)];
      }
    }
  }

  /** The first `n` domains' lost ids are begun. */
  ghost predicate BegunUpTo(
    kept: map<Id, Row>, out: map<Id, Row>, previous: map<Domain, set<Id>>, live: set<Id>, version: string, n: nat)
    requires n <= 3
  {
    && out.Keys == kept.Keys + (FromDomains(previous, n) - live)
    && (forall id :: id in out ==>
          out[id] == if id in kept then kept[id] else Row(FirstDomain(previous, id), Some(version), None, None))
  }

  lemma {:induction false} BeginNext(
    kept: map<Id, Row>, before: map<Id, Row>, after: map<Id, Row>, previous: map<Domain, set<Id>>, here: set<Id>,
    live: set<Id>, version: string, n: nat)
    requires n < 3 && here <= live && BegunUpTo(kept, before, previous, live, version, n)
    requires Begun(before, after, Of(previous, DOMAINS[n]) - here, live, Row(DOMAINS[n], Some(version), None, None))
    ensures BegunUpTo(kept, after, previous, live, version, n + 1)
  {
    assert FromDomains(previous, n + 1) == FromDomains(previous, n) + Of(previous, DOMAINS[n]);
    assert after.Keys == kept.Keys + (FromDomains(previous, n + 1) - live);
    forall id | id in after && id !in before
      ensures id in Of(previous, DOMAINS[n]) && FirstDomain(previous, id) == DOMAINS[n]
    {
      assert id !in FromDomains(previous, n);
    }
  }

  method BeginAll(kept: map<Id, Row>, previous: map<Domain, set<Id>>, r: Release, version: string) returns (out: map<Id, Row>)
    ensures BegunUpTo(kept, out, previous, Live(r.current), version, 3)
  {
    hide BegunUpTo, Begun, FromDomains;
    out := kept;
    NothingBegun(kept, previous, Live(r.current), version);
    for n := 0 to |DOMAINS|
      invariant BegunUpTo(kept, out, previous, Live(r.current), version, n)
    {
      var d, before := DOMAINS[n], out;
      out := BeginLost(out, Of(previous, d) - Of(r.current, d), Live(r.current), Row(d, Some(version), None, None));
      BeginNext(kept, before, out, previous, Of(r.current, d), Live(r.current), version, n);
    }
  }

  lemma NothingBegun(kept: map<Id, Row>, previous: map<Domain, set<Id>>, live: set<Id>, version: string)
    ensures BegunUpTo(kept, kept, previous, live, version, 0)
  {}

  /** The row of an id once some domains' statuses are written. */
  ghost predicate MarkedRow(
    begun: map<Id, Row>, out: map<Id, Row>, fallback: Row, written: map<Id, Status>, live: set<Id>, id: Id)
    requires id in out
  {
    var row := if id in begun then begun[id] else fallback;
    out[id] == if id in written && id !in live then row.(status := Some(written[id])) else row
  }

  /** The first `n` domains' statuses are written. */
  ghost predicate MarkedUpTo(
    begun: map<Id, Row>, out: map<Id, Row>, states: map<Domain, map<Id, Status>>, live: set<Id>, n: nat)
    requires n <= 3
  {
    && out.Keys == begun.Keys + (StatesFrom(states, n).Keys - live)
    && forall id :: id in out ==>
         MarkedRow(begun, out, Row(FirstStating(states, id), None, None, None), StatesFrom(states, n), live, id)
  }

  lemma StatesNext(states: map<Domain, map<Id, Status>>, n: nat)
    requires n < 3
    ensures StatesFrom(states, n + 1) == StatesFrom(states, n) + StatesIn(states, DOMAINS[n])
    ensures forall id :: id in StatesIn(states, DOMAINS[n]) && id !in StatesFrom(states, n) ==>
      FirstStating(states, id) == DOMAINS[n]
  {}

  lemma {:induction false} MarkNext(
    begun: map<Id, Row>, before: map<Id, Row>, after: map<Id, Row>, states: map<Domain, map<Id, Status>>, live: set<Id>, n: nat)
    requires n < 3 && MarkedUpTo(begun, before, states, live, n)
    requires var d := DOMAINS[n];
      Marked(before, after, StatesIn(states, d), StatesIn(states, d).Keys, live, Row(d, None, None, None))
    ensures MarkedUpTo(begun, after, states, live, n + 1)
  {
    StatesNext(states, n);
    var here := StatesIn(states, DOMAINS[n]);
    hide StatesFrom, StatesIn, FirstStating, MarkedRow;
    assert after.Keys == begun.Keys + (StatesFrom(states, n + 1).Keys - live);
    forall id | id in after
      ensures MarkedRow(begun, after, Row(FirstStating(states, id), None, None, None), StatesFrom(states, n + 1), live, id)
    {
      MarkedRowNext(begun, before, after, Row(FirstStating(states, id), None, None, None), Row(DOMAINS[n], None, None, None),
        StatesFrom(states, n), here, live, id);
    }
  }

  lemma {:induction false} MarkedRowNext(
    begun: map<Id, Row>, before: map<Id, Row>, after: map<Id, Row>, fallback: Row, row: Row,
    sofar: map<Id, Status>, here: map<Id, Status>, live: set<Id>, id: Id)
    requires id in after && begun.Keys <= before.Keys && (id in before ==> MarkedRow(begun, before, fallback, sofar, live, id))
    requires id in before || (id in here && id !in live && row == fallback)
    requires after[id] == var begun := if id in before then before[id] else row;
      if id in here && id !in live then begun.(status := Some(here[id])) else begun
    requires id in before <==> id in begun || (id in sofar && id !in live)
    ensures MarkedRow(begun, after, fallback, sofar + here, live, id)
  {}

  method MarkAll(begun: map<Id, Row>, r: Release) returns (out: map<Id, Row>)
    ensures MarkedUpTo(begun, out, r.states, Live(r.current), 3)
  {
    hide MarkedUpTo, Marked, StatesFrom;
    out := begun;
    NothingMarked(begun, r.states, Live(r.current));
    for n := 0 to |DOMAINS|
      invariant MarkedUpTo(begun, out, r.states, Live(r.current), n)
    {
      var d, before := DOMAINS[n], out;
      out := MarkStated(out, StatesIn(r.states, d), Live(r.current), Row(d, None, None, None));
      MarkNext(begun, before, out, r.states, Live(r.current), n);
    }
  }

  lemma NothingMarked(begun: map<Id, Row>, states: map<Domain, map<Id, Status>>, live: set<Id>)
    ensures MarkedUpTo(begun, begun, states, live, 0)
  {}

  lemma {:induction false} AllDomainsCounted(previous: map<Domain, set<Id>>, states: map<Domain, map<Id, Status>>)
    ensures FromDomains(previous, 3) == Live(previous)
    ensures StatesFrom(states, 3).Keys == Stated(states)
    ensures forall id :: id in Stated(states) ==> StatesFrom(states, 3)[id] == LastStatus(states, id)
  {}

  lemma {:induction false} LoopsGiveRetiredSet(
    previous: map<Domain, set<Id>>, r: Release, version: string, existing: map<Id, Row>,
    kept: map<Id, Row>, begun: map<Id, Row>, marked: map<Id, Row>, out: map<Id, Row>)
    requires kept == map id | id in existing && !IsMeta(id) && id !in Live(r.current) :: existing[id]
    requires BegunUpTo(kept, begun, previous, Live(r.current), version, 3)
    requires MarkedUpTo(begun, marked, r.states, Live(r.current), 3)
    requires out == map id | id in marked :: marked[id].(revokedBy := Successor(r, id))
    ensures out == RetiredSet(previous, existing, r, version)
  {
    AllDomainsCounted(previous, r.states);
    hide FromDomains, StatesFrom, FirstDomain, FirstStating, LastStatus, Successor, Live, Stated, IsMeta;
    assert out.Keys == RetiredKeys(previous, existing, r);
    forall id | id in out ensures out[id] == RetiredRow(previous, existing, r, version, id) {
      assert id !in Live(r.current);
      assert id in begun ==> begun[id] == BeginRow(previous, existing, r, version, id);
      assert id !in begun ==> BeginRow(previous, existing, r, version, id) == Row(FirstStating(r.states, id), None, None, None);
    }
  }

  /** The retired set, built up over the domains. */
  method RetiredIds(previous: map<Domain, set<Id>>, r: Release, version: string, existing: map<Id, Row>)
    returns (retired: map<Id, Row>)
    ensures retired == RetiredSet(previous, existing, r, version)
  {
    hide BegunUpTo, MarkedUpTo, RetiredSet;
    var kept := map id | id in existing && !IsMeta(id) && id !in Live(r.current) :: existing[id];
    var begun := BeginAll(kept, previous, r, version);
    var marked := MarkAll(begun, r);
    retired := SetSuccessors(marked, r);
    LoopsGiveRetiredSet(previous, r, version, existing, kept, begun, marked, retired);
  }

  // ----- What a release must carry ------------------------------------------

  datatype Refusal =
    | NoActiveIds(domain: Domain)
    | LostIds(domain: Domain, ids: set<Id>)
    | AnotherRelease(domain: Domain)

  /** The ids of the domain's catalogue the release neither has nor marks retired. */
  function Missing(previous: map<Domain, set<Id>>, r: Release, d: Domain): set<Id> {
    Of(previous, d) - Live(r.current) - StatesIn(r.states, d).Keys
  }

  ghost predicate Acceptable(previous: map<Domain, set<Id>>, r: Release, acceptLostIds: bool)
    requires Enterprise in r.versions
  {
    && (forall d :: d in r.current ==> r.current[d] != {})
    && (!acceptLostIds ==> forall d :: d in r.current ==> Missing(previous, r, d) == {})
    && (forall d :: d in r.versions ==> r.versions[d] == r.Version())
  }

  lemma EveryDomainIsRead()
    ensures DOMAINS[..|DOMAINS|] == DOMAINS && forall d: Domain :: d in DOMAINS
  {
    forall d: Domain ensures d in DOMAINS {
      match d
      case Enterprise => assert d == DOMAINS[0];
      case Mobile => assert d == DOMAINS[1];
      case Ics => assert d == DOMAINS[2];
    }
  }

  ghost predicate DomainStands(previous: map<Domain, set<Id>>, r: Release, acceptLostIds: bool, d: Domain) {
    d in r.current ==> r.current[d] != {} && (acceptLostIds || Missing(previous, r, d) == {})
  }

  ghost predicate FirstDomainToFail(previous: map<Domain, set<Id>>, r: Release, acceptLostIds: bool, d: Domain) {
    d in r.current && exists n :: 0 <= n < |DOMAINS| && DOMAINS[n] == d && StandUpTo(previous, r, acceptLostIds, n)
  }

  ghost predicate StandUpTo(previous: map<Domain, set<Id>>, r: Release, acceptLostIds: bool, n: nat)
    requires n <= |DOMAINS|
  {
    forall k :: 0 <= k < n ==> DomainStands(previous, r, acceptLostIds, DOMAINS[k])
  }

  /** What a refusal says: the first domain without ids or without ids it had, or else a domain of another release. */
  ghost predicate Refuses(previous: map<Domain, set<Id>>, r: Release, acceptLostIds: bool, refusal: Refusal)
    requires Enterprise in r.versions
  {
    match refusal
    case NoActiveIds(d) => FirstDomainToFail(previous, r, acceptLostIds, d) && r.current[d] == {}
    case LostIds(d, ids) =>
      FirstDomainToFail(previous, r, acceptLostIds, d) && r.current[d] != {}
      && !acceptLostIds && ids == Missing(previous, r, d) != {}
    case AnotherRelease(d) =>
      (forall e: Domain :: DomainStands(previous, r, acceptLostIds, e)) && d in r.versions && r.versions[d] != r.Version()
  }

  /** Stops on a domain with no ids, on lost ids, and on bundles of two releases. */
  method RefuseMixedOrThin(previous: map<Domain, set<Id>>, r: Release, acceptLostIds: bool) returns (refusal: Option<Refusal>)
    requires Enterprise in r.versions
    ensures refusal.None? <==> Acceptable(previous, r, acceptLostIds)
    ensures refusal.Some? ==> Refuses(previous, r, acceptLostIds, refusal.value)
  {
    hide Missing;
    for n := 0 to |DOMAINS|
      invariant StandUpTo(previous, r, acceptLostIds, n)
    {
      var d := DOMAINS[n];
      assert d in r.current ==> (DomainStands(previous, r, acceptLostIds, d) <==>
        r.current[d] != {} && (acceptLostIds || Missing(previous, r, d) == {}));
      if d in r.current {
        if r.current[d] == {} {
          return Some(NoActiveIds(d));
        }
        var missing := Missing(previous, r, d);
        if missing != {} && !acceptLostIds {
          return Some(LostIds(d, missing));
        }
      }
    }
    EveryDomainIsRead();
    forall d: Domain ensures DomainStands(previous, r, acceptLostIds, d) {
      assert d in DOMAINS;
    }
    for n := 0 to |DOMAINS|
      invariant forall d :: d in r.versions && d in DOMAINS[..n] ==> r.versions[d] == r.Version()
    {
      var d := DOMAINS[n];
      if d in r.versions && r.versions[d] != r.Version() {
        return Some(AnotherRelease(d));
      }
    }
    forall d: Domain ensures DomainStands(previous, r, acceptLostIds, d) && (d in r.versions ==> r.versions[d] == r.Version()) {
      assert d in DOMAINS[..|DOMAINS|];
    }
    forall d | d in r.current ensures r.current[d] != {} && (acceptLostIds || Missing(previous, r, d) == {}) {
      assert DomainStands(previous, r, acceptLostIds, d);
    }
    return None;
  }
}
