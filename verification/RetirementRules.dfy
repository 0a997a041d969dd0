/** What a retired row says and what stops a release, read off the catalogues and bundles domain by domain. */
module RetirementRules {
  import opened Wrappers
  import opened Techniques
  import opened Retirement

  /** The order the domains are read in. */
  function Place(d: Domain): nat {
    match d
    case Enterprise => 0
    case Mobile => 1
    case Ics => 2
  }

  ghost predicate Has(ids: map<Domain, set<Id>>, d: Domain, id: Id) { d in ids && id in ids[d] }

  ghost predicate Says(states: map<Domain, map<Id, Status>>, d: Domain, id: Id) { d in states && id in states[d] }

  ghost predicate SomeHas(ids: map<Domain, set<Id>>, id: Id) { exists d :: Has(ids, d, id) }

  ghost predicate SomeSays(states: map<Domain, map<Id, Status>>, id: Id) { exists d :: Says(states, d, id) }

  ghost predicate FirstToHave(ids: map<Domain, set<Id>>, d: Domain, id: Id) {
    Has(ids, d, id) && forall e :: Has(ids, e, id) ==> Place(d) <= Place(e)
  }

  ghost predicate FirstToSay(states: map<Domain, map<Id, Status>>, d: Domain, id: Id) {
    Says(states, d, id) && forall e :: Says(states, e, id) ==> Place(d) <= Place(e)
  }

  ghost predicate LastToSay(states: map<Domain, map<Id, Status>>, d: Domain, id: Id) {
    Says(states, d, id) && forall e :: Says(states, e, id) ==> Place(e) <= Place(d)
  }

  /** The id had a row, and is not a key that only describes the file. */
  ghost predicate HadRow(existing: map<Id, Row>, id: Id) {
    id in existing && (|id| > 0 ==> id[0] != '_')
  }

  lemma {:induction false} LiveIs(ids: map<Domain, set<Id>>, id: Id)
    ensures id in Live(ids) <==> SomeHas(ids, id)
    ensures SomeHas(ids, id) ==> FirstToHave(ids, FirstDomain(ids, id), id)
  {
    assert (id in Of(ids, Enterprise) <==> Has(ids, Enterprise, id)) && (id in Of(ids, Mobile) <==> Has(ids, Mobile, id))
      && (id in Of(ids, Ics) <==> Has(ids, Ics, id));
    forall d | Has(ids, d, id) ensures id in Live(ids) && Place(FirstDomain(ids, id)) <= Place(d) {
      match d case Enterprise => case Mobile => case Ics =>
    }
  }

  lemma {:induction false} StatedIs(states: map<Domain, map<Id, Status>>, id: Id)
    ensures id in Stated(states) <==> SomeSays(states, id)
    ensures SomeSays(states, id) ==> FirstToSay(states, FirstStating(states, id), id)
    ensures SomeSays(states, id) ==> exists d :: LastToSay(states, d, id) && LastStatus(states, id) == states[d][id]
  {
    assert (id in StatesIn(states, Enterprise) <==> Says(states, Enterprise, id))
      && (id in StatesIn(states, Mobile) <==> Says(states, Mobile, id)) && (id in StatesIn(states, Ics) <==> Says(states, Ics, id));
    forall d | Says(states, d, id) ensures id in Stated(states) && Place(FirstStating(states, id)) <= Place(d) {
      match d case Enterprise => case Mobile => case Ics =>
    }
    if SomeSays(states, id) {
      var last := if Says(states, Ics, id) then Ics else if Says(states, Mobile, id) then Mobile else Enterprise;
      assert LastToSay(states, last, id) && LastStatus(states, id) == states[last][id];
    }
  }

  // ----- The rows -----------------------------------------------------------

  /** The ids kept are those no domain has now that had a row, were in a catalogue, or are stated retired. */
  lemma {:induction false} KeptExactly(previous: map<Domain, set<Id>>, existing: map<Id, Row>, r: Release, version: string, id: Id)
    ensures id in RetiredSet(previous, existing, r, version) <==>
      !SomeHas(r.current, id) && (HadRow(existing, id) || SomeHas(previous, id) || SomeSays(r.states, id))
  {
    LiveIs(r.current, id);
    LiveIs(previous, id);
    StatedIs(r.states, id);
    hide Live, Stated, RetiredRow;
  }

  /** Where and when the id went: as its row has it, or the first catalogue that had it and now, or the first domain to say so. */
  ghost predicate TellsOrigin(previous: map<Domain, set<Id>>, existing: map<Id, Row>, r: Release, version: string, id: Id, row: Row) {
    if HadRow(existing, id) then row.domain == existing[id].domain && row.retiredIn == existing[id].retiredIn
    else if SomeHas(previous, id) then FirstToHave(previous, row.domain, id) && row.retiredIn == Some(version)
    else FirstToSay(r.states, row.domain, id) && row.retiredIn == None
  }

  /** What the last domain to state the id calls it; where none does, what its row did. */
  ghost predicate TellsStatus(existing: map<Id, Row>, r: Release, id: Id, row: Row) {
    if SomeSays(r.states, id) then exists d :: LastToSay(r.states, d, id) && row.status == Some(r.states[d][id])
    else if HadRow(existing, id) then row.status == existing[id].status
    else row.status == None
  }

  /** The replacement the release names, where there is one, it is not empty, and some domain has it; no other. */
  ghost predicate TellsSuccessor(r: Release, id: Id, row: Row) {
    match row.revokedBy
    case Some(next) => next != "" && id in r.replacements && r.replacements[id] == next && SomeHas(r.current, next)
    case None => id in r.replacements ==> r.replacements[id] == "" || !SomeHas(r.current, r.replacements[id])
  }

  /** A retired row is the one row that tells these three things. */
  lemma {:induction false} RowExactly(
    previous: map<Domain, set<Id>>, existing: map<Id, Row>, r: Release, version: string, id: Id, row: Row)
    requires id in RetiredSet(previous, existing, r, version)
    ensures row == RetiredSet(previous, existing, r, version)[id] <==>
      TellsOrigin(previous, existing, r, version, id, row) && TellsStatus(existing, r, id, row) && TellsSuccessor(r, id, row)
  {
    KeptExactly(previous, existing, r, version, id);
    LiveIs(previous, id);
    StatedIs(r.states, id);
    if id in r.replacements {
      LiveIs(r.current, r.replacements[id]);
    }
    var kept := RetiredSet(previous, existing, r, version)[id];
    hide Live, Stated, FirstDomain, FirstStating, LastStatus, RetiredSet, SomeHas, SomeSays;
    assert kept == RetiredRow(previous, existing, r, version, id) by { RowOf(previous, existing, r, version, id); }
    assert TellsOrigin(previous, existing, r, version, id, kept);
    assert TellsStatus(existing, r, id, kept);
    assert TellsSuccessor(r, id, kept);
    PlacesDiffer();
  }

  lemma RowOf(previous: map<Domain, set<Id>>, existing: map<Id, Row>, r: Release, version: string, id: Id)
    requires id in RetiredSet(previous, existing, r, version)
    ensures RetiredSet(previous, existing, r, version)[id] == RetiredRow(previous, existing, r, version, id)
  {}

  lemma PlacesDiffer()
    ensures forall d, e :: Place(d) == Place(e) ==> d == e
  {}

  // ----- A release that loses an id and names its replacement -----------------

  /** An id of the Mobile and ICS catalogues goes, and a relationship names what replaced it: both are told. */
  lemma {:induction false} AReplacementIsNamed(version: string) returns (previous: map<Domain, set<Id>>, r: Release)
    ensures previous == map[Enterprise := {"T1002"}, Mobile := {"T1001"}, Ics := {"T1001"}]
    ensures r.current == map[Enterprise := {"T1002"}, Mobile := {}, Ics := {}] && r.replacements == map["T1001" := "T1002"]
    ensures r.states == map[Enterprise := map["T1001" := Deprecated], Mobile := map["T1001" := Revoked], Ics := map[]]
    ensures RetiredSet(previous, map[], r, version) == map["T1001" := Row(Mobile, Some(version), Some(Revoked), Some("T1002"))]
  {
    previous := map[Enterprise := {"T1002"}, Mobile := {"T1001"}, Ics := {"T1001"}];
    r := Release(map[], map[Enterprise := {"T1002"}, Mobile := {}, Ics := {}],
      map[Enterprise := map["T1001" := Deprecated], Mobile := map["T1001" := Revoked], Ics := map[]], map["T1001" := "T1002"]);
    assert "T1001"[4] != "T1002"[4];
    assert RetiredKeys(previous, map[], r) == {"T1001"};
    assert RetiredRow(previous, map[], r, version, "T1001") == Row(Mobile, Some(version), Some(Revoked), Some("T1002"));
  }

  // ----- What stops a release -----------------------------------------------

  /** An id of a domain's catalogue that is in no domain now, and that the domain's bundle does not state retired. */
  ghost predicate LostFrom(previous: map<Domain, set<Id>>, r: Release, d: Domain, id: Id) {
    d in r.current && Has(previous, d, id) && !SomeHas(r.current, id) && !Says(r.states, d, id)
  }

  ghost predicate LosesNothing(previous: map<Domain, set<Id>>, r: Release) {
    forall d, id :: !LostFrom(previous, r, d, id)
  }

  ghost predicate OneVersion(r: Release) {
    forall d, e :: d in r.versions && e in r.versions ==> r.versions[d] == r.versions[e]
  }

  ghost predicate NoneEmpty(r: Release) {
    forall d :: d in r.current ==> r.current[d] != {}
  }

  lemma {:induction false} MissingAre(previous: map<Domain, set<Id>>, r: Release, d: Domain, id: Id)
    requires d in r.current
    ensures id in Missing(previous, r, d) <==> LostFrom(previous, r, d, id)
  {
    LiveIs(r.current, id);
    hide Live;
  }

  /** A release goes through when no domain is empty, all are of one version, and none loses an id, unless that is accepted. */
  lemma {:induction false} AcceptableExactly(previous: map<Domain, set<Id>>, r: Release, acceptLostIds: bool)
    requires Enterprise in r.versions
    ensures Acceptable(previous, r, acceptLostIds) <==>
      NoneEmpty(r) && OneVersion(r) && (acceptLostIds || LosesNothing(previous, r))
  {
    forall d, id | d in r.current ensures id in Missing(previous, r, d) <==> LostFrom(previous, r, d, id) {
      MissingAre(previous, r, d, id);
    }
    hide Missing, LostFrom;
    forall d | d in r.current && Missing(previous, r, d) != {} ensures !LosesNothing(previous, r) {
      var id :| id in Missing(previous, r, d);
    }
    if !LosesNothing(previous, r) {
      var d, id :| LostFrom(previous, r, d, id);
      LostFromIsRead(previous, r, d, id);
      assert id in Missing(previous, r, d);
    }
  }

  lemma LostFromIsRead(previous: map<Domain, set<Id>>, r: Release, d: Domain, id: Id)
    requires LostFrom(previous, r, d, id)
    ensures d in r.current
  {}
}
