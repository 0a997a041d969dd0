/** The catalogue over any releases: no id is lost. */
module History {
  import opened Wrappers
  import opened Techniques
  import opened Retirement

  /** What the two files hold: the active ids of each domain, and the retired set. */
  datatype State = State(active: map<Domain, set<Id>>, retired: map<Id, Row>)

  /** The file of retired ids as a run meets it: read and written, unreadable and written, or not written at all. */
  datatype RetiredFile = Kept | Unreadable | NotWritten

  /** One run of the script: a release, whether lost ids are accepted, whether the catalogue can be read, and the retired file. */
  datatype Attempt = Attempt(release: Release, acceptLostIds: bool, catalogueRead: bool, retiredFile: RetiredFile) {
    /** Both files are read and written. */
    predicate Plain() { catalogueRead && retiredFile == Kept }
  }

  /** Every id of either file is a technique's. */
  ghost predicate TechniqueIds(s: State) {
    && (forall id :: id in Live(s.active) ==> IsTechniqueId(id))
    && (forall id :: id in s.retired ==> IsTechniqueId(id))
  }

  ghost predicate Sound(s: State) {
    && TechniqueIds(s)
    && Live(s.active) !! s.retired.Keys
    && (forall id :: id in s.retired && s.retired[id].revokedBy.Some? ==> s.retired[id].revokedBy.value in Live(s.active))
  }

  /** The catalogue as the run reads it. */
  function Previous(s: State, a: Attempt): map<Domain, set<Id>> {
    if a.catalogueRead then s.active else map[]
  }

  /** The retired set as the run reads it. */
  function Existing(s: State, a: Attempt): map<Id, Row> {
    if a.retiredFile == Unreadable then map[] else s.retired
  }

  ghost predicate Accepted(s: State, a: Attempt)
    requires a.release.Valid()
  {
    Acceptable(Previous(s, a), a.release, a.acceptLostIds)
  }

  ghost function NextRetired(s: State, a: Attempt): map<Id, Row>
    requires a.release.Valid()
  {
    if a.retiredFile == NotWritten then s.retired
    else RetiredSet(Previous(s, a), Existing(s, a), a.release, a.release.Version())
  }

  /** The state after one run; a refused release writes nothing. */
  ghost function Advance(s: State, a: Attempt): State
    requires a.release.Valid()
  {
    if Accepted(s, a) then State(a.release.current, NextRetired(s, a)) else s
  }

  ghost predicate AllValid(attempts: seq<Attempt>) {
    forall i :: 0 <= i < |attempts| ==> attempts[i].release.Valid()
  }

  ghost function After(s: State, attempts: seq<Attempt>): State
    requires AllValid(attempts)
  {
    if attempts == [] then s
    else Advance(After(s, attempts[..|attempts| - 1]), attempts[|attempts| - 1])
  }

  /** Every id of either file. */
  function Held(s: State): set<Id> {
    Live(s.active) + s.retired.Keys
  }

  /** Every id of either file at the start or after some run. */
  ghost function EverHeld(s: State, attempts: seq<Attempt>): set<Id>
    requires AllValid(attempts)
  {
    Held(After(s, attempts)) + if attempts == [] then {} else EverHeld(s, attempts[..|attempts| - 1])
  }

  /** Every id active at the start or after some run. */
  ghost function EverActive(s: State, attempts: seq<Attempt>): set<Id>
    requires AllValid(attempts)
  {
    Live(After(s, attempts).active)
    + if attempts == [] then {} else EverActive(s, attempts[..|attempts| - 1])
  }

  // ----- One step -----------------------------------------------------------

  lemma TechniqueIdsAreNotMeta(id: Id)
    requires IsTechniqueId(id)
    ensures !IsMeta(id) && id != ""
  {}

  lemma {:induction false} LiveAreTechniques(r: Release, id: Id)
    requires r.Valid() && (id in Live(r.current) || id in Stated(r.states))
    ensures IsTechniqueId(id)
  {
    hide IsTechniqueId;
    if id in Live(r.current) {
      assert id in r.current[Enterprise] || id in r.current[Mobile] || id in r.current[Ics];
    } else {
      assert id in r.states[Enterprise] || id in r.states[Mobile] || id in r.states[Ics];
    }
  }

  lemma {:induction false} StepKeepsTechniqueIds(s: State, a: Attempt)
    requires TechniqueIds(s) && a.release.Valid()
    ensures TechniqueIds(Advance(s, a))
  {
    hide IsTechniqueId, Live, Stated, Acceptable, RetiredRow;
    forall id | id in Live(a.release.current) || id in Stated(a.release.states) ensures IsTechniqueId(id) {
      LiveAreTechniques(a.release, id);
    }
    assert Live(map[]) == {} by { NothingIsLive(); }
    assert forall id :: id in NextRetired(s, a) ==>
      id in s.retired || id in Live(s.active) || id in Stated(a.release.states);
  }

  lemma NothingIsLive()
    ensures Live(map[]) == {}
  {}

  /** A run that writes the retired set leaves the two files sound, whatever it found. */
  lemma {:induction false} StepIsSound(s: State, a: Attempt)
    requires TechniqueIds(s) && a.release.Valid() && a.retiredFile != NotWritten
    requires Accepted(s, a) || Sound(s)
    ensures Sound(Advance(s, a))
  {
    StepKeepsTechniqueIds(s, a);
    hide TechniqueIds, Live, Stated, Acceptable, BeginRow, MarkRow;
  }

  /** What a run must find for it to lose no id: none to lose where a file is unreadable or not written. */
  ghost predicate Spares(s: State, a: Attempt)
    requires a.release.Valid()
  {
    Accepted(s, a) ==>
      if a.retiredFile == NotWritten then Live(s.active) <= Live(a.release.current) + s.retired.Keys
      else
        var named := Live(a.release.current) + Stated(a.release.states);
        && (a.catalogueRead || Live(s.active) <= named + Existing(s, a).Keys)
        && (a.retiredFile == Kept || s.retired.Keys <= named + Live(Previous(s, a)))
  }

  lemma PlainSpares(s: State, a: Attempt)
    requires a.release.Valid() && a.Plain()
    ensures Spares(s, a)
  {}

  /** One run moves no id out of sight exactly when it meets that condition. */
  lemma {:induction false} StepLosesNothingExactly(s: State, a: Attempt)
    requires TechniqueIds(s) && a.release.Valid()
    ensures Held(s) <= Held(Advance(s, a)) <==> Spares(s, a)
  {
    hide IsTechniqueId, Live, Stated, Acceptable, RetiredRow, IsMeta;
    assert Live(map[]) == {} by { NothingIsLive(); }
    forall id | id in s.retired ensures !IsMeta(id) {
      TechniqueIdsAreNotMeta(id);
    }
    if Accepted(s, a) {
      var read := Existing(s, a).Keys + Live(Previous(s, a)) + Stated(a.release.states);
      assert a.retiredFile != NotWritten ==> NextRetired(s, a).Keys == read - Live(a.release.current);
    }
  }

  /** The id was active, as the run reads it, and the release drops it. */
  ghost predicate Leaves(s: State, a: Attempt, id: Id)
    requires a.release.Valid()
  {
    Accepted(s, a) && id in Live(Previous(s, a)) && id !in Live(a.release.current)
  }

  /**
   An id that leaves is retired in that release, in the domain it was in; unless
   lost ids are accepted, with the status a bundle gives it.
   */
  lemma {:induction false} LeavingIsRecorded(s: State, a: Attempt, id: Id)
    requires Sound(s) && a.release.Valid() && a.retiredFile != NotWritten && Leaves(s, a, id)
    ensures var next := Advance(s, a);
      && id in next.retired
      && next.retired[id].retiredIn == Some(a.release.Version())
      && id in Of(s.active, next.retired[id].domain)
    ensures !a.acceptLostIds ==>
      id in Stated(a.release.states) && Advance(s, a).retired[id].status == Some(LastStatus(a.release.states, id))
  {
    hide IsTechniqueId, LastStatus;
    assert a.catalogueRead;
    assert id !in s.retired;
    if !a.acceptLostIds {
      var d := FirstDomain(s.active, id);
      assert id !in Missing(s.active, a.release, d);
      assert id in StatesIn(a.release.states, d);
    }
  }

  /** An id that stays retired keeps the release and the domain it went in, where the retired set could be read. */
  lemma {:induction false} StayingKeepsItsRelease(s: State, a: Attempt, id: Id)
    requires TechniqueIds(s) && a.release.Valid() && a.retiredFile != Unreadable
    requires id in s.retired && id !in Live(Advance(s, a).active)
    ensures var next := Advance(s, a);
      && id in next.retired
      && next.retired[id].retiredIn == s.retired[id].retiredIn
      && next.retired[id].domain == s.retired[id].domain
  {
    TechniqueIdsAreNotMeta(id);
    hide IsTechniqueId, Live, LastStatus;
  }

  // ----- Any sequence of releases -------------------------------------------

  ghost predicate AllPlain(attempts: seq<Attempt>) {
    forall i :: 0 <= i < |attempts| ==> attempts[i].Plain()
  }

  /** From run `k` on the retired set is never unreadable. */
  ghost predicate ReadableFrom(attempts: seq<Attempt>, k: nat) {
    forall i :: k <= i < |attempts| ==> attempts[i].retiredFile != Unreadable
  }

  /** Every run writes the retired set. */
  ghost predicate AllWritten(attempts: seq<Attempt>) {
    forall i :: 0 <= i < |attempts| ==> attempts[i].retiredFile != NotWritten
  }

  lemma {:induction false} AlwaysTechniqueIds(s: State, attempts: seq<Attempt>)
    requires TechniqueIds(s) && AllValid(attempts)
    ensures TechniqueIds(After(s, attempts))
  {
    hide TechniqueIds, Advance;
    if attempts != [] {
      AlwaysTechniqueIds(s, attempts[..|attempts| - 1]);
      StepKeepsTechniqueIds(After(s, attempts[..|attempts| - 1]), attempts[|attempts| - 1]);
    }
  }

  /** However releases come, while the retired set is written active and retired ids are apart, and replacements active. */
  lemma {:induction false} AlwaysSound(s: State, attempts: seq<Attempt>)
    requires Sound(s) && AllValid(attempts) && AllWritten(attempts)
    ensures Sound(After(s, attempts))
  {
    if attempts != [] {
      AlwaysSound(s, attempts[..|attempts| - 1]);
      hide TechniqueIds, Live, Advance, Accepted;
      StepIsSound(After(s, attempts[..|attempts| - 1]), attempts[|attempts| - 1]);
    }
  }

  /** No id held at the start or after some run has gone. */
  ghost predicate NothingGone(s: State, attempts: seq<Attempt>, k: nat)
    requires AllValid(attempts) && k <= |attempts|
  {
    EverHeld(s, attempts[..k]) <= Held(After(s, attempts[..k]))
  }

  ghost predicate SparesAt(s: State, attempts: seq<Attempt>, k: nat)
    requires AllValid(attempts) && k < |attempts|
  {
    Spares(After(s, attempts[..k]), attempts[k])
  }

  lemma {:induction false} GoneStep(s: State, attempts: seq<Attempt>, k: nat)
    requires TechniqueIds(s) && AllValid(attempts) && k < |attempts|
    ensures NothingGone(s, attempts, k + 1) <==>
      (EverHeld(s, attempts[..k]) <= Held(After(s, attempts[..k + 1])) && SparesAt(s, attempts, k))
  {
    var front, upto := attempts[..k], attempts[..k + 1];
    assert upto[..k] == front && upto[k] == attempts[k];
    AlwaysTechniqueIds(s, front);
    hide TechniqueIds, Held, Advance, Spares;
    StepLosesNothingExactly(After(s, front), attempts[k]);
    assert Held(After(s, front)) <= EverHeld(s, front);
  }

  /** Over any runs nothing has gone after any of them exactly when each of them met its condition. */
  lemma {:induction false} NoIdIsLostExactly(s: State, attempts: seq<Attempt>)
    requires TechniqueIds(s) && AllValid(attempts)
    ensures (forall k :: 0 <= k <= |attempts| ==> NothingGone(s, attempts, k))
       <==> (forall k :: 0 <= k < |attempts| ==> SparesAt(s, attempts, k))
  {
    hide NothingGone, SparesAt, TechniqueIds;
    if forall k :: 0 <= k < |attempts| ==> SparesAt(s, attempts, k) {
      var n := 0;
      assert NothingGone(s, attempts, 0) by { NothingGoneYet(s, attempts); }
      while n < |attempts|
        invariant n <= |attempts| && forall k :: 0 <= k <= n ==> NothingGone(s, attempts, k)
      {
        NothingGoneNext(s, attempts, n);
        n := n + 1;
      }
    } else {
      var k :| 0 <= k < |attempts| && !SparesAt(s, attempts, k);
      GoneStep(s, attempts, k);
      assert !NothingGone(s, attempts, k + 1);
    }
  }

  lemma NothingGoneYet(s: State, attempts: seq<Attempt>)
    requires AllValid(attempts)
    ensures NothingGone(s, attempts, 0)
  {}

  lemma {:induction false} NothingGoneNext(s: State, attempts: seq<Attempt>, k: nat)
    requires TechniqueIds(s) && AllValid(attempts) && k < |attempts|
    requires NothingGone(s, attempts, k) && SparesAt(s, attempts, k)
    ensures NothingGone(s, attempts, k + 1)
  {
    AlwaysTechniqueIds(s, attempts[..k]);
    AfterIsStep(s, attempts, k);
    GoneStep(s, attempts, k);
    hide TechniqueIds, Held, Advance, Spares, After, EverHeld;
    StepLosesNothingExactly(After(s, attempts[..k]), attempts[k]);
  }

  lemma {:induction false} ActiveIsHeld(s: State, attempts: seq<Attempt>)
    requires AllValid(attempts)
    ensures EverActive(s, attempts) + s.retired.Keys <= EverHeld(s, attempts)
  {
    if attempts != [] {
      ActiveIsHeld(s, attempts[..|attempts| - 1]);
      hide Live, Advance;
    }
  }

  /** Where both files are read and written, every id ever active is active or retired, and not both. */
  lemma {:induction false} NoIdIsLost(s: State, attempts: seq<Attempt>)
    requires Sound(s) && AllValid(attempts) && AllPlain(attempts)
    ensures Sound(After(s, attempts))
    ensures EverActive(s, attempts) + s.retired.Keys <= Held(After(s, attempts))
  {
    AlwaysSound(s, attempts);
    forall k | 0 <= k < |attempts| ensures SparesAt(s, attempts, k) {
      PlainSpares(After(s, attempts[..k]), attempts[k]);
    }
    hide Sound, Held, SparesAt;
    NoIdIsLostExactly(s, attempts);
    assert attempts[..|attempts|] == attempts;
    assert NothingGone(s, attempts, |attempts|);
    ActiveIsHeld(s, attempts);
  }

  // ----- Ids that are lost --------------------------------------------------

  lemma Examples()
    ensures IsTechniqueId("T1000") && IsTechniqueId("T2000") && "T1000" != "T2000"
  {
    var one, two := "T1000", "T2000";
    assert IsDigit(one[1]) && IsDigit(one[2]) && IsDigit(one[3]) && IsDigit(one[4]);
    assert IsDigit(two[1]) && IsDigit(two[2]) && IsDigit(two[3]) && IsDigit(two[4]);
    assert one[1] != two[1];
  }

  /** The same active ids in each domain. */
  function Everywhere(ids: set<Id>): map<Domain, set<Id>> {
    map[Enterprise := ids, Mobile := ids, Ics := ids]
  }

  /** A release that has one id, and calls another deprecated or says nothing of it. */
  function OnlyT2000(stated: map<Id, Status>): Release {
    Release(
      map[Enterprise := "2", Mobile := "2", Ics := "2"], Everywhere({"T2000"}),
      map[Enterprise := stated, Mobile := map[], Ics := map[]], map[])
  }

  lemma {:induction false} OnlyT2000IsARelease(stated: map<Id, Status>)
    requires stated.Keys <= {"T1000"}
    ensures OnlyT2000(stated).Valid() && Live(OnlyT2000(stated).current) == {"T2000"}
    ensures Stated(OnlyT2000(stated).states) == stated.Keys
    ensures forall previous :: Acceptable(previous, OnlyT2000(stated), true)
    ensures forall previous :: Live(previous) <= {"T2000"} ==> Acceptable(previous, OnlyT2000(stated), false)
  {
    Examples();
    hide IsTechniqueId;
    var r := OnlyT2000(stated);
    forall d: Domain
      ensures d in r.versions && d in r.current && d in r.states
      ensures r.current[d] == {"T2000"} && r.states[d].Keys <= {"T1000"}
    {
      match d
      case Enterprise =>
      case Mobile =>
      case Ics =>
    }
  }

  /** Where the retired set is not written an id the release retires is in neither file. */
  lemma {:induction false} AnIdLostWhereNotWritten() returns (s: State, a: Attempt)
    ensures Sound(s) && a.release.Valid() && a.catalogueRead && a.retiredFile == NotWritten && Accepted(s, a)
    ensures "T1000" in Held(s) && "T1000" !in Held(Advance(s, a))
  {
    Examples();
    OnlyT2000IsARelease(map["T1000" := Deprecated]);
    hide IsTechniqueId, Acceptable, OnlyT2000;
    s := State(Everywhere({"T1000"}), map[]);
    a := Attempt(OnlyT2000(map["T1000" := Deprecated]), true, true, NotWritten);
  }

  /** Where the retired set is unreadable an id only it had is in neither file. */
  lemma {:induction false} AnIdLostWhereUnreadable() returns (s: State, a: Attempt)
    ensures Sound(s) && a.release.Valid() && a.catalogueRead && a.retiredFile == Unreadable && Accepted(s, a)
    ensures "T1000" in Held(s) && "T1000" !in Held(Advance(s, a))
  {
    Examples();
    OnlyT2000IsARelease(map[]);
    hide IsTechniqueId, Acceptable, RetiredRow, OnlyT2000;
    s := State(Everywhere({"T2000"}), map["T1000" := Row(Enterprise, Some("1"), None, None)]);
    a := Attempt(OnlyT2000(map[]), false, true, Unreadable);
  }

  /** Where the catalogue is unreadable a release that lacks an id is accepted and the id is in neither file. */
  lemma {:induction false} AnIdLostWithTheCatalogue() returns (s: State, a: Attempt)
    ensures Sound(s) && a.release.Valid() && !a.catalogueRead && a.retiredFile == Kept && !a.acceptLostIds && Accepted(s, a)
    ensures "T1000" in Held(s) && "T1000" !in Held(Advance(s, a))
  {
    Examples();
    OnlyT2000IsARelease(map[]);
    hide IsTechniqueId, Acceptable, RetiredRow, OnlyT2000;
    s := State(Everywhere({"T1000"}), map[]);
    a := Attempt(OnlyT2000(map[]), false, false, Kept);
  }

  // ----- When an id was retired ---------------------------------------------

  lemma {:induction false} AfterIsStep(s: State, attempts: seq<Attempt>, k: nat)
    requires AllValid(attempts) && k < |attempts|
    ensures After(s, attempts[..k + 1]) == Advance(After(s, attempts[..k]), attempts[k])
  {
    assert attempts[..k + 1][..k] == attempts[..k];
  }

  /** From run `k` on, the id is active after no run. */
  ghost predicate AbsentSince(s: State, attempts: seq<Attempt>, k: nat, id: Id)
    requires AllValid(attempts)
  {
    forall j :: k <= j <= |attempts| ==> id !in Live(After(s, attempts[..j]).active)
  }

  /** However many releases leave an id out, its row names the one that began it. */
  lemma {:induction false} FirstRetirementIsKept(s: State, attempts: seq<Attempt>, k: nat, id: Id)
    requires TechniqueIds(s) && AllValid(attempts) && k <= |attempts| && ReadableFrom(attempts, k)
    requires id in After(s, attempts[..k]).retired && AbsentSince(s, attempts, k, id)
    ensures var then_, now := After(s, attempts[..k]), After(s, attempts);
      id in now.retired && now.retired[id].retiredIn == then_.retired[id].retiredIn
      && now.retired[id].domain == then_.retired[id].domain
    decreases |attempts|
  {
    if k == |attempts| {
      assert attempts[..k] == attempts;
    } else {
      var front, last := attempts[..|attempts| - 1], attempts[|attempts| - 1];
      assert forall j :: 0 <= j <= |front| ==> front[..j] == attempts[..j];
      assert attempts[..|attempts|] == attempts;
      hide TechniqueIds, Live, Advance;
      AlwaysTechniqueIds(s, front);
      FirstRetirementIsKept(s, front, k, id);
      StayingKeepsItsRelease(After(s, front), last, id);
    }
  }

  /** The release a retired id names is the one that dropped it: the last, if it came back and left again. */
  lemma {:induction false} RetiredInTheReleaseThatDroppedIt(s: State, attempts: seq<Attempt>, k: nat, id: Id)
    requires Sound(s) && AllValid(attempts) && k < |attempts|
    requires AllWritten(attempts[..k + 1]) && ReadableFrom(attempts, k + 1)
    requires Leaves(After(s, attempts[..k]), attempts[k], id) && AbsentSince(s, attempts, k + 1, id)
    ensures id in After(s, attempts).retired
    ensures After(s, attempts).retired[id].retiredIn == Some(attempts[k].release.Version())
  {
    assert AllValid(attempts[..k]);
    assert attempts[..k + 1][k] == attempts[k];
    assert forall i :: 0 <= i < k ==> attempts[..k][i] == attempts[..k + 1][i];
    hide TechniqueIds, Live, Advance, Leaves, AbsentSince, After;
    AlwaysSound(s, attempts[..k]);
    LeavingIsRecorded(After(s, attempts[..k]), attempts[k], id);
    AfterIsStep(s, attempts, k);
    FirstRetirementIsKept(s, attempts, k + 1, id);
  }

  const NOTHING := State(map[], map[])

  lemma {:induction false} StepMarksTheSeen(s: State, a: Attempt, seen: set<Id>)
    requires Sound(s) && a.release.Valid() && a.Plain() && Live(s.active) <= seen <= Live(s.active) + s.retired.Keys
    requires forall id :: id in s.retired ==> (s.retired[id].retiredIn.Some? <==> id in seen)
    ensures forall id :: id in Advance(s, a).retired ==>
      (Advance(s, a).retired[id].retiredIn.Some? <==> id in seen + Live(Advance(s, a).active))
  {
    hide IsTechniqueId, Live, Stated, LastStatus;
    var next := Advance(s, a);
    forall id | id in next.retired ensures next.retired[id].retiredIn.Some? <==> id in seen + Live(next.active) {
      if id in s.retired {
        TechniqueIdsAreNotMeta(id) by { assert IsTechniqueId(id); }
      }
    }
  }

  /** From an empty disk, a retired id names a release exactly when it was once active. */
  lemma {:induction false} ReleaseNamedWhenOnceActive(attempts: seq<Attempt>, id: Id)
    requires AllValid(attempts) && AllPlain(attempts) && id in After(NOTHING, attempts).retired
    ensures After(NOTHING, attempts).retired[id].retiredIn.Some? <==> id in EverActive(NOTHING, attempts)
  {
    SeenAreMarked(attempts);
  }

  lemma {:induction false} SeenAreMarked(attempts: seq<Attempt>)
    requires AllValid(attempts) && AllPlain(attempts)
    ensures var s := After(NOTHING, attempts);
      forall id :: id in s.retired ==> (s.retired[id].retiredIn.Some? <==> id in EverActive(NOTHING, attempts))
  {
    if attempts != [] {
      var front, last := attempts[..|attempts| - 1], attempts[|attempts| - 1];
      SeenAreMarked(front);
      NoIdIsLost(NOTHING, front);
      hide Sound, Live, Advance;
      StepMarksTheSeen(After(NOTHING, front), last, EverActive(NOTHING, front));
    }
  }

  // ----- The same release again ---------------------------------------------

  lemma {:induction false} AcceptedAgain(s: State, a: Attempt, again: Attempt)
    requires a.release.Valid() && Accepted(s, a) && again.release == a.release
    ensures Accepted(Advance(s, a), again)
  {
    var once, r := Advance(s, a), a.release;
    forall d | d in r.current ensures Missing(Previous(once, again), r, d) == {} {
      OneDomainIsLive(r.current, d);
    }
  }

  lemma {:induction false} RowStays(
    previous: map<Domain, set<Id>>, existing: map<Id, Row>, before: map<Domain, set<Id>>, r: Release, version: string, id: Id)
    requires id in RetiredKeys(previous, existing, r) && !IsMeta(id)
    ensures RetiredRow(before, RetiredSet(previous, existing, r, version), r, version, id)
         == RetiredSet(previous, existing, r, version)[id]
  {
    hide Live, Stated, LastStatus, Successor, IsMeta, BeginRow;
    var once := RetiredSet(previous, existing, r, version);
    assert BeginRow(before, once, r, version, id) == once[id] by { BegunAlready(before, once, r, version, id); }
  }

  lemma BegunAlready(previous: map<Domain, set<Id>>, existing: map<Id, Row>, r: Release, version: string, id: Id)
    requires id in existing && !IsMeta(id)
    ensures BeginRow(previous, existing, r, version, id) == existing[id]
  {}

  lemma {:induction false} SetStays(
    previous: map<Domain, set<Id>>, existing: map<Id, Row>, before: map<Domain, set<Id>>, r: Release, version: string)
    requires Live(before) <= Live(r.current)
    requires forall id :: id in RetiredSet(previous, existing, r, version) ==> !IsMeta(id)
    ensures var once := RetiredSet(previous, existing, r, version); RetiredSet(before, once, r, version) == once
  {
    hide Live, Stated, RetiredRow, IsMeta;
    var once := RetiredSet(previous, existing, r, version);
    var twice := RetiredSet(before, once, r, version);
    assert twice.Keys == once.Keys;
    forall id | id in twice ensures twice[id] == once[id] {
      RowStays(previous, existing, before, r, version, id);
    }
  }

  /**
   A release that was accepted, and the retired set written, is accepted again,
   lost ids or not, and changes nothing, unless the retired set has become
   unreadable.
   */
  lemma {:induction false} RepeatingChangesNothing(s: State, a: Attempt, again: Attempt)
    requires TechniqueIds(s) && a.release.Valid() && Accepted(s, a) && again.release == a.release
    requires a.retiredFile != NotWritten && again.retiredFile != Unreadable
    ensures Accepted(Advance(s, a), again)
    ensures Advance(Advance(s, a), again) == Advance(s, a)
  {
    var once := Advance(s, a);
    AcceptedAgain(s, a, again);
    StepKeepsTechniqueIds(s, a);
    forall id | id in once.retired ensures !IsMeta(id) {
      TechniqueIdsAreNotMeta(id);
    }
    assert Live(Previous(once, again)) <= Live(a.release.current);
    hide RetiredSet, IsMeta, Acceptable, Live;
    SetStays(Previous(s, a), Existing(s, a), Previous(once, again), a.release, a.release.Version());
  }

  lemma OneDomainIsLive(ids: map<Domain, set<Id>>, d: Domain)
    ensures Of(ids, d) <= Live(ids)
  {}

  // ----- The script ---------------------------------------------------------

  datatype Bundle = Bundle(version: string, objects: seq<Object>)

  ghost predicate Names(objects: seq<Object>, replacements: map<Id, Id>) {
    exists index :: IndexOf(objects, index) && ReplacementsOf(objects, index, replacements)
  }

  ghost predicate HasActive(objects: seq<Object>, ids: set<Id>) {
    && (forall id :: id in ids <==> exists o :: o in objects && Active(o, id))
    && (forall id :: id in ids ==> IsTechniqueId(id))
  }

  /** The release says of the domain what its bundle says. */
  ghost predicate Reads(bundles: map<Domain, Bundle>, r: Release, named: map<Domain, map<Id, Id>>, d: Domain)
    requires d in bundles
  {
    && d in r.versions && d in r.current && d in r.states && d in named
    && r.versions[d] == bundles[d].version
    && HasActive(bundles[d].objects, r.current[d])
    && StatesOf(bundles[d].objects, r.states[d])
    && Names(bundles[d].objects, named[d])
  }

  /** What the first `n` domains name; an earlier domain's word stands over a later one's. */
  function Merged(named: map<Domain, map<Id, Id>>, n: nat): map<Id, Id>
    requires n <= 3
  {
    if n == 0 then map[]
    else (if DOMAINS[n - 1] in named then named[DOMAINS[n - 1]] else map[]) + Merged(named, n - 1)
  }

  lemma {:induction false} MergedNext(named: map<Domain, map<Id, Id>>, n: nat, more: map<Id, Id>)
    requires n < 3
    ensures Merged(named[DOMAINS[n] := more], n + 1) == more + Merged(named, n)
  {
    MergedIgnores(named, n, DOMAINS[n], more);
  }

  lemma {:induction false} MergedIgnores(named: map<Domain, map<Id, Id>>, n: nat, d: Domain, more: map<Id, Id>)
    requires n <= 3 && d !in DOMAINS[..n]
    ensures Merged(named[d := more], n) == Merged(named, n)
  {
    if n > 0 {
      assert d != DOMAINS[..n][n - 1];
      assert forall k :: 0 <= k < n - 1 ==> DOMAINS[..n - 1][k] == DOMAINS[..n][k];
      MergedIgnores(named, n - 1, d, more);
    }
  }

  /** What replaced an id is what the first domain to name a replacement names; where none does, nothing. */
  lemma {:induction false} MergedExactly(named: map<Domain, map<Id, Id>>, id: Id, next: Id)
    ensures id in Merged(named, 3) && Merged(named, 3)[id] == next <==>
      exists n :: 0 <= n < |DOMAINS| && FirstToName(named, n, id) && named[DOMAINS[n]][id] == next
  {
    MergedUpTo(named, 3, id);
    hide Merged, FirstToName;
    forall n, m | 0 <= n < 3 && 0 <= m < 3 && FirstToName(named, n, id) && FirstToName(named, m, id) ensures n == m {
      OneNamesFirst(named, n, m, id);
    }
  }

  ghost predicate FirstToName(named: map<Domain, map<Id, Id>>, n: nat, id: Id)
    requires n < |DOMAINS|
  {
    && DOMAINS[n] in named && id in named[DOMAINS[n]]
    && forall k :: 0 <= k < n ==> DOMAINS[k] in named ==> id !in named[DOMAINS[k]]
  }

  lemma OneNamesFirst(named: map<Domain, map<Id, Id>>, n: nat, m: nat, id: Id)
    requires n < 3 && m < 3 && FirstToName(named, n, id) && FirstToName(named, m, id)
    ensures n == m
  {}

  lemma {:induction false} MergedUpTo(named: map<Domain, map<Id, Id>>, n: nat, id: Id)
    requires n <= 3
    ensures id in Merged(named, n) ==> exists k :: 0 <= k < n && FirstToName(named, k, id) && named[DOMAINS[k]][id] == Merged(named, n)[id]
    ensures id !in Merged(named, n) ==> forall k :: 0 <= k < n ==> DOMAINS[k] in named ==> id !in named[DOMAINS[k]]
  {
    if n > 0 {
      MergedUpTo(named, n - 1, id);
      var here := if DOMAINS[n - 1] in named then named[DOMAINS[n - 1]] else map[];
      if id !in Merged(named, n - 1) && id in here {
        assert FirstToName(named, n - 1, id);
      }
    }
  }

  /** The release and the names with one more domain's bundle read into them. */
  function WithDomain(r: Release, d: Domain, version: string, ids: set<Id>, states: map<Id, Status>, replacements: map<Id, Id>): Release {
    Release(r.versions[d := version], r.current[d := ids], r.states[d := states], replacements + r.replacements)
  }

  ghost predicate ReadUpTo(bundles: map<Domain, Bundle>, r: Release, named: map<Domain, map<Id, Id>>, n: nat)
    requires n <= 3 && forall d: Domain :: d in bundles
  {
    && (forall d :: d in DOMAINS[..n] ==> Reads(bundles, r, named, d))
    && r.replacements == Merged(named, n)
  }

  lemma {:induction false} ReadNext(
    bundles: map<Domain, Bundle>, r: Release, named: map<Domain, map<Id, Id>>, n: nat,
    ids: set<Id>, states: map<Id, Status>, replacements: map<Id, Id>)
    requires n < 3 && (forall d: Domain :: d in bundles) && ReadUpTo(bundles, r, named, n)
    requires var objects := bundles[DOMAINS[n]].objects;
      HasActive(objects, ids) && StatesOf(objects, states) && Names(objects, replacements)
    ensures ReadUpTo(bundles, WithDomain(r, DOMAINS[n], bundles[DOMAINS[n]].version, ids, states, replacements),
      named[DOMAINS[n] := replacements], n + 1)
  {
    hide HasActive, StatesOf, Names, Merged;
    MergedNext(named, n, replacements);
    assert DOMAINS[..n + 1] == DOMAINS[..n] + [DOMAINS[n]];
  }

  lemma {:induction false} AllRead(bundles: map<Domain, Bundle>, r: Release, named: map<Domain, map<Id, Id>>)
    requires (forall d: Domain :: d in bundles) && ReadUpTo(bundles, r, named, 3)
    ensures r.Valid() && forall d: Domain :: Reads(bundles, r, named, d)
  {
    EveryDomainIsRead();
    hide IsTechniqueId, Names, Active, Retired;
    forall d: Domain ensures Reads(bundles, r, named, d) && d in r.versions && d in r.current && d in r.states {
      assert d in DOMAINS[..3];
    }
    assert forall d: Domain :: Reads(bundles, r, named, d);
    forall d, id | d in r.current && id in r.current[d] ensures IsTechniqueId(id) {
      assert HasActive(bundles[d].objects, r.current[d]);
    }
    forall d, id | d in r.states && id in r.states[d] ensures IsTechniqueId(id) {
      assert StatesOf(bundles[d].objects, r.states[d]);
    }
  }

  /** The release says what the three bundles say. */
  ghost predicate IsRead(bundles: map<Domain, Bundle>, r: Release)
    requires forall d: Domain :: d in bundles
  {
    exists named :: ReadUpTo(bundles, r, named, 3)
  }

  /** The release the three bundles make up. */
  method ReadRelease(bundles: map<Domain, Bundle>) returns (r: Release)
    requires forall d: Domain :: d in bundles
    ensures r.Valid() && IsRead(bundles, r)
  {
    hide Reads, StatesOf, IsTechniqueId, IndexOf, ReplacementsOf, Merged;
    r := Release(map[], map[], map[], map[]);
    ghost var named: map<Domain, map<Id, Id>> := map[];
    NothingRead(bundles);
    for n := 0 to |DOMAINS|
      invariant ReadUpTo(bundles, r, named, n)
    {
      var d := DOMAINS[n];
      var objects := bundles[d].objects;
      var ids := ActiveIds(objects);
      var states := RetiredStates(objects);
      var index := BuildIndex(objects);
      var replacements := Replacements(objects, index);
      ReadNext(bundles, r, named, n, ids, states, replacements);
      named := named[d := replacements];
      r := WithDomain(r, d, bundles[d].version, ids, states, replacements);
    }
    AllRead(bundles, r, named);
  }

  lemma NothingRead(bundles: map<Domain, Bundle>)
    requires forall d: Domain :: d in bundles
    ensures ReadUpTo(bundles, Release(map[], map[], map[], map[]), map[], 0)
  {}

  /** The files the script keeps. */
  class Files {
    var active: map<Domain, set<Id>>
    var retired: map<Id, Row>

    ghost function Contents(): State
      reads this
    {
      State(active, retired)
    }

    /** One run: the release read, and refused or written. */
    method Prepare(bundles: map<Domain, Bundle>, acceptLostIds: bool, catalogueRead: bool, retiredFile: RetiredFile)
      returns (refusal: Option<Refusal>, ghost r: Release)
      requires forall d: Domain :: d in bundles
      modifies this
      ensures r.Valid() && IsRead(bundles, r)
      ensures var a := Attempt(r, acceptLostIds, catalogueRead, retiredFile);
        (refusal.None? <==> Accepted(old(Contents()), a)) && Contents() == Advance(old(Contents()), a)
    {
      var release := ReadRelease(bundles);
      r := release;
      var previous: map<Domain, set<Id>> := if catalogueRead then active else map[];
      refusal := RefuseMixedOrThin(previous, release, acceptLostIds);
      if refusal.None? {
        active := release.current;
        if retiredFile != NotWritten {
          var existing: map<Id, Row> := if retiredFile == Unreadable then map[] else retired;
          retired := RetiredIds(previous, release, release.Version(), existing);
        }
      }
    }
  }
}
