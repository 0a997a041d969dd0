/** What any run keeps, whichever file it meets. */
module HistoryExactly {
  // For each promise of the history: exactly which runs keep it, where a file can be
  // unreadable or the retired set not written, over one run and over any runs.

  import opened Wrappers
  import opened Techniques
  import opened Retirement
  import opened History

  // ----- Soundness ----------------------------------------------------------

  /** What a run must meet for the two files to be sound after it. */
  ghost predicate LeavesSound(s: State, a: Attempt)
    requires a.release.Valid()
  {
    if !Accepted(s, a) then Sound(s)
    else a.retiredFile == NotWritten ==>
      && Live(a.release.current) !! s.retired.Keys
      && forall id :: id in s.retired && s.retired[id].revokedBy.Some? ==>
           s.retired[id].revokedBy.value in Live(a.release.current)
  }

  /**
   After a run active and retired ids are apart and replacements active exactly when
   the run wrote the retired set, or, where it did not, no retired id is back and
   every replacement named is in the release.
   */
  lemma {:induction false} SoundExactly(s: State, a: Attempt)
    requires TechniqueIds(s) && a.release.Valid()
    ensures Sound(Advance(s, a)) <==> LeavesSound(s, a)
  {
    StepKeepsTechniqueIds(s, a);
    if a.retiredFile != NotWritten && Accepted(s, a) {
      StepIsSound(s, a);
    }
    hide TechniqueIds, Live, Acceptable, RetiredSet;
  }

  ghost predicate SoundAfter(s: State, attempts: seq<Attempt>, k: nat)
    requires AllValid(attempts) && k <= |attempts|
  {
    Sound(After(s, attempts[..k]))
  }

  ghost predicate LeavesSoundAt(s: State, attempts: seq<Attempt>, k: nat)
    requires AllValid(attempts) && k < |attempts|
  {
    LeavesSound(After(s, attempts[..k]), attempts[k])
  }

  lemma {:induction false} SoundOneRunOn(s: State, attempts: seq<Attempt>, k: nat)
    requires TechniqueIds(s) && AllValid(attempts) && k < |attempts|
    ensures SoundAfter(s, attempts, k + 1) <==> LeavesSoundAt(s, attempts, k)
  {
    hide TechniqueIds, Sound, LeavesSound;
    AlwaysTechniqueIds(s, attempts[..k]);
    AfterIsStep(s, attempts, k);
    SoundExactly(After(s, attempts[..k]), attempts[k]);
  }

  /** Over any runs the files are sound after each exactly when they were at first and each met that condition. */
  lemma {:induction false} AlwaysSoundExactly(s: State, attempts: seq<Attempt>)
    requires Sound(s) && AllValid(attempts)
    ensures (forall k :: 0 <= k <= |attempts| ==> SoundAfter(s, attempts, k))
       <==> (forall k :: 0 <= k < |attempts| ==> LeavesSoundAt(s, attempts, k))
  {
    assert TechniqueIds(s) && SoundAfter(s, attempts, 0);
    hide *;
    forall k | 0 <= k < |attempts| ensures SoundAfter(s, attempts, k + 1) <==> LeavesSoundAt(s, attempts, k) {
      SoundOneRunOn(s, attempts, k);
    }
    if forall k :: 0 <= k < |attempts| ==> LeavesSoundAt(s, attempts, k) {
      forall k | 0 <= k <= |attempts| ensures SoundAfter(s, attempts, k) {
        if k > 0 {
          assert LeavesSoundAt(s, attempts, k - 1);
          SoundOneRunOn(s, attempts, k - 1);
        }
      }
    }
  }

  // ----- The row of an id that stays retired --------------------------------

  /** The row is the one the bundles alone would begin: nothing of a release that dropped the id. */
  ghost predicate Bare(retired: map<Id, Row>, r: Release, id: Id) {
    id in retired && id in Stated(r.states)
    && retired[id].retiredIn == None && retired[id].domain == FirstStating(r.states, id)
  }

  /** The id is retired with the same release and domain. */
  ghost predicate SameRetirement(before: map<Id, Row>, after: map<Id, Row>, id: Id) {
    id in before && id in after
    && after[id].retiredIn == before[id].retiredIn && after[id].domain == before[id].domain
  }

  /** What a run must meet to keep a row: the retired set was read, or there was nothing in the row to lose. */
  ghost predicate KeepsRow(s: State, a: Attempt, id: Id)
    requires a.release.Valid()
  {
    Accepted(s, a) && a.retiredFile == Unreadable ==> Bare(s.retired, a.release, id)
  }

  /** A retired id that is not active keeps its release and domain exactly when the run meets that condition. */
  lemma {:induction false} RowStaysExactly(s: State, a: Attempt, id: Id)
    requires TechniqueIds(s) && a.release.Valid() && id in s.retired
    requires id !in Live(s.active) && id !in Live(Advance(s, a).active)
    ensures SameRetirement(s.retired, Advance(s, a).retired, id) <==> KeepsRow(s, a, id)
  {
    TechniqueIdsAreNotMeta(id);
    assert Live(map[]) == {} by { NothingIsLive(); }
    hide IsTechniqueId, IsMeta, Live, LastStatus, Acceptable;
  }

  /** After the first `j` runs the id is retired as it was after the first `k`. */
  ghost predicate SameSince(s: State, attempts: seq<Attempt>, k: nat, id: Id, j: nat)
    requires AllValid(attempts) && k <= j <= |attempts|
  {
    SameRetirement(After(s, attempts[..k]).retired, After(s, attempts[..j]).retired, id)
  }

  ghost predicate KeepsRowAt(s: State, attempts: seq<Attempt>, id: Id, j: nat)
    requires AllValid(attempts) && j < |attempts|
  {
    KeepsRow(After(s, attempts[..j]), attempts[j], id)
  }

  lemma {:induction false} SameOneRunOn(s: State, attempts: seq<Attempt>, k: nat, id: Id, j: nat)
    requires TechniqueIds(s) && AllValid(attempts) && k <= j < |attempts|
    requires AbsentSince(s, attempts, k, id) && SameSince(s, attempts, k, id, j)
    ensures SameSince(s, attempts, k, id, j + 1) <==> KeepsRowAt(s, attempts, id, j)
  {
    hide TechniqueIds, KeepsRow, Live, After, Advance;
    AlwaysTechniqueIds(s, attempts[..j]);
    AfterIsStep(s, attempts, j);
    assert id !in Live(After(s, attempts[..j]).active) && id !in Live(After(s, attempts[..j + 1]).active);
    RowStaysExactly(After(s, attempts[..j]), attempts[j], id);
  }

  /** Over any later runs, until it is active again, an id keeps its release and domain exactly when each run meets it. */
  lemma {:induction false} FirstRetirementExactly(s: State, attempts: seq<Attempt>, k: nat, id: Id)
    requires TechniqueIds(s) && AllValid(attempts) && k <= |attempts|
    requires SameSince(s, attempts, k, id, k) && AbsentSince(s, attempts, k, id)
    ensures (forall j :: k <= j <= |attempts| ==> SameSince(s, attempts, k, id, j))
       <==> (forall j :: k <= j < |attempts| ==> KeepsRowAt(s, attempts, id, j))
  {
    hide *;
    if forall j :: k <= j < |attempts| ==> KeepsRowAt(s, attempts, id, j) {
      var n := k;
      while n < |attempts|
        invariant k <= n <= |attempts| && forall j :: k <= j <= n ==> SameSince(s, attempts, k, id, j)
      {
        SameOneRunOn(s, attempts, k, id, n);
        n := n + 1;
      }
    }
    if forall j :: k <= j <= |attempts| ==> SameSince(s, attempts, k, id, j) {
      forall j | k <= j < |attempts| ensures KeepsRowAt(s, attempts, id, j) {
        SameOneRunOn(s, attempts, k, id, j);
      }
    }
  }

  // ----- The release a retired id names -------------------------------------

  /** A retired id names a release exactly when it was once seen active. */
  ghost predicate NamesTheSeen(s: State, seen: set<Id>) {
    forall id :: id in s.retired ==> (s.retired[id].retiredIn.Some? <==> id in seen)
  }

  /**
   What a run must meet: where the retired set is not written, no id it has without a
   release comes into the catalogue; where it is, no id seen before is known to the
   run from the bundles alone.
   */
  ghost predicate TellsSeen(s: State, a: Attempt, seen: set<Id>)
    requires a.release.Valid()
  {
    Accepted(s, a) ==>
      if a.retiredFile == NotWritten
      then forall id :: id in s.retired && id in Live(a.release.current) ==> s.retired[id].retiredIn.Some?
      else forall id | id in Stated(a.release.states) - Live(a.release.current) ::
        id in Existing(s, a) || id in Live(Previous(s, a)) || id !in seen
  }

  /** The row of an id in a retired set that was written: kept, or begun with a release or without one. */
  lemma {:induction false} WrittenRow(s: State, a: Attempt, id: Id)
    requires a.release.Valid() && Accepted(s, a) && a.retiredFile != NotWritten && (id in s.retired ==> !IsMeta(id))
    ensures var next := Advance(s, a);
      && (id in next.retired <==>
            id !in Live(a.release.current)
            && (id in Existing(s, a) || id in Live(Previous(s, a)) || id in Stated(a.release.states)))
      && (id in next.retired ==>
            (next.retired[id].retiredIn.Some? <==>
               if id in Existing(s, a) then s.retired[id].retiredIn.Some? else id in Live(Previous(s, a))))
  {
    hide IsMeta, Live, Stated, LastStatus, Acceptable;
  }

  lemma {:induction false} NamesExactly(s: State, a: Attempt, seen: set<Id>)
    requires TechniqueIds(s) && a.release.Valid() && Live(s.active) <= seen && NamesTheSeen(s, seen)
    ensures NamesTheSeen(Advance(s, a), seen + Live(Advance(s, a).active)) <==> TellsSeen(s, a, seen)
  {
    if !Accepted(s, a) {
      assert seen + Live(s.active) == seen;
    } else if a.retiredFile == NotWritten {
      hide IsTechniqueId, Live, Stated, Acceptable, RetiredSet;
    } else {
      assert Live(map[]) == {} by { NothingIsLive(); }
      assert Live(Previous(s, a)) <= seen;
      hide IsTechniqueId, IsMeta, Live, Stated, Acceptable, RetiredSet, Advance;
      forall id | id in s.retired ensures !IsMeta(id) {
        TechniqueIdsAreNotMeta(id);
      }
      NamesWritten(s, a, seen);
    }
  }

  lemma {:induction false} NamesWritten(s: State, a: Attempt, seen: set<Id>)
    requires a.release.Valid() && Accepted(s, a) && a.retiredFile != NotWritten
    requires (forall id :: id in s.retired ==> !IsMeta(id)) && Live(Previous(s, a)) <= seen && NamesTheSeen(s, seen)
    ensures NamesTheSeen(Advance(s, a), seen + Live(Advance(s, a).active)) <==> TellsSeen(s, a, seen)
  {
    var next := Advance(s, a);
    assert next.active == a.release.current;
    hide IsMeta, Live, Stated, Acceptable, RetiredSet, Advance, Accepted;
    forall id
      ensures id in next.retired ==>
        ((next.retired[id].retiredIn.Some? <==> id in seen + Live(next.active)) <==>
           (id in Existing(s, a) || id in Live(Previous(s, a)) || id !in seen))
      ensures id in next.retired <==>
        id !in Live(a.release.current)
        && (id in Existing(s, a) || id in Live(Previous(s, a)) || id in Stated(a.release.states))
    {
      WrittenRow(s, a, id);
    }
  }

  ghost predicate NamesAfter(s: State, attempts: seq<Attempt>, k: nat)
    requires AllValid(attempts) && k <= |attempts|
  {
    NamesTheSeen(After(s, attempts[..k]), EverActive(s, attempts[..k]))
  }

  ghost predicate TellsAt(s: State, attempts: seq<Attempt>, k: nat)
    requires AllValid(attempts) && k < |attempts|
  {
    TellsSeen(After(s, attempts[..k]), attempts[k], EverActive(s, attempts[..k]))
  }

  lemma {:induction false} NamesOneRunOn(s: State, attempts: seq<Attempt>, k: nat)
    requires TechniqueIds(s) && AllValid(attempts) && k < |attempts| && NamesAfter(s, attempts, k)
    ensures NamesAfter(s, attempts, k + 1) <==> TellsAt(s, attempts, k)
  {
    var front, upto := attempts[..k], attempts[..k + 1];
    assert upto[..k] == front && upto[k] == attempts[k];
    AlwaysTechniqueIds(s, front);
    ActiveIsSeen(s, front);
    assert EverActive(s, upto) == EverActive(s, front) + Live(After(s, upto).active);
    hide TechniqueIds, Live, Advance, TellsSeen, NamesTheSeen;
    NamesExactly(After(s, front), attempts[k], EverActive(s, front));
  }

  lemma ActiveIsSeen(s: State, attempts: seq<Attempt>)
    requires AllValid(attempts)
    ensures Live(After(s, attempts).active) <= EverActive(s, attempts)
  {
    hide Live, Advance;
  }

  /** From an empty disk, retired ids name a release exactly when once active, after every run, exactly when each run meets it. */
  lemma {:induction false} ReleaseNamedExactly(attempts: seq<Attempt>)
    requires AllValid(attempts)
    ensures (forall k :: 0 <= k <= |attempts| ==> NamesAfter(NOTHING, attempts, k))
       <==> (forall k :: 0 <= k < |attempts| ==> TellsAt(NOTHING, attempts, k))
  {
    assert NamesAfter(NOTHING, attempts, 0);
    assert TechniqueIds(NOTHING);
    hide *;
    if forall k :: 0 <= k < |attempts| ==> TellsAt(NOTHING, attempts, k) {
      var n := 0;
      while n < |attempts|
        invariant n <= |attempts| && forall k :: 0 <= k <= n ==> NamesAfter(NOTHING, attempts, k)
      {
        NamesOneRunOn(NOTHING, attempts, n);
        n := n + 1;
      }
    }
    if forall k :: 0 <= k <= |attempts| ==> NamesAfter(NOTHING, attempts, k) {
      forall k | 0 <= k < |attempts| ensures TellsAt(NOTHING, attempts, k) {
        NamesOneRunOn(NOTHING, attempts, k);
      }
    }
  }

  // ----- The same release again ---------------------------------------------

  /** The retired set is one this release would leave: none of its ids active, all it states, each marked as it says. */
  ghost predicate UpToDate(retired: map<Id, Row>, r: Release) {
    && retired.Keys !! Live(r.current)
    && Stated(r.states) - Live(r.current) <= retired.Keys
    && forall id :: id in retired ==> retired[id] == MarkRow(retired[id], r, id).(revokedBy := Successor(r, id))
  }

  /** Where the catalogue is the release's already, a run of it changes nothing exactly when this holds. */
  ghost predicate LeavesAsIs(retired: map<Id, Row>, again: Attempt) {
    || again.retiredFile == NotWritten
    || (UpToDate(retired, again.release)
        && (again.retiredFile == Unreadable ==> forall id :: id in retired ==> Bare(retired, again.release, id)))
  }

  lemma {:induction false} RunAgainExactly(s: State, again: Attempt)
    requires TechniqueIds(s) && again.release.Valid() && s.active == again.release.current && Accepted(s, again)
    ensures Advance(s, again) == s <==> LeavesAsIs(s.retired, again)
  {
    var r, p, e := again.release, Previous(s, again), Existing(s, again);
    assert Live(p) <= Live(r.current) by { NothingIsLive(); }
    forall id | id in s.retired ensures !IsMeta(id) {
      TechniqueIdsAreNotMeta(id);
    }
    if again.retiredFile != NotWritten {
      assert Advance(s, again) == s <==> RetiredSet(p, e, r, r.Version()) == s.retired;
      hide Advance, Accepted, TechniqueIds;
      SetIs(p, e, r, r.Version(), s.retired);
    }
  }

  lemma {:induction false} SetIs(
    previous: map<Domain, set<Id>>, existing: map<Id, Row>, r: Release, version: string, retired: map<Id, Row>)
    requires Live(previous) <= Live(r.current) && (existing == retired || existing == map[])
    requires forall id :: id in retired ==> !IsMeta(id)
    ensures RetiredSet(previous, existing, r, version) == retired <==>
      (UpToDate(retired, r) && (existing == map[] ==> forall id :: id in retired ==> Bare(retired, r, id)))
  {
    hide Live, Stated, IsMeta, LastStatus, FirstStating, Successor;
    var written := RetiredSet(previous, existing, r, version);
    assert written.Keys == (existing.Keys + Stated(r.states)) - Live(r.current);
    if written == retired {
      forall id | id in retired
        ensures retired[id] == MarkRow(retired[id], r, id).(revokedBy := Successor(r, id))
        ensures existing == map[] ==> Bare(retired, r, id)
      {
        assert written[id] == retired[id];
      }
    }
    if UpToDate(retired, r) && (existing == map[] ==> forall id :: id in retired ==> Bare(retired, r, id)) {
      assert written.Keys == retired.Keys;
      forall id | id in written ensures written[id] == retired[id] {
      }
    }
  }

  /** A release accepted once is accepted again and changes neither file exactly when the retired set allows it. */
  lemma {:induction false} RepeatingExactly(s: State, a: Attempt, again: Attempt)
    requires TechniqueIds(s) && a.release.Valid() && Accepted(s, a) && again.release == a.release
    ensures Accepted(Advance(s, a), again)
    ensures Advance(Advance(s, a), again) == Advance(s, a) <==> LeavesAsIs(Advance(s, a).retired, again)
  {
    StepKeepsTechniqueIds(s, a);
    AcceptedAgain(s, a, again);
    assert Advance(s, a).active == a.release.current;
    hide TechniqueIds, LeavesAsIs, Acceptable, NextRetired;
    RunAgainExactly(Advance(s, a), again);
  }

  /** Once the set was written it is up to date, and only an unreadable file can bring change: where some row says more than the bundles. */
  lemma {:induction false} RepeatingOnceWritten(s: State, a: Attempt, again: Attempt)
    requires TechniqueIds(s) && a.release.Valid() && Accepted(s, a) && again.release == a.release
    requires a.retiredFile != NotWritten
    ensures Advance(Advance(s, a), again) == Advance(s, a) <==>
      (again.retiredFile == Unreadable ==>
         forall id :: id in Advance(s, a).retired ==> Bare(Advance(s, a).retired, a.release, id))
  {
    RepeatingExactly(s, a, again);
    WrittenIsUpToDate(Previous(s, a), Existing(s, a), a.release, a.release.Version());
    hide TechniqueIds, UpToDate, Acceptable, RetiredSet, Bare;
  }

  lemma {:induction false} WrittenIsUpToDate(previous: map<Domain, set<Id>>, existing: map<Id, Row>, r: Release, version: string)
    ensures UpToDate(RetiredSet(previous, existing, r, version), r)
  {
    hide Live, Stated, IsMeta, LastStatus, FirstStating, Successor, BeginRow;
  }

  // ----- Runs that do not keep it -------------------------------------------

  /** The one id retired in release 1, and the catalogue as it is given. */
  function RetiredInOne(active: map<Domain, set<Id>>, id: Id): State {
    State(active, map[id := Row(Enterprise, Some("1"), None, None)])
  }

  lemma RetiredInOneIsSound(ids: set<Id>, id: Id)
    requires ids <= {"T1000", "T2000"} && id in {"T1000", "T2000"} && id !in ids
    ensures Sound(RetiredInOne(Everywhere(ids), id)) && Live(Everywhere(ids)) == ids
  {
    Examples();
    hide IsTechniqueId;
  }

  /** Where the retired set is not written, an id of it that comes back stands in both files. */
  lemma {:induction false} AnIdInBothFiles() returns (s: State, a: Attempt)
    ensures Sound(s) && a.release.Valid() && Accepted(s, a) && a.catalogueRead && a.retiredFile == NotWritten
    ensures "T2000" in Live(Advance(s, a).active) && "T2000" in Advance(s, a).retired && !Sound(Advance(s, a))
  {
    OnlyT2000IsARelease(map[]);
    RetiredInOneIsSound({}, "T2000");
    hide TechniqueIds, Acceptable, OnlyT2000, Live, Everywhere;
    s := RetiredInOne(Everywhere({}), "T2000");
    a := Attempt(OnlyT2000(map[]), false, true, NotWritten);
  }

  lemma RowOf(s: State, a: Attempt, id: Id)
    requires TechniqueIds(s) && a.release.Valid() && Accepted(s, a) && a.retiredFile != NotWritten && id in s.retired
    requires id !in Live(s.active) && id !in Live(a.release.current) && id in Stated(a.release.states)
    ensures id in Advance(s, a).retired && id !in Live(Advance(s, a).active)
    ensures Advance(s, a).retired[id].retiredIn == if a.retiredFile == Unreadable then None else s.retired[id].retiredIn
  {
    TechniqueIdsAreNotMeta(id);
    assert Live(map[]) == {} by { NothingIsLive(); }
    hide IsTechniqueId, IsMeta, Live, LastStatus, Acceptable;
  }

  /**
   Where the retired set has become unreadable, running the same release again
   forgets the release an id was retired in.
   */
  lemma {:induction false} ARetirementForgotten() returns (s: State, a: Attempt, again: Attempt)
    ensures Sound(s) && a.release.Valid() && Accepted(s, a) && a.Plain()
    ensures again.release == a.release && again.catalogueRead && again.retiredFile == Unreadable && Accepted(Advance(s, a), again)
    ensures "T1000" in Advance(s, a).retired && Advance(s, a).retired["T1000"].retiredIn == Some("1")
    ensures var twice := Advance(Advance(s, a), again);
      "T1000" in twice.retired && twice.retired["T1000"].retiredIn == None
  {
    var stated := map["T1000" := Deprecated];
    OnlyT2000IsARelease(stated);
    RetiredInOneIsSound({"T2000"}, "T1000");
    s := RetiredInOne(Everywhere({"T2000"}), "T1000");
    a, again := Attempt(OnlyT2000(stated), false, true, Kept), Attempt(OnlyT2000(stated), false, true, Unreadable);
    assert "T1000" in stated.Keys && "T1000" != "T2000";
    hide TechniqueIds, Acceptable, OnlyT2000, Live, Stated, Everywhere, Advance;
    AcceptedAgain(s, a, again);
    StepKeepsTechniqueIds(s, a);
    RowOf(s, a, "T1000");
    RowOf(Advance(s, a), again, "T1000");
  }
}
