/** The audit of usage records. */
module UsageAudit {
  // A run's usage records are held to the calls they record: one record for every
  // call, none left over, none sent after its call was received.

  import opened Wrappers
  import opened Pairing

  datatype Problem =
    | WrongRecordCount
    | WrongFailedCount
    | NoRecord(call: nat)
    | SentLate(call: nat)
    | Unaccounted(record: nat)

  function Answered(records: seq<Record>): seq<Record> {
    if records == [] then []
    else
      Answered(records[..|records| - 1])
        + (if records[|records| - 1].failedAttempt then [] else [records[|records| - 1]])
  }

  function Failed(records: seq<Record>): seq<Record> {
    if records == [] then []
    else
      Failed(records[..|records| - 1])
        + (if records[|records| - 1].failedAttempt then [records[|records| - 1]] else [])
  }

  /** A record says its call was sent after the stub received it. */
  predicate Late(record: Record, call: Call) {
    record.sent.Some? && record.sent.value > call.at
  }

  /** What is wrong with the rows of the calls, in log order. */
  function CallProblems(calls: seq<Call>, rows: map<nat, Record>): seq<Problem> {
    if calls == [] then []
    else
      var last := calls[|calls| - 1];
      CallProblems(calls[..|calls| - 1], rows)
        + (if last.id !in rows then [NoRecord(last.id)]
           else if Late(rows[last.id], last) then [SentLate(last.id)]
           else [])
  }

  function LeftProblems(left: seq<Record>): seq<Problem> {
    if left == [] then []
    else LeftProblems(left[..|left| - 1]) + [Unaccounted(left[|left| - 1].uid)]
  }

  /** Both pairings: answered calls by whole usage, then broken streams by their prompt's. */
  function Paired(billed: seq<Call>, broken: seq<Call>, records: seq<Record>): (State, State) {
    var calls := PairAll(billed, State(Answered(records), map[]), WholeUsage);
    (calls, PairAll(broken, State(Failed(records), calls.rows), PromptUsage))
  }

  function AuditProblems(billed: seq<Call>, broken: seq<Call>, records: seq<Record>): seq<Problem> {
    var (calls, failed) := Paired(billed, broken, records);
    (if |Answered(records)| != |billed| then [WrongRecordCount] else [])
      + (if |Failed(records)| != |broken| then [WrongFailedCount] else [])
      + CallProblems(billed, failed.rows)
      + CallProblems(broken, failed.rows)
      + LeftProblems(calls.pool + failed.pool)
  }

  method PairedRecords(billed: seq<Call>, broken: seq<Call>, records: seq<Record>)
    returns (rows: Rows, callsLeft: Pool, failedLeft: Pool)
    ensures fresh(rows) && fresh(callsLeft) && fresh(failedLeft)
    ensures callsLeft.left == Paired(billed, broken, records).0.pool
    ensures failedLeft.left == Paired(billed, broken, records).1.pool
    ensures rows.held == Paired(billed, broken, records).1.rows
  {
    hide PairAll;
    rows := new Rows();
    callsLeft := new Pool(Answered(records));
    failedLeft := new Pool(Failed(records));
    Pair(billed, callsLeft, WholeUsage, rows);
    Pair(broken, failedLeft, PromptUsage, rows);
  }

  method RecordProblems(billed: seq<Call>, broken: seq<Call>, records: seq<Record>)
    returns (problems: seq<Problem>)
    ensures problems == AuditProblems(billed, broken, records)
  {
    hide Paired, Answered, Failed, CallProblems, LeftProblems;
    var counts: seq<Problem> := [];
    if |Answered(records)| != |billed| {
      counts := counts + [WrongRecordCount];
    }
    if |Failed(records)| != |broken| {
      counts := counts + [WrongFailedCount];
    }
    var rows, callsLeft, failedLeft := PairedRecords(billed, broken, records);
    var ofBilled := ProblemsOf(billed, rows.held);
    var ofBroken := ProblemsOf(broken, rows.held);
    var ofLeft := UnaccountedOf(callsLeft.left + failedLeft.left);
    problems := counts + ofBilled + ofBroken + ofLeft;
  }

  method ProblemsOf(calls: seq<Call>, rows: map<nat, Record>) returns (problems: seq<Problem>)
    ensures problems == CallProblems(calls, rows)
  {
    problems := [];
    for n := 0 to |calls|
      invariant problems == CallProblems(calls[..n], rows)
    {
      assert calls[..n + 1][..n] == calls[..n];
      if calls[n].id !in rows {
        problems := problems + [NoRecord(calls[n].id)];
      } else if Late(rows[calls[n].id], calls[n]) {
        problems := problems + [SentLate(calls[n].id)];
      } else {
        assert problems + [] == problems;
      }
    }
    assert calls[..|calls|] == calls;
  }

  method UnaccountedOf(left: seq<Record>) returns (problems: seq<Problem>)
    ensures problems == LeftProblems(left)
  {
    problems := [];
    for n := 0 to |left|
      invariant problems == LeftProblems(left[..n])
    {
      assert left[..n + 1][..n] == left[..n];
      problems := problems + [Unaccounted(left[n].uid)];
    }
    assert left[..|left|] == left;
  }

  // ----- What an empty list of problems means -------------------------------

  /** `f` accounts for the calls: its own record for each, of its usage, none late, and no other record. */
  ghost predicate Accounts(f: map<nat, Record>, calls: seq<Call>, pool: seq<Record>, keying: Keying) {
    && |calls| == |pool|
    && (forall c | c in calls :: c.id in f && f[c.id] in pool && Candidate(f[c.id], c, keying) && !Late(f[c.id], c))
    && (forall c, d | c in calls && d in calls && c.id != d.id :: f[c.id] != f[d.id])
  }

  /**
   The two readings of a send time agree: the pairing takes a time of exactly
   zero for an unknown one, the late check does not, and they differ only for a
   call received before time zero.
   */
  ghost predicate Clocked(calls: seq<Call>, pool: seq<Record>) {
    forall c, r | c in calls && r in pool :: c.at >= 0.0 || r.sent != Some(0.0)
  }

  lemma EligibleIsNotLate(r: Record, c: Call, keying: Keying)
    requires c.at >= 0.0 || r.sent != Some(0.0)
    ensures Eligible(r, c, keying) <==> Candidate(r, c, keying) && !Late(r, c)
  {}

  lemma {:induction false} NoCallProblems(calls: seq<Call>, rows: map<nat, Record>)
    ensures CallProblems(calls, rows) == [] <==> forall c | c in calls :: c.id in rows && !Late(rows[c.id], c)
  {
    if calls != [] {
      var front, last := calls[..|calls| - 1], calls[|calls| - 1];
      NoCallProblems(front, rows);
      assert forall c :: c in calls <==> c in front || c == last;
    }
  }

  lemma {:induction false} PairedSize(calls: seq<Call>, rows: map<nat, Record>)
    requires forall c | c in calls :: c.id in rows
    ensures |Pairing.Paired(calls, rows)| == |calls|
  {
    if calls != [] {
      assert forall c :: c in calls[..|calls| - 1] ==> c in calls;
      PairedSize(calls[..|calls| - 1], rows);
    }
  }

  /** Once every call has a row, exactly the difference in number is left over. */
  lemma {:induction false} LeftOverCount(calls: seq<Call>, s: State, keying: Keying)
    requires DistinctCalls(calls) && Fresh(calls, s.rows)
    requires forall c | c in calls :: c.id in PairAll(calls, s, keying).rows
    ensures |PairAll(calls, s, keying).pool| == |s.pool| - |calls|
  {
    hide Run, ByArrival, InOrder;
    var sorted := ByArrival(calls);
    SortedFacts(calls, s.rows);
    var after := Run(sorted, s, keying);
    RecordsAreConserved(sorted, s, keying);
    PairedSize(sorted, after.rows);
    assert |s.pool| == |multiset(s.pool)|;
    assert |multiset(Pairing.Paired(sorted, after.rows)) + multiset(after.pool)|
        == |Pairing.Paired(sorted, after.rows)| + |after.pool|;
  }

  /** Every call has a row, and none of them is late. */
  ghost predicate AllRowed(calls: seq<Call>, rows: map<nat, Record>) {
    forall c | c in calls :: c.id in rows && !Late(rows[c.id], c)
  }

  /** If anything accounts for the calls, the pairing gives each a row in time. */
  lemma {:induction false} AccountedIsRowed(f: map<nat, Record>, calls: seq<Call>, s: State, keying: Keying)
    requires DistinctCalls(calls) && Fresh(calls, s.rows) && DistinctRecords(s.pool)
    requires Clocked(calls, s.pool) && Accounts(f, calls, s.pool, keying)
    ensures AllRowed(calls, PairAll(calls, s, keying).rows)
  {
    hide PairAll, ByArrival;
    var rows := PairAll(calls, s, keying).rows;
    forall c | c in calls ensures c.id in rows && !Late(rows[c.id], c) {
      RowsAreCausal(f, calls, s, keying, KeyOf(c.usage, keying));
      EligibleIsNotLate(rows[c.id], c, keying);
    }
  }

  /** If the pairing gives each call a row in time and the numbers agree, its rows account for the calls. */
  lemma {:induction false} RowedIsAccounted(calls: seq<Call>, s: State, keying: Keying)
    requires DistinctCalls(calls) && Fresh(calls, s.rows) && DistinctRecords(s.pool)
    requires |calls| == |s.pool| && AllRowed(calls, PairAll(calls, s, keying).rows)
    ensures Accounts(PairAll(calls, s, keying).rows, calls, s.pool, keying)
  {
    hide PairAll, ByArrival, InOrder;
    RowsAccount(calls, s, keying);
  }

  lemma {:induction false} RowsAccount(calls: seq<Call>, s: State, keying: Keying)
    requires DistinctCalls(calls) && Fresh(calls, s.rows) && DistinctRecords(s.pool)
    requires forall c | c in calls :: c.id in PairAll(calls, s, keying).rows
    ensures forall c | c in calls ::
      PairAll(calls, s, keying).rows[c.id] in s.pool && Candidate(PairAll(calls, s, keying).rows[c.id], c, keying)
    ensures forall c, d | c in calls && d in calls && c.id != d.id ::
      PairAll(calls, s, keying).rows[c.id] != PairAll(calls, s, keying).rows[d.id]
  {
    hide Run, ByArrival, InOrder;
    var sorted := ByArrival(calls);
    SortedFacts(calls, s.rows);
    forall c | c in calls
      ensures PairAll(calls, s, keying).rows[c.id] in s.pool
      ensures Candidate(PairAll(calls, s, keying).rows[c.id], c, keying)
    {
      var i :| 0 <= i < |sorted| && sorted[i] == c;
      RowsMatchTheirCalls(sorted, s, keying, i);
    }
    forall c, d | c in calls && d in calls && c.id != d.id
      ensures PairAll(calls, s, keying).rows[c.id] != PairAll(calls, s, keying).rows[d.id]
    {
      RowsDiffer(sorted, s, keying, c, d);
    }
  }

  lemma {:induction false} DistinctParts(billed: seq<Call>, broken: seq<Call>)
    requires DistinctCalls(billed + broken)
    ensures DistinctCalls(billed) && DistinctCalls(broken)
    ensures forall c, d :: c in billed && d in broken ==> c.id != d.id
  {
    assert forall i :: 0 <= i < |billed| ==> (billed + broken)[i] == billed[i];
    assert forall i :: 0 <= i < |broken| ==> (billed + broken)[|billed| + i] == broken[i];
  }

  /** A pairing gives rows to its own calls and leaves every other row as it is. */
  lemma {:induction false} OtherRowsStay(calls: seq<Call>, s: State, keying: Keying, id: nat)
    requires DistinctCalls(calls) && Fresh(calls, s.rows)
    requires forall c :: c in calls ==> c.id != id
    ensures AgreeOn(id, PairAll(calls, s, keying).rows, s.rows)
  {
    SortedFacts(calls, s.rows);
    hide Run, ByArrival, InOrder;
    forall k | 0 <= k < |ByArrival(calls)| ensures ByArrival(calls)[k].id != id {
      assert ByArrival(calls)[k] in calls;
    }
    RunAddsRowsOfItsCalls(ByArrival(calls), s, keying);
  }

  /** The second pairing starts with no row of its own calls, and leaves the first one's rows as they are. */
  lemma {:induction false} FirstRowsStay(billed: seq<Call>, broken: seq<Call>, s: State, left: seq<Record>, keying: Keying)
    requires DistinctCalls(billed + broken) && s.rows == map[]
    ensures DistinctCalls(billed) && DistinctCalls(broken) && Fresh(billed, s.rows)
    ensures Fresh(broken, PairAll(billed, s, keying).rows)
    ensures var rows := PairAll(billed, s, keying).rows;
      forall c | c in billed :: AgreeOn(c.id, PairAll(broken, State(left, rows), PromptUsage).rows, rows)
  {
    hide PairAll;
    DistinctParts(billed, broken);
    var rows := PairAll(billed, s, keying).rows;
    forall i | 0 <= i < |broken| ensures broken[i].id !in rows {
      OtherRowsStay(billed, s, keying, broken[i].id);
    }
    forall c | c in billed ensures AgreeOn(c.id, PairAll(broken, State(left, rows), PromptUsage).rows, rows) {
      OtherRowsStay(broken, State(left, rows), PromptUsage, c.id);
    }
  }

  ghost predicate AgreeOn(id: nat, a: map<nat, Record>, b: map<nat, Record>) {
    (id in a <==> id in b) && (id in a ==> a[id] == b[id])
  }

  /** Some one-to-one, on-time pairing accounts for both lists of calls and for every record. */
  ghost predicate Reconcilable(billed: seq<Call>, broken: seq<Call>, records: seq<Record>) {
    && (exists f :: Accounts(f, billed, Answered(records), WholeUsage))
    && (exists g :: Accounts(g, broken, Failed(records), PromptUsage))
  }

  lemma {:induction false} FilteredStaysDistinct(records: seq<Record>)
    requires DistinctRecords(records)
    ensures DistinctRecords(Answered(records)) && DistinctRecords(Failed(records))
    ensures forall r :: r in Answered(records) || r in Failed(records) ==> r in records
  {
    if records != [] {
      var front, last := records[..|records| - 1], records[|records| - 1];
      FilteredStaysDistinct(front);
      assert last !in front;
    }
  }

  /** Nothing is left over exactly when the lists are as long as the records they are held to. */
  lemma {:induction false} NothingLeft(calls: seq<Call>, s: State, keying: Keying)
    requires DistinctCalls(calls) && Fresh(calls, s.rows)
    requires AllRowed(calls, PairAll(calls, s, keying).rows)
    ensures PairAll(calls, s, keying).pool == [] <==> |calls| == |s.pool|
  {
    hide PairAll;
    LeftOverCount(calls, s, keying);
  }

  lemma {:induction false} AuditIsEmpty(billed: seq<Call>, broken: seq<Call>, records: seq<Record>)
    ensures AuditProblems(billed, broken, records) == [] <==>
      var (calls, failed) := Paired(billed, broken, records);
      |Answered(records)| == |billed| && |Failed(records)| == |broken|
      && AllRowed(billed, failed.rows) && AllRowed(broken, failed.rows)
      && calls.pool == [] && failed.pool == []
  {
    hide Paired, Answered, Failed;
    var (calls, failed) := Paired(billed, broken, records);
    NoCallProblems(billed, failed.rows);
    NoCallProblems(broken, failed.rows);
  }

  /** A quiet audit can be trusted: where it reports nothing, its own pairing accounts for every call and record. */
  lemma {:induction false} QuietMeansReconcilable(billed: seq<Call>, broken: seq<Call>, records: seq<Record>)
    requires DistinctCalls(billed + broken) && DistinctRecords(records)
    requires AuditProblems(billed, broken, records) == []
    ensures Reconcilable(billed, broken, records)
  {
    var s := State(Answered(records), map[]);
    var first := PairAll(billed, s, WholeUsage);
    var t := State(Failed(records), first.rows);
    var second := PairAll(broken, t, PromptUsage);
    assert Paired(billed, broken, records) == (first, second);
    hide PairAll, Answered, Failed, AuditProblems, Accounts, Paired;
    FilteredStaysDistinct(records);
    AuditIsEmpty(billed, broken, records);
    FirstRowsStay(billed, broken, s, t.pool, WholeUsage);
    assert AllRowed(billed, second.rows) <==> AllRowed(billed, first.rows);
    RowedIsAccounted(billed, s, WholeUsage);
    RowedIsAccounted(broken, t, PromptUsage);
  }

  /** From time zero on a run that some pairing accounts for is reported on in nothing. */
  lemma {:induction false} ReconcilableIsQuiet(billed: seq<Call>, broken: seq<Call>, records: seq<Record>)
    requires DistinctCalls(billed + broken) && DistinctRecords(records)
    requires Clocked(billed + broken, records) && Reconcilable(billed, broken, records)
    ensures AuditProblems(billed, broken, records) == []
  {
    var answered, failedOnes := Answered(records), Failed(records);
    var s := State(answered, map[]);
    var first := PairAll(billed, s, WholeUsage);
    var t := State(failedOnes, first.rows);
    var second := PairAll(broken, t, PromptUsage);
    assert Paired(billed, broken, records) == (first, second);
    hide PairAll, Answered, Failed, AuditProblems, Accounts, Paired;
    FilteredStaysDistinct(records);
    AuditIsEmpty(billed, broken, records);
    FirstRowsStay(billed, broken, s, failedOnes, WholeUsage);
    assert AllRowed(billed, second.rows) <==> AllRowed(billed, first.rows);
    var f :| Accounts(f, billed, answered, WholeUsage);
    var g :| Accounts(g, broken, failedOnes, PromptUsage);
    AccountedIsRowed(f, billed, s, WholeUsage);
    AccountedIsRowed(g, broken, t, PromptUsage);
    NothingLeft(billed, s, WholeUsage);
    NothingLeft(broken, t, PromptUsage);
  }

  /**
   The audit is exact: it reports nothing if and only if some one-to-one pairing
   accounts for every call with a record sent no later than it was received and
   leaves no record over.
   */
  lemma {:induction false} AuditIsExact(billed: seq<Call>, broken: seq<Call>, records: seq<Record>)
    requires DistinctCalls(billed + broken) && DistinctRecords(records)
    requires Clocked(billed + broken, records)
    ensures AuditProblems(billed, broken, records) == [] <==> Reconcilable(billed, broken, records)
  {
    hide Reconcilable, AuditProblems, Clocked;
    if AuditProblems(billed, broken, records) == [] {
      QuietMeansReconcilable(billed, broken, records);
    } else if Reconcilable(billed, broken, records) {
      ReconcilableIsQuiet(billed, broken, records);
    }
  }

  /**
   Before time zero the audit can complain of a pairing it chose itself: one call
   at -1 and two records of its usage, the first stamped zero, the second with no
   time. The second accounts for the call; the pairing takes the first.
   */
  lemma {:induction false} NegativeTimesMisreport(u: Usage)
    ensures var call := Call(0, -1.0, u);
      var stamped, unstamped := Record(0, Some(0.0), u, false), Record(1, None, u, false);
      var rows := PairAll([call], State([stamped, unstamped], map[]), WholeUsage).rows;
      0 in rows && Late(rows[0], call) && !Late(unstamped, call) && Candidate(unstamped, call, WholeUsage)
  {
    var call := Call(0, -1.0, u);
    var stamped, unstamped := Record(0, Some(0.0), u, false), Record(1, None, u, false);
    var pool := [stamped, unstamped];
    assert [call][..0] == [] && ByArrival([]) == [];
    assert ByArrival([call]) == [call];
    assert Earliest(pool, call, WholeUsage, 0) == None;
    assert Earliest(pool, call, WholeUsage, 1) == Some(0);
    assert Earliest(pool, call, WholeUsage, 2) == Some(0);
    assert Run([], State(pool, map[]), WholeUsage) == State(pool, map[]);
    assert PairAll([call], State(pool, map[]), WholeUsage) == Step(State(pool, map[]), call, WholeUsage);
  }
}
