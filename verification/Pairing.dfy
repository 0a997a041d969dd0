/** Calls and their usage records. */
module Pairing {
  // Model calls are paired with the usage records that account for them: a greedy
  // one-to-one matching in order of arrival, under the constraint that a record
  // sent after a call was received cannot be that call's.

  import opened Sets
  import opened Wrappers

  datatype Usage = Usage(input: int, output: int, cached: int)

  /** A call answered whole is keyed by its whole usage, a broken stream by its prompt's. */
  datatype Keying = WholeUsage | PromptUsage

  function KeyOf(usage: Usage, keying: Keying): seq<int> {
    match keying
    case WholeUsage => [usage.input, usage.output, usage.cached]
    case PromptUsage => [usage.input, usage.cached]
  }

  /** One call of the stub's log: its identity, when it was received, and what it reported. */
  datatype Call = Call(id: nat, at: real, usage: Usage)

  /** One usage record: its identity, when it says its call was sent, and its usage. */
  datatype Record = Record(uid: nat, sent: Option<real>, usage: Usage, failedAttempt: bool)

  /** The send time a record is ordered by; an unknown or zero one reads as the call's own time. */
  function Effective(record: Record, at: real): real {
    if record.sent.None? || record.sent.value == 0.0 then at else record.sent.value
  }

  predicate Candidate(record: Record, call: Call, keying: Keying) {
    KeyOf(record.usage, keying) == KeyOf(call.usage, keying)
  }

  /** A record of the call's usage that does not read as sent after the call was received. */
  predicate Eligible(record: Record, call: Call, keying: Keying) {
    Candidate(record, call, keying) && Effective(record, call.at) <= call.at
  }

  /** The index, among the first `n`, of the eligible record sent earliest; the first on a tie. */
  function Earliest(pool: seq<Record>, call: Call, keying: Keying, n: nat): (best: Option<nat>)
    requires n <= |pool|
    ensures best.Some? ==> best.value < n && Eligible(pool[best.value], call, keying)
    ensures best.Some? ==> forall j :: 0 <= j < n && Eligible(pool[j], call, keying) ==>
      Effective(pool[best.value], call.at) <= Effective(pool[j], call.at)
    ensures best.None? ==> forall j :: 0 <= j < n ==> !Eligible(pool[j], call, keying)
  {
    if n == 0 then None
    else
      var before := Earliest(pool, call, keying, n - 1);
      if Eligible(pool[n - 1], call, keying)
         && (before.None? || Effective(pool[n - 1], call.at) < Effective(pool[before.value], call.at))
      then Some(n - 1)
      else before
  }

  /** The index of the first record of the call's usage among the first `n`. */
  function First(pool: seq<Record>, call: Call, keying: Keying, n: nat): (first: Option<nat>)
    requires n <= |pool|
    ensures first.Some? ==> first.value < n && Candidate(pool[first.value], call, keying)
    ensures first.None? ==> forall j :: 0 <= j < n ==> !Candidate(pool[j], call, keying)
  {
    if n == 0 then None
    else
      var before := First(pool, call, keying, n - 1);
      if before.None? && Candidate(pool[n - 1], call, keying) then Some(n - 1) else before
  }

  /** The record a call takes: the earliest-sent eligible one, else the first of its usage. */
  function Choice(pool: seq<Record>, call: Call, keying: Keying): (index: Option<nat>)
    ensures index.Some? ==> index.value < |pool| && Candidate(pool[index.value], call, keying)
    ensures index.None? ==> forall j :: 0 <= j < |pool| ==> !Candidate(pool[j], call, keying)
    ensures (exists j :: 0 <= j < |pool| && Eligible(pool[j], call, keying)) ==>
              index.Some? && Eligible(pool[index.value], call, keying)
  {
    var earliest := Earliest(pool, call, keying, |pool|);
    if earliest.Some? then earliest else First(pool, call, keying, |pool|)
  }

  /** The records still unpaired, and each paired call's record by the call's id. */
  datatype State = State(pool: seq<Record>, rows: map<nat, Record>)

  function Without<T>(s: seq<T>, i: nat): seq<T>
    requires i < |s|
  {
    s[..i] + s[i + 1..]
  }

  function Step(s: State, call: Call, keying: Keying): State {
    var index := Choice(s.pool, call, keying);
    if index.None? then s
    else State(Without(s.pool, index.value), s.rows[call.id := s.pool[index.value]])
  }

  /** The state after the calls are taken in turn. */
  function Run(calls: seq<Call>, s: State, keying: Keying): State {
    if calls == [] then s
    else Step(Run(calls[..|calls| - 1], s, keying), calls[|calls| - 1], keying)
  }

  // ----- Order of arrival ---------------------------------------------------

  ghost predicate InOrder(calls: seq<Call>) {
    forall i, j :: 0 <= i < j < |calls| ==> calls[i].at <= calls[j].at
  }

  ghost predicate DistinctCalls(calls: seq<Call>) {
    forall i, j :: 0 <= i < j < |calls| ==> calls[i].id != calls[j].id
  }

  ghost predicate DistinctRecords(pool: seq<Record>) {
    forall i, j :: 0 <= i < j < |pool| ==> pool[i] != pool[j]
  }

  /** A call put after every call received no later than it: what a stable sort does. */
  function Inserted(sorted: seq<Call>, call: Call): seq<Call> {
    if sorted == [] || sorted[|sorted| - 1].at <= call.at then sorted + [call]
    else Inserted(sorted[..|sorted| - 1], call) + [sorted[|sorted| - 1]]
  }

  lemma {:induction false} InsertedKeepsCalls(sorted: seq<Call>, call: Call)
    ensures multiset(Inserted(sorted, call)) == multiset(sorted) + multiset{call}
  {
    if !(sorted == [] || sorted[|sorted| - 1].at <= call.at) {
      assert sorted == sorted[..|sorted| - 1] + [sorted[|sorted| - 1]];
      InsertedKeepsCalls(sorted[..|sorted| - 1], call);
    }
  }

  /** All calls of the list were received by `at`. */
  ghost predicate AllBy(calls: seq<Call>, at: real) {
    forall i :: 0 <= i < |calls| ==> calls[i].at <= at
  }

  lemma {:induction false} InsertedInOrder(sorted: seq<Call>, call: Call)
    requires InOrder(sorted)
    ensures InOrder(Inserted(sorted, call))
    ensures forall at :: AllBy(sorted, at) && call.at <= at ==> AllBy(Inserted(sorted, call), at)
  {
    if !(sorted == [] || sorted[|sorted| - 1].at <= call.at) {
      InsertedInOrder(sorted[..|sorted| - 1], call);
      assert AllBy(sorted[..|sorted| - 1], sorted[|sorted| - 1].at);
      forall at | AllBy(sorted, at) && call.at <= at ensures AllBy(Inserted(sorted, call), at) {
        assert AllBy(sorted[..|sorted| - 1], at);
      }
    }
  }

  /** The calls by their times of arrival; equal times stay as they were listed. */
  function ByArrival(calls: seq<Call>): seq<Call> {
    if calls == [] then []
    else Inserted(ByArrival(calls[..|calls| - 1]), calls[|calls| - 1])
  }

  lemma {:induction false} ByArrivalSorts(calls: seq<Call>)
    ensures InOrder(ByArrival(calls)) && multiset(ByArrival(calls)) == multiset(calls)
  {
    if calls != [] {
      var front, last := calls[..|calls| - 1], calls[|calls| - 1];
      assert calls == front + [last];
      ByArrivalSorts(front);
      InsertedInOrder(ByArrival(front), last);
      InsertedKeepsCalls(ByArrival(front), last);
    }
  }

  lemma {:induction false} DistinctAfterSorting(calls: seq<Call>, sorted: seq<Call>)
    requires DistinctCalls(calls) && multiset(calls) == multiset(sorted)
    ensures DistinctCalls(sorted)
  {
    forall i, j | 0 <= i < j < |sorted|
      ensures sorted[i].id != sorted[j].id
    {
      if sorted[i].id == sorted[j].id {
        assert sorted[i] in multiset(calls) && sorted[j] in multiset(calls);
        var k :| 0 <= k < |calls| && calls[k] == sorted[i];
        var l :| 0 <= l < |calls| && calls[l] == sorted[j];
        assert k == l;
        TwiceInSeq(sorted, i, j);
        OnceInDistinct(calls, k);
      }
    }
  }

  lemma {:induction false} TwiceInSeq<T>(s: seq<T>, i: nat, j: nat)
    requires i < j < |s| && s[i] == s[j]
    ensures multiset(s)[s[i]] >= 2
  {
    assert s == s[..i] + [s[i]] + s[i + 1..j] + [s[j]] + s[j + 1..];
  }

  lemma {:induction false} OnceInDistinct(calls: seq<Call>, k: nat)
    requires DistinctCalls(calls) && k < |calls|
    ensures multiset(calls)[calls[k]] == 1
  {
    assert calls == calls[..k] + [calls[k]] + calls[k + 1..];
    assert calls[k] !in calls[..k] && calls[k] !in calls[k + 1..];
  }

  // ----- Conservation -------------------------------------------------------

  /** The records the calls were given, in the order of the calls. */
  function Paired(calls: seq<Call>, rows: map<nat, Record>): seq<Record> {
    if calls == [] then []
    else
      var last := calls[|calls| - 1];
      Paired(calls[..|calls| - 1], rows) + (if last.id in rows then [rows[last.id]] else [])
  }

  lemma {:induction false} PairedFrame(calls: seq<Call>, rows: map<nat, Record>, id: nat, record: Record)
    requires forall i :: 0 <= i < |calls| ==> calls[i].id != id
    ensures Paired(calls, rows[id := record]) == Paired(calls, rows)
  {
    if calls != [] {
      PairedFrame(calls[..|calls| - 1], rows, id, record);
    }
  }

  /** No call of the list has a row yet. */
  ghost predicate Fresh(calls: seq<Call>, rows: map<nat, Record>) {
    forall i :: 0 <= i < |calls| ==> calls[i].id !in rows
  }

  /** Rows are only ever added, and only for the calls taken. */
  lemma {:induction false} RunAddsRowsOfItsCalls(calls: seq<Call>, s: State, keying: Keying)
    ensures forall id :: id in Run(calls, s, keying).rows ==>
      id in s.rows || exists i :: 0 <= i < |calls| && calls[i].id == id
    ensures forall id :: id in s.rows && (forall i :: 0 <= i < |calls| ==> calls[i].id != id) ==>
      id in Run(calls, s, keying).rows && Run(calls, s, keying).rows[id] == s.rows[id]
  {
    if calls != [] {
      var before := calls[..|calls| - 1];
      RunAddsRowsOfItsCalls(before, s, keying);
      assert forall i :: 0 <= i < |before| ==> before[i] == calls[i];
      forall id | id in Run(calls, s, keying).rows && id !in s.rows
        ensures exists i :: 0 <= i < |calls| && calls[i].id == id
      {
        if id in Run(before, s, keying).rows {
          var i :| 0 <= i < |before| && before[i].id == id;
          assert calls[i].id == id;
        }
      }
    }
  }

  /** A call not yet taken has no row. */
  lemma {:induction false} LastIsFresh(calls: seq<Call>, s: State, keying: Keying)
    requires calls != [] && DistinctCalls(calls) && Fresh(calls, s.rows)
    ensures calls[|calls| - 1].id !in Run(calls[..|calls| - 1], s, keying).rows
  {
    RunAddsRowsOfItsCalls(calls[..|calls| - 1], s, keying);
    var front, last := calls[..|calls| - 1], calls[|calls| - 1];
    assert forall i :: 0 <= i < |front| ==> front[i].id != last.id;
  }

  lemma {:induction false} PairedStep(calls: seq<Call>, s: State, keying: Keying)
    requires calls != [] && DistinctCalls(calls) && Fresh(calls, s.rows)
    ensures var before, last := Run(calls[..|calls| - 1], s, keying), calls[|calls| - 1];
      var index := Choice(before.pool, last, keying);
      Paired(calls, Run(calls, s, keying).rows)
        == Paired(calls[..|calls| - 1], before.rows) + (if index.Some? then [before.pool[index.value]] else [])
      && Run(calls, s, keying).pool == (if index.Some? then Without(before.pool, index.value) else before.pool)
    ensures DistinctCalls(calls[..|calls| - 1]) && Fresh(calls[..|calls| - 1], s.rows)
  {
    var front, last := calls[..|calls| - 1], calls[|calls| - 1];
    var before := Run(front, s, keying);
    LastIsFresh(calls, s, keying);
    var index := Choice(before.pool, last, keying);
    if index.Some? {
      PairedFrame(front, before.rows, last.id, before.pool[index.value]);
    }
  }

  lemma {:induction false} WithoutOne<T>(s: seq<T>, i: nat)
    requires i < |s|
    ensures multiset(s) == multiset(Without(s, i)) + multiset{s[i]}
  {
    assert s == s[..i] + [s[i]] + s[i + 1..];
  }

  lemma FrontIsFresh(calls: seq<Call>, rows: map<nat, Record>)
    requires calls != [] && DistinctCalls(calls) && Fresh(calls, rows)
    ensures DistinctCalls(calls[..|calls| - 1]) && Fresh(calls[..|calls| - 1], rows)
  {}

  /** Paired and left over together are the records there were: none is lost, none is used twice. */
  lemma {:induction false} RecordsAreConserved(calls: seq<Call>, s: State, keying: Keying)
    requires DistinctCalls(calls) && Fresh(calls, s.rows)
    ensures multiset(Paired(calls, Run(calls, s, keying).rows)) + multiset(Run(calls, s, keying).pool)
         == multiset(s.pool)
  {
    if calls != [] {
      FrontIsFresh(calls, s.rows);
      hide Choice, Fresh, DistinctCalls, Paired, Without;
      var before := Run(calls[..|calls| - 1], s, keying);
      RecordsAreConserved(calls[..|calls| - 1], s, keying);
      PairedStep(calls, s, keying);
      var index := Choice(before.pool, calls[|calls| - 1], keying);
      if index.Some? {
        WithoutOne(before.pool, index.value);
      }
    }
  }

  lemma {:induction false} StepRows(s: State, call: Call, keying: Keying, id: nat)
    requires call.id !in s.rows
    requires id in Step(s, call, keying).rows
    ensures id != call.id ==> id in s.rows && Step(s, call, keying).rows[id] == s.rows[id]
    ensures id == call.id ==> Step(s, call, keying).rows[id] in s.pool
    ensures id == call.id ==> Candidate(Step(s, call, keying).rows[id], call, keying)
  {
    hide Earliest, First;
  }

  /** Every call is given a record of its own usage. */
  lemma {:induction false} RowsMatchTheirCalls(calls: seq<Call>, s: State, keying: Keying, i: nat)
    requires DistinctCalls(calls) && Fresh(calls, s.rows) && i < |calls|
    requires calls[i].id in Run(calls, s, keying).rows
    ensures Run(calls, s, keying).rows[calls[i].id] in s.pool
    ensures Candidate(Run(calls, s, keying).rows[calls[i].id], calls[i], keying)
  {
    hide Step, Candidate;
    var front, last := calls[..|calls| - 1], calls[|calls| - 1];
    var before := Run(front, s, keying);
    LastIsFresh(calls, s, keying);
    StepRows(before, last, keying, calls[i].id);
    if i < |front| {
      assert front[i] == calls[i];
      RowsMatchTheirCalls(front, s, keying, i);
    } else {
      var r := Run(calls, s, keying).rows[calls[i].id];
      RecordsAreConserved(front, s, keying);
      assert r in multiset(before.pool);
      assert r in multiset(s.pool);
    }
  }

  lemma {:induction false} PairedHolds(calls: seq<Call>, rows: map<nat, Record>, i: nat)
    requires i < |calls| && calls[i].id in rows
    ensures rows[calls[i].id] in Paired(calls, rows)
  {
    if i < |calls| - 1 {
      PairedHolds(calls[..|calls| - 1], rows, i);
    }
  }

  lemma {:induction false} PairedTwice(calls: seq<Call>, rows: map<nat, Record>, i: nat, j: nat)
    requires i < j < |calls| && calls[i].id in rows && calls[j].id in rows
    requires rows[calls[i].id] == rows[calls[j].id]
    ensures multiset(Paired(calls, rows))[rows[calls[i].id]] >= 2
  {
    var front := calls[..|calls| - 1];
    if j < |front| {
      PairedTwice(front, rows, i, j);
    } else {
      PairedHolds(front, rows, i);
      assert rows[calls[i].id] in multiset(Paired(front, rows));
    }
  }

  lemma {:induction false} DistinctIsOnce(pool: seq<Record>, r: Record)
    requires DistinctRecords(pool)
    ensures multiset(pool)[r] <= 1
  {
    if pool != [] {
      var front, last := pool[..|pool| - 1], pool[|pool| - 1];
      assert pool == front + [last];
      DistinctIsOnce(front, r);
      if last == r {
        assert r !in front;
      }
    }
  }

  /** One record accounts for at most one call. */
  lemma {:induction false} PairingIsOneToOne(calls: seq<Call>, s: State, keying: Keying, i: nat, j: nat)
    requires DistinctCalls(calls) && Fresh(calls, s.rows) && DistinctRecords(s.pool)
    requires i < j < |calls|
    requires calls[i].id in Run(calls, s, keying).rows && calls[j].id in Run(calls, s, keying).rows
    ensures Run(calls, s, keying).rows[calls[i].id] != Run(calls, s, keying).rows[calls[j].id]
  {
    var rows := Run(calls, s, keying).rows;
    if rows[calls[i].id] == rows[calls[j].id] {
      PairedTwice(calls, rows, i, j);
      RecordsAreConserved(calls, s, keying);
      DistinctIsOnce(s.pool, rows[calls[i].id]);
    }
  }

  // ----- How many are paired ------------------------------------------------

  function CountCalls(calls: seq<Call>, keying: Keying, key: seq<int>): nat {
    if calls == [] then 0
    else
      CountCalls(calls[..|calls| - 1], keying, key)
        + (if KeyOf(calls[|calls| - 1].usage, keying) == key then 1 else 0)
  }

  function CountRecords(pool: seq<Record>, keying: Keying, key: seq<int>): nat {
    if pool == [] then 0
    else
      CountRecords(pool[..|pool| - 1], keying, key)
        + (if KeyOf(pool[|pool| - 1].usage, keying) == key then 1 else 0)
  }

  lemma {:induction false} CountRecordsConcat(a: seq<Record>, b: seq<Record>, keying: Keying, key: seq<int>)
    ensures CountRecords(a + b, keying, key) == CountRecords(a, keying, key) + CountRecords(b, keying, key)
  {
    if b == [] {
      assert a + b == a;
    } else {
      assert (a + b)[..|a + b| - 1] == a + b[..|b| - 1];
      CountRecordsConcat(a, b[..|b| - 1], keying, key);
    }
  }

  lemma {:induction false} CountRecordsOne(r: Record, keying: Keying, key: seq<int>)
    ensures CountRecords([r], keying, key) == if KeyOf(r.usage, keying) == key then 1 else 0
  {
    assert [r][..0] == [];
  }

  lemma {:induction false} CountRecordsWithout(pool: seq<Record>, i: nat, keying: Keying, key: seq<int>)
    requires i < |pool|
    ensures CountRecords(pool, keying, key) == CountRecords(Without(pool, i), keying, key)
         + (if KeyOf(pool[i].usage, keying) == key then 1 else 0)
  {
    assert pool == pool[..i] + [pool[i]] + pool[i + 1..];
    CountRecordsConcat(pool[..i] + [pool[i]], pool[i + 1..], keying, key);
    CountRecordsConcat(pool[..i], [pool[i]], keying, key);
    CountRecordsOne(pool[i], keying, key);
    CountRecordsConcat(pool[..i], pool[i + 1..], keying, key);
  }

  lemma {:induction false} NoneOfKey(pool: seq<Record>, keying: Keying, key: seq<int>)
    requires forall j :: 0 <= j < |pool| ==> KeyOf(pool[j].usage, keying) != key
    ensures CountRecords(pool, keying, key) == 0
  {
    if pool != [] {
      NoneOfKey(pool[..|pool| - 1], keying, key);
    }
  }

  function Min(a: nat, b: nat): nat { if a <= b then a else b }

  /** One call takes one record of its usage, where there is one, and no other. */
  lemma {:induction false} StepCounts(
    pool: seq<Record>, paired: seq<Record>, call: Call, keying: Keying, key: seq<int>, left: seq<Record>, more: seq<Record>)
    requires var index := Choice(pool, call, keying);
      && left == (if index.Some? then Without(pool, index.value) else pool)
      && more == paired + (if index.Some? then [pool[index.value]] else [])
    ensures var taken := if KeyOf(call.usage, keying) == key && CountRecords(pool, keying, key) > 0 then 1 else 0;
      && CountRecords(left, keying, key) == CountRecords(pool, keying, key) - taken
      && CountRecords(more, keying, key) == CountRecords(paired, keying, key) + taken
  {
    var index := Choice(pool, call, keying);
    if index.Some? {
      CountRecordsWithout(pool, index.value, keying, key);
      CountRecordsConcat(paired, [pool[index.value]], keying, key);
      CountRecordsOne(pool[index.value], keying, key);
    } else {
      assert paired + [] == paired;
      if KeyOf(call.usage, keying) == key {
        NoneOfKey(pool, keying, key);
      }
    }
  }

  /** Per usage, as many are paired as there are calls or records of it, whichever is fewer. */
  lemma {:induction false} PairsAsManyAsPossible(calls: seq<Call>, s: State, keying: Keying, key: seq<int>)
    requires DistinctCalls(calls) && Fresh(calls, s.rows)
    ensures CountRecords(Paired(calls, Run(calls, s, keying).rows), keying, key)
         == Min(CountCalls(calls, keying, key), CountRecords(s.pool, keying, key))
    ensures CountRecords(Run(calls, s, keying).pool, keying, key)
         == CountRecords(s.pool, keying, key)
          - Min(CountCalls(calls, keying, key), CountRecords(s.pool, keying, key))
  {
    if calls == [] {
      NothingPaired(s, keying, key);
    } else {
      var front, last := calls[..|calls| - 1], calls[|calls| - 1];
      var before, now := Run(front, s, keying), Run(calls, s, keying);
      PairedStep(calls, s, keying);
      hide Run, Choice, KeyOf, CountRecords, Paired, Without, Min, Fresh, DistinctCalls;
      PairsAsManyAsPossible(front, s, keying, key);
      StepCounts(before.pool, Paired(front, before.rows), last, keying, key, now.pool, Paired(calls, now.rows));
      MinNext(CountCalls(front, keying, key), CountRecords(s.pool, keying, key), KeyOf(last.usage, keying) == key);
    }
  }

  lemma NothingPaired(s: State, keying: Keying, key: seq<int>)
    ensures CountRecords(Paired([], Run([], s, keying).rows), keying, key) == 0 && Run([], s, keying) == s
    ensures CountCalls([], keying, key) == 0
  {}

  lemma MinNext(calls: nat, records: nat, one: bool)
    ensures Min(calls + if one then 1 else 0, records)
         == Min(calls, records) + if one && records - Min(calls, records) > 0 then 1 else 0
  {}

  // ----- Causality ----------------------------------------------------------

  ghost predicate OfKey(call: Call, keying: Keying, key: seq<int>) {
    KeyOf(call.usage, keying) == key
  }

  /** `f` gives every call of one usage its own eligible record of the pool. */
  ghost predicate CausalAssignment(
    f: map<nat, Record>, calls: seq<Call>, pool: seq<Record>, keying: Keying, key: seq<int>)
  {
    && (forall c | c in calls && OfKey(c, keying, key) ::
          c.id in f && f[c.id] in pool && Eligible(f[c.id], c, keying))
    && (forall c, d | c in calls && d in calls && OfKey(c, keying, key) && OfKey(d, keying, key) && c.id != d.id ::
          f[c.id] != f[d.id])
  }

  /** The records an assignment gives the calls of one usage. */
  ghost function Images(f: map<nat, Record>, calls: seq<Call>, keying: Keying, key: seq<int>): set<Record> {
    set c | c in calls && OfKey(c, keying, key) && c.id in f :: f[c.id]
  }

  lemma {:induction false} ImagesAreAsMany(
    f: map<nat, Record>, calls: seq<Call>, pool: seq<Record>, keying: Keying, key: seq<int>)
    requires DistinctCalls(calls) && CausalAssignment(f, calls, pool, keying, key)
    ensures |Images(f, calls, keying, key)| == CountCalls(calls, keying, key)
  {
    if calls != [] {
      var front, last := calls[..|calls| - 1], calls[|calls| - 1];
      assert calls == front + [last];
      FrontIsAssigned(f, calls, pool, keying, key);
      ImagesAreAsMany(f, front, pool, keying, key);
      ImagesStep(f, front, last, keying, key);
    }
  }

  lemma {:induction false} FrontIsAssigned(
    f: map<nat, Record>, calls: seq<Call>, pool: seq<Record>, keying: Keying, key: seq<int>)
    requires calls != [] && DistinctCalls(calls) && CausalAssignment(f, calls, pool, keying, key)
    ensures var front, last := calls[..|calls| - 1], calls[|calls| - 1];
      CausalAssignment(f, front, pool, keying, key)
      && (OfKey(last, keying, key) ==> last.id in f && f[last.id] !in Images(f, front, keying, key))
  {
    hide Eligible, OfKey;
    var front, last := calls[..|calls| - 1], calls[|calls| - 1];
    assert forall c :: c in front ==> c in calls && c.id != last.id;
    assert last in calls;
  }

  lemma {:induction false} ImagesStep(f: map<nat, Record>, front: seq<Call>, last: Call, keying: Keying, key: seq<int>)
    requires OfKey(last, keying, key) ==> last.id in f && f[last.id] !in Images(f, front, keying, key)
    ensures |Images(f, front + [last], keying, key)|
         == |Images(f, front, keying, key)| + (if OfKey(last, keying, key) then 1 else 0)
  {
    hide OfKey;
    if OfKey(last, keying, key) {
      assert Images(f, front + [last], keying, key) == Images(f, front, keying, key) + {f[last.id]};
    } else {
      assert Images(f, front + [last], keying, key) == Images(f, front, keying, key);
    }
  }

  ghost function RecordsOf(records: seq<Record>, keying: Keying, key: seq<int>): set<Record> {
    set r | r in records && KeyOf(r.usage, keying) == key
  }

  lemma {:induction false} RecordsOfAreNoMore(records: seq<Record>, keying: Keying, key: seq<int>)
    ensures |RecordsOf(records, keying, key)| <= CountRecords(records, keying, key)
  {
    if records != [] {
      var front, last := records[..|records| - 1], records[|records| - 1];
      assert forall r :: r in records <==> r in front || r == last;
      RecordsOfAreNoMore(front, keying, key);
      assert RecordsOf(records, keying, key)
          == RecordsOf(front, keying, key) + (if KeyOf(last.usage, keying) == key then {last} else {});
    }
  }

  lemma {:induction false} OneOutside<T>(large: set<T>, small: set<T>) returns (x: T)
    requires |small| < |large|
    ensures x in large && x !in small
  {
    if large <= small {
      SubsetSize(large, small);
      assert false;
    }
    x :| x in large && x !in small;
  }

  /** With fewer records taken than calls counted, some call's record is still unpaired. */
  lemma {:induction false} OneImageIsLeft(
    f: map<nat, Record>, calls: seq<Call>, s: State, keying: Keying, key: seq<int>) returns (c: Call)
    requires calls != [] && DistinctCalls(calls) && Fresh(calls, s.rows)
    requires CausalAssignment(f, calls, s.pool, keying, key)
    requires OfKey(calls[|calls| - 1], keying, key)
    ensures c in calls && OfKey(c, keying, key)
    ensures f[c.id] in s.pool && f[c.id] !in Paired(calls[..|calls| - 1], Run(calls[..|calls| - 1], s, keying).rows)
  {
    hide Run;
    var front := calls[..|calls| - 1];
    var taken := Paired(front, Run(front, s, keying).rows);
    ImagesAreAsMany(f, calls, s.pool, keying, key);
    PairsAsManyAsPossible(front, s, keying, key);
    RecordsOfAreNoMore(taken, keying, key);
    var r := OneOutside(Images(f, calls, keying, key), RecordsOf(taken, keying, key));
    c :| c in calls && OfKey(c, keying, key) && c.id in f && f[c.id] == r;
  }

  /**
   The counting step. The calls so far with one usage take records one each, and
   everything eligible for an earlier call is eligible for the last; so if an
   assignment exists, the last call still finds an eligible record unpaired.
   */
  lemma {:induction false} AnEligibleRecordIsLeft(
    f: map<nat, Record>, calls: seq<Call>, s: State, keying: Keying, key: seq<int>) returns (r: Record)
    requires calls != [] && InOrder(calls) && DistinctCalls(calls) && Fresh(calls, s.rows)
    requires CausalAssignment(f, calls, s.pool, keying, key)
    requires OfKey(calls[|calls| - 1], keying, key)
    ensures r in Run(calls[..|calls| - 1], s, keying).pool && Eligible(r, calls[|calls| - 1], keying)
  {
    hide Run, Paired;
    var front, last := calls[..|calls| - 1], calls[|calls| - 1];
    var before := Run(front, s, keying);
    var c := OneImageIsLeft(f, calls, s, keying, key);
    r := f[c.id];
    RecordsAreConserved(front, s, keying);
    assert r in multiset(s.pool) && r !in multiset(Paired(front, before.rows));
    assert r in multiset(before.pool);
  }

  /** If any one-to-one causal assignment exists for a usage, the greedy pairing is one. */
  lemma {:induction false} GreedyIsCausal(
    f: map<nat, Record>, calls: seq<Call>, s: State, keying: Keying, key: seq<int>)
    requires InOrder(calls) && DistinctCalls(calls) && Fresh(calls, s.rows)
    requires CausalAssignment(f, calls, s.pool, keying, key)
    ensures forall c | c in calls && OfKey(c, keying, key) ::
      c.id in Run(calls, s, keying).rows && Eligible(Run(calls, s, keying).rows[c.id], c, keying)
  {
    if calls != [] {
      var front, last := calls[..|calls| - 1], calls[|calls| - 1];
      FrontIsAssigned(f, calls, s.pool, keying, key);
      GreedyIsCausal(f, front, s, keying, key);
      LastIsFresh(calls, s, keying);
      var before := Run(front, s, keying);
      if OfKey(last, keying, key) {
        var r := AnEligibleRecordIsLeft(f, calls, s, keying, key);
        StepIsCausal(before, last, keying, r);
      }
      FrontKeepsItsRows(front, before, last, keying, key);
      assert calls == front + [last];
      hide Eligible, Choice, OfKey, CausalAssignment, Step;
    }
  }

  lemma {:induction false} FrontKeepsItsRows(front: seq<Call>, before: State, last: Call, keying: Keying, key: seq<int>)
    requires last.id !in before.rows
    requires forall c | c in front && OfKey(c, keying, key) :: c.id in before.rows && Eligible(before.rows[c.id], c, keying)
    ensures forall c | c in front && OfKey(c, keying, key) ::
      c.id in Step(before, last, keying).rows && Eligible(Step(before, last, keying).rows[c.id], c, keying)
  {
    hide Eligible, OfKey, Step;
    forall c | c in front && OfKey(c, keying, key)
      ensures c.id in Step(before, last, keying).rows && Step(before, last, keying).rows[c.id] == before.rows[c.id]
    {
      StepKeepsRows(before, last, keying, c.id);
    }
  }

  lemma {:induction false} StepIsCausal(s: State, call: Call, keying: Keying, r: Record)
    requires r in s.pool && Eligible(r, call, keying)
    ensures call.id in Step(s, call, keying).rows && Eligible(Step(s, call, keying).rows[call.id], call, keying)
  {
    hide Earliest, First;
    var j :| 0 <= j < |s.pool| && s.pool[j] == r;
  }

  lemma {:induction false} StepKeepsRows(s: State, call: Call, keying: Keying, id: nat)
    requires call.id !in s.rows && id in s.rows
    ensures id in Step(s, call, keying).rows && Step(s, call, keying).rows[id] == s.rows[id]
  {
    hide Choice;
  }

  // ----- Which record a call is given ---------------------------------------

  /** The record is of the call's usage: prompt, cached part and, for a call answered whole, output. */
  ghost predicate SameUsage(record: Record, call: Call, keying: Keying) {
    && record.usage.input == call.usage.input && record.usage.cached == call.usage.cached
    && (keying == WholeUsage ==> record.usage.output == call.usage.output)
  }

  /** The record says nothing that makes it sent after the call was received. */
  ghost predicate InTime(record: Record, call: Call) {
    record.sent.None? || record.sent.value == 0.0 || record.sent.value <= call.at
  }

  /** Of two records in time, the one is sent no later; one that does not say was sent when the call was received. */
  ghost predicate SentNoLater(one: Record, other: Record, call: Call) {
    if other.sent.None? || other.sent.value == 0.0 then InTime(one, call)
    else if one.sent.None? || one.sent.value == 0.0 then call.at <= other.sent.value
    else one.sent.value <= other.sent.value
  }

  /** The record in time that is sent earliest, the first on a tie; with none in time, the first of the usage. */
  ghost predicate Best(pool: seq<Record>, call: Call, keying: Keying, k: nat)
    requires k < |pool|
  {
    && SameUsage(pool[k], call, keying)
    && (forall j | 0 <= j < |pool| && SameUsage(pool[j], call, keying) && InTime(pool[j], call) ::
          InTime(pool[k], call) && SentNoLater(pool[k], pool[j], call)
          && (j < k ==> !SentNoLater(pool[j], pool[k], call)))
    && (!InTime(pool[k], call) ==> forall j | 0 <= j < k :: !SameUsage(pool[j], call, keying))
  }

  /** The call takes the best record there is of its usage, and only that leaves the pool; with none it takes nothing. */
  ghost predicate Takes(pool: seq<Record>, call: Call, keying: Keying, rows: map<nat, Record>, left: seq<Record>) {
    if forall j :: 0 <= j < |pool| ==> !SameUsage(pool[j], call, keying)
    then call.id !in rows && left == pool
    else call.id in rows && exists k :: TakesAt(pool, call, keying, rows[call.id], left, k)
  }

  ghost predicate TakesAt(pool: seq<Record>, call: Call, keying: Keying, row: Record, left: seq<Record>, k: nat) {
    k < |pool| && Best(pool, call, keying, k) && row == pool[k] && left == pool[..k] + pool[k + 1..]
  }

  lemma {:induction false} EarliestIsFirst(pool: seq<Record>, call: Call, keying: Keying, n: nat)
    requires n <= |pool| && Earliest(pool, call, keying, n).Some?
    ensures var best := Earliest(pool, call, keying, n).value;
      forall j :: 0 <= j < best && Eligible(pool[j], call, keying) ==>
        Effective(pool[best], call.at) < Effective(pool[j], call.at)
  {
    if n > 0 && Earliest(pool, call, keying, n - 1).Some? {
      EarliestIsFirst(pool, call, keying, n - 1);
    }
  }

  lemma {:induction false} FirstIsFirst(pool: seq<Record>, call: Call, keying: Keying, n: nat)
    requires n <= |pool| && First(pool, call, keying, n).Some?
    ensures forall j :: 0 <= j < First(pool, call, keying, n).value ==> !Candidate(pool[j], call, keying)
  {
    if n > 0 && First(pool, call, keying, n - 1).Some? {
      FirstIsFirst(pool, call, keying, n - 1);
    }
  }

  lemma CandidateIsSameUsage(record: Record, call: Call, keying: Keying)
    ensures Candidate(record, call, keying) <==> SameUsage(record, call, keying)
    ensures Eligible(record, call, keying) <==> SameUsage(record, call, keying) && InTime(record, call)
  {
    var a, b := KeyOf(record.usage, keying), KeyOf(call.usage, keying);
    if a == b {
      assert a[0] == b[0] && a[1] == b[1] && |a| == |b|;
      assert keying == WholeUsage ==> a[2] == b[2];
    }
  }

  lemma EffectiveIsSent(one: Record, other: Record, call: Call)
    requires InTime(one, call) && InTime(other, call)
    ensures Effective(one, call.at) <= Effective(other, call.at) <==> SentNoLater(one, other, call)
  {}

  lemma {:induction false} ChoiceIsBest(pool: seq<Record>, call: Call, keying: Keying)
    ensures Choice(pool, call, keying).None? <==> forall j :: 0 <= j < |pool| ==> !SameUsage(pool[j], call, keying)
    ensures Choice(pool, call, keying).Some? ==> Best(pool, call, keying, Choice(pool, call, keying).value)
  {
    forall j | 0 <= j < |pool|
      ensures Candidate(pool[j], call, keying) <==> SameUsage(pool[j], call, keying)
      ensures Eligible(pool[j], call, keying) <==> SameUsage(pool[j], call, keying) && InTime(pool[j], call)
    {
      CandidateIsSameUsage(pool[j], call, keying);
    }
    var earliest, index := Earliest(pool, call, keying, |pool|), Choice(pool, call, keying);
    if earliest.Some? {
      EarliestIsFirst(pool, call, keying, |pool|);
      forall j | 0 <= j < |pool| && Eligible(pool[j], call, keying)
        ensures SentNoLater(pool[index.value], pool[j], call)
        ensures j < index.value ==> !SentNoLater(pool[j], pool[index.value], call)
      {
        EffectiveIsSent(pool[index.value], pool[j], call);
        EffectiveIsSent(pool[j], pool[index.value], call);
      }
    } else if index.Some? {
      FirstIsFirst(pool, call, keying, |pool|);
    }
    hide Earliest, First, Effective, KeyOf, SentNoLater;
  }

  lemma {:induction false} StepTakes(s: State, call: Call, keying: Keying)
    requires call.id !in s.rows
    ensures Takes(s.pool, call, keying, Step(s, call, keying).rows, Step(s, call, keying).pool)
  {
    ChoiceIsBest(s.pool, call, keying);
    hide Best, SameUsage, Choice;
    var index, next := Choice(s.pool, call, keying), Step(s, call, keying);
    if index.Some? {
      assert TakesAt(s.pool, call, keying, next.rows[call.id], next.pool, index.value);
    }
  }

  lemma {:induction false} RowIsGivenOnce(calls: seq<Call>, s: State, keying: Keying, i: nat)
    requires DistinctCalls(calls) && Fresh(calls, s.rows) && i < |calls|
    ensures var id := calls[i].id; var then_, now := Run(calls[..i + 1], s, keying).rows, Run(calls, s, keying).rows;
      (id in then_ <==> id in now) && (id in now ==> then_[id] == now[id])
    decreases |calls|
  {
    if i == |calls| - 1 {
      assert calls[..i + 1] == calls;
    } else {
      var front, last := calls[..|calls| - 1], calls[|calls| - 1];
      assert front[..i + 1] == calls[..i + 1] && front[i] == calls[i];
      RowIsGivenOnce(front, s, keying, i);
      LastIsFresh(calls, s, keying);
      hide Choice;
    }
  }

  /** Taken in turn, each call is given the best record of its usage still in the pool, and the others stay in their order. */
  lemma {:induction false} EachTakesTheBest(calls: seq<Call>, s: State, keying: Keying, i: nat)
    requires DistinctCalls(calls) && Fresh(calls, s.rows) && i < |calls|
    ensures Takes(Run(calls[..i], s, keying).pool, calls[i], keying,
                  Run(calls, s, keying).rows, Run(calls[..i + 1], s, keying).pool)
  {
    var upto := calls[..i + 1];
    assert upto[..i] == calls[..i] && upto[i] == calls[i];
    assert DistinctCalls(upto) && Fresh(upto, s.rows);
    LastIsFresh(upto, s, keying);
    StepTakes(Run(calls[..i], s, keying), calls[i], keying);
    RowIsGivenOnce(calls, s, keying, i);
    hide Best, SameUsage, Step, Fresh, DistinctCalls, TakesAt;
  }

  /** There is one best record: which one a call is given is not open. */
  lemma OneIsBest(pool: seq<Record>, call: Call, keying: Keying, k: nat, l: nat)
    requires k < |pool| && l < |pool| && Best(pool, call, keying, k) && Best(pool, call, keying, l)
    ensures k == l
  {
    hide SameUsage, SentNoLater, InTime;
  }

  /** The calls of one time, in their order. */
  function Of(calls: seq<Call>, at: real): seq<Call> {
    if calls == [] then []
    else Of(calls[..|calls| - 1], at) + (if calls[|calls| - 1].at == at then [calls[|calls| - 1]] else [])
  }

  lemma {:induction false} InsertedIsStable(sorted: seq<Call>, call: Call, at: real)
    requires InOrder(sorted)
    ensures Of(Inserted(sorted, call), at) == Of(sorted + [call], at)
  {
    assert (sorted + [call])[..|sorted|] == sorted;
    if !(sorted == [] || sorted[|sorted| - 1].at <= call.at) {
      var front, last := sorted[..|sorted| - 1], sorted[|sorted| - 1];
      InsertedIsStable(front, call, at);
      assert (front + [call])[..|front|] == front;
      assert (Inserted(front, call) + [last])[..|Inserted(front, call)|] == Inserted(front, call);
      assert last.at != call.at;
    }
  }

  /** Calls received at one time are taken in the order they were logged. */
  lemma {:induction false} ByArrivalIsStable(calls: seq<Call>, at: real)
    ensures Of(ByArrival(calls), at) == Of(calls, at)
  {
    if calls != [] {
      var front, last := calls[..|calls| - 1], calls[|calls| - 1];
      ByArrivalIsStable(front, at);
      ByArrivalSorts(front);
      InsertedIsStable(ByArrival(front), last, at);
      assert (ByArrival(front) + [last])[..|ByArrival(front)|] == ByArrival(front);
    }
  }

  /** A call received at 10 is given the record sent at 4, not the one before it sent at 9. */
  lemma {:induction false} TheEarlierSentIsTaken(u: Usage)
    ensures var call := Call(0, 10.0, u);
      var nine, four := Record(0, Some(9.0), u, false), Record(1, Some(4.0), u, false);
      PairAll([call], State([nine, four], map[]), WholeUsage) == State([nine], map[0 := four])
  {
    var call, pool := Call(0, 10.0, u), [Record(0, Some(9.0), u, false), Record(1, Some(4.0), u, false)];
    var s := State(pool, map[]);
    assert [call][..0] == [] && ByArrival([]) == [];
    assert ByArrival([call]) == [call];
    assert Earliest(pool, call, WholeUsage, 1) == Some(0) && Earliest(pool, call, WholeUsage, 2) == Some(1);
    assert Without(pool, 1) == [pool[0]];
    assert Run([], s, WholeUsage) == s;
    hide Choice, Earliest;
    assert PairAll([call], s, WholeUsage) == Step(s, call, WholeUsage);
    EarlierIsChosen(pool, call);
  }

  lemma EarlierIsChosen(pool: seq<Record>, call: Call)
    requires |pool| == 2 && Earliest(pool, call, WholeUsage, 2) == Some(1)
    ensures Choice(pool, call, WholeUsage) == Some(1)
  {
    hide Earliest;
  }

  // ----- The pairing as it is computed --------------------------------------

  class Pool {
    var left: seq<Record>
    constructor (records: seq<Record>) ensures left == records { left := records; }
  }

  class Rows {
    var held: map<nat, Record>
    constructor () ensures held == map[] { held := map[]; }
  }

  /** The pairing of calls in any order: sorted by arrival, then taken in turn. */
  function PairAll(calls: seq<Call>, s: State, keying: Keying): State {
    Run(ByArrival(calls), s, keying)
  }

  /** Pair each call with a record of its usage, taking the records out of the pool. */
  method Pair(entries: seq<Call>, pool: Pool, keying: Keying, rows: Rows)
    modifies pool, rows
    ensures State(pool.left, rows.held) == PairAll(entries, old(State(pool.left, rows.held)), keying)
  {
    hide ByArrival, Earliest, First, Eligible;
    var sorted := ByArrival(entries);
    ghost var start := State(pool.left, rows.held);
    for n := 0 to |sorted|
      invariant State(pool.left, rows.held) == Run(sorted[..n], start, keying)
    {
      assert sorted[..n + 1][..n] == sorted[..n];
      var entry := sorted[n];
      var index := Choice(pool.left, entry, keying);
      if index.Some? {
        rows.held := rows.held[entry.id := pool.left[index.value]];
        pool.left := Without(pool.left, index.value);
      }
    }
    assert sorted[..|sorted|] == sorted;
  }

  lemma {:induction false} SortedFacts(calls: seq<Call>, rows: map<nat, Record>)
    requires DistinctCalls(calls) && Fresh(calls, rows)
    ensures DistinctCalls(ByArrival(calls)) && Fresh(ByArrival(calls), rows) && InOrder(ByArrival(calls))
    ensures forall c :: c in ByArrival(calls) <==> c in calls
    ensures |ByArrival(calls)| == |calls|
  {
    var sorted := ByArrival(calls);
    ByArrivalSorts(calls);
    DistinctAfterSorting(calls, sorted);
    assert forall c :: c in sorted <==> c in multiset(sorted);
    assert forall c :: c in calls <==> c in multiset(calls);
    assert forall i :: 0 <= i < |sorted| ==> sorted[i] in calls;
    assert |sorted| == |multiset(sorted)| == |multiset(calls)| == |calls|;
  }

  /**
   The pairing finds a causal one-to-one assignment whenever there is one: for
   each usage, its own rows are such an assignment if and only if any exists.
   */
  lemma {:induction false} CausalWheneverPossible(calls: seq<Call>, s: State, keying: Keying, key: seq<int>)
    requires DistinctCalls(calls) && Fresh(calls, s.rows) && DistinctRecords(s.pool)
    ensures CausalAssignment(PairAll(calls, s, keying).rows, calls, s.pool, keying, key)
       <==> exists f :: CausalAssignment(f, calls, s.pool, keying, key)
  {
    if exists f :: CausalAssignment(f, calls, s.pool, keying, key) {
      var f :| CausalAssignment(f, calls, s.pool, keying, key);
      RowsAreCausal(f, calls, s, keying, key);
    }
  }

  lemma {:induction false} RowsAreCausal(
    f: map<nat, Record>, calls: seq<Call>, s: State, keying: Keying, key: seq<int>)
    requires DistinctCalls(calls) && Fresh(calls, s.rows) && DistinctRecords(s.pool)
    requires CausalAssignment(f, calls, s.pool, keying, key)
    ensures CausalAssignment(PairAll(calls, s, keying).rows, calls, s.pool, keying, key)
  {
    hide Run, ByArrival, InOrder, Eligible;
    var sorted := ByArrival(calls);
    SortedFacts(calls, s.rows);
    assert CausalAssignment(f, sorted, s.pool, keying, key);
    GreedyIsCausal(f, sorted, s, keying, key);
    var rows := Run(sorted, s, keying).rows;
    forall c | c in calls && OfKey(c, keying, key)
      ensures c.id in rows && rows[c.id] in s.pool && Eligible(rows[c.id], c, keying)
    {
      var i :| 0 <= i < |sorted| && sorted[i] == c;
      RowsMatchTheirCalls(sorted, s, keying, i);
    }
    forall c, d | c in calls && d in calls && OfKey(c, keying, key) && OfKey(d, keying, key) && c.id != d.id
      ensures rows[c.id] != rows[d.id]
    {
      RowsDiffer(sorted, s, keying, c, d);
    }
  }

  lemma {:induction false} RowsDiffer(calls: seq<Call>, s: State, keying: Keying, c: Call, d: Call)
    requires DistinctCalls(calls) && Fresh(calls, s.rows) && DistinctRecords(s.pool)
    requires c in calls && d in calls && c.id != d.id
    requires c.id in Run(calls, s, keying).rows && d.id in Run(calls, s, keying).rows
    ensures Run(calls, s, keying).rows[c.id] != Run(calls, s, keying).rows[d.id]
  {
    hide Run;
    var i :| 0 <= i < |calls| && calls[i] == c;
    var j :| 0 <= j < |calls| && calls[j] == d;
    if i < j {
      PairingIsOneToOne(calls, s, keying, i, j);
    } else {
      PairingIsOneToOne(calls, s, keying, j, i);
    }
  }
}
