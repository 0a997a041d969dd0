/** What a quiet audit says of every call and every record, field by field. */
module AuditByRecords {
  import opened Pairing
  import opened UsageAudit
  import Sets

  /** The record says nothing that makes it later than the call. */
  ghost predicate OnTime(r: Record, c: Call) {
    r.sent.None? || r.sent.value <= c.at
  }

  /** A record of no failed attempt with the call's whole usage, on time. */
  ghost predicate PaysFor(r: Record, c: Call) {
    && !r.failedAttempt && OnTime(r, c)
    && r.usage.input == c.usage.input && r.usage.output == c.usage.output && r.usage.cached == c.usage.cached
  }

  /** A record of a failed attempt with the broken stream's prompt, on time. */
  ghost predicate PaysForPrompt(r: Record, c: Call) {
    && r.failedAttempt && OnTime(r, c) && r.usage.input == c.usage.input && r.usage.cached == c.usage.cached
  }

  ghost predicate OneToOne(calls: seq<Call>, given: map<nat, Record>) {
    && (forall c | c in calls :: c.id in given)
    && forall c, d | c in calls && d in calls && c.id != d.id :: given[c.id] != given[d.id]
  }

  ghost predicate GivenToOne(calls: seq<Call>, given: map<nat, Record>, r: Record) {
    exists c :: c in calls && c.id in given && given[c.id] == r
  }

  /** Every call has a record that pays for it, each its own, and no record is without a call. */
  ghost predicate Balances(billed: seq<Call>, broken: seq<Call>, records: seq<Record>, given: map<nat, Record>) {
    && OneToOne(billed + broken, given)
    && (forall c | c in billed :: given[c.id] in records && PaysFor(given[c.id], c))
    && (forall c | c in broken :: given[c.id] in records && PaysForPrompt(given[c.id], c))
    && forall r | r in records :: GivenToOne(billed + broken, given, r)
  }

  lemma {:induction false} FilteredAre(records: seq<Record>)
    ensures forall r :: r in Answered(records) <==> r in records && !r.failedAttempt
    ensures forall r :: r in Failed(records) <==> r in records && r.failedAttempt
  {
    if records != [] {
      var front, last := records[..|records| - 1], records[|records| - 1];
      FilteredAre(front);
      assert forall r :: r in records <==> r in front || r == last;
    }
  }

  lemma {:induction false} ImageSize(calls: seq<Call>, f: map<nat, Record>, image: set<Record>)
    requires DistinctCalls(calls) && OneToOne(calls, f) && image == set c | c in calls :: f[c.id]
    ensures |image| == |calls|
  {
    if calls != [] {
      var front, last := calls[..|calls| - 1], calls[|calls| - 1];
      assert forall c :: c in calls <==> c in front || c == last;
      assert forall c | c in front :: c.id != last.id;
      ImageSize(front, f, image - {f[last.id]});
    }
  }

  lemma {:induction false} RecordSetSize(pool: seq<Record>, all: set<Record>)
    requires DistinctRecords(pool) && all == set r | r in pool
    ensures |all| == |pool|
  {
    if pool != [] {
      var front, last := pool[..|pool| - 1], pool[|pool| - 1];
      assert forall r :: r in pool <==> r in front || r == last;
      RecordSetSize(front, all - {last});
    }
  }

  /** One to one into the pool, the calls are as many as the records exactly when no record is without a call. */
  lemma {:induction false} AsManyExactly(calls: seq<Call>, f: map<nat, Record>, pool: seq<Record>)
    requires DistinctCalls(calls) && DistinctRecords(pool) && OneToOne(calls, f) && forall c | c in calls :: f[c.id] in pool
    ensures |calls| == |pool| <==> forall r | r in pool :: GivenToOne(calls, f, r)
  {
    var image, all := set c | c in calls :: f[c.id], set r | r in pool;
    ImageSize(calls, f, image);
    RecordSetSize(pool, all);
    assert image <= all;
    if |image| == |all| {
      SameSet(image, all);
      forall r | r in pool ensures GivenToOne(calls, f, r) {
        assert r in image;
        var c :| c in calls && f[c.id] == r;
      }
    }
    if forall r | r in pool :: GivenToOne(calls, f, r) {
      assert forall r :: r in all ==> r in image;
      assert image == all;
    }
  }

  lemma {:induction false} SameSet(small: set<Record>, large: set<Record>)
    requires small <= large && |small| == |large|
    ensures small == large
  {
    if r :| r in large && r !in small {
      Sets.SubsetSize(small, large - {r});
    }
  }

  lemma PaysIs(r: Record, c: Call)
    ensures PaysFor(r, c) <==> !r.failedAttempt && Candidate(r, c, WholeUsage) && !Late(r, c)
    ensures PaysForPrompt(r, c) <==> r.failedAttempt && Candidate(r, c, PromptUsage) && !Late(r, c)
  {
    var u, v := r.usage, c.usage;
    assert [u.input, u.output, u.cached] == [v.input, v.output, v.cached]
      <==> u.input == v.input && u.output == v.output && u.cached == v.cached by {
      assert [u.input, u.output, u.cached] == [v.input, v.output, v.cached] ==>
        [u.input, u.output, u.cached][0] == [v.input, v.output, v.cached][0]
        && [u.input, u.output, u.cached][1] == [v.input, v.output, v.cached][1]
        && [u.input, u.output, u.cached][2] == [v.input, v.output, v.cached][2];
    }
    assert [u.input, u.cached] == [v.input, v.cached] <==> u.input == v.input && u.cached == v.cached by {
      assert [u.input, u.cached] == [v.input, v.cached] ==>
        [u.input, u.cached][0] == [v.input, v.cached][0] && [u.input, u.cached][1] == [v.input, v.cached][1];
    }
  }

  ghost predicate Pays(r: Record, c: Call, failed: bool) {
    if failed then PaysForPrompt(r, c) else PaysFor(r, c)
  }

  /** The balance of the answered calls alone, or of the broken streams alone. */
  ghost predicate Side(calls: seq<Call>, records: seq<Record>, failed: bool, given: map<nat, Record>) {
    && OneToOne(calls, given)
    && (forall c | c in calls :: given[c.id] in records && Pays(given[c.id], c, failed))
    && forall r | r in records && r.failedAttempt == failed :: GivenToOne(calls, given, r)
  }

  lemma {:induction false} SideIs(calls: seq<Call>, records: seq<Record>, failed: bool, given: map<nat, Record>)
    requires DistinctCalls(calls) && DistinctRecords(records)
    ensures Side(calls, records, failed, given) <==>
      Accounts(given, calls, if failed then Failed(records) else Answered(records), if failed then PromptUsage else WholeUsage)
  {
    FilteredAre(records);
    FilteredStaysDistinct(records);
    var pool := if failed then Failed(records) else Answered(records);
    var keying := if failed then PromptUsage else WholeUsage;
    forall r, c ensures Pays(r, c, failed) <==> r.failedAttempt == failed && Candidate(r, c, keying) && !Late(r, c) {
      PaysIs(r, c);
    }
    assert forall r :: r in pool <==> r in records && r.failedAttempt == failed;
    hide Pays, Candidate, Late, Answered, Failed, DistinctCalls, DistinctRecords, GivenToOne;
    if OneToOne(calls, given) && forall c | c in calls :: given[c.id] in pool {
      AsManyExactly(calls, given, pool);
    }
  }

  lemma {:induction false} SidesOfBalance(billed: seq<Call>, broken: seq<Call>, records: seq<Record>, given: map<nat, Record>)
    requires Balances(billed, broken, records, given)
    ensures Side(billed, records, false, given) && Side(broken, records, true, given)
  {
    assert forall c :: c in billed || c in broken ==> c in billed + broken;
    assert forall r, c :: (PaysFor(r, c) ==> !r.failedAttempt) && (PaysForPrompt(r, c) ==> r.failedAttempt);
    hide PaysFor, PaysForPrompt;
    forall r | r in records
      ensures !r.failedAttempt ==> GivenToOne(billed, given, r)
      ensures r.failedAttempt ==> GivenToOne(broken, given, r)
    {
      assert GivenToOne(billed + broken, given, r);
    }
  }

  ghost function Ids(calls: seq<Call>): set<nat> {
    set c | c in calls :: c.id
  }

  /** The records of the first calls, and for all others those of the second. */
  ghost function Joined(first: set<nat>, f: map<nat, Record>, g: map<nat, Record>): map<nat, Record> {
    g + map id | id in f && id in first :: f[id]
  }

  lemma {:induction false} JoinedIs(billed: seq<Call>, broken: seq<Call>, f: map<nat, Record>, g: map<nat, Record>)
    requires OneToOne(billed, f) && OneToOne(broken, g) && forall c, d | c in billed && d in broken :: c.id != d.id
    ensures var given := Joined(Ids(billed), f, g);
      && (forall c | c in billed :: c.id in given && given[c.id] == f[c.id])
      && (forall c | c in broken :: c.id in given && given[c.id] == g[c.id])
  {
    forall c | c in billed ensures c.id in Ids(billed) {}
  }

  lemma {:induction false} BalanceOfSides(
    billed: seq<Call>, broken: seq<Call>, records: seq<Record>, f: map<nat, Record>, g: map<nat, Record>, given: map<nat, Record>)
    requires Side(billed, records, false, f) && Side(broken, records, true, g)
    requires forall c | c in billed :: c.id in given && given[c.id] == f[c.id]
    requires forall c | c in broken :: c.id in given && given[c.id] == g[c.id]
    ensures Balances(billed, broken, records, given)
  {
    assert forall c :: c in billed + broken <==> c in billed || c in broken;
    assert forall r, c :: (PaysFor(r, c) ==> !r.failedAttempt) && (PaysForPrompt(r, c) ==> r.failedAttempt);
    hide PaysFor, PaysForPrompt;
    forall r | r in records ensures GivenToOne(billed + broken, given, r) {
      if r.failedAttempt {
        assert GivenToOne(broken, g, r);
      } else {
        assert GivenToOne(billed, f, r);
      }
    }
    hide GivenToOne;
    assert forall c, d | c in billed && d in broken :: given[c.id] != given[d.id];
  }

  /**
   From time zero on, the audit reports nothing exactly when every answered call has a
   record of its usage and every broken stream a failed attempt's of its prompt, on time,
   each its own, and no record is left.
   */
  lemma {:induction false} QuietExactly(billed: seq<Call>, broken: seq<Call>, records: seq<Record>)
    requires DistinctCalls(billed + broken) && DistinctRecords(records)
    requires forall c | c in billed + broken :: c.at >= 0.0
    ensures AuditProblems(billed, broken, records) == [] <==> exists given :: Balances(billed, broken, records, given)
  {
    assert Clocked(billed + broken, records);
    DistinctParts(billed, broken);
    hide AuditProblems, Balances, Clocked, DistinctCalls, DistinctRecords, Accounts, Side, OneToOne, Joined, Ids, Answered, Failed;
    AuditIsExact(billed, broken, records);
    if Reconcilable(billed, broken, records) {
      var f :| Accounts(f, billed, Answered(records), WholeUsage);
      var g :| Accounts(g, broken, Failed(records), PromptUsage);
      SideIs(billed, records, false, f);
      SideIs(broken, records, true, g);
      SideIsOneToOne(billed, records, false, f);
      SideIsOneToOne(broken, records, true, g);
      JoinedIs(billed, broken, f, g);
      BalanceOfSides(billed, broken, records, f, g, Joined(Ids(billed), f, g));
    }
    if given :| Balances(billed, broken, records, given) {
      SidesOfBalance(billed, broken, records, given);
      SideIs(billed, records, false, given);
      SideIs(broken, records, true, given);
    }
  }

  lemma SideIsOneToOne(calls: seq<Call>, records: seq<Record>, failed: bool, given: map<nat, Record>)
    requires Side(calls, records, failed, given)
    ensures OneToOne(calls, given)
  {}
}
