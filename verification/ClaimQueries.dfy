/** How each backend finds the rows a claim may take: one `OR` filter (SQLite), a `UNION ALL` of
 *  per-capability heads (MySQL) and a join with the requested capabilities (PostgreSQL).
 */
module ClaimQueries {
  import opened Jobs
  import opened Ordering

  /** Durable queue order: `available_at`, then `created_at`, then `id`. */
  predicate NotAfter(a: Job, b: Job) {
    || a.availableAt < b.availableAt
    || (a.availableAt == b.availableAt &&
        (a.createdAt < b.createdAt || (a.createdAt == b.createdAt && a.id <= b.id)))
  }

  /** `WHERE` ready at `now` and the capability is one of `capabilities`. */
  function Select(rows: seq<Job>, capabilities: seq<Capability>, now: Time): seq<Job> {
    if rows == [] then []
    else (if Ready(rows[0], now) && rows[0].capability in capabilities then [rows[0]] else [])
         + Select(rows[1..], capabilities, now)
  }

  /** The claim contract: the first `limit` ready rows of the requested capabilities in queue order. */
  function ClaimContract(rows: seq<Job>, capabilities: seq<Capability>, now: Time, limit: nat): seq<Job> {
    Limit(OrderBy(Select(rows, capabilities, now), NotAfter), limit)
  }

  function FirstOccurrences(capabilities: seq<Capability>): (unique: seq<Capability>)
    ensures NoDuplicates(unique)
    ensures forall c :: c in unique <==> c in capabilities
  {
    if capabilities == [] then []
    else
      var last := capabilities[|capabilities| - 1];
      var before := FirstOccurrences(capabilities[..|capabilities| - 1]);
      assert capabilities == capabilities[..|capabilities| - 1] + [last];
      if last in before then before else before + [last]
  }

  method UniqueCapabilities(capabilities: seq<Capability>) returns (unique: seq<Capability>)
    ensures unique == FirstOccurrences(capabilities)
  {
    unique := [];
    var seen: set<Capability> := {};
    for i := 0 to |capabilities|
      invariant unique == FirstOccurrences(capabilities[..i])
      invariant seen == ToSet(unique)
    {
      var capability := capabilities[i];
      assert capabilities[..i + 1][..i] == capabilities[..i];
      if capability !in seen {
        seen := seen + {capability};
        unique := unique + [capability];
      }
    }
    assert capabilities[..|capabilities|] == capabilities;
  }

  function UnionAll(rows: seq<Job>, capabilities: seq<Capability>, now: Time, limit: nat): seq<Job> {
    if capabilities == [] then []
    else Limit(OrderBy(Select(rows, [capabilities[0]], now), NotAfter), limit)
         + UnionAll(rows, capabilities[1..], now, limit)
  }

  function MySqlCandidates(rows: seq<Job>, capabilities: seq<Capability>, now: Time, limit: nat): seq<Job> {
    Limit(OrderBy(UnionAll(rows, FirstOccurrences(capabilities), now, limit), NotAfter), limit)
  }

  /** `jobs JOIN requested`: a row appears once per matching request. */
  function Join(rows: seq<Job>, capabilities: seq<Capability>, now: Time): seq<Job> {
    if capabilities == [] then []
    else Select(rows, [capabilities[0]], now) + Join(rows, capabilities[1..], now)
  }

  function PgCandidates(rows: seq<Job>, capabilities: seq<Capability>, now: Time, limit: nat): seq<Job> {
    Limit(OrderBy(Join(rows, capabilities, now), NotAfter), limit)
  }

  lemma QueueOrderIsTotal()
    ensures TotalPreorder(NotAfter)
  {
  }

  /** Rows drawn from a table are never tied. */
  lemma NoTiesInTable(rows: seq<Job>, s: seq<Job>)
    requires PrimaryKey(rows)
    requires forall x :: x in s ==> x in rows
    ensures NoTies(s, NotAfter)
  {
  }

  lemma {:induction false} SelectCount(rows: seq<Job>, capabilities: seq<Capability>, now: Time, x: Job)
    ensures multiset(Select(rows, capabilities, now))[x]
         == if Ready(x, now) && x.capability in capabilities then multiset(rows)[x] else 0
  {
    if rows != [] {
      HeadTail(rows);
      SelectCount(rows[1..], capabilities, now, x);
    }
  }

  lemma SelectWithin(rows: seq<Job>, capabilities: seq<Capability>, now: Time)
    ensures forall x :: x in Select(rows, capabilities, now)
                   <==> x in rows && Ready(x, now) && x.capability in capabilities
  {
    forall x ensures x in Select(rows, capabilities, now)
                <==> x in rows && Ready(x, now) && x.capability in capabilities
    {
      SelectCount(rows, capabilities, now, x);
      assert x in rows <==> x in multiset(rows);
      assert x in Select(rows, capabilities, now) <==> x in multiset(Select(rows, capabilities, now));
    }
  }

  /** The row is asked for, its time has come and nobody holds it. */
  predicate Due(job: Job, capabilities: seq<Capability>, now: Time) {
    job.capability in capabilities && job.availableAt <= now && (job.reservedAt.Some? ==> job.reservedAt.value <= now)
  }

  /** `a` has been due for at least as long as `b`; ties are broken by creation, then by identifier. */
  predicate NoYounger(a: Job, b: Job) {
    && a.availableAt <= b.availableAt
    && (a.availableAt == b.availableAt ==> a.createdAt <= b.createdAt)
    && (a.availableAt == b.availableAt && a.createdAt == b.createdAt ==> a.id <= b.id)
  }

  /** What the contract promises: only due rows, the oldest first, and none passed over for a younger one. */
  lemma ContractIsFair(rows: seq<Job>, capabilities: seq<Capability>, now: Time, limit: nat)
    ensures var picked := ClaimContract(rows, capabilities, now, limit);
      && |picked| <= limit
      && (forall x :: x in picked ==> x in rows && Due(x, capabilities, now))
      && (forall i, j :: 0 <= i < j < |picked| ==> NoYounger(picked[i], picked[j]))
      && (forall y :: y in rows && Due(y, capabilities, now) && y !in picked ==>
            |picked| == limit && forall x :: x in picked ==> NoYounger(x, y))
  {
    var selected := Select(rows, capabilities, now);
    var ordered, picked := OrderBy(selected, NotAfter), ClaimContract(rows, capabilities, now, limit);
    QueueOrderIsTotal();
    SelectWithin(rows, capabilities, now);
    OrderBySorts(selected, NotAfter);
    forall x | x in picked ensures x in ordered { }
    forall x, y | x in picked && y in ordered && y !in picked ensures NoYounger(x, y) {
      var i :| 0 <= i < |picked| && picked[i] == x;
      var j :| 0 <= j < |ordered| && ordered[j] == y;
      assert j >= |picked| && ordered[i] == x;
    }
  }

  /** Splitting a capability off a list without duplicates splits the rows. */
  lemma SelectSplit(rows: seq<Job>, capabilities: seq<Capability>, now: Time)
    requires capabilities != [] && capabilities[0] !in capabilities[1..]
    ensures multiset(Select(rows, capabilities, now))
         == multiset(Select(rows, [capabilities[0]], now) + Select(rows, capabilities[1..], now))
  {
    var whole := Select(rows, capabilities, now);
    var parts := Select(rows, [capabilities[0]], now) + Select(rows, capabilities[1..], now);
    assert capabilities == [capabilities[0]] + capabilities[1..];
    forall x ensures multiset(whole)[x] == multiset(parts)[x] {
      SelectCount(rows, capabilities, now, x);
      SelectCount(rows, [capabilities[0]], now, x);
      SelectCount(rows, capabilities[1..], now, x);
    }
  }

  lemma {:induction false} UnionAllWithin(rows: seq<Job>, capabilities: seq<Capability>, now: Time, limit: nat)
    ensures forall x :: x in UnionAll(rows, capabilities, now, limit) ==> x in rows
  {
    if capabilities != [] {
      UnionAllWithin(rows, capabilities[1..], now, limit);
      SelectWithin(rows, [capabilities[0]], now);
      QueueOrderIsTotal();
      OrderBySorts(Select(rows, [capabilities[0]], now), NotAfter);
    }
  }

  /** The first `k` of a concatenation, from the first `k` of each part. */
  lemma TopOfConcat(rows: seq<Job>, a: seq<Job>, b: seq<Job>, b': seq<Job>, k: nat)
    requires PrimaryKey(rows)
    requires forall x :: x in a + b + b' ==> x in rows
    requires Limit(OrderBy(b, NotAfter), k) == Limit(OrderBy(b', NotAfter), k)
    ensures Limit(OrderBy(Limit(OrderBy(a, NotAfter), k) + b, NotAfter), k)
         == Limit(OrderBy(a + b', NotAfter), k)
  {
    QueueOrderIsTotal();
    var oa, ob, ob' := OrderBy(a, NotAfter), OrderBy(b, NotAfter), OrderBy(b', NotAfter);
    OrderBySorts(a, NotAfter);
    var la := Limit(oa, k);
    NoTiesInTable(rows, la + b);
    NoTiesInTable(rows, la);
    NoTiesInTable(rows, a + b');
    OrderByConcat(la, b, NotAfter);
    OrderBySorted(la, NotAfter);
    OrderByConcat(a, b', NotAfter);
    calc {
      Limit(Merge(la, ob, NotAfter), k);
      { LimitMerge(la, ob, NotAfter, k, k, k); }
      Limit(Merge(Limit(la, k), Limit(ob', k), NotAfter), k);
      { assert Limit(la, k) == la; LimitMerge(oa, ob', NotAfter, k, k, k); }
      Limit(Merge(oa, ob', NotAfter), k);
    }
  }

  lemma SelectNone(rows: seq<Job>, now: Time)
    ensures Select(rows, [], now) == []
  {
  }

  lemma {:induction false} UnionAllIsContract(rows: seq<Job>, capabilities: seq<Capability>, now: Time, limit: nat)
    requires PrimaryKey(rows) && NoDuplicates(capabilities)
    ensures Limit(OrderBy(UnionAll(rows, capabilities, now, limit), NotAfter), limit)
         == ClaimContract(rows, capabilities, now, limit)
  {
    if capabilities == [] {
      SelectNone(rows, now);
    } else {
      var head, tail := [capabilities[0]], capabilities[1..];
      UnionAllIsContract(rows, tail, now, limit);
      UnionAllWithin(rows, tail, now, limit);
      SelectWithin(rows, head, now);
      SelectWithin(rows, tail, now);
      TopOfConcat(rows, Select(rows, head, now), UnionAll(rows, tail, now, limit),
                  Select(rows, tail, now), limit);
      SelectSplit(rows, capabilities, now);
      NoTiesInTable(rows, Select(rows, head, now) + Select(rows, tail, now));
      QueueOrderIsTotal();
      OrderByPermutation(Select(rows, head, now) + Select(rows, tail, now),
                         Select(rows, capabilities, now), NotAfter);
    }
  }

  lemma SelectSameCapabilities(rows: seq<Job>, a: seq<Capability>, b: seq<Capability>, now: Time)
    requires forall c :: c in a <==> c in b
    ensures Select(rows, a, now) == Select(rows, b, now)
  {
  }

  /** The MySQL rewrite keeps the meaning of the claim: for any table, capability list (repeated
   *  entries included), instant and limit it finds the contract's rows in the contract's order.
   */
  lemma MySqlMeetsContract(rows: seq<Job>, capabilities: seq<Capability>, now: Time, limit: nat)
    requires PrimaryKey(rows)
    ensures MySqlCandidates(rows, capabilities, now, limit) == ClaimContract(rows, capabilities, now, limit)
  {
    UnionAllIsContract(rows, FirstOccurrences(capabilities), now, limit);
    SelectSameCapabilities(rows, FirstOccurrences(capabilities), capabilities, now);
  }

  lemma {:induction false} JoinIsSelect(rows: seq<Job>, capabilities: seq<Capability>, now: Time)
    requires NoDuplicates(capabilities)
    ensures multiset(Join(rows, capabilities, now)) == multiset(Select(rows, capabilities, now))
  {
    if capabilities == [] {
      SelectNone(rows, now);
    } else {
      JoinIsSelect(rows, capabilities[1..], now);
      SelectSplit(rows, capabilities, now);
    }
  }

  ghost predicate PgAlwaysMeetsContract(capabilities: seq<Capability>) {
    forall rows, now, limit :: PrimaryKey(rows) ==>
      ToSet(PgCandidates(rows, capabilities, now, limit)) == ToSet(ClaimContract(rows, capabilities, now, limit))
  }

  lemma PgMeetsContract(rows: seq<Job>, capabilities: seq<Capability>, now: Time, limit: nat)
    requires PrimaryKey(rows) && NoDuplicates(capabilities)
    ensures PgCandidates(rows, capabilities, now, limit) == ClaimContract(rows, capabilities, now, limit)
  {
    JoinIsSelect(rows, capabilities, now);
    SelectWithin(rows, capabilities, now);
    NoTiesInTable(rows, Select(rows, capabilities, now));
    QueueOrderIsTotal();
    OrderByPermutation(Select(rows, capabilities, now), Join(rows, capabilities, now), NotAfter);
  }

  lemma {:induction false} JoinHas(rows: seq<Job>, capabilities: seq<Capability>, now: Time, x: Job, i: nat)
    requires x in rows && Ready(x, now)
    requires i < |capabilities| && capabilities[i] == x.capability
    ensures multiset(Join(rows, capabilities, now))[x] >= 1
  {
    if i == 0 {
      SelectWithin(rows, [capabilities[0]], now);
      assert x in Select(rows, [capabilities[0]], now);
    } else {
      JoinHas(rows, capabilities[1..], now, x, i - 1);
    }
  }

  lemma {:induction false} JoinHasTwice(rows: seq<Job>, capabilities: seq<Capability>, now: Time, x: Job, i: nat,
                                        j: nat)
    requires x in rows && Ready(x, now)
    requires i < j < |capabilities| && capabilities[i] == capabilities[j] == x.capability
    ensures multiset(Join(rows, capabilities, now))[x] >= 2
  {
    if i == 0 {
      SelectWithin(rows, [capabilities[0]], now);
      assert x in Select(rows, [capabilities[0]], now);
      JoinHas(rows, capabilities[1..], now, x, j - 1);
    } else {
      JoinHasTwice(rows, capabilities[1..], now, x, i - 1, j - 1);
    }
  }

  lemma {:induction false} JoinWithin(rows: seq<Job>, capabilities: seq<Capability>, now: Time)
    ensures forall x :: x in Join(rows, capabilities, now) ==> x in rows
  {
    if capabilities != [] {
      JoinWithin(rows, capabilities[1..], now);
      SelectWithin(rows, [capabilities[0]], now);
    }
  }

  /** A row listed twice fills the first two places when nothing precedes it. */
  lemma TwiceFirst(s: seq<Job>, first: Job, second: Job)
    requires Sorted(s, NotAfter) && multiset(s)[first] >= 2
    requires forall x :: x in s ==> x == first || x == second
    requires NotAfter(first, second) && !NotAfter(second, first)
    ensures |s| >= 2 && s[0] == s[1] == first
  {
    assert first in multiset(s);
    HeadTail(s);
    assert first in multiset(s[1..]);
    var k :| 0 <= k < |s[1..]| && s[1..][k] == first;
    assert s[0] in s && s[1] in s && s[k + 1] == first;
  }

  /** Two ready rows of one capability, the smallest table on which a repeated request matters. */
  function TwoRows(capability: Capability): seq<Job> {
    [Job(1, "queue", capability, "", 0, None, NIL_TOKEN, None, 1, 1),
     Job(2, "queue", capability, "", 0, None, NIL_TOKEN, None, 1, 1)]
  }

  lemma TwoRowsContract(capability: Capability, capabilities: seq<Capability>)
    requires capability in capabilities
    ensures PrimaryKey(TwoRows(capability))
    ensures ClaimContract(TwoRows(capability), capabilities, 1, 2) == TwoRows(capability)
  {
    var rows := TwoRows(capability);
    assert rows[1..] == [rows[1]] && rows[1..][1..] == [];
    assert Select(rows[1..], capabilities, 1) == rows[1..];
    QueueOrderIsTotal();
    NoTiesInTable(rows, rows);
    OrderBySorted(rows, NotAfter);
  }

  /** A repeated capability makes the join spend the limit on copies of one row. */
  lemma PgRepeatedCapability(capabilities: seq<Capability>, i: nat, j: nat)
    requires i < j < |capabilities| && capabilities[i] == capabilities[j]
    ensures TwoRows(capabilities[i])[1] !in PgCandidates(TwoRows(capabilities[i]), capabilities, 1, 2)
  {
    var rows := TwoRows(capabilities[i]);
    var joined := Join(rows, capabilities, 1);
    QueueOrderIsTotal();
    JoinHasTwice(rows, capabilities, 1, rows[0], i, j);
    JoinWithin(rows, capabilities, 1);
    OrderBySorts(joined, NotAfter);
    TwiceFirst(OrderBy(joined, NotAfter), rows[0], rows[1]);
  }

  /** The PostgreSQL join claims the contract's rows on every table exactly when the caller lists
   *  each capability once, as the service's registry does.
   */
  lemma PgMeetsContractIffDistinct(capabilities: seq<Capability>)
    ensures PgAlwaysMeetsContract(capabilities) <==> NoDuplicates(capabilities)
  {
    if NoDuplicates(capabilities) {
      forall rows, now, limit: nat | PrimaryKey(rows)
        ensures ToSet(PgCandidates(rows, capabilities, now, limit))
             == ToSet(ClaimContract(rows, capabilities, now, limit))
      {
        PgMeetsContract(rows, capabilities, now, limit);
      }
    } else {
      var i, j :| 0 <= i < j < |capabilities| && capabilities[i] == capabilities[j];
      PgRepeatedCapability(capabilities, i, j);
      TwoRowsContract(capabilities[i], capabilities);
      var rows := TwoRows(capabilities[i]);
      assert rows[1] in ToSet(ClaimContract(rows, capabilities, 1, 2));
      assert rows[1] !in ToSet(PgCandidates(rows, capabilities, 1, 2));
    }
  }
}
