/** The in-memory repository of the example application: a slice edited in place under a mutex.
 *  Its loops are proved against row-by-row specifications, and those against the protocol step.
 */
module StubRepo {
  import opened Jobs
  import opened RowHistory
  import opened JobTable

  // ----- the slice as a table

  ghost function Table(data: seq<Job>): (rows: map<JobId, Job>)
    requires PrimaryKey(data)
    ensures forall i :: 0 <= i < |data| ==> data[i].id in rows && rows[data[i].id] == data[i]
    ensures forall id :: id in rows ==> exists i :: 0 <= i < |data| && data[i].id == id
  {
    map i | 0 <= i < |data| :: data[i].id := data[i]
  }

  lemma TableIs(data: seq<Job>, rows: map<JobId, Job>)
    requires PrimaryKey(data)
    requires forall i :: 0 <= i < |data| ==> data[i].id in rows && rows[data[i].id] == data[i]
    requires forall id :: id in rows ==> exists i :: 0 <= i < |data| && data[i].id == id
    ensures Table(data) == rows
  {
    assert Table(data).Keys == rows.Keys;
  }

  // ----- row-by-row specifications of the loops

  /** The rows whose predicate holds are rewritten, all others stay. */
  function Rewrite(data: seq<Job>, hit: Job -> bool, write: Job -> Job): (r: seq<Job>)
    ensures |r| == |data|
    ensures forall i :: 0 <= i < |data| ==> r[i] == if hit(data[i]) then write(data[i]) else data[i]
  {
    seq(|data|, i requires 0 <= i < |data| => if hit(data[i]) then write(data[i]) else data[i])
  }

  function Hits(data: seq<Job>, hit: Job -> bool): nat {
    if data == [] then 0
    else Hits(data[..|data| - 1], hit) + (if hit(data[|data| - 1]) then 1 else 0)
  }

  function Leased(wanted: set<JobId>, token: LeaseToken, now: Time): Job -> bool {
    (job: Job) => job.id in wanted && LeaseLive(job, token, now)
  }

  function Refundable(wanted: set<JobId>, token: LeaseToken, now: Time): Job -> bool {
    (job: Job) => job.id in wanted && LeaseLive(job, token, now) && job.attempts >= 1
  }

  function ExtendTo(until: Time): Job -> Job {
    (job: Job) => job.(reservedAt := Some(until))
  }

  function Refund(): Job -> Job {
    (job: Job) => Unreserved(job).(attempts := job.attempts - 1)
  }

  function RescheduleTo(at: Time): Job -> Job {
    (job: Job) => Unreserved(job).(availableAt := at)
  }

  /** The rows whose predicate fails, in order. */
  function Remaining(data: seq<Job>, hit: Job -> bool): seq<Job> {
    if data == [] then []
    else Remaining(data[..|data| - 1], hit) + (if hit(data[|data| - 1]) then [] else [data[|data| - 1]])
  }

  ghost predicate HitsNone(data: seq<Job>, hit: Job -> bool) {
    forall job :: job in data ==> !hit(job)
  }

  lemma RemainingNext(data: seq<Job>, job: Job, hit: Job -> bool)
    ensures Remaining(data + [job], hit) == Remaining(data, hit) + if hit(job) then [] else [job]
    ensures Hits(data + [job], hit) == Hits(data, hit) + if hit(job) then 1 else 0
  {
    assert (data + [job])[..|data|] == data;
  }

  lemma {:induction false} NoneRemoved(data: seq<Job>, hit: Job -> bool)
    requires HitsNone(data, hit)
    ensures Remaining(data, hit) == data && Hits(data, hit) == 0
  {
    if data != [] {
      var before, last := data[..|data| - 1], data[|data| - 1];
      assert data == before + [last];
      NoneRemoved(before, hit);
      RemainingNext(before, last, hit);
    }
  }

  lemma NoHits(data: seq<Job>, hit: Job -> bool)
    requires forall i :: 0 <= i < |data| ==> !hit(data[i])
    ensures Remaining(data, hit) == data && Hits(data, hit) == 0
  {
    NoneRemoved(data, hit);
  }

  /** With a primary key the first row found is the only one. */
  lemma {:induction false} OneHit(data: seq<Job>, hit: Job -> bool, k: nat)
    requires k < |data| && hit(data[k])
    requires forall i :: 0 <= i < |data| && i != k ==> !hit(data[i])
    ensures Remaining(data, hit) == data[..k] + data[k + 1..] && Hits(data, hit) == 1
  {
    var n := |data| - 1;
    if k == n {
      NoHits(data[..n], hit);
    } else {
      OneHit(data[..n], hit, k);
      assert data[..n][..k] == data[..k];
      assert data[k + 1..] == data[..n][k + 1..] + [data[n]];
    }
  }

  // ----- claiming

  /** The order of the claim: `AvailableAt`, then `CreatedAt`. Rows equal in both are tied. */
  predicate Earlier(a: Job, b: Job) {
    a.availableAt < b.availableAt || (a.availableAt == b.availableAt && a.createdAt < b.createdAt)
  }

  predicate Claimable(job: Job, capabilities: set<Capability>, now: Time) {
    job.capability in capabilities && Ready(job, now)
  }

  /** `picked` are positions of claimable rows in claim order; nothing left out could go before them. */
  ghost predicate EarliestClaimable(data: seq<Job>, capabilities: set<Capability>, now: Time, limit: nat,
                                    picked: seq<nat>) {
    && NoDuplicates(picked) && |picked| <= limit
    && (forall k :: 0 <= k < |picked| ==> picked[k] < |data| && Claimable(data[picked[k]], capabilities, now))
    && (forall k, m :: 0 <= k < m < |picked| ==> !Earlier(data[picked[m]], data[picked[k]]))
    && forall i :: 0 <= i < |data| && Claimable(data[i], capabilities, now) && i !in picked ==>
         |picked| == limit && forall k :: 0 <= k < |picked| ==> !Earlier(data[i], data[picked[k]])
  }

  datatype ClaimResult = InvalidToken | InvalidLimit | InvalidCapability | NoJobs | Jobs(jobs: seq<Job>)

  function Picked(data: seq<Job>, picked: seq<nat>): (ids: set<JobId>)
    requires forall k :: 0 <= k < |picked| ==> picked[k] < |data|
  {
    set k | 0 <= k < |picked| :: data[picked[k]].id
  }

  function Within(ids: set<JobId>): Job -> bool {
    (job: Job) => job.id in ids
  }

  function ReserveWith(token: LeaseToken, until: Time): Job -> Job {
    (job: Job) => Reserved(job, token, until)
  }

  ghost predicate SortedPositions(data: seq<Job>, s: seq<nat>) {
    && (forall k :: 0 <= k < |s| ==> s[k] < |data|)
    && forall k, m :: 0 <= k < m < |s| ==> !Earlier(data[s[m]], data[s[k]])
  }

  lemma InsertKeepsOrder(data: seq<Job>, s: seq<nat>, x: nat, k: nat)
    requires SortedPositions(data, s) && x < |data| && k <= |s|
    requires k > 0 ==> !Earlier(data[x], data[s[k - 1]])
    requires forall m :: k <= m < |s| ==> Earlier(data[x], data[s[m]])
    ensures SortedPositions(data, s[..k] + [x] + s[k..])
  {
    forall m | 0 <= m < k ensures !Earlier(data[x], data[s[m]]) {
      if m < k - 1 { assert !Earlier(data[s[k - 1]], data[s[m]]); }
    }
  }

  lemma InsertKeepsElements(s: seq<nat>, x: nat, k: nat)
    requires NoDuplicates(s) && x !in s && k <= |s|
    ensures NoDuplicates(s[..k] + [x] + s[k..])
    ensures forall y :: y in s[..k] + [x] + s[k..] <==> y in s || y == x
  {
    assert s == s[..k] + s[k..];
  }

  /** Adds a position behind every position it is not earlier than. */
  method InsertPosition(data: seq<Job>, s: seq<nat>, x: nat) returns (r: seq<nat>)
    requires SortedPositions(data, s) && NoDuplicates(s) && x < |data| && x !in s
    ensures SortedPositions(data, r) && NoDuplicates(r)
    ensures forall y :: y in r <==> y in s || y == x
  {
    var k := |s|;
    while k > 0 && Earlier(data[x], data[s[k - 1]])
      invariant 0 <= k <= |s|
      invariant forall m :: k <= m < |s| ==> Earlier(data[x], data[s[m]])
    {
      k := k - 1;
    }
    InsertKeepsOrder(data, s, x, k);
    InsertKeepsElements(s, x, k);
    r := s[..k] + [x] + s[k..];
  }

  method SupportedCapabilities(capabilities: seq<Capability>) returns (supported: set<Capability>, valid: bool)
    ensures valid <==> forall i :: 0 <= i < |capabilities| ==> capabilities[i].version > 0
    ensures valid ==> supported == ToSet(capabilities)
  {
    supported := {};
    for i := 0 to |capabilities|
      invariant supported == ToSet(capabilities[..i])
      invariant forall k :: 0 <= k < i ==> capabilities[k].version > 0
    {
      if capabilities[i].version <= 0 { return supported, false; }
      assert capabilities[..i + 1] == capabilities[..i] + [capabilities[i]];
      supported := supported + {capabilities[i]};
    }
    assert capabilities[..|capabilities|] == capabilities;
    return supported, true;
  }

  /** The first `limit` of all claimable positions in claim order leave out nothing earlier. */
  lemma {:induction false} CutIsEarliest(data: seq<Job>, capabilities: set<Capability>, now: Time, limit: nat,
                                         indices: seq<nat>)
    requires SortedPositions(data, indices) && NoDuplicates(indices)
    requires forall i: nat :: i in indices <==> i < |data| && Claimable(data[i], capabilities, now)
    ensures EarliestClaimable(data, capabilities, now, limit, if |indices| > limit then indices[..limit] else indices)
  {
    var picked := if |indices| > limit then indices[..limit] else indices;
    forall k | 0 <= k < |picked| ensures picked[k] in indices { }
    forall i | 0 <= i < |data| && Claimable(data[i], capabilities, now) && i !in picked
      ensures |picked| == limit && forall k :: 0 <= k < |picked| ==> !Earlier(data[i], data[picked[k]])
    {
      assert i in indices;
      var m :| 0 <= m < |indices| && indices[m] == i;
      assert m >= |picked|;
    }
  }

  /** The row is asked for, its time has come and nobody holds it. */
  predicate Due(job: Job, capabilities: set<Capability>, now: Time) {
    job.capability in capabilities && job.availableAt <= now && (job.reservedAt.Some? ==> job.reservedAt.value <= now)
  }

  method ClaimablePositions(data: seq<Job>, capabilities: set<Capability>, now: Time) returns (indices: seq<nat>)
    ensures SortedPositions(data, indices) && NoDuplicates(indices)
    ensures forall i: nat :: i in indices <==> i < |data| && Claimable(data[i], capabilities, now)
    ensures forall i: nat :: i in indices <==> i < |data| && Due(data[i], capabilities, now)
  {
    indices := [];
    for i := 0 to |data|
      invariant SortedPositions(data, indices) && NoDuplicates(indices)
      invariant forall k: nat :: k in indices <==> k < i && Claimable(data[k], capabilities, now)
    {
      var job := data[i];
      if job.capability !in capabilities {
        continue;
      }
      var isAvailable := job.availableAt <= now;
      var isNotReserved := job.reservedAt.None? || job.reservedAt.value <= now;
      if !isAvailable || !isNotReserved {
        continue;
      }
      indices := InsertPosition(data, indices, i);
    }
    assert forall k: nat :: k < |data| ==> (Claimable(data[k], capabilities, now) <==> Due(data[k], capabilities, now));
  }

  /** A fair claim, in the fields of the rows: only due rows are returned, reserved with the token until the given
   *  instant and one attempt more; those due longest come first, and no due row is passed over for a younger one.
   */
  ghost predicate FairClaim(data: seq<Job>, capabilities: set<Capability>, now: Time, until: Time, token: LeaseToken,
                            limit: nat, picked: seq<nat>, jobs: seq<Job>)
  {
    && |jobs| == |picked| <= limit && NoDuplicates(picked)
    && (forall k :: 0 <= k < |picked| ==>
          && picked[k] < |data| && Due(data[picked[k]], capabilities, now)
          && jobs[k] == data[picked[k]].(attempts := data[picked[k]].attempts + 1, reservedAt := Some(until),
                                         token := token))
    && (forall k, m :: 0 <= k < m < |jobs| ==>
          && jobs[k].availableAt <= jobs[m].availableAt
          && (jobs[k].availableAt == jobs[m].availableAt ==> jobs[k].createdAt <= jobs[m].createdAt))
    && forall i :: 0 <= i < |data| && Due(data[i], capabilities, now) && i !in picked ==>
         && |jobs| == limit
         && forall k :: 0 <= k < |jobs| ==>
              && jobs[k].availableAt <= data[i].availableAt
              && (jobs[k].availableAt == data[i].availableAt ==> jobs[k].createdAt <= data[i].createdAt)
  }

  /** The rows written at the picked positions. */
  lemma PickedAreReserved(data: seq<Job>, picked: seq<nat>, token: LeaseToken, until: Time, jobs: seq<Job>)
    requires |jobs| == |picked| && forall k :: 0 <= k < |picked| ==> picked[k] < |data|
    requires var after := Rewrite(data, Within(Picked(data, picked)), ReserveWith(token, until));
      forall k :: 0 <= k < |picked| ==> jobs[k] == after[picked[k]]
    ensures forall k :: 0 <= k < |picked| ==> jobs[k] == Reserved(data[picked[k]], token, until)
  {
    forall k | 0 <= k < |picked| ensures jobs[k] == Reserved(data[picked[k]], token, until) {
      assert data[picked[k]].id in Picked(data, picked);
    }
  }

  lemma EarliestIsFair(data: seq<Job>, capabilities: set<Capability>, now: Time, until: Time, token: LeaseToken,
                       limit: nat, picked: seq<nat>, jobs: seq<Job>)
    requires EarliestClaimable(data, capabilities, now, limit, picked) && |jobs| == |picked|
    requires forall k :: 0 <= k < |picked| ==> jobs[k] == Reserved(data[picked[k]], token, until)
    ensures FairClaim(data, capabilities, now, until, token, limit, picked, jobs)
  {
    forall k, m | 0 <= k < m < |jobs|
      ensures jobs[k].availableAt <= jobs[m].availableAt
      ensures jobs[k].availableAt == jobs[m].availableAt ==> jobs[k].createdAt <= jobs[m].createdAt
    {
      assert !Earlier(data[picked[m]], data[picked[k]]);
    }
    forall i, k | 0 <= i < |data| && Due(data[i], capabilities, now) && i !in picked && 0 <= k < |jobs|
      ensures jobs[k].availableAt <= data[i].availableAt
      ensures jobs[k].availableAt == data[i].availableAt ==> jobs[k].createdAt <= data[i].createdAt
    {
      assert Claimable(data[i], capabilities, now) && !Earlier(data[i], data[picked[k]]);
    }
    assert forall i :: 0 <= i < |data| && Due(data[i], capabilities, now) ==> Claimable(data[i], capabilities, now);
  }

  /** Writing the picked positions is rewriting the rows with the picked identifiers. */
  lemma PickedRows(before: seq<Job>, picked: seq<nat>, token: LeaseToken, until: Time, after: seq<Job>)
    requires PrimaryKey(before) && |after| == |before|
    requires forall k :: 0 <= k < |picked| ==> picked[k] < |before|
    requires forall k :: 0 <= k < |picked| ==> after[picked[k]] == Reserved(before[picked[k]], token, until)
    requires forall i :: 0 <= i < |before| && i !in picked ==> after[i] == before[i]
    ensures after == Rewrite(before, Within(Picked(before, picked)), ReserveWith(token, until))
  {
    forall i | 0 <= i < |before|
      ensures before[i].id in Picked(before, picked) <==> i in picked
    {
      if before[i].id in Picked(before, picked) {
        var k :| 0 <= k < |picked| && before[picked[k]].id == before[i].id;
        assert picked[k] == i;
      }
    }
  }

  // ----- the loops

  /** Extends every wanted row that still carries the token, counting them. */
  method ExtendRows(before: seq<Job>, ids: seq<JobId>, token: LeaseToken, now: Time, until: Time)
    returns (data: seq<Job>, affected: nat)
    ensures data == Rewrite(before, Leased(ToSet(ids), token, now), ExtendTo(until))
    ensures affected == Hits(before, Leased(ToSet(ids), token, now))
  {
    var wanted := ToSet(ids);
    data, affected := before, 0;
    for i := 0 to |before|
      invariant |data| == |before|
      invariant forall k :: 0 <= k < i ==> data[k] == Rewrite(before, Leased(wanted, token, now), ExtendTo(until))[k]
      invariant forall k :: i <= k < |before| ==> data[k] == before[k]
      invariant affected == Hits(before[..i], Leased(wanted, token, now))
    {
      var job := data[i];
      assert before[..i + 1][..i] == before[..i];
      if job.id !in wanted || job.token != token || job.reservedAt.None? || job.reservedAt.value <= now {
        continue;
      }
      data := data[i := job.(reservedAt := Some(until))];
      affected := affected + 1;
    }
    assert before[..|before|] == before;
  }

  /** Gives back the attempt of every wanted row that still carries the token, counting them. */
  method ReleaseRows(before: seq<Job>, ids: seq<JobId>, token: LeaseToken, now: Time)
    returns (data: seq<Job>, affected: nat)
    ensures data == Rewrite(before, Refundable(ToSet(ids), token, now), Refund())
    ensures affected == Hits(before, Refundable(ToSet(ids), token, now))
  {
    var wanted := ToSet(ids);
    ghost var hit := Refundable(wanted, token, now);
    ghost var goal := Rewrite(before, hit, Refund());
    data, affected := before, 0;
    for i := 0 to |before|
      invariant data == goal[..i] + before[i..]
      invariant affected == Hits(before[..i], hit)
    {
      var job := data[i];
      HitsNext(before, hit, i);
      RewriteNext(before, hit, Refund(), i, data);
      if job.id !in wanted || job.token != token || job.reservedAt.None? || job.reservedAt.value <= now
         || job.attempts < 1 {
        continue;
      }
      data := data[i := job.(attempts := job.attempts - 1, reservedAt := None, token := NIL_TOKEN)];
      affected := affected + 1;
    }
    assert before[..|before|] == before && goal[..|before|] == goal;
  }

  lemma HitsNext(data: seq<Job>, hit: Job -> bool, i: nat)
    requires i < |data|
    ensures Hits(data[..i + 1], hit) == Hits(data[..i], hit) + if hit(data[i]) then 1 else 0
  {
    assert data[..i + 1][..i] == data[..i];
  }

  /** Row `i` of a rewrite in progress. */
  lemma RewriteNext(before: seq<Job>, hit: Job -> bool, write: Job -> Job, i: nat, data: seq<Job>)
    requires i < |before| && data == Rewrite(before, hit, write)[..i] + before[i..]
    ensures var goal := Rewrite(before, hit, write);
      && data[i] == before[i]
      && (!hit(before[i]) ==> data == goal[..i + 1] + before[i + 1..])
      && (hit(before[i]) ==> data[i := write(before[i])] == goal[..i + 1] + before[i + 1..])
  {
    var goal := Rewrite(before, hit, write);
    assert goal[..i + 1] == goal[..i] + [goal[i]];
    assert before[i..] == [before[i]] + before[i + 1..];
  }

  /** Removes the first row that matches. */
  method DeleteRow(data: seq<Job>, id: JobId, token: LeaseToken, now: Time) returns (after: seq<Job>, affected: nat)
    requires PrimaryKey(data)
    ensures after == Remaining(data, Leased({id}, token, now))
    ensures affected == Hits(data, Leased({id}, token, now))
  {
    for i := 0 to |data|
      invariant forall k :: 0 <= k < i ==> !Leased({id}, token, now)(data[k])
    {
      var job := data[i];
      if job.id == id && job.token == token && job.reservedAt.Some? && job.reservedAt.value > now {
        OneHit(data, Leased({id}, token, now), i);
        return data[..i] + data[i + 1..], 1;
      }
    }
    NoHits(data, Leased({id}, token, now));
    return data, 0;
  }

  /** Reschedules the first row that matches. */
  method RescheduleRow(data: seq<Job>, id: JobId, token: LeaseToken, now: Time, availableAt: Time)
    returns (after: seq<Job>, affected: nat)
    requires PrimaryKey(data)
    ensures after == Rewrite(data, Leased({id}, token, now), RescheduleTo(availableAt))
    ensures affected == Hits(data, Leased({id}, token, now))
  {
    for i := 0 to |data|
      invariant forall k :: 0 <= k < i ==> !Leased({id}, token, now)(data[k])
    {
      var job := data[i];
      if job.id == id && job.token == token && job.reservedAt.Some? && job.reservedAt.value > now {
        OneHit(data, Leased({id}, token, now), i);
        return data[i := job.(availableAt := availableAt, reservedAt := None, token := NIL_TOKEN)], 1;
      }
    }
    NoHits(data, Leased({id}, token, now));
    return data, 0;
  }

  // ----- the loops take the protocol steps

  /** Reachable slices: identifiers are unique and a row has the nil token exactly when unreserved. */
  ghost predicate Coherent(data: seq<Job>) {
    && PrimaryKey(data)
    && forall i :: 0 <= i < |data| ==> (data[i].token == NIL_TOKEN <==> data[i].reservedAt.None?)
  }

  /** Call `call` does to row `job` exactly what the loop does. */
  ghost predicate RowAgrees(s: Store, call: Call, job: Job, hit: Job -> bool, write: Job -> Job) {
    var effect := EffectOn(s, call, job.id);
    && !Removes(effect)
    && Updated(job, call, effect) == (if hit(job) then write(job) else job)
    && write(job).id == job.id
  }

  lemma RewrittenRow(s: Store, call: Call, data: seq<Job>, hit: Job -> bool, write: Job -> Job, i: nat)
    requires PrimaryKey(data) && s.jobs == Table(data) && !call.Create? && i < |data|
    requires RowAgrees(s, call, data[i], hit, write)
    ensures var row := if hit(data[i]) then write(data[i]) else data[i];
            row.id == data[i].id && row.id in Step(s, call).jobs && Step(s, call).jobs[row.id] == row
  {
  }

  lemma RewriteIsStep(s: Store, call: Call, data: seq<Job>, hit: Job -> bool, write: Job -> Job)
    requires PrimaryKey(data) && s.jobs == Table(data) && !call.Create?
    requires forall i :: 0 <= i < |data| ==> RowAgrees(s, call, data[i], hit, write)
    ensures PrimaryKey(Rewrite(data, hit, write))
    ensures Table(Rewrite(data, hit, write)) == Step(s, call).jobs
  {
    var after, rows := Rewrite(data, hit, write), Step(s, call).jobs;
    forall i | 0 <= i < |data|
      ensures after[i].id == data[i].id && data[i].id in rows && rows[data[i].id] == after[i]
    {
      RewrittenRow(s, call, data, hit, write, i);
    }
    forall id | id in rows ensures exists i :: 0 <= i < |after| && after[i].id == id {
      assert id in Table(data);
      var i :| 0 <= i < |data| && data[i].id == id;
      assert after[i].id == id;
    }
    TableIs(after, rows);
  }

  lemma PickedRowIsReady(data: seq<Job>, picked: seq<nat>, now: Time, i: nat)
    requires PrimaryKey(data) && i < |data|
    requires forall k :: 0 <= k < |picked| ==> picked[k] < |data| && Ready(data[picked[k]], now)
    ensures data[i].id in Picked(data, picked) ==> Ready(data[i], now)
  {
    if data[i].id in Picked(data, picked) {
      var k :| 0 <= k < |picked| && data[picked[k]].id == data[i].id;
      assert picked[k] == i;
    }
  }

  /** Reserving the picked rows is the claim step, because every picked row was ready. */
  lemma {:induction false} ClaimIsStep(s: Store, data: seq<Job>, picked: seq<nat>, token: LeaseToken, now: Time,
                                       until: Time)
    requires Coherent(data) && s.jobs == Table(data) && token != NIL_TOKEN
    requires forall k :: 0 <= k < |picked| ==> picked[k] < |data| && Ready(data[picked[k]], now)
    ensures var after := Rewrite(data, Within(Picked(data, picked)), ReserveWith(token, until));
      PrimaryKey(after) && Table(after) == Step(s, Claim(Picked(data, picked), token, now, until)).jobs
  {
    var ids := Picked(data, picked);
    forall i | 0 <= i < |data|
      ensures RowAgrees(s, Claim(ids, token, now, until), data[i], Within(ids), ReserveWith(token, until))
    {
      assert s.jobs[data[i].id] == data[i];
      PickedRowIsReady(data, picked, now, i);
    }
    RewriteIsStep(s, Claim(ids, token, now, until), data, Within(ids), ReserveWith(token, until));
  }

  lemma {:induction false} ExtendIsStep(s: Store, data: seq<Job>, ids: seq<JobId>, token: LeaseToken, now: Time,
                                        until: Time)
    requires Coherent(data) && s.jobs == Table(data)
    ensures var after := Rewrite(data, Leased(ToSet(ids), token, now), ExtendTo(until));
      PrimaryKey(after) && Table(after) == Step(s, Extend(ToSet(ids), token, now, until)).jobs
  {
    var call := Extend(ToSet(ids), token, now, until);
    forall i | 0 <= i < |data|
      ensures RowAgrees(s, call, data[i], Leased(ToSet(ids), token, now), ExtendTo(until))
    {
      assert s.jobs[data[i].id] == data[i];
    }
    RewriteIsStep(s, call, data, Leased(ToSet(ids), token, now), ExtendTo(until));
  }

  lemma {:induction false} ReleaseIsStep(s: Store, data: seq<Job>, ids: seq<JobId>, token: LeaseToken, now: Time)
    requires Coherent(data) && s.jobs == Table(data)
    ensures var after := Rewrite(data, Refundable(ToSet(ids), token, now), Refund());
      PrimaryKey(after) && Table(after) == Step(s, Release(ToSet(ids), token, now)).jobs
  {
    var call := Release(ToSet(ids), token, now);
    forall i | 0 <= i < |data|
      ensures RowAgrees(s, call, data[i], Refundable(ToSet(ids), token, now), Refund())
    {
      assert s.jobs[data[i].id] == data[i];
    }
    RewriteIsStep(s, call, data, Refundable(ToSet(ids), token, now), Refund());
  }

  lemma {:induction false} RescheduleIsStep(s: Store, data: seq<Job>, id: JobId, token: LeaseToken, now: Time, at: Time)
    requires Coherent(data) && s.jobs == Table(data)
    ensures var after := Rewrite(data, Leased({id}, token, now), RescheduleTo(at));
      PrimaryKey(after) && Table(after) == Step(s, Reschedule(id, token, now, at)).jobs
  {
    var call := Reschedule(id, token, now, at);
    forall i | 0 <= i < |data|
      ensures RowAgrees(s, call, data[i], Leased({id}, token, now), RescheduleTo(at))
    {
      assert s.jobs[data[i].id] == data[i];
    }
    RewriteIsStep(s, call, data, Leased({id}, token, now), RescheduleTo(at));
  }

  lemma {:induction false} RemainingIn(data: seq<Job>, hit: Job -> bool)
    ensures forall job :: job in Remaining(data, hit) <==> job in data && !hit(job)
    ensures PrimaryKey(data) ==> PrimaryKey(Remaining(data, hit))
  {
    if data != [] {
      var init := data[..|data| - 1];
      RemainingIn(init, hit);
      assert data == init + [data[|data| - 1]];
      if PrimaryKey(data) {
        forall job | job in Remaining(init, hit) ensures job.id != data[|data| - 1].id {
          assert job in init;
        }
      }
    }
  }

  lemma TableOfRemaining(data: seq<Job>, hit: Job -> bool, rows: map<JobId, Job>)
    requires PrimaryKey(data)
    requires forall i :: 0 <= i < |data| ==> (hit(data[i]) <==> data[i].id !in rows)
    requires forall i :: 0 <= i < |data| && !hit(data[i]) ==> rows[data[i].id] == data[i]
    requires forall id :: id in rows ==> exists i :: 0 <= i < |data| && data[i].id == id
    ensures PrimaryKey(Remaining(data, hit))
    ensures Table(Remaining(data, hit)) == rows
  {
    var after := Remaining(data, hit);
    RemainingIn(data, hit);
    forall i | 0 <= i < |after| ensures after[i].id in rows && rows[after[i].id] == after[i] {
      assert after[i] in after;
      var k :| 0 <= k < |data| && data[k] == after[i];
    }
    forall key | key in rows ensures exists i :: 0 <= i < |after| && after[i].id == key {
      var k :| 0 <= k < |data| && data[k].id == key;
      assert data[k] in after;
    }
    TableIs(after, rows);
  }

  lemma {:induction false} DeleteIsStep(s: Store, data: seq<Job>, id: JobId, token: LeaseToken, now: Time)
    requires Coherent(data) && s.jobs == Table(data)
    ensures var after := Remaining(data, Leased({id}, token, now));
      PrimaryKey(after) && Table(after) == Step(s, Acknowledge(id, token, now)).jobs
  {
    var hit, rows := Leased({id}, token, now), Step(s, Acknowledge(id, token, now)).jobs;
    forall i | 0 <= i < |data|
      ensures hit(data[i]) <==> data[i].id !in rows
      ensures !hit(data[i]) ==> rows[data[i].id] == data[i]
    {
      assert s.jobs[data[i].id] == data[i];
    }
    assert forall key :: key in rows ==> key in Table(data);
    TableOfRemaining(data, hit, rows);
  }

  // ----- the repository refines the protocol

  /** The slice shows the store the run of calls leads to. */
  ghost predicate Shows(data: seq<Job>, calls: seq<Call>) {
    PrimaryKey(data) && Table(data) == Run(calls).jobs
  }

  lemma ShowsIsCoherent(data: seq<Job>, calls: seq<Call>)
    requires Shows(data, calls)
    ensures Coherent(data)
  {
    forall i | 0 <= i < |data| ensures data[i].token == NIL_TOKEN <==> data[i].reservedAt.None? {
      HistoryHolds(calls, data[i].id);
      assert Table(data)[data[i].id] == data[i];
    }
  }

  lemma ShowsNext(data: seq<Job>, calls: seq<Call>, call: Call)
    requires PrimaryKey(data) && Table(data) == Step(Run(calls), call).jobs
    ensures Shows(data, calls + [call])
  {
    assert (calls + [call])[..|calls + [call]| - 1] == calls;
  }

  lemma CreatedRows(s: Store, call: Call)
    requires call.Create? && EffectOn(s, call, call.id).Created? && call.id !in s.jobs
    ensures Step(s, call).jobs == s.jobs[call.id := NewJob(call)[call.id]]
  {
  }

  /** Appending a row with a new identifier. */
  lemma AppendedTable(data: seq<Job>, job: Job)
    requires PrimaryKey(data) && job.id !in Table(data)
    ensures PrimaryKey(data + [job]) && Table(data + [job]) == Table(data)[job.id := job]
  {
    var after, rows := data + [job], Table(data)[job.id := job];
    forall i | 0 <= i < |data| ensures data[i].id in Table(data) && Table(data)[data[i].id] == data[i] {
      assert Table(data)[data[i].id] == data[i];
    }
    forall id | id in rows ensures exists i :: 0 <= i < |after| && after[i].id == id {
      if id == job.id {
        assert after[|data|].id == id;
      } else {
        var i :| 0 <= i < |data| && data[i].id == id;
        assert after[i].id == id;
      }
    }
    TableIs(after, rows);
  }

  lemma ShowsCreated(data: seq<Job>, calls: seq<Call>, call: Call)
    requires Shows(data, calls) && call.Create?
    requires EffectOn(Run(calls), call, call.id).Created?
    ensures Shows(data + [NewJob(call)[call.id]], calls + [call])
  {
    HistoryHolds(calls, call.id);
    CreatedRows(Run(calls), call);
    AppendedTable(data, NewJob(call)[call.id]);
    ShowsNext(data + [NewJob(call)[call.id]], calls, call);
  }

  class Repo {
    var data: seq<Job>
    ghost var calls: seq<Call>

    /** The slice is what the protocol says after the calls made so far. */
    ghost predicate Valid()
      reads this
    {
      Shows(data, calls)
    }

    constructor ()
      ensures Valid() && data == [] && calls == []
    {
      data, calls := [], [];
      new;
      TableIs([], EMPTY_STORE.jobs);
    }

    /** `id` is the freshly generated identifier. */
    method CreateJobVersioned(id: JobId, capability: Capability, payload: string, availableAt: Time, now: Time)
      returns (ok: bool)
      requires Valid() && id != NIL_ID && id !in Run(calls).created
      modifies this
      ensures Valid()
      ensures ok <==> capability.version > 0
      ensures !ok ==> data == old(data) && calls == old(calls)
      ensures ok ==> calls == old(calls) + [Create(id, capability, payload, availableAt, now)]
    {
      if capability.version <= 0 { return false; }
      ghost var call := Create(id, capability, payload, availableAt, now);
      ShowsCreated(data, calls, call);
      data := data + [Job(id, "queue", capability, payload, 0, None, NIL_TOKEN, None, availableAt, now)];
      calls := calls + [call];
      return true;
    }

    /** Collects, sorts and cuts the claimable positions, then reserves them in that order. */
    method FindAndReserveJobs(now: Time, until: Time, token: LeaseToken, capabilities: seq<Capability>, limit: int)
      returns (r: ClaimResult, ghost picked: seq<nat>)
      requires Valid()
      modifies this
      ensures Valid()
      ensures r.InvalidToken? <==> token == NIL_TOKEN
      ensures r.InvalidLimit? <==> token != NIL_TOKEN && !(1 <= limit <= MAX_RESERVATION_BATCH_SIZE)
      ensures r.InvalidCapability? <==> && token != NIL_TOKEN && 1 <= limit <= MAX_RESERVATION_BATCH_SIZE
                                        && exists c :: c in capabilities && c.version <= 0
      ensures !r.Jobs? ==> data == old(data)
      ensures r.NoJobs? ==> forall i :: 0 <= i < |data| ==> !Due(data[i], ToSet(capabilities), now)
      ensures r.Jobs? ==>
        picked != [] && FairClaim(old(data), ToSet(capabilities), now, until, token, limit, picked, r.jobs)
      ensures r.Jobs? ==>
        && data == Rewrite(old(data), Within(Picked(old(data), picked)), ReserveWith(token, until))
        && |r.jobs| == |picked| && forall k :: 0 <= k < |picked| ==> r.jobs[k] == data[picked[k]]
      ensures calls == if r.Jobs? then old(calls) + [Claim(Picked(old(data), picked), token, now, until)]
                       else old(calls)
    {
      picked := [];
      if token == NIL_TOKEN { return InvalidToken, []; }
      if limit < 1 || limit > MAX_RESERVATION_BATCH_SIZE { return InvalidLimit, []; }
      var supported, valid := SupportedCapabilities(capabilities);
      assert valid <==> forall c :: c in capabilities ==> c.version > 0;
      if !valid { return InvalidCapability, []; }
      var indices := ClaimablePositions(data, supported, now);
      if |indices| == 0 {
        assert forall i: nat :: i !in indices;
        return NoJobs, [];
      }
      var jobs;
      jobs, picked := ReserveEarliest(now, until, token, supported, limit, indices);
      return Jobs(jobs), picked;
    }

    /** Cuts the claimable positions at the limit and reserves them. */
    method ReserveEarliest(now: Time, until: Time, token: LeaseToken, supported: set<Capability>, limit: nat,
                           indices: seq<nat>)
      returns (jobs: seq<Job>, ghost picked: seq<nat>)
      requires Valid() && token != NIL_TOKEN && limit > 0 && indices != []
      requires SortedPositions(data, indices) && NoDuplicates(indices)
      requires forall i: nat :: i in indices <==> i < |data| && Claimable(data[i], supported, now)
      modifies this
      ensures Valid() && picked != []
      ensures FairClaim(old(data), supported, now, until, token, limit, picked, jobs)
      ensures data == Rewrite(old(data), Within(Picked(old(data), picked)), ReserveWith(token, until))
      ensures forall k :: 0 <= k < |picked| ==> jobs[k] == data[picked[k]]
      ensures calls == old(calls) + [Claim(Picked(old(data), picked), token, now, until)]
    {
      var cut := if |indices| > limit then indices[..limit] else indices;
      picked := cut;
      CutIsEarliest(data, supported, now, limit, indices);
      jobs := ReservePicked(now, until, token, supported, limit, cut);
    }

    method ReservePicked(now: Time, until: Time, token: LeaseToken, ghost supported: set<Capability>,
                         ghost limit: nat, picked: seq<nat>)
      returns (jobs: seq<Job>)
      requires Valid() && token != NIL_TOKEN && EarliestClaimable(data, supported, now, limit, picked)
      modifies this
      ensures Valid()
      ensures FairClaim(old(data), supported, now, until, token, limit, picked, jobs)
      ensures data == Rewrite(old(data), Within(Picked(old(data), picked)), ReserveWith(token, until))
      ensures forall k :: 0 <= k < |picked| ==> jobs[k] == data[picked[k]]
      ensures calls == old(calls) + [Claim(Picked(old(data), picked), token, now, until)]
    {
      ghost var before := data;
      ghost var call := Claim(Picked(data, picked), token, now, until);
      ShowsIsCoherent(data, calls);
      ClaimIsStep(Run(calls), before, picked, token, now, until);
      jobs := Reserve(picked, token, until);
      ShowsNext(data, calls, call);
      calls := calls + [call];
      assert FairClaim(before, supported, now, until, token, limit, picked, jobs) by {
        PickedAreReserved(before, picked, token, until, jobs);
        EarliestIsFair(before, supported, now, until, token, limit, picked, jobs);
      }
    }

    method Reserve(indices: seq<nat>, token: LeaseToken, until: Time) returns (jobs: seq<Job>)
      requires PrimaryKey(data) && NoDuplicates(indices)
      requires forall k :: 0 <= k < |indices| ==> indices[k] < |data|
      modifies this`data
      ensures data == Rewrite(old(data), Within(Picked(old(data), indices)), ReserveWith(token, until))
      ensures |jobs| == |indices| && forall k :: 0 <= k < |indices| ==> jobs[k] == data[indices[k]]
    {
      var before := data;
      jobs := [];
      for k := 0 to |indices|
        invariant |data| == |before| && |jobs| == k
        invariant forall m :: 0 <= m < k ==> data[indices[m]] == Reserved(before[indices[m]], token, until) == jobs[m]
        invariant forall i :: 0 <= i < |before| && i !in indices[..k] ==> data[i] == before[i]
      {
        var i := indices[k];
        assert i !in indices[..k];
        data := data[i := Reserved(data[i], token, until)];
        jobs := jobs + [data[i]];
        assert indices[..k + 1] == indices[..k] + [i];
      }
      assert indices[..|indices|] == indices;
      PickedRows(before, indices, token, until, data);
    }

    method ExtendJobLeases(ids: seq<JobId>, token: LeaseToken, now: Time, until: Time) returns (affected: nat)
      requires Valid()
      modifies this
      ensures Valid() && calls == old(calls) + [Extend(ToSet(ids), token, now, until)]
      ensures affected == Hits(old(data), Leased(ToSet(ids), token, now))
    {
      ShowsIsCoherent(data, calls);
      ExtendIsStep(Run(calls), data, ids, token, now, until);
      data, affected := ExtendRows(data, ids, token, now, until);
      ShowsNext(data, calls, Extend(ToSet(ids), token, now, until));
      calls := calls + [Extend(ToSet(ids), token, now, until)];
    }

    method ReleaseUnstartedJobsWithLease(ids: seq<JobId>, token: LeaseToken, now: Time) returns (affected: nat)
      requires Valid()
      modifies this
      ensures Valid() && calls == old(calls) + [Release(ToSet(ids), token, now)]
      ensures affected == Hits(old(data), Refundable(ToSet(ids), token, now))
    {
      ShowsIsCoherent(data, calls);
      ReleaseIsStep(Run(calls), data, ids, token, now);
      data, affected := ReleaseRows(data, ids, token, now);
      ShowsNext(data, calls, Release(ToSet(ids), token, now));
      calls := calls + [Release(ToSet(ids), token, now)];
    }

    method DeleteJobWithLease(id: JobId, token: LeaseToken, now: Time) returns (affected: nat)
      requires Valid()
      modifies this
      ensures Valid() && calls == old(calls) + [Acknowledge(id, token, now)]
      ensures affected == Hits(old(data), Leased({id}, token, now))
    {
      ShowsIsCoherent(data, calls);
      DeleteIsStep(Run(calls), data, id, token, now);
      data, affected := DeleteRow(data, id, token, now);
      ShowsNext(data, calls, Acknowledge(id, token, now));
      calls := calls + [Acknowledge(id, token, now)];
    }

    method RescheduleJobWithLease(id: JobId, token: LeaseToken, now: Time, availableAt: Time) returns (affected: nat)
      requires Valid()
      modifies this
      ensures Valid() && calls == old(calls) + [Reschedule(id, token, now, availableAt)]
      ensures affected == Hits(old(data), Leased({id}, token, now))
    {
      ShowsIsCoherent(data, calls);
      RescheduleIsStep(Run(calls), data, id, token, now, availableAt);
      data, affected := RescheduleRow(data, id, token, now, availableAt);
      ShowsNext(data, calls, Reschedule(id, token, now, availableAt));
      calls := calls + [Reschedule(id, token, now, availableAt)];
    }
  }
}
