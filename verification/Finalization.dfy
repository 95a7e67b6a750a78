/** Finalizing a batch: the two-statement and the single-snapshot forms of the outcome update, the
 *  meaning of the affected count, and the transaction around them.
 */
module Finalization {
  import opened Jobs
  import opened RowHistory
  import opened JobTable

  type Rows = map<JobId, Job>

  predicate Deletes(kind: OutcomeKind) { kind.Success? || kind.Dlq? }

  /** `id IN (input rows of terminal kind) AND lease_token = ? AND reserved_at > ?` */
  predicate DeleteHits(rows: Rows, token: LeaseToken, now: Time, outcomes: seq<Outcome>, id: JobId) {
    && id in rows && LeaseLive(rows[id], token, now)
    && OutcomeFor(outcomes, id).Some? && Deletes(OutcomeFor(outcomes, id).value.kind)
  }

  /** `id IN (input rows of retry or defer kind) AND lease_token = ? AND reserved_at > ? AND attempts > 0` */
  predicate UpdateHits(rows: Rows, token: LeaseToken, now: Time, outcomes: seq<Outcome>, id: JobId) {
    && id in rows && LeaseLive(rows[id], token, now) && rows[id].attempts > 0
    && OutcomeFor(outcomes, id).Some? && !Deletes(OutcomeFor(outcomes, id).value.kind)
  }

  function Rescheduled(job: Job, outcome: Outcome): Job {
    Unreserved(job).(availableAt := outcome.availableAt,
                     attempts := if outcome.kind.Defer? then job.attempts - 1 else job.attempts)
  }

  function DeleteTerminal(rows: Rows, token: LeaseToken, now: Time, outcomes: seq<Outcome>): (Rows, nat) {
    (map id | id in rows && !DeleteHits(rows, token, now, outcomes, id) :: rows[id],
     |set id | id in rows && DeleteHits(rows, token, now, outcomes, id)|)
  }

  function UpdateRetry(rows: Rows, token: LeaseToken, now: Time, outcomes: seq<Outcome>): (Rows, nat) {
    (map id | id in rows ::
       if UpdateHits(rows, token, now, outcomes, id) then Rescheduled(rows[id], OutcomeFor(outcomes, id).value)
       else rows[id],
     |set id | id in rows && UpdateHits(rows, token, now, outcomes, id)|)
  }

  /** MySQL and SQLite: delete, then update what is left, adding the two counts. */
  function TwoStatements(rows: Rows, token: LeaseToken, now: Time, outcomes: seq<Outcome>): (Rows, nat) {
    var (left, deleted) := DeleteTerminal(rows, token, now, outcomes);
    var (result, updated) := UpdateRetry(left, token, now, outcomes);
    (result, deleted + updated)
  }

  /** PostgreSQL: every part of the statement reads the same snapshot of owned rows. */
  function OneSnapshot(rows: Rows, token: LeaseToken, now: Time, outcomes: seq<Outcome>): (Rows, nat) {
    var owned := set id | id in rows && LeaseLive(rows[id], token, now) && OutcomeFor(outcomes, id).Some?;
    var deleted := set id | id in owned && Deletes(OutcomeFor(outcomes, id).value.kind);
    var updated := set id | id in owned && !Deletes(OutcomeFor(outcomes, id).value.kind) && rows[id].attempts > 0;
    (map id | id in rows && id !in deleted ::
       if id in updated then Rescheduled(rows[id], OutcomeFor(outcomes, id).value) else rows[id],
     |deleted| + |updated|)
  }

  /** Deleting first and updating the rest is the single-snapshot statement, row for row and count for count. */
  lemma TwoStatementsAreOneSnapshot(rows: Rows, token: LeaseToken, now: Time, outcomes: seq<Outcome>)
    ensures TwoStatements(rows, token, now, outcomes) == OneSnapshot(rows, token, now, outcomes)
  {
    var left := DeleteTerminal(rows, token, now, outcomes).0;
    var owned := set id | id in rows && LeaseLive(rows[id], token, now) && OutcomeFor(outcomes, id).Some?;
    assert (set id | id in rows && DeleteHits(rows, token, now, outcomes, id))
        == (set id | id in owned && Deletes(OutcomeFor(outcomes, id).value.kind));
    assert (set id | id in left && UpdateHits(left, token, now, outcomes, id))
        == (set id | id in owned && !Deletes(OutcomeFor(outcomes, id).value.kind) && rows[id].attempts > 0);
    assert TwoStatements(rows, token, now, outcomes).0 == OneSnapshot(rows, token, now, outcomes).0;
  }

  // ----- the affected count

  /** The named row can make its transition, as far as the job table is concerned. */
  predicate RowReady(rows: Rows, token: LeaseToken, now: Time, outcome: Outcome) {
    && outcome.jobId in rows && LeaseLive(rows[outcome.jobId], token, now)
    && (Deletes(outcome.kind) || rows[outcome.jobId].attempts > 0)
  }

  function OutcomeIds(outcomes: seq<Outcome>): seq<JobId> {
    Each((outcome: Outcome) => outcome.jobId, outcomes)
  }

  lemma {:induction false} OutcomeForIndex(outcomes: seq<Outcome>, i: nat)
    requires DistinctOutcomes(outcomes) && i < |outcomes|
    ensures OutcomeFor(outcomes, outcomes[i].jobId) == Some(outcomes[i])
  {
    if i > 0 {
      OutcomeForIndex(outcomes[1..], i - 1);
    }
  }

  /** The rows one snapshot changes. */
  function Affected(rows: Rows, token: LeaseToken, now: Time, outcomes: seq<Outcome>): set<JobId> {
    set id | id in rows && (DeleteHits(rows, token, now, outcomes, id) || UpdateHits(rows, token, now, outcomes, id))
  }

  lemma AffectedCount(rows: Rows, token: LeaseToken, now: Time, outcomes: seq<Outcome>)
    ensures OneSnapshot(rows, token, now, outcomes).1 == |Affected(rows, token, now, outcomes)|
  {
    var deleted := set id | id in rows && DeleteHits(rows, token, now, outcomes, id);
    var updated := set id | id in rows && UpdateHits(rows, token, now, outcomes, id);
    var owned := set id | id in rows && LeaseLive(rows[id], token, now) && OutcomeFor(outcomes, id).Some?;
    assert deleted == set id | id in owned && Deletes(OutcomeFor(outcomes, id).value.kind);
    assert updated == set id | id in owned && !Deletes(OutcomeFor(outcomes, id).value.kind) && rows[id].attempts > 0;
    assert Affected(rows, token, now, outcomes) == deleted + updated && deleted !! updated;
  }

  lemma AffectedAreNamed(rows: Rows, token: LeaseToken, now: Time, outcomes: seq<Outcome>)
    ensures Affected(rows, token, now, outcomes) <= ToSet(OutcomeIds(outcomes))
  {
    forall id | id in Affected(rows, token, now, outcomes) ensures id in OutcomeIds(outcomes) {
      OutcomeForFinds(outcomes, id);
      var i :| 0 <= i < |outcomes| && outcomes[i] == OutcomeFor(outcomes, id).value;
      assert OutcomeIds(outcomes)[i] == id;
    }
  }

  /** A count equal to the number of outcomes means every named row made its own transition. */
  lemma FullCountMeansAllReady(rows: Rows, token: LeaseToken, now: Time, outcomes: seq<Outcome>)
    requires DistinctOutcomes(outcomes)
    ensures OneSnapshot(rows, token, now, outcomes).1 == |outcomes|
       <==> forall i :: 0 <= i < |outcomes| ==> RowReady(rows, token, now, outcomes[i])
  {
    var hit, named := Affected(rows, token, now, outcomes), ToSet(OutcomeIds(outcomes));
    AffectedCount(rows, token, now, outcomes);
    AffectedAreNamed(rows, token, now, outcomes);
    DistinctIffFull(OutcomeIds(outcomes));
    SubsetCardinality(hit, named);
    forall i | 0 <= i < |outcomes|
      ensures outcomes[i].jobId in hit <==> RowReady(rows, token, now, outcomes[i])
      ensures outcomes[i].jobId in named
    {
      OutcomeForIndex(outcomes, i);
      assert OutcomeIds(outcomes)[i] == outcomes[i].jobId;
    }
    if hit != named {
      var id :| id in named && id !in hit;
      var i :| 0 <= i < |outcomes| && OutcomeIds(outcomes)[i] == id;
    } else {
      assert |hit| == |outcomes|;
    }
  }

  // ----- the transaction

  /** The worker's copies by identifier; a later copy replaces an earlier one. */
  function JobsById(copies: seq<Job>): Rows {
    if copies == [] then map[]
    else JobsById(copies[..|copies| - 1])[copies[|copies| - 1].id := copies[|copies| - 1]]
  }

  lemma {:induction false} JobsByIdFinds(copies: seq<Job>, id: JobId)
    requires id in JobsById(copies)
    ensures JobsById(copies)[id] in copies && JobsById(copies)[id].id == id
  {
    if copies[|copies| - 1].id != id {
      JobsByIdFinds(copies[..|copies| - 1], id);
    }
  }

  function Record(copy: Job, outcome: Outcome): FailedJob {
    FailedJob(copy.id, copy.capability, copy.payload, outcome.reason)
  }

  /** Inserting the DLQ records one by one; `jobs_failed.job_id` is unique. */
  function WithRecords(failed: map<JobId, FailedJob>, copies: Rows, outcomes: seq<Outcome>)
    : Option<map<JobId, FailedJob>>
  {
    if outcomes == [] then Some(failed)
    else
      var before := WithRecords(failed, copies, outcomes[..|outcomes| - 1]);
      var outcome := outcomes[|outcomes| - 1];
      if before.None? || !outcome.kind.Dlq? then before
      else if outcome.jobId !in copies || outcome.jobId in before.value then None
      else Some(before.value[outcome.jobId := Record(copies[outcome.jobId], outcome)])
  }

  predicate Recordable(failed: map<JobId, FailedJob>, copies: Rows, outcome: Outcome) {
    outcome.kind.Dlq? ==> outcome.jobId in copies && outcome.jobId !in failed
  }

  ghost predicate HasRecord(outcomes: seq<Outcome>, id: JobId) {
    exists i :: 0 <= i < |outcomes| && outcomes[i].kind.Dlq? && outcomes[i].jobId == id
  }

  /** The inserts succeed exactly when every DLQ outcome names a known job without a record. */
  lemma {:induction false} RecordsInserted(failed: map<JobId, FailedJob>, copies: Rows, outcomes: seq<Outcome>)
    requires DistinctOutcomes(outcomes)
    ensures WithRecords(failed, copies, outcomes).Some?
       <==> forall i :: 0 <= i < |outcomes| ==> Recordable(failed, copies, outcomes[i])
    ensures WithRecords(failed, copies, outcomes).Some? ==>
              forall id ::
                id in WithRecords(failed, copies, outcomes).value <==> id in failed || HasRecord(outcomes, id)
  {
    if outcomes != [] {
      var n := |outcomes| - 1;
      RecordsInserted(failed, copies, outcomes[..n]);
      assert forall i :: 0 <= i < n ==> outcomes[..n][i] == outcomes[i];
      assert forall id :: HasRecord(outcomes, id) <==>
                            HasRecord(outcomes[..n], id) || (outcomes[n].kind.Dlq? && outcomes[n].jobId == id);
    }
  }

  /** Each record is made from the worker's copy; older records stay. */
  lemma {:induction false} RecordsCopied(failed: map<JobId, FailedJob>, copies: Rows, outcomes: seq<Outcome>)
    requires DistinctOutcomes(outcomes) && WithRecords(failed, copies, outcomes).Some?
    ensures var after := WithRecords(failed, copies, outcomes).value;
            && (forall id :: id in failed ==> id in after && after[id] == failed[id])
            && forall i :: 0 <= i < |outcomes| && outcomes[i].kind.Dlq? ==>
                             && outcomes[i].jobId in after && outcomes[i].jobId in copies
                             && after[outcomes[i].jobId] == Record(copies[outcomes[i].jobId], outcomes[i])
  {
    if outcomes != [] {
      var n := |outcomes| - 1;
      RecordsCopied(failed, copies, outcomes[..n]);
      assert forall i :: 0 <= i < n ==> outcomes[..n][i] == outcomes[i];
    }
  }
}
