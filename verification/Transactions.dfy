/** The service's transactions over the job tables, as in-place updates with rollback. */
module Transactions {
  import opened Jobs
  import opened RowHistory
  import opened JobTable
  import opened Finalization

  /** Rows are stored under their own identifier. */
  ghost predicate Keyed(rows: Rows) {
    forall id :: id in rows ==> rows[id].id == id
  }

  /** A worker's copies of claimed rows: the fields that never change agree with the table. */
  ghost predicate CopiesOf(rows: Rows, copies: seq<Job>) {
    forall job :: job in copies && job.id in rows ==>
      job.capability == rows[job.id].capability && job.payload == rows[job.id].payload
  }

  ghost predicate DlqJobsKnown(copies: seq<Job>, outcomes: seq<Outcome>) {
    forall i :: 0 <= i < |outcomes| && outcomes[i].kind.Dlq? ==> outcomes[i].jobId in JobsById(copies)
  }

  /** The copy of a row that some earlier claim, or any earlier read, returned. */
  ghost predicate ReadAt(calls: seq<Call>, copy: Job, m: nat) {
    m <= |calls| && copy.id in Run(calls[..m]).jobs && Run(calls[..m]).jobs[copy.id] == copy
  }

  lemma StepKeepsContent(s: Store, call: Call, id: JobId)
    requires id in s.created
    ensures id in Step(s, call).created
    ensures id in Step(s, call).jobs ==>
              && id in s.jobs
              && Step(s, call).jobs[id].capability == s.jobs[id].capability
              && Step(s, call).jobs[id].payload == s.jobs[id].payload
  {
  }

  /** No call changes what a job asks for, and a job that is gone never comes back. */
  lemma {:induction false} ContentIsFixed(calls: seq<Call>, m: nat, id: JobId)
    requires m <= |calls| && id in Run(calls[..m]).jobs
    ensures id in Run(calls).created
    ensures id in Run(calls).jobs ==>
              && Run(calls).jobs[id].capability == Run(calls[..m]).jobs[id].capability
              && Run(calls).jobs[id].payload == Run(calls[..m]).jobs[id].payload
  {
    if m == |calls| {
      assert calls[..m] == calls;
      HistoryHolds(calls, id);
    } else {
      var before := calls[..|calls| - 1];
      assert before[..m] == calls[..m];
      ContentIsFixed(before, m, id);
      StepKeepsContent(Run(before), calls[|calls| - 1], id);
    }
  }

  /** In every run, rows are stored under their own identifier and whatever a worker once read is still a copy: what the
   *  transactions below ask of their tables and copies always holds.
   */
  lemma {:induction false} ReadsStayCopies(calls: seq<Call>, copies: seq<Job>)
    requires forall copy :: copy in copies ==> exists m :: ReadAt(calls, copy, m)
    ensures Keyed(Run(calls).jobs) && CopiesOf(Run(calls).jobs, copies)
  {
    forall id | id in Run(calls).jobs ensures Run(calls).jobs[id].id == id {
      HistoryHolds(calls, id);
    }
    forall copy | copy in copies && copy.id in Run(calls).jobs
      ensures copy.capability == Run(calls).jobs[copy.id].capability && copy.payload == Run(calls).jobs[copy.id].payload
    {
      var m :| ReadAt(calls, copy, m);
      ContentIsFixed(calls, m, copy.id);
    }
  }

  /** When a batch commits, what it does to one row is what its outcome says. */
  lemma {:induction false} CommittedEffect(s: Store, token: LeaseToken, now: Time, outcomes: seq<Outcome>, id: JobId)
    requires Commits(s, token, now, outcomes)
    ensures var effect, outcome := EffectOn(s, Finalize(token, now, outcomes), id), OutcomeFor(outcomes, id);
      && (outcome.None? <==> effect.NoEffect?)
      && (outcome.Some? ==> effect == OutcomeEffect(outcome.value.kind) && id in s.jobs
                            && Applicable(s, token, now, outcome.value) && outcome.value.jobId == id)
      && (DeleteHits(s.jobs, token, now, outcomes, id) <==> Removes(effect))
      && (UpdateHits(s.jobs, token, now, outcomes, id) <==> effect.Retried? || effect.Deferred?)
  {
    OutcomeForFinds(outcomes, id);
  }

  lemma CommittedRow(s: Store, token: LeaseToken, now: Time, outcomes: seq<Outcome>, id: JobId)
    requires Commits(s, token, now, outcomes) && Keyed(s.jobs)
    ensures var rows := TwoStatements(s.jobs, token, now, outcomes).0;
      var step := Step(s, Finalize(token, now, outcomes)).jobs;
      (id in rows <==> id in step) && (id in rows ==> rows[id] == step[id])
  {
    CommittedEffect(s, token, now, outcomes, id);
  }

  /** The statements leave the rows the protocol step describes. */
  lemma CommittedRows(s: Store, token: LeaseToken, now: Time, outcomes: seq<Outcome>)
    requires Commits(s, token, now, outcomes) && Keyed(s.jobs)
    ensures OneSnapshot(s.jobs, token, now, outcomes).0 == Step(s, Finalize(token, now, outcomes)).jobs
  {
    var rows, step := TwoStatements(s.jobs, token, now, outcomes).0, Step(s, Finalize(token, now, outcomes)).jobs;
    forall id
      ensures (id in rows <==> id in step) && (id in rows ==> rows[id] == step[id])
    {
      CommittedRow(s, token, now, outcomes, id);
    }
    assert rows == step;
    TwoStatementsAreOneSnapshot(s.jobs, token, now, outcomes);
  }

  /** The outcome as the tables show it afterwards: a finished job is gone, and a dead one leaves a record with the
   *  outcome's reason; any other job is free, available from the outcome's time, with one attempt less if it was
   *  deferred.
   */
  ghost predicate Landed(before: Store, after: Store, outcome: Outcome) {
    var id := outcome.jobId;
    && id in before.jobs
    && match outcome.kind
       case Success => id !in after.jobs && id in after.acknowledged
       case Dlq =>
         && id !in after.jobs && id in after.failed
         && after.failed[id] == FailedJob(id, before.jobs[id].capability, before.jobs[id].payload, outcome.reason)
       case Retry =>
         && id in after.jobs
         && after.jobs[id] == before.jobs[id].(availableAt := outcome.availableAt, reservedAt := None,
                                               token := NIL_TOKEN)
       case Defer =>
         && id in after.jobs
         && after.jobs[id] == before.jobs[id].(availableAt := outcome.availableAt, reservedAt := None,
                                               token := NIL_TOKEN, attempts := before.jobs[id].attempts - 1)
  }

  ghost predicate Untouched(before: Store, after: Store, id: JobId) {
    && (id in after.jobs <==> id in before.jobs) && (id in before.jobs ==> after.jobs[id] == before.jobs[id])
    && (id in after.failed <==> id in before.failed) && (id in before.failed ==> after.failed[id] == before.failed[id])
    && (id in after.acknowledged <==> id in before.acknowledged)
  }

  /** Every outcome has landed on its own row, and no other row has changed. */
  ghost predicate Written(before: Store, after: Store, outcomes: seq<Outcome>) {
    && after.created == before.created
    && (forall i :: 0 <= i < |outcomes| ==> Landed(before, after, outcomes[i]))
    && forall id :: (forall i :: 0 <= i < |outcomes| ==> outcomes[i].jobId != id) ==> Untouched(before, after, id)
  }

  lemma OutcomeLands(s: Store, token: LeaseToken, now: Time, outcomes: seq<Outcome>, i: nat)
    requires Commits(s, token, now, outcomes) && Keyed(s.jobs) && i < |outcomes|
    ensures Landed(s, Step(s, Finalize(token, now, outcomes)), outcomes[i])
  {
    OutcomeForIndex(outcomes, i);
    CommittedEffect(s, token, now, outcomes, outcomes[i].jobId);
  }

  lemma UnnamedStays(s: Store, token: LeaseToken, now: Time, outcomes: seq<Outcome>, id: JobId)
    requires Commits(s, token, now, outcomes) && forall i :: 0 <= i < |outcomes| ==> outcomes[i].jobId != id
    ensures Untouched(s, Step(s, Finalize(token, now, outcomes)), id)
  {
    OutcomeForFinds(outcomes, id);
    CommittedEffect(s, token, now, outcomes, id);
  }

  /** What a committed batch does, row by row. */
  lemma CommitWrites(s: Store, token: LeaseToken, now: Time, outcomes: seq<Outcome>)
    requires Commits(s, token, now, outcomes) && Keyed(s.jobs)
    ensures Written(s, Step(s, Finalize(token, now, outcomes)), outcomes)
  {
    var after := Step(s, Finalize(token, now, outcomes));
    forall i | 0 <= i < |outcomes| ensures Landed(s, after, outcomes[i]) {
      OutcomeLands(s, token, now, outcomes, i);
    }
    forall id | forall i :: 0 <= i < |outcomes| ==> outcomes[i].jobId != id ensures Untouched(s, after, id) {
      UnnamedStays(s, token, now, outcomes, id);
    }
  }

  lemma CommitIsRecordable(s: Store, token: LeaseToken, now: Time, copies: seq<Job>, outcomes: seq<Outcome>)
    requires Commits(s, token, now, outcomes) && DlqJobsKnown(copies, outcomes)
    ensures WithRecords(s.failed, JobsById(copies), outcomes).Some?
  {
    forall i | 0 <= i < |outcomes| ensures Recordable(s.failed, JobsById(copies), outcomes[i]) {
      assert Applicable(s, token, now, outcomes[i]);
    }
    RecordsInserted(s.failed, JobsById(copies), outcomes);
  }

  /** The inserted records are the ones the protocol step describes. */
  lemma CommittedRecords(s: Store, token: LeaseToken, now: Time, copies: seq<Job>, outcomes: seq<Outcome>)
    requires Commits(s, token, now, outcomes) && CopiesOf(s.jobs, copies) && DlqJobsKnown(copies, outcomes)
    ensures WithRecords(s.failed, JobsById(copies), outcomes)
         == Some(Step(s, Finalize(token, now, outcomes)).failed)
  {
    CommitIsRecordable(s, token, now, copies, outcomes);
    var after, step := WithRecords(s.failed, JobsById(copies), outcomes).value,
                       Step(s, Finalize(token, now, outcomes)).failed;
    forall id
      ensures id in after <==> id in step
      ensures id in after ==> after[id] == step[id]
    {
      RecordAt(s, token, now, copies, outcomes, id);
    }
    assert after == step;
  }

  lemma RecordAt(s: Store, token: LeaseToken, now: Time, copies: seq<Job>, outcomes: seq<Outcome>, id: JobId)
    requires Commits(s, token, now, outcomes) && CopiesOf(s.jobs, copies) && DlqJobsKnown(copies, outcomes)
    requires WithRecords(s.failed, JobsById(copies), outcomes).Some?
    ensures var after, step := WithRecords(s.failed, JobsById(copies), outcomes).value,
                               Step(s, Finalize(token, now, outcomes)).failed;
      (id in after <==> id in step) && (id in after ==> after[id] == step[id])
  {
    CommittedEffect(s, token, now, outcomes, id);
    RecordsInserted(s.failed, JobsById(copies), outcomes);
    RecordsCopied(s.failed, JobsById(copies), outcomes);
    OutcomeForFinds(outcomes, id);
    if HasRecord(outcomes, id) {
      var i :| 0 <= i < |outcomes| && outcomes[i].kind.Dlq? && outcomes[i].jobId == id;
      OutcomeForIndex(outcomes, i);
      JobsByIdFinds(copies, id);
      assert Applicable(s, token, now, outcomes[i]);
    }
  }

  /** The whole request takes effect exactly when the batch commits. */
  lemma CountDecidesCommit(s: Store, token: LeaseToken, now: Time, copies: seq<Job>, outcomes: seq<Outcome>)
    requires ValidRequest(token, outcomes)
    ensures WithRecords(s.failed, JobsById(copies), outcomes).Some?
            && TwoStatements(s.jobs, token, now, outcomes).1 == |outcomes|
       <==> Commits(s, token, now, outcomes) && DlqJobsKnown(copies, outcomes)
  {
    RecordsInserted(s.failed, JobsById(copies), outcomes);
    TwoStatementsAreOneSnapshot(s.jobs, token, now, outcomes);
    FullCountMeansAllReady(s.jobs, token, now, outcomes);
    forall i | 0 <= i < |outcomes|
      ensures && Applicable(s, token, now, outcomes[i])
              && (outcomes[i].kind.Dlq? ==> outcomes[i].jobId in JobsById(copies))
         <==> RowReady(s.jobs, token, now, outcomes[i]) && Recordable(s.failed, JobsById(copies), outcomes[i])
    {
    }
  }

  lemma DeadLetterRows(s: Store, id: JobId, token: LeaseToken, now: Time, reason: string)
    requires Keyed(s.jobs) && token != NIL_TOKEN && id !in s.failed && id in s.jobs && LeaseLive(s.jobs[id], token, now)
    ensures Step(s, DeadLetter(id, token, now, reason)).jobs == s.jobs - {id}
    ensures Step(s, DeadLetter(id, token, now, reason)).acknowledged == s.acknowledged
  {
  }

  lemma DeadLetterRecord(s: Store, id: JobId, token: LeaseToken, now: Time, reason: string)
    requires token != NIL_TOKEN && id !in s.failed && id in s.jobs && LeaseLive(s.jobs[id], token, now)
    ensures Step(s, DeadLetter(id, token, now, reason)).failed
         == s.failed[id := FailedJob(id, s.jobs[id].capability, s.jobs[id].payload, reason)]
  {
  }

  /** What dead-lettering one held job does. */
  lemma DeadLetterIs(s: Store, copy: Job, token: LeaseToken, now: Time, reason: string)
    requires Keyed(s.jobs) && CopiesOf(s.jobs, [copy]) && token != NIL_TOKEN && copy.id !in s.failed
    requires copy.id in s.jobs && LeaseLive(s.jobs[copy.id], token, now)
    ensures EffectOn(s, DeadLetter(copy.id, token, now, reason), copy.id).Failed?
    ensures Step(s, DeadLetter(copy.id, token, now, reason))
         == s.(jobs := s.jobs - {copy.id},
               failed := s.failed[copy.id := FailedJob(copy.id, copy.capability, copy.payload, reason)])
  {
    assert copy in [copy];
    DeadLetterRows(s, copy.id, token, now, reason);
    DeadLetterRecord(s, copy.id, token, now, reason);
  }

  /** The `jobs` and `jobs_failed` tables, with the history of creations and ACKs as ghost state. */
  class Database {
    var jobs: Rows
    var failed: map<JobId, FailedJob>
    ghost var acknowledged: set<JobId>
    ghost var created: set<JobId>

    ghost function Contents(): Store
      reads this
    {
      Store(jobs, failed, acknowledged, created)
    }

    constructor ()
      ensures Contents() == EMPTY_STORE
    {
      jobs, failed, acknowledged, created := map[], map[], {}, {};
    }

    /** Inserts one record per DLQ outcome, stopping at the first that fails. */
    method CreateDlqRecords(copies: seq<Job>, outcomes: seq<Outcome>) returns (ok: bool)
      modifies this`failed
      ensures ok <==> WithRecords(old(failed), JobsById(copies), outcomes).Some?
      ensures ok ==> failed == WithRecords(old(failed), JobsById(copies), outcomes).value
    {
      var jobsById: Rows := map[];
      for i := 0 to |copies|
        invariant jobsById == JobsById(copies[..i])
        invariant failed == old(failed)
      {
        assert copies[..i + 1][..i] == copies[..i];
        jobsById := jobsById[copies[i].id := copies[i]];
      }
      assert copies[..|copies|] == copies;
      for i := 0 to |outcomes|
        invariant WithRecords(old(failed), jobsById, outcomes[..i]) == Some(failed)
      {
        assert outcomes[..i + 1][..i] == outcomes[..i];
        if !outcomes[i].kind.Dlq? {
          continue;
        }
        if outcomes[i].jobId !in jobsById || outcomes[i].jobId in failed {
          RecordsStop(old(failed), jobsById, outcomes, i + 1);
          return false;
        }
        failed := failed[outcomes[i].jobId := Record(jobsById[outcomes[i].jobId], outcomes[i])];
      }
      assert outcomes[..|outcomes|] == outcomes;
      return true;
    }

    /** All or nothing: either every outcome of the batch and all its DLQ records take effect, which
     *  happens exactly when the request is valid and every named row is still owned, or the tables
     *  are as they were.
     */
    method ApplyExecutionBatchOutcomes(token: LeaseToken, now: Time, copies: seq<Job>, outcomes: seq<Outcome>)
      returns (ok: bool)
      requires Keyed(jobs) && CopiesOf(jobs, copies)
      modifies this
      ensures ok <==> old(Commits(Contents(), token, now, outcomes)) && DlqJobsKnown(copies, outcomes)
      ensures Contents() == if ok then Step(old(Contents()), Finalize(token, now, outcomes)) else old(Contents())
      ensures ok ==> Written(old(Contents()), Contents(), outcomes)
    {
      ghost var before := Contents();
      var savedJobs, savedFailed := jobs, failed;
      ok := CreateDlqRecords(copies, outcomes);
      if ok {
        if ValidRequest(token, outcomes) {
          var (rows, affected) := TwoStatements(jobs, token, now, outcomes);
          jobs := rows;
          ok := affected == |outcomes|;
          CountDecidesCommit(before, token, now, copies, outcomes);
        } else {
          ok := false;
        }
      } else if ValidRequest(token, outcomes) {
        CountDecidesCommit(before, token, now, copies, outcomes);
      }
      if ok {
        CommitWrites(before, token, now, outcomes);
        CommittedRows(before, token, now, outcomes);
        CommittedRecords(before, token, now, copies, outcomes);
        TwoStatementsAreOneSnapshot(before.jobs, token, now, outcomes);
        acknowledged := Step(before, Finalize(token, now, outcomes)).acknowledged;
      } else {
        jobs, failed := savedJobs, savedFailed;
      }
    }

    /** The single-job DLQ transaction: record and delete together, or neither. */
    method DeadLetterJob(copy: Job, token: LeaseToken, now: Time, reason: string) returns (ok: bool)
      requires Keyed(jobs) && CopiesOf(jobs, [copy]) && token != NIL_TOKEN
      modifies this
      ensures ok <==> old(EffectOn(Contents(), DeadLetter(copy.id, token, now, reason), copy.id)).Failed?
      ensures ok <==> && copy.id in old(jobs) && old(jobs)[copy.id].token == token && copy.id !in old(failed)
                      && old(jobs)[copy.id].reservedAt.Some? && old(jobs)[copy.id].reservedAt.value > now
      ensures ok ==> jobs == old(jobs) - {copy.id}
                     && failed == old(failed)[copy.id := FailedJob(copy.id, copy.capability, copy.payload, reason)]
      ensures Contents() == if ok then Step(old(Contents()), DeadLetter(copy.id, token, now, reason))
                            else old(Contents())
    {
      ghost var before := Contents();
      var savedFailed := failed;
      if copy.id in failed {
        return false;
      }
      failed := failed[copy.id := FailedJob(copy.id, copy.capability, copy.payload, reason)];
      if copy.id in jobs && LeaseLive(jobs[copy.id], token, now) {
        assert copy in [copy];
        DeadLetterIs(before, copy, token, now, reason);
        jobs := jobs - {copy.id};
        return true;
      }
      failed := savedFailed;
      return false;
    }
  }

  lemma {:induction false} RecordsStop(failed: map<JobId, FailedJob>, copies: Rows, outcomes: seq<Outcome>, n: nat)
    requires n <= |outcomes| && WithRecords(failed, copies, outcomes[..n]).None?
    ensures WithRecords(failed, copies, outcomes).None?
  {
    if n == |outcomes| {
      assert outcomes[..n] == outcomes;
    } else {
      var init := outcomes[..|outcomes| - 1];
      assert init[..n] == outcomes[..n];
      RecordsStop(failed, copies, init, n);
    }
  }

  // ----- without a transaction

  /** The same two writes when the transactor only calls its callback: the record stays behind. */
  function NonAtomicDeadLetter(s: Store, copy: Job, token: LeaseToken, now: Time, reason: string): Store {
    var recorded := s.(failed := s.failed[copy.id := FailedJob(copy.id, copy.capability, copy.payload, reason)]);
    if copy.id in s.jobs && LeaseLive(s.jobs[copy.id], token, now) then recorded.(jobs := s.jobs - {copy.id})
    else recorded
  }

  /** A job dead-lettered without a transaction stays in one place exactly when its lease is still
   *  held, or it was already dead.
   */
  lemma NonAtomicIsSafeIffHeld(s: Store, copy: Job, token: LeaseToken, now: Time, reason: string)
    requires !PlaceOf(s, copy.id).Torn?
    ensures !PlaceOf(NonAtomicDeadLetter(s, copy, token, now, reason), copy.id).Torn?
       <==> PlaceOf(s, copy.id).Dead? || (copy.id in s.jobs && LeaseLive(s.jobs[copy.id], token, now))
  {
  }

  /** A run in which a slow worker's lease expired before it wrote its record. */
  lemma NonAtomicTearsJob()
    ensures
      var calls := [Create(1, Capability("mail", 1), "", 1, 1), Claim({1}, 7, 1, 5)];
      1 in Run(calls).jobs &&
      var s := NonAtomicDeadLetter(Run(calls), Run(calls).jobs[1], 7, 6, "late");
      1 in s.jobs && 1 in s.failed
  {
    var create, claim := Create(1, Capability("mail", 1), "", 1, 1), Claim({1}, 7, 1, 5);
    assert [create, claim][..1] == [create] && [create][..0] == [];
    assert Run([create]) == Step(EMPTY_STORE, create);
    assert EffectOn(EMPTY_STORE, create, 1).Created?;
    assert Run([create]).jobs[1].reservedAt.None?;
    assert Run([create, claim]) == Step(Run([create]), claim);
    assert EffectOn(Run([create]), claim, 1).Claimed?;
  }
}
