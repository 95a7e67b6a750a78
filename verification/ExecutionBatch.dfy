/** One handler batch from claim to release: collect, admit, handle, finish, write; hand back what never started. */
module ExecutionBatch {
  import opened Jobs
  import opened Ordering
  import opened ClaimQueries
  import opened BoundedClaims
  import opened JobTable
  import opened LeaseSpec
  import opened LeaseLedger
  import opened Transactions
  import opened Settlement
  import Collector
  import Finalization
  import ReservationBatch
  import BatchResult

  /** What was claimed first, and how the claim was checked. */
  datatype FirstClaim = FirstClaim(jobs: seq<Job>, capability: Capability, token: LeaseToken, checked: seq<Time>)

  /** Everything the batch meets after its claim. */
  datatype Encounter = Encounter(
    answers: seq<Collector.Answer>,
    beats: seq<ReservationBatch.Beat>, before: Start, now: Time, ensureNow: Time, reply: Reply, after: Time,
    last: Start,
    during: seq<ReservationBatch.Beat>, cancelled: bool, panicked: bool, answer: BatchResult.Answer,
    finished: Time, deferUntil: Time, maxAttempts: int, delayOf: JobId -> int, textOf: JobId -> string,
    writing: Circumstances, releaseFails: bool, released: nat)

  predicate ClocksRun(e: Encounter) {
    && (forall i :: 0 <= i < |e.answers| ==> Collector.WellClocked(e.answers[i]))
    && ReservationBatch.BeatsRun(e.beats) && ReservationBatch.BeatsRun(e.during)
    && e.now > ZERO_TIME && e.ensureNow > ZERO_TIME && e.after > ZERO_TIME
    && e.finished > ZERO_TIME && e.deferUntil >= e.finished && e.writing.now > ZERO_TIME && e.writing.after > ZERO_TIME
  }

  /** How far the batch came. The handler was called exactly when it began. */
  datatype Ending = NotClaimed | FillFailed | NotAdmitted | Began

  ghost predicate Claimable(claim: FirstClaim, config: Collector.Config)
    requires |claim.checked| == |claim.jobs|
  {
    && Collector.ClaimAcceptable(claim.jobs, claim.capability, claim.token, Collector.ClaimLimit(config, 0),
                                 claim.checked)
    && (config.bounded ==> PayloadAdmissible(claim.jobs, config.maxBytes))
  }

  method CheckClaim(claim: FirstClaim, config: Collector.Config) returns (ok: bool)
    requires |claim.checked| == |claim.jobs|
    ensures ok <==> Claimable(claim, config)
  {
    ok := Collector.ValidateClaimedBatch(claim.jobs, claim.capability, claim.token, Collector.ClaimLimit(config, 0),
                                         claim.checked);
    if ok && config.bounded {
      ok := ValidateBoundedPayload(claim.jobs, config.maxBytes);
    }
  }

  /** The rows that may end up in the batch are stored rows, and copies of what the tables hold. */
  ghost predicate RowsKnown(rows: Finalization.Rows, jobs: seq<Job>) {
    CopiesOf(rows, jobs) && forall job :: job in jobs ==> job.id != NIL_ID
  }

  lemma KnownParts(rows: Finalization.Rows, a: seq<Job>, b: seq<Job>)
    requires RowsKnown(rows, a) && RowsKnown(rows, b)
    ensures RowsKnown(rows, a + b)
  {
  }

  /** What a batch selected came with some answer. */
  lemma {:induction false} SelectionIsKnown(rows: Finalization.Rows, splits: seq<Collector.Split>,
                                            claims: seq<seq<Job>>)
    requires Collector.Claimed(splits) == claims && Collector.SplitsExact(splits)
    requires forall claim :: claim in claims ==> RowsKnown(rows, claim)
    ensures RowsKnown(rows, Collector.Selected(splits))
  {
    if splits != [] {
      var n := |splits| - 1;
      assert Collector.Claimed(splits[..n]) == claims[..n];
      SelectionIsKnown(rows, splits[..n], claims[..n]);
      assert claims[n] in claims && claims[n] == splits[n].selected + splits[n].tail;
      assert RowsKnown(rows, splits[n].selected) by {
        assert forall job :: job in splits[n].selected ==> job in claims[n];
      }
      KnownParts(rows, Collector.Selected(splits[..n]), splits[n].selected);
    }
  }

  lemma {:induction false} ClaimsAreKnown(rows: Finalization.Rows, answers: seq<Collector.Answer>)
    requires forall i :: 0 <= i < |answers| && answers[i].Rows? ==> RowsKnown(rows, answers[i].jobs)
    ensures forall claim :: claim in Collector.Claims(answers) ==> RowsKnown(rows, claim)
  {
    if answers != [] {
      ClaimsAreKnown(rows, answers[..|answers| - 1]);
    }
  }

  /** Every row of a collected batch is known. */
  lemma BatchIsKnown(rows: Finalization.Rows, config: Collector.Config, initial: seq<Job>, batch: Collector.Batch,
                     answers: seq<Collector.Answer>, n: nat)
    requires n <= |answers| && Collector.Progress(config, initial, batch)
    requires Collector.Claimed(batch.splits) == Collector.Claims(answers[..n])
    requires RowsKnown(rows, initial)
    requires forall i :: 0 <= i < |answers| && answers[i].Rows? ==> RowsKnown(rows, answers[i].jobs)
    ensures RowsKnown(rows, batch.jobs)
  {
    ClaimsAreKnown(rows, answers[..n]);
    SelectionIsKnown(rows, batch.splits, Collector.Claims(answers[..n]));
    KnownParts(rows, initial, Collector.Selected(batch.splits));
  }

  /** Sorting the batch into queue order keeps its rows. */
  lemma SortedBatch(rows: Finalization.Rows, jobs: seq<Job>)
    requires RowsKnown(rows, jobs) && Distinct(Ids(jobs))
    ensures var sorted := OrderBy(jobs, NotAfter);
      && multiset(sorted) == multiset(jobs) && |sorted| == |jobs|
      && RowsKnown(rows, sorted) && NoDuplicates(Ids(sorted))
  {
    var sorted := OrderBy(jobs, NotAfter);
    QueueOrderIsTotal();
    OrderBySorts(jobs, NotAfter);
    DistinctIffFull(Ids(jobs));
    EachPermutation((job: Job) => job.id, jobs, sorted);
    DistinctPermutation(Ids(jobs), Ids(sorted));
  }

  /** Releasing everything the ledger owns. */
  method ReleaseAll(ledger: Ledger, ghost held: seq<Job>, fails: bool, affected: nat) returns (requested: seq<JobId>)
    requires Collector.Owns(ledger, held)
    modifies ledger`outstanding, ledger`earliestUntil
    ensures requested == Ids(held)
  {
    OwnedAll(ledger.ordered, ledger.outstanding);
    var released;
    released, requested := ledger.ReleaseUnstarted(fails, affected);
  }

  function Delays(jobs: seq<Job>, e: Encounter): (delays: seq<int>)
    ensures |delays| == |jobs|
  {
    Each((job: Job) => e.delayOf(job.id), jobs)
  }

  function Texts(jobs: seq<Job>, e: Encounter): (texts: seq<string>)
    ensures |texts| == |jobs|
  {
    Each((job: Job) => e.textOf(job.id), jobs)
  }

  /** The outcomes the handler's answer leads to, if any. */
  ghost predicate Answered(jobs: seq<Job>, e: Encounter, outcomes: Option<seq<Outcome>>,
                           reports: seq<BatchResult.Report>)
  {
    BatchResult.Finished(jobs, e.answer, e.finished, e.deferUntil, e.maxAttempts, Delays(jobs, e), Texts(jobs, e),
                         outcomes, reports)
  }

  /** The outcomes can be written: the leases are secured for long enough and every named row is still held. */
  ghost predicate Lands(book: Book, s: Store, token: LeaseToken, jobs: seq<Job>, outcomes: seq<Outcome>,
                        c: Circumstances)
  {
    SecuredFor(book, outcomes, c).0.Ok? && DlqJobsKnown(jobs, outcomes) && Commits(s, token, c.written, outcomes)
  }

  /** What becomes of a batch whose handler came back with the ledger at `book`: its outcomes are written exactly when
   *  the handler came back in time, its answer leads to outcomes, and they land.
   */
  ghost predicate Concluded(book: Book, s: Store, token: LeaseToken, jobs: seq<Job>, e: Encounter,
                            outcomes: Option<seq<Outcome>>, reports: seq<BatchResult.Report>,
                            done: Option<seq<Outcome>>)
  {
    if e.cancelled || e.panicked then done.None?
    else
      && Answered(jobs, e, outcomes, reports)
      && done == if outcomes.Some? && Lands(book, s, token, jobs, outcomes.value, e.writing) then outcomes else None
  }

  /** What was written says for each job what its item asked for, and the tables show it. */
  ghost predicate Performed(before: Store, after: Store, jobs: seq<Job>, e: Encounter, done: seq<Outcome>) {
    && Written(before, after, done) && BatchResult.FinishFits(jobs, e.answer, done, e.maxAttempts)
    && (e.answer.topLevel.NoError? ==>
          BatchResult.AllHonoured(jobs, e.answer.items, done, e.finished, e.maxAttempts, Delays(jobs, e),
                                  Texts(jobs, e)))
  }

  /** The inputs fix it. */
  lemma ConclusionIsUnique(book: Book, s: Store, token: LeaseToken, jobs: seq<Job>, e: Encounter,
                           outcomes: Option<seq<Outcome>>, reports: seq<BatchResult.Report>,
                           done: Option<seq<Outcome>>, outcomes': Option<seq<Outcome>>,
                           reports': seq<BatchResult.Report>, done': Option<seq<Outcome>>)
    requires Concluded(book, s, token, jobs, e, outcomes, reports, done)
    requires Concluded(book, s, token, jobs, e, outcomes', reports', done')
    ensures done == done'
  {
    if !e.cancelled && !e.panicked {
      BatchResult.FinishedIsUnique(jobs, e.answer, e.finished, e.deferUntil, e.maxAttempts, Delays(jobs, e),
                                   Texts(jobs, e), outcomes, reports, outcomes', reports');
    }
  }

  /** From the call of the handler on. However it ends, the ledger owns nothing afterwards: what was handled is written,
   *  or left to the expiry of its lease.
   */
  method HandleAndFinish(ledger: Ledger, db: Database, jobs: seq<Job>, e: Encounter)
    returns (done: Option<seq<Outcome>>, ghost outcomes: Option<seq<Outcome>>, ghost reports: seq<BatchResult.Report>)
    requires ledger.Valid() && ClocksRun(e) && Keyed(db.jobs) && RowsKnown(db.jobs, jobs) && NoDuplicates(Ids(jobs))
    modifies ledger`outstanding, ledger`earliestUntil, ledger`cancelled, db
    ensures ledger.Valid() && ledger.outstanding == map[]
    ensures Concluded(ReservationBatch.Beaten(old(ledger.State()), ledger.reserveFor, e.during), old(db.Contents()),
                      ledger.token, jobs, e, outcomes, reports, done)
    ensures done.Some? ==> Performed(old(db.Contents()), db.Contents(), jobs, e, done.value)
    ensures db.Contents()
         == if done.Some? then Step(old(db.Contents()), Finalize(ledger.token, e.writing.written, done.value))
            else old(db.Contents())
  {
    ReservationBatch.Beats(ledger, e.during);
    done, outcomes, reports := None, None, [];
    if !e.cancelled && !e.panicked {
      done, outcomes, reports := FinishAndSettle(ledger, db, jobs, e);
    }
    if done.None? {
      ledger.ForgetAll();
    }
  }

  method FinishAndSettle(ledger: Ledger, db: Database, jobs: seq<Job>, e: Encounter)
    returns (done: Option<seq<Outcome>>, ghost outcomes: Option<seq<Outcome>>, ghost reports: seq<BatchResult.Report>)
    requires ledger.Valid() && ClocksRun(e) && Keyed(db.jobs) && RowsKnown(db.jobs, jobs) && NoDuplicates(Ids(jobs))
    requires !e.cancelled && !e.panicked
    modifies ledger`outstanding, ledger`earliestUntil, ledger`cancelled, db
    ensures ledger.Valid() && (done.Some? ==> ledger.outstanding == map[])
    ensures Concluded(old(ledger.State()), old(db.Contents()), ledger.token, jobs, e, outcomes, reports, done)
    ensures done.Some? ==> Performed(old(db.Contents()), db.Contents(), jobs, e, done.value)
    ensures db.Contents()
         == if done.Some? then Step(old(db.Contents()), Finalize(ledger.token, e.writing.written, done.value))
            else old(db.Contents())
  {
    var decided;
    decided, reports := BatchResult.Finish(jobs, e.answer, e.finished, e.deferUntil, e.maxAttempts, Delays(jobs, e),
                                           Texts(jobs, e));
    outcomes := decided;
    if decided.None? {
      return None, outcomes, reports;
    }
    var settled := Settle(ledger, db, jobs, decided.value, e.writing);
    return if settled then decided else None, outcomes, reports;
  }

  /** The admission of the batch, from the ledger as collecting left it. */
  ghost function Asked(book: Book, reserveFor: nat, e: Encounter): (Verdict, Book) {
    Admission(ReservationBatch.Beaten(book, reserveFor, e.beats), reserveFor, e.before, e.now, e.ensureNow, e.reply,
              e.after, e.last)
  }

  /** Exactly what the batch needs to begin: no stop before or after, and leases that last. */
  ghost predicate GrantedTo(book: Book, reserveFor: nat, e: Encounter) {
    Granted(ReservationBatch.Beaten(book, reserveFor, e.beats), reserveFor, e.before, e.now, e.ensureNow, e.reply,
            e.after, e.last)
  }

  /** Heartbeats and admission keep what the ledger owns. */
  method AdmitBatch(ledger: Ledger, ghost jobs: seq<Job>, e: Encounter) returns (ok: bool)
    requires Collector.Owns(ledger, jobs) && ClocksRun(e)
    modifies ledger`outstanding, ledger`earliestUntil, ledger`cancelled
    ensures Collector.Owns(ledger, jobs)
    ensures ok <==> Asked(old(ledger.State()), ledger.reserveFor, e).0.Ok?
    ensures ledger.State() == Asked(old(ledger.State()), ledger.reserveFor, e).1
    ensures ok <==> GrantedTo(old(ledger.State()), ledger.reserveFor, e)
    ensures ok ==> Covered(ledger.outstanding, e.now + ledger.reserveFor / 3)
  {
    ReservationBatch.BeatsKeepKeys(ledger.State(), ledger.reserveFor, e.beats);
    ReservationBatch.Beats(ledger, e.beats);
    AdmissionKeepsKeys(ledger.State(), ledger.reserveFor, e.before, e.now, e.ensureNow, e.reply, e.after, e.last);
    AdmissionIsCovered(ledger.State(), ledger.reserveFor, e.before, e.now, e.ensureNow, e.reply, e.after, e.last);
    var verdict := ledger.Admit(e.before, e.now, e.ensureNow, e.reply, e.after, e.last);
    ok := verdict.Ok?;
  }

  method NewLedger(claim: FirstClaim, reserveFor: nat) returns (ledger: Ledger)
    requires |claim.checked| == |claim.jobs| && Distinct(Ids(claim.jobs))
    requires forall i :: 0 <= i < |claim.jobs| ==> LeaseLive(claim.jobs[i], claim.token, claim.checked[i])
    requires forall i :: 0 <= i < |claim.checked| ==> claim.checked[i] > ZERO_TIME
    ensures fresh(ledger) && Collector.Tracks(ledger, claim.jobs)
    ensures ledger.token == claim.token && ledger.reserveFor == reserveFor
  {
    ledger := new Ledger(claim.jobs, claim.token, reserveFor);
  }

  function Opening(claim: FirstClaim): Collector.Batch {
    Collector.Batch(claim.jobs, PayloadBytes(claim.jobs), [])
  }

  ghost predicate AllConsumed(claim: FirstClaim, config: Collector.Config, e: Encounter, trail: seq<Collector.Stage>) {
    Collector.Consumed(config, claim.capability, claim.token, Opening(claim), e.answers, trail)
  }

  /** The rows the ledger tracks once collecting has ended. */
  ghost function HeldRows(claim: FirstClaim, config: Collector.Config, e: Encounter, trail: seq<Collector.Stage>)
    : seq<Job>
    requires AllConsumed(claim, config, e, trail)
  {
    assert trail != [] ==>
             Collector.Led(config, claim.capability, claim.token, Opening(claim), e.answers, trail, |trail| - 1);
    Collector.HeldAfter(config, claim.capability, claim.token, Opening(claim), e.answers, trail)
  }

  /** How collecting the batch went. */
  ghost predicate Collected(claim: FirstClaim, config: Collector.Config, e: Encounter, batch: Collector.Batch,
                            trail: seq<Collector.Stage>, ok: bool)
  {
    && AllConsumed(claim, config, e, trail)
    && batch == Collector.BatchAfter(Opening(claim), trail)
    && (ok <==> trail == [] || !trail[|trail| - 1].next.Failed?)
  }

  method Collect(ledger: Ledger, claim: FirstClaim, config: Collector.Config, e: Encounter,
                 ghost rows: Finalization.Rows)
    returns (batch: Collector.Batch, ok: bool, ghost trail: seq<Collector.Stage>, ghost held: seq<Job>)
    requires Collector.Tracks(ledger, claim.jobs) && ledger.token == claim.token && ClocksRun(e)
    requires 1 <= |claim.jobs| <= config.maxMessages && RowsKnown(rows, claim.jobs)
    requires forall i :: 0 <= i < |e.answers| && e.answers[i].Rows? ==> RowsKnown(rows, e.answers[i].jobs)
    modifies ledger`ordered, ledger`outstanding, ledger`earliestUntil
    ensures Collected(claim, config, e, batch, trail, ok) && RowsKnown(rows, batch.jobs)
    ensures Collector.Tracks(ledger, held) && held == HeldRows(claim, config, e, trail)
    ensures ok ==> held == batch.jobs
    ensures forall job :: job in batch.jobs ==> job in claim.jobs || Collector.RowFits(job, claim.capability,
                                                                                       claim.token)
  {
    batch, ok, trail, held := Collector.Fill(ledger, config, claim.capability, claim.jobs, e.answers);
    BatchIsKnown(rows, config, claim.jobs, batch, e.answers,
                 Collector.Kept(Opening(claim), e.answers, trail));
  }

  /** The ledger when the handler comes back, if the batch was collected with the ledger `book`. */
  ghost function Returned(book: Book, reserveFor: nat, e: Encounter): Book {
    ReservationBatch.Beaten(Asked(book, reserveFor, e).1, reserveFor, e.during)
  }

  /** Admission, and what follows from it. */
  method RunCollected(ledger: Ledger, db: Database, jobs: seq<Job>, e: Encounter)
    returns (began: bool, requested: seq<JobId>, done: Option<seq<Outcome>>, ghost outcomes: Option<seq<Outcome>>,
             ghost reports: seq<BatchResult.Report>)
    requires Collector.Owns(ledger, jobs) && ClocksRun(e) && Keyed(db.jobs) && RowsKnown(db.jobs, jobs)
    modifies ledger`outstanding, ledger`earliestUntil, ledger`cancelled, db
    ensures began <==> Asked(old(ledger.State()), ledger.reserveFor, e).0.Ok?
    ensures began <==> GrantedTo(old(ledger.State()), ledger.reserveFor, e)
    ensures requested == if began then [] else Ids(jobs)
    ensures if began then Concluded(Returned(old(ledger.State()), ledger.reserveFor, e), old(db.Contents()),
                                    ledger.token, OrderBy(jobs, NotAfter), e, outcomes, reports, done)
            else done.None?
    ensures done.Some? ==> Performed(old(db.Contents()), db.Contents(), OrderBy(jobs, NotAfter), e, done.value)
    ensures db.Contents()
         == if done.Some? then Step(old(db.Contents()), Finalize(ledger.token, e.writing.written, done.value))
            else old(db.Contents())
  {
    began := AdmitBatch(ledger, jobs, e);
    done, outcomes, reports := None, None, [];
    if !began {
      requested := ReleaseAll(ledger, jobs, e.releaseFails, e.released);
      return;
    }
    SortedBatch(db.jobs, jobs);
    done, outcomes, reports := HandleAndFinish(ledger, db, OrderBy(jobs, NotAfter), e);
    OwnedNone(ledger.ordered, ledger.outstanding);
    var released;
    released, requested := ledger.ReleaseUnstarted(e.releaseFails, e.released);
  }

  /** Started work is never refunded, for handler batches: once the handler was called, nothing is released. Before
   *  that, a failed collection releases the batch with those leading rows of a rejected last claim that had joined the
   *  ledger, and a refused admission releases exactly the batch. Admission is decided on the deadlines of the claims.
   *  The tables change only through the outcomes of a batch that began, all of them in one step, and exactly when they
   *  can be written.
   */
  method Process(db: Database, claim: FirstClaim, config: Collector.Config, reserveFor: nat, e: Encounter)
    returns (ending: Ending, requested: seq<JobId>, done: Option<seq<Outcome>>, ghost batch: Collector.Batch,
             ghost trail: seq<Collector.Stage>, ghost outcomes: Option<seq<Outcome>>,
             ghost reports: seq<BatchResult.Report>)
    requires |claim.checked| == |claim.jobs| && forall i :: 0 <= i < |claim.checked| ==> claim.checked[i] > ZERO_TIME
    requires ClocksRun(e) && Keyed(db.jobs) && RowsKnown(db.jobs, claim.jobs)
    requires forall i :: 0 <= i < |e.answers| && e.answers[i].Rows? ==> RowsKnown(db.jobs, e.answers[i].jobs)
    requires config.maxMessages >= 1
    modifies db
    ensures ending.NotClaimed? <==> !Claimable(claim, config)
    ensures ending.NotClaimed? ==> requested == []
    ensures !ending.NotClaimed? ==> Collected(claim, config, e, batch, trail, !ending.FillFailed?)
    ensures !ending.NotClaimed? ==>
              forall job :: job in batch.jobs ==> Collector.RowFits(job, claim.capability, claim.token)
    ensures ending.FillFailed? ==> requested == Ids(HeldRows(claim, config, e, trail))
    ensures ending.NotAdmitted? || ending.Began? ==>
              && (ending.Began? <==> Asked(BookOf(batch.jobs), reserveFor, e).0.Ok?)
              && (ending.Began? <==> GrantedTo(BookOf(batch.jobs), reserveFor, e))
    ensures ending.Began? ==> e.before.Clear? && e.last.Clear?
    ensures ending.NotAdmitted? ==> requested == Ids(batch.jobs)
    ensures ending.Began? ==> requested == []
    ensures if ending.Began? then Concluded(Returned(BookOf(batch.jobs), reserveFor, e), old(db.Contents()),
                                            claim.token, OrderBy(batch.jobs, NotAfter), e, outcomes, reports, done)
            else done.None?
    ensures done.Some? ==> Performed(old(db.Contents()), db.Contents(), OrderBy(batch.jobs, NotAfter), e, done.value)
    ensures db.Contents()
         == if done.Some? then Step(old(db.Contents()), Finalize(claim.token, e.writing.written, done.value))
            else old(db.Contents())
  {
    ending, requested, done, outcomes, reports := NotClaimed, [], None, None, [];
    batch, trail := Collector.Batch([], 0, []), [];
    var claimable := CheckClaim(claim, config);
    if !claimable {
      return;
    }
    Collector.AcceptedRowsFit(claim.jobs, claim.capability, claim.token, Collector.ClaimLimit(config, 0),
                              claim.checked);
    var ledger := NewLedger(claim, reserveFor);
    var filled, ok;
    ghost var held;
    filled, ok, trail, held := Collect(ledger, claim, config, e, db.jobs);
    batch := filled;
    Collector.TrackingIsOwning(ledger, held);
    if !ok {
      ending := FillFailed;
      requested := ReleaseAll(ledger, held, e.releaseFails, e.released);
      return;
    }
    var began;
    began, requested, done, outcomes, reports := RunCollected(ledger, db, filled.jobs, e);
    ending := if began then Began else NotAdmitted;
  }
}
