/** Writing the outcomes of a handler batch: the leases are secured for the whole budget, then one transaction writes
 *  every outcome, then the ledger lets go.
 */
module Settlement {
  import opened Jobs
  import opened JobTable
  import opened LeaseSpec
  import opened LeaseLedger
  import opened Transactions

  function DlqCount(outcomes: seq<Outcome>): nat {
    if outcomes == [] then 0
    else DlqCount(outcomes[..|outcomes| - 1]) + if outcomes[|outcomes| - 1].kind.Dlq? then 1 else 0
  }

  /** Five seconds, and a little more for each record that must be inserted. */
  function FinalizationBudget(outcomes: seq<Outcome>): int {
    LEASE_FINALIZATION_TIMEOUT + DlqCount(outcomes) * BATCH_DLQ_INSERT_ALLOWANCE
  }

  ghost predicate DlqAt(outcomes: seq<Outcome>, i: nat) {
    i < |outcomes| && outcomes[i].kind.Dlq?
  }

  ghost function DlqPositions(outcomes: seq<Outcome>): set<nat> {
    set i: nat | i < |outcomes| && DlqAt(outcomes, i)
  }

  lemma DlqNext(before: seq<Outcome>, next: Outcome)
    ensures DlqPositions(before + [next])
         == if next.kind.Dlq? then DlqPositions(before) + {|before|} else DlqPositions(before)
  {
    var all := before + [next];
    assert all[|before|] == next;
    forall i: nat | i < |before| ensures DlqAt(all, i) <==> DlqAt(before, i) {
      assert all[i] == before[i];
    }
  }

  lemma {:induction false} DlqCountCounts(outcomes: seq<Outcome>)
    ensures DlqCount(outcomes) == |DlqPositions(outcomes)|
  {
    if outcomes != [] {
      var n := |outcomes| - 1;
      var before, last := outcomes[..n], outcomes[n];
      assert outcomes == before + [last];
      DlqCountCounts(before);
      DlqNext(before, last);
      assert n !in DlqPositions(before);
    }
  }

  /** The allowance is for each dead-lettered job, and for nothing else. */
  lemma BudgetCounts(outcomes: seq<Outcome>)
    ensures FinalizationBudget(outcomes) == 5 * SECOND + |DlqPositions(outcomes)| * (25 * MILLISECOND)
  {
    DlqCountCounts(outcomes);
  }

  method FinalizationTimeout(outcomes: seq<Outcome>) returns (timeout: int)
    ensures timeout == FinalizationBudget(outcomes)
  {
    timeout := LEASE_FINALIZATION_TIMEOUT;
    for i := 0 to |outcomes|
      invariant timeout == FinalizationBudget(outcomes[..i])
    {
      assert outcomes[..i + 1][..i] == outcomes[..i];
      if outcomes[i].kind.Dlq? {
        timeout := timeout + BATCH_DLQ_INSERT_ALLOWANCE;
      }
    }
    assert outcomes[..|outcomes|] == outcomes;
  }

  /** When the leases of the batch must still be held: a second past the deadline of the transaction. */
  function SecuredUntil(start: Time, outcomes: seq<Outcome>): Time {
    start + FinalizationBudget(outcomes) + BATCH_FINALIZATION_MARGIN
  }

  /** What a batch meets while it is written: the clock readings, the reply to an extension, and whether the lock and
   *  the deadline were met.
   */
  datatype Circumstances = Circumstances(
    start: Time, locked: bool, now: Time, reply: Reply, after: Time, inTime: bool, written: Time)

  /** The outcomes of a batch take effect, all of them and exactly once, when the lock is taken, every lease is secured
   *  past the budget of the transaction, the deadline is met and every named row is still held. The ledger is emptied
   *  then and only then; otherwise the tables are untouched and the ledger is as securing left it.
   */
  method Settle(ledger: Ledger, db: Database, copies: seq<Job>, outcomes: seq<Outcome>, c: Circumstances)
    returns (ok: bool)
    requires ledger.Valid() && Keyed(db.jobs) && CopiesOf(db.jobs, copies) && c.now > ZERO_TIME && c.after > ZERO_TIME
    modifies ledger`outstanding, ledger`earliestUntil, ledger`cancelled, db
    ensures ledger.Valid()
    ensures var (verdict, secured) := SecuredFor(old(ledger.State()), outcomes, c);
      && (ok <==> && verdict.Ok? && DlqJobsKnown(copies, outcomes)
                  && old(Commits(db.Contents(), ledger.token, c.written, outcomes)))
      && ledger.State() == (if ok then Book(secured.ordered, map[], ZERO_TIME) else secured)
      && (ok ==> secured.outstanding != map[] && Covered(secured.outstanding, SecuredUntil(c.start, outcomes)))
    ensures db.Contents() == if ok then Step(old(db.Contents()), Finalize(ledger.token, c.written, outcomes))
                             else old(db.Contents())
    ensures ok ==> Written(old(db.Contents()), db.Contents(), outcomes)
  {
    var secured := Secure(ledger, outcomes, c);
    if !secured {
      return false;
    }
    ok := db.ApplyExecutionBatchOutcomes(ledger.token, c.written, copies, outcomes);
    if ok {
      ledger.ForgetAll();
    }
  }

  /** Securing the leases for as long as the transaction may take. */
  method Secure(ledger: Ledger, outcomes: seq<Outcome>, c: Circumstances) returns (ok: bool)
    requires ledger.Valid() && c.now > ZERO_TIME && c.after > ZERO_TIME
    modifies ledger`outstanding, ledger`earliestUntil, ledger`cancelled
    ensures ledger.Valid()
    ensures ok <==> SecuredFor(old(ledger.State()), outcomes, c).0.Ok?
    ensures ledger.State() == SecuredFor(old(ledger.State()), outcomes, c).1
    ensures ok ==> ledger.outstanding != map[] && Covered(ledger.outstanding, SecuredUntil(c.start, outcomes))
  {
    var timeout := FinalizationTimeout(outcomes);
    var until := c.start + timeout + BATCH_FINALIZATION_MARGIN;
    SecuredAllIsCovered(ledger.State(), c.locked, until, c.now, c.reply, c.after, c.inTime);
    var verdict := ledger.SecureAll(c.locked, until, c.now, c.reply, c.after, c.inTime);
    ok := verdict.Ok?;
  }

  /** The ledger with every lease secured past the budget of the transaction. */
  ghost function SecuredFor(book: Book, outcomes: seq<Outcome>, c: Circumstances): (Verdict, Book) {
    SecuredAll(book, c.locked, SecuredUntil(c.start, outcomes), c.now, c.reply, c.after, c.inTime)
  }
}
