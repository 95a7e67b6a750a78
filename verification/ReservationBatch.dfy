/** One reservation batch of ordinary jobs: admit, run and settle each claimed job in order, stop at the
 *  first failure, and release what was never started. Everything outside the service's control, the
 *  heartbeats included, is a parameter.
 */
module ReservationBatch {
  import opened Jobs
  import opened LeaseSpec
  import opened LeaseLedger

  /** A handler result, reduced to its markers. */
  datatype HandlerError = NoError | Failure(permanent: bool, deferAt: Option<Time>, retryAt: Option<Time>)

  datatype Disposition = Acknowledge | DeadLetter | Postpone | Retry | LeaveLeased

  /** What the service does with a handled job. Markers win in this order: permanent, defer, exhausted. */
  function Decide(error: HandlerError, attempts: int, maxAttempts: int, hasPolicy: bool): Disposition {
    if error.NoError? then Acknowledge
    else if error.permanent then DeadLetter
    else if error.deferAt.Some? then Postpone
    else if attempts >= maxAttempts then DeadLetter
    else if error.retryAt.Some? || hasPolicy then Retry
    else LeaveLeased
  }

  /** What each disposition means for the markers of the error. */
  predicate Deserves(error: HandlerError, attempts: int, maxAttempts: int, hasPolicy: bool, d: Disposition) {
    && (d.Acknowledge? <==> error.NoError?)
    && (d.DeadLetter? <==> error.Failure? && (error.permanent || (error.deferAt.None? && attempts >= maxAttempts)))
    && (d.Postpone? <==> error.Failure? && !error.permanent && error.deferAt.Some?)
    && (d.Retry? <==> && error.Failure? && !error.permanent && error.deferAt.None? && attempts < maxAttempts
                      && (error.retryAt.Some? || hasPolicy))
    && (d.LeaveLeased? <==> && error.Failure? && !error.permanent && error.deferAt.None? && attempts < maxAttempts
                            && error.retryAt.None? && !hasPolicy)
  }

  lemma DispositionMeans(error: HandlerError, attempts: int, maxAttempts: int, hasPolicy: bool)
    ensures Deserves(error, attempts, maxAttempts, hasPolicy, Decide(error, attempts, maxAttempts, hasPolicy))
  {
  }

  /** Attempts are consumed only below the limit, and a defer never needs one. */
  lemma RetryNeedsAttempts(error: HandlerError, attempts: int, maxAttempts: int, hasPolicy: bool)
    ensures Decide(error, attempts, maxAttempts, hasPolicy).Retry? ==> attempts < maxAttempts
    ensures Decide(error, attempts, maxAttempts, hasPolicy).Acknowledge? <==> error.NoError?
    ensures attempts >= maxAttempts && !error.NoError? && error.deferAt.None? ==>
              Decide(error, attempts, maxAttempts, hasPolicy).DeadLetter?
  {
  }

  datatype Beat = Beat(clock: Time, now: Time, reply: Reply, after: Time)

  /** Everything that happens around one job. Heartbeats come before its admission and while its handler runs. */
  datatype Script = Script(
    beats: seq<Beat>,
    supported: bool, before: Start, now: Time, ensureNow: Time, admitReply: Reply, admitAfter: Time, last: Start,
    during: seq<Beat>, error: HandlerError, maxAttempts: int, cancelled: bool, retryTimeFails: bool,
    start: Time, locked: bool, finalizeNow: Time, finalizeReply: Reply, finalizeAfter: Time, inTime: bool, done: bool)

  predicate BeatsRun(beats: seq<Beat>) {
    forall i :: 0 <= i < |beats| ==> beats[i].now > ZERO_TIME && beats[i].after > ZERO_TIME
  }

  predicate ClocksRun(script: Script) {
    && script.now > ZERO_TIME && script.ensureNow > ZERO_TIME && script.admitAfter > ZERO_TIME
    && script.finalizeNow > ZERO_TIME && script.finalizeAfter > ZERO_TIME
    && BeatsRun(script.beats) && BeatsRun(script.during)
  }

  // ----- when a job starts, and when it settles

  /** One heartbeat secures a full reservation. */
  ghost function BeatenBy(book: Book, reserveFor: nat, beat: Beat): Book {
    EnsuredTo(book, beat.now, beat.clock + reserveFor, beat.reply, beat.after).1
  }

  ghost function Beaten(book: Book, reserveFor: nat, beats: seq<Beat>): Book {
    if beats == [] then book
    else BeatenBy(Beaten(book, reserveFor, beats[..|beats| - 1]), reserveFor, beats[|beats| - 1])
  }

  /** The admission of a job, from the ledger as its turn finds it. */
  ghost function Asked(book: Book, reserveFor: nat, script: Script): (Verdict, Book) {
    Admission(Beaten(book, reserveFor, script.beats), reserveFor, script.before, script.now, script.ensureNow,
              script.admitReply, script.admitAfter, script.last)
  }

  /** The handler of the job starts. */
  ghost predicate Starts(book: Book, reserveFor: nat, script: Script) {
    script.supported && Asked(book, reserveFor, script).0.Ok?
  }

  /** The ledger when the handler is done. */
  ghost function Handled(book: Book, reserveFor: nat, script: Script): Book {
    Beaten(Asked(book, reserveFor, script).1, reserveFor, script.during)
  }

  function DispositionOf(job: Job, script: Script, hasPolicy: bool): Disposition {
    Decide(script.error, job.attempts, script.maxAttempts, hasPolicy)
  }

  /** Something is to be written for the handled job. */
  predicate Writes(job: Job, script: Script, hasPolicy: bool) {
    var disposition := DispositionOf(job, script, hasPolicy);
    !script.cancelled && !disposition.LeaveLeased? && !(disposition.Retry? && script.retryTimeFails)
  }

  /** What became of one claimed job. */
  datatype Fate = Settled(d: Disposition) | Leased | Unstarted

  /** One job's turn: its fate, whether the batch goes on, and the ledger afterwards. */
  datatype Turn = Turn(fate: Fate, goesOn: bool, after: Book)

  /** A job that starts is settled exactly when something is to be written and its finalization succeeds. Otherwise it
   *  stays leased, and the batch goes on only if that is on purpose. Either way it is forgotten; a job that does not
   *  start is not.
   */
  ghost function TurnOf(book: Book, reserveFor: nat, job: Job, script: Script, hasPolicy: bool): Turn {
    if !script.supported then Turn(Unstarted, false, Beaten(book, reserveFor, script.beats))
    else if !Starts(book, reserveFor, script) then Turn(Unstarted, false, Asked(book, reserveFor, script).1)
    else
      var handled, disposition := Handled(book, reserveFor, script), DispositionOf(job, script, hasPolicy);
      if !Writes(job, script, hasPolicy) then
        Turn(Leased, !script.cancelled && disposition.LeaveLeased?, Forgotten(handled, job.id))
      else
        var (verdict, settled) := Finalization(handled, reserveFor, job.id, script.start, script.locked,
                                               script.finalizeNow, script.finalizeReply, script.finalizeAfter,
                                               script.inTime, script.done);
        if verdict.Ok? then Turn(Settled(disposition), true, settled)
        else Turn(Leased, false, Forgotten(settled, job.id))
  }

  /** The ledger after some turns. */
  ghost function BookAfter(book: Book, turns: seq<Turn>): Book {
    if turns == [] then book else turns[|turns| - 1].after
  }

  /** Turn `i` of the plan follows from the ledger that the earlier turns leave. */
  ghost predicate Planned(book: Book, reserveFor: nat, jobs: seq<Job>, scripts: seq<Script>, hasPolicy: bool,
                          plan: seq<Turn>, i: nat) {
    && i < |plan| == |jobs| == |scripts|
    && plan[i] == TurnOf(BookAfter(book, plan[..i]), reserveFor, jobs[i], scripts[i], hasPolicy)
  }

  /** The turns of a batch as its inputs decide them, as if no turn ended it. */
  ghost predicate IsPlan(book: Book, reserveFor: nat, jobs: seq<Job>, scripts: seq<Script>, hasPolicy: bool,
                         plan: seq<Turn>) {
    && |plan| == |jobs| == |scripts|
    && forall i :: 0 <= i < |plan| ==> Planned(book, reserveFor, jobs, scripts, hasPolicy, plan, i)
  }

  /** There is exactly one plan. */
  lemma {:induction false} PlanExists(book: Book, reserveFor: nat, jobs: seq<Job>, scripts: seq<Script>,
                                      hasPolicy: bool)
    returns (plan: seq<Turn>)
    requires |jobs| == |scripts|
    ensures IsPlan(book, reserveFor, jobs, scripts, hasPolicy, plan)
    decreases |jobs|
  {
    plan := [];
    if jobs != [] {
      var n := |jobs| - 1;
      var before := PlanExists(book, reserveFor, jobs[..n], scripts[..n], hasPolicy);
      plan := before + [TurnOf(BookAfter(book, before), reserveFor, jobs[n], scripts[n], hasPolicy)];
      forall i | 0 <= i < |plan| ensures Planned(book, reserveFor, jobs, scripts, hasPolicy, plan, i) {
        assert plan[..i] == before[..i];
        assert i < n ==> Planned(book, reserveFor, jobs[..n], scripts[..n], hasPolicy, before, i);
      }
    }
  }

  lemma {:induction false} PlanIsUnique(book: Book, reserveFor: nat, jobs: seq<Job>, scripts: seq<Script>,
                                        hasPolicy: bool, a: seq<Turn>, b: seq<Turn>, n: nat)
    requires n <= |jobs| && IsPlan(book, reserveFor, jobs, scripts, hasPolicy, a)
    requires IsPlan(book, reserveFor, jobs, scripts, hasPolicy, b)
    ensures a[..n] == b[..n]
  {
    if n > 0 {
      PlanIsUnique(book, reserveFor, jobs, scripts, hasPolicy, a, b, n - 1);
      assert Planned(book, reserveFor, jobs, scripts, hasPolicy, a, n - 1);
      assert Planned(book, reserveFor, jobs, scripts, hasPolicy, b, n - 1);
      assert a[..n] == a[..n - 1] + [a[n - 1]] && b[..n] == b[..n - 1] + [b[n - 1]];
    }
  }

  lemma BeatenStep(book: Book, reserveFor: nat, beats: seq<Beat>, i: nat)
    requires i < |beats|
    ensures Beaten(book, reserveFor, beats[..i + 1])
         == BeatenBy(Beaten(book, reserveFor, beats[..i]), reserveFor, beats[i])
  {
    assert beats[..i + 1][..i] == beats[..i];
  }

  lemma {:induction false} BeatsKeepKeys(book: Book, reserveFor: nat, beats: seq<Beat>)
    ensures var after := Beaten(book, reserveFor, beats);
      after.ordered == book.ordered && after.outstanding.Keys == book.outstanding.Keys
  {
    if beats != [] {
      var before, beat := Beaten(book, reserveFor, beats[..|beats| - 1]), beats[|beats| - 1];
      BeatsKeepKeys(book, reserveFor, beats[..|beats| - 1]);
      EnsureNeverShortens(before.ordered, before.outstanding, beat.now, beat.clock + reserveFor,
                          beat.clock + reserveFor, beat.reply, beat.after);
    }
  }

  lemma AskingKeepsKeys(book: Book, reserveFor: nat, script: Script)
    ensures var after := Asked(book, reserveFor, script).1;
      after.ordered == book.ordered && after.outstanding.Keys == book.outstanding.Keys
  {
    BeatsKeepKeys(book, reserveFor, script.beats);
    AdmissionKeepsKeys(Beaten(book, reserveFor, script.beats), reserveFor, script.before, script.now, script.ensureNow,
                       script.admitReply, script.admitAfter, script.last);
  }

  lemma HandlingKeepsKeys(book: Book, reserveFor: nat, script: Script)
    ensures var after := Handled(book, reserveFor, script);
      after.ordered == book.ordered && after.outstanding.Keys == book.outstanding.Keys
  {
    AskingKeepsKeys(book, reserveFor, script);
    BeatsKeepKeys(Asked(book, reserveFor, script).1, reserveFor, script.during);
  }

  lemma FinalizationKeepsKeys(book: Book, reserveFor: nat, id: JobId, start: Time, locked: bool, now: Time,
                              reply: Reply, after: Time, inTime: bool, done: bool)
    ensures var (verdict, settled) := Finalization(book, reserveFor, id, start, locked, now, reply, after, inTime,
                                                   done);
      && settled.ordered == book.ordered
      && settled.outstanding.Keys == if verdict.Ok? then book.outstanding.Keys - {id} else book.outstanding.Keys
  {
    var required := FinalizationEnd(start);
    EnsureNeverShortens(book.ordered, book.outstanding, now, required, required + reserveFor, reply, after);
  }

  /** A job leaves the ledger in its turn exactly when its handler started. */
  lemma TurnForgetsStarted(book: Book, reserveFor: nat, job: Job, script: Script, hasPolicy: bool)
    ensures var turn := TurnOf(book, reserveFor, job, script, hasPolicy);
      && (turn.fate.Unstarted? <==> !Starts(book, reserveFor, script))
      && (turn.fate.Unstarted? ==> !turn.goesOn)
      && turn.after.ordered == book.ordered
      && turn.after.outstanding.Keys
         == if Starts(book, reserveFor, script) then book.outstanding.Keys - {job.id} else book.outstanding.Keys
  {
    BeatsKeepKeys(book, reserveFor, script.beats);
    AskingKeepsKeys(book, reserveFor, script);
    HandlingKeepsKeys(book, reserveFor, script);
    FinalizationKeepsKeys(Handled(book, reserveFor, script), reserveFor, job.id, script.start, script.locked,
                          script.finalizeNow, script.finalizeReply, script.finalizeAfter, script.inTime, script.done);
  }

  /** The batch stops at the first job that does not start, or that starts and is neither settled nor left to its lease
   *  on purpose, its error having neither a retry time nor a policy.
   */
  lemma GoesOnIff(book: Book, reserveFor: nat, job: Job, script: Script, hasPolicy: bool)
    ensures var turn := TurnOf(book, reserveFor, job, script, hasPolicy);
      turn.goesOn <==>
        || turn.fate.Settled?
        || (&& Starts(book, reserveFor, script) && !script.cancelled && script.error.Failure? && !script.error.permanent
            && script.error.deferAt.None? && job.attempts < script.maxAttempts && script.error.retryAt.None?
            && !hasPolicy)
  {
    DispositionMeans(script.error, job.attempts, script.maxAttempts, hasPolicy);
  }

  // ----- the code

  method BeatOnce(ledger: Ledger, beat: Beat)
    requires ledger.Valid() && beat.now > ZERO_TIME && beat.after > ZERO_TIME
    modifies ledger`outstanding, ledger`earliestUntil, ledger`cancelled
    ensures ledger.Valid() && ledger.State() == BeatenBy(old(ledger.State()), ledger.reserveFor, beat)
  {
    var verdict := ledger.Extend(beat.clock, beat.now, beat.reply, beat.after);
  }

  method BeatAt(ledger: Ledger, ghost book: Book, beats: seq<Beat>, i: nat)
    requires ledger.Valid() && i < |beats| && beats[i].now > ZERO_TIME && beats[i].after > ZERO_TIME
    requires ledger.State() == Beaten(book, ledger.reserveFor, beats[..i])
    modifies ledger`outstanding, ledger`earliestUntil, ledger`cancelled
    ensures ledger.Valid() && ledger.State() == Beaten(book, ledger.reserveFor, beats[..i + 1])
  {
    BeatOnce(ledger, beats[i]);
    BeatenStep(book, ledger.reserveFor, beats, i);
  }

  method Beats(ledger: Ledger, beats: seq<Beat>)
    requires ledger.Valid() && BeatsRun(beats)
    modifies ledger`outstanding, ledger`earliestUntil, ledger`cancelled
    ensures ledger.Valid() && ledger.State() == Beaten(old(ledger.State()), ledger.reserveFor, beats)
  {
    ghost var book := ledger.State();
    for i := 0 to |beats|
      invariant ledger.Valid() && ledger.State() == Beaten(book, ledger.reserveFor, beats[..i])
    {
      BeatAt(ledger, book, beats, i);
    }
    assert beats[..|beats|] == beats;
  }

  /** One job, up to the point where its handler starts. `atStart` holds the deadlines at that moment; each has a third
   *  of the reservation left.
   */
  method StartJob(ledger: Ledger, script: Script) returns (started: bool, ghost atStart: Option<Deadlines>)
    requires ledger.Valid() && ClocksRun(script)
    modifies ledger`outstanding, ledger`earliestUntil, ledger`cancelled
    ensures ledger.Valid()
    ensures started <==> Starts(old(ledger.State()), ledger.reserveFor, script)
    ensures started <==> && script.supported
                         && Granted(Beaten(old(ledger.State()), ledger.reserveFor, script.beats), ledger.reserveFor,
                                    script.before, script.now, script.ensureNow, script.admitReply, script.admitAfter,
                                    script.last)
    ensures ledger.State() == if script.supported then Asked(old(ledger.State()), ledger.reserveFor, script).1
                              else Beaten(old(ledger.State()), ledger.reserveFor, script.beats)
    ensures atStart == if started then Some(ledger.outstanding) else None
    ensures started ==> ledger.outstanding.Keys == old(ledger.outstanding).Keys && ledger.outstanding != map[]
                        && Covered(ledger.outstanding, script.now + ledger.reserveFor / 3)
  {
    ghost var book := ledger.State();
    Beats(ledger, script.beats);
    if !script.supported {
      return false, None;
    }
    AskingKeepsKeys(book, ledger.reserveFor, script);
    AdmissionIsCovered(ledger.State(), ledger.reserveFor, script.before, script.now, script.ensureNow,
                       script.admitReply, script.admitAfter, script.last);
    var verdict := ledger.Admit(script.before, script.now, script.ensureNow, script.admitReply, script.admitAfter,
                                script.last);
    return verdict.Ok?, if verdict.Ok? then Some(ledger.outstanding) else None;
  }

  /** From the start of the handler on: heartbeats go on, then the result is written or not. */
  method SettleJob(ledger: Ledger, job: Job, script: Script, hasPolicy: bool) returns (fate: Fate, ok: bool)
    requires ledger.Valid() && ClocksRun(script)
    modifies ledger`outstanding, ledger`earliestUntil, ledger`cancelled
    ensures ledger.Valid() && !fate.Unstarted?
    ensures fate.Settled? ==> && !script.cancelled && script.locked && script.inTime && script.done
                              && !(fate.d.Retry? && script.retryTimeFails) && !fate.d.LeaveLeased?
                              && Deserves(script.error, job.attempts, script.maxAttempts, hasPolicy, fate.d)
    ensures var handled := Beaten(old(ledger.State()), ledger.reserveFor, script.during);
      var disposition := DispositionOf(job, script, hasPolicy);
      if !Writes(job, script, hasPolicy) then
        && fate == Leased && ok == (!script.cancelled && disposition.LeaveLeased?)
        && ledger.State() == if ok then Forgotten(handled, job.id) else handled
      else
        var (verdict, settled) := Finalization(handled, ledger.reserveFor, job.id, script.start, script.locked,
                                               script.finalizeNow, script.finalizeReply, script.finalizeAfter,
                                               script.inTime, script.done);
        && ok == verdict.Ok? && fate == (if ok then Settled(disposition) else Leased) && ledger.State() == settled
  {
    DispositionMeans(script.error, job.attempts, script.maxAttempts, hasPolicy);
    Beats(ledger, script.during);
    if script.cancelled {
      return Leased, false;
    }
    var disposition := Decide(script.error, job.attempts, script.maxAttempts, hasPolicy);
    if disposition.LeaveLeased? {
      ledger.Forget(job.id);
      return Leased, true;
    }
    if disposition.Retry? && script.retryTimeFails {
      return Leased, false;
    }
    var finalized, atCallback := ledger.Finalize(job.id, script.start, script.locked, script.finalizeNow,
                                                 script.finalizeReply, script.finalizeAfter, script.inTime,
                                                 script.done);
    return if finalized.Ok? then Settled(disposition) else Leased, finalized.Ok?;
  }

  /** One turn of the loop. A started job that stops the batch is forgotten, so that it is not released. `atStart` is
   *  set exactly when the handler started.
   */
  method ProcessJob(ledger: Ledger, job: Job, script: Script, hasPolicy: bool)
    returns (fate: Fate, stopped: bool, ghost atStart: Option<Deadlines>)
    requires ledger.Valid() && ClocksRun(script)
    modifies ledger`outstanding, ledger`earliestUntil, ledger`cancelled
    ensures ledger.Valid()
    ensures Turn(fate, !stopped, ledger.State())
         == TurnOf(old(ledger.State()), ledger.reserveFor, job, script, hasPolicy)
    ensures atStart.Some? <==> Starts(old(ledger.State()), ledger.reserveFor, script)
    ensures atStart.Some? <==> !fate.Unstarted?
    ensures atStart.Some? ==> atStart.value.Keys == old(ledger.outstanding).Keys && atStart.value != map[]
                              && Covered(atStart.value, script.now + ledger.reserveFor / 3)
  {
    var started;
    started, atStart := StartJob(ledger, script);
    if !started {
      return Unstarted, true, atStart;
    }
    var ok;
    fate, ok := SettleJob(ledger, job, script, hasPolicy);
    stopped := !ok;
    if stopped {
      ledger.Forget(job.id);
    }
  }

  lemma InTail(ids: seq<JobId>, from: nat, i: nat)
    requires NoDuplicates(ids) && from <= |ids| && i < |ids|
    ensures ids[i] in ids[from..] <==> i >= from
  {
    if i >= from {
      assert ids[from..][i - from] == ids[i];
    }
  }

  lemma HeadIsNotTail(ids: seq<JobId>, from: nat)
    requires NoDuplicates(ids) && from <= |ids|
    ensures forall id :: id in ids[..from] ==> id !in ids[from..]
  {
    forall id | id in ids[..from] ensures id !in ids[from..] {
      var i :| 0 <= i < from && ids[i] == id;
      InTail(ids, from, i);
    }
  }

  lemma OwnedSuffix(head: seq<JobId>, tail: seq<JobId>, outstanding: Deadlines)
    requires outstanding.Keys == ToSet(tail) && forall id :: id in head ==> id !in tail
    ensures Owned(head + tail, outstanding) == tail
  {
    OwnedNone(head, outstanding);
    OwnedAll(tail, outstanding);
    OwnedConcat(head, tail, outstanding);
    assert [] + tail == tail;
  }

  /** When the rows held are exactly those from `from` on, the release request lists them in order. */
  lemma OwnedTail(ids: seq<JobId>, from: nat, outstanding: Deadlines)
    requires NoDuplicates(ids) && from <= |ids| && outstanding.Keys == ToSet(ids[from..])
    ensures Owned(ids, outstanding) == ids[from..]
  {
    HeadIsNotTail(ids, from);
    OwnedSuffix(ids[..from], ids[from..], outstanding);
    assert ids == ids[..from] + ids[from..];
  }

  lemma TailWithoutHead(ids: seq<JobId>, i: nat)
    requires NoDuplicates(ids) && i < |ids|
    ensures ToSet(ids[i..]) - {ids[i]} == ToSet(ids[i + 1..])
    ensures ids[i] in ids[i..]
  {
    InTail(ids, i + 1, i);
    InTail(ids, i, i);
    assert ids[i..] == [ids[i]] + ids[i + 1..];
  }

  /** How a run over the batch follows the plan: the jobs before `|fates|` started and got their fates; all of them but
   *  the last let the batch go on; and the batch ended there because the last one did not, or the next one could not
   *  start, or there is none.
   */
  ghost predicate Follows(plan: seq<Turn>, fates: seq<Fate>) {
    var n := |fates|;
    && n <= |plan|
    && (forall i :: 0 <= i < n ==> fates[i] == plan[i].fate && !fates[i].Unstarted?)
    && (forall i :: 0 <= i < n - 1 ==> plan[i].goesOn)
    && (n == |plan| || plan[n].fate.Unstarted? || (n > 0 && !plan[n - 1].goesOn))
  }

  /** How many turns the loop took: one more than jobs started when it met one that could not start. */
  ghost function Turns(plan: seq<Turn>, n: nat): (turns: nat)
    requires n <= |plan|
    ensures turns <= |plan|
  {
    if n < |plan| && (n == 0 || plan[n - 1].goesOn) then n + 1 else n
  }

  method ProcessAt(ledger: Ledger, ghost book: Book, ghost plan: seq<Turn>, jobs: seq<Job>, scripts: seq<Script>,
                   hasPolicy: bool, i: nat)
    returns (fate: Fate, stopped: bool, ghost atStart: Option<Deadlines>)
    requires i < |jobs| == |scripts| && ledger.Valid() && ClocksRun(scripts[i])
    requires IsPlan(book, ledger.reserveFor, jobs, scripts, hasPolicy, plan)
    requires ledger.State() == BookAfter(book, plan[..i])
    modifies ledger`outstanding, ledger`earliestUntil, ledger`cancelled
    ensures ledger.Valid() && Turn(fate, !stopped, ledger.State()) == plan[i]
    ensures atStart.Some? <==> !fate.Unstarted?
    ensures fate.Unstarted? ==> stopped
  {
    assert Planned(book, ledger.reserveFor, jobs, scripts, hasPolicy, plan, i);
    TurnForgetsStarted(ledger.State(), ledger.reserveFor, jobs[i], scripts[i], hasPolicy);
    fate, stopped, atStart := ProcessJob(ledger, jobs[i], scripts[i], hasPolicy);
  }

  /** The loop: the jobs whose handlers started, in order, and what became of each. */
  method RunJobs(ledger: Ledger, ghost plan: seq<Turn>, jobs: seq<Job>, scripts: seq<Script>, hasPolicy: bool)
    returns (fates: seq<Fate>, ghost started: seq<JobId>)
    requires |scripts| == |jobs| && ledger.Valid() && forall i :: 0 <= i < |scripts| ==> ClocksRun(scripts[i])
    requires IsPlan(ledger.State(), ledger.reserveFor, jobs, scripts, hasPolicy, plan)
    modifies ledger`outstanding, ledger`earliestUntil, ledger`cancelled
    ensures Follows(plan, fates) && started == Ids(jobs)[..|fates|]
    ensures ledger.Valid() && ledger.State() == BookAfter(old(ledger.State()), plan[..Turns(plan, |fates|)])
  {
    fates, started := [], [];
    ghost var book := ledger.State();
    for i := 0 to |jobs|
      invariant |fates| == i && ledger.Valid() && started == Ids(jobs)[..i]
      invariant ledger.State() == BookAfter(book, plan[..i])
      invariant forall k :: 0 <= k < i ==> fates[k] == plan[k].fate && !fates[k].Unstarted? && plan[k].goesOn
    {
      var fate, stopped;
      ghost var atStart;
      fate, stopped, atStart := ProcessAt(ledger, book, plan, jobs, scripts, hasPolicy, i);
      if atStart.Some? {
        started := started + [jobs[i].id];
      }
      if !fate.Unstarted? {
        fates := fates + [fate];
      }
      if stopped {
        return;
      }
    }
  }

  lemma TurnForgetsPlanned(book: Book, reserveFor: nat, jobs: seq<Job>, scripts: seq<Script>, hasPolicy: bool,
                           plan: seq<Turn>, i: nat)
    requires IsPlan(book, reserveFor, jobs, scripts, hasPolicy, plan) && i < |plan|
    ensures var before := BookAfter(book, plan[..i]);
      && BookAfter(book, plan[..i + 1]) == plan[i].after && plan[i].after.ordered == before.ordered
      && plan[i].after.outstanding.Keys
         == if plan[i].fate.Unstarted? then before.outstanding.Keys else before.outstanding.Keys - {jobs[i].id}
  {
    assert Planned(book, reserveFor, jobs, scripts, hasPolicy, plan, i);
    TurnForgetsStarted(BookAfter(book, plan[..i]), reserveFor, jobs[i], scripts[i], hasPolicy);
  }

  /** While every job so far started, the outstanding rows are exactly the jobs still to come. */
  lemma {:induction false} OutstandingAt(book: Book, reserveFor: nat, jobs: seq<Job>, scripts: seq<Script>,
                                         hasPolicy: bool, plan: seq<Turn>, n: nat)
    requires n <= |jobs| == |scripts| && NoDuplicates(Ids(jobs))
    requires IsPlan(book, reserveFor, jobs, scripts, hasPolicy, plan)
    requires book.ordered == Ids(jobs) && book.outstanding.Keys == ToSet(Ids(jobs))
    requires forall i :: 0 <= i < n ==> !plan[i].fate.Unstarted?
    ensures var at := BookAfter(book, plan[..n]);
      at.ordered == Ids(jobs) && at.outstanding.Keys == ToSet(Ids(jobs)[n..])
  {
    if n == 0 {
      assert Ids(jobs)[0..] == Ids(jobs);
    } else {
      OutstandingAt(book, reserveFor, jobs, scripts, hasPolicy, plan, n - 1);
      TurnForgetsPlanned(book, reserveFor, jobs, scripts, hasPolicy, plan, n - 1);
      TailWithoutHead(Ids(jobs), n - 1);
    }
  }

  /** When the loop is over, the outstanding rows are exactly the jobs that never started. */
  lemma OutstandingAtEnd(book: Book, reserveFor: nat, jobs: seq<Job>, scripts: seq<Script>, hasPolicy: bool,
                         plan: seq<Turn>, fates: seq<Fate>)
    requires |jobs| == |scripts| && NoDuplicates(Ids(jobs)) && Follows(plan, fates)
    requires IsPlan(book, reserveFor, jobs, scripts, hasPolicy, plan)
    requires book.ordered == Ids(jobs) && book.outstanding.Keys == ToSet(Ids(jobs))
    ensures var at := BookAfter(book, plan[..Turns(plan, |fates|)]);
      at.ordered == Ids(jobs) && at.outstanding.Keys == ToSet(Ids(jobs)[|fates|..])
  {
    var n := |fates|;
    OutstandingAt(book, reserveFor, jobs, scripts, hasPolicy, plan, n);
    if n < |jobs| {
      TurnForgetsPlanned(book, reserveFor, jobs, scripts, hasPolicy, plan, n);
    }
  }

  /** Releasing the outstanding rows of a ledger that holds exactly the tail of the batch. */
  method ReleaseTail(ledger: Ledger, ghost ids: seq<JobId>, ghost from: nat, releaseFails: bool, affected: nat)
    returns (requested: seq<JobId>)
    requires ledger.Valid() && NoDuplicates(ids) && from <= |ids|
    requires ledger.ordered == ids && ledger.outstanding.Keys == ToSet(ids[from..])
    modifies ledger`outstanding, ledger`earliestUntil
    ensures requested == ids[from..]
  {
    OwnedTail(ids, from, ledger.outstanding);
    var released;
    released, requested := ledger.ReleaseUnstarted(releaseFails, affected);
  }

  /** Started work is never refunded. The jobs whose handlers started are a prefix of the batch, each with the fate that
   *  its inputs decide; the release request at the end names exactly the jobs behind it, in order, none of them
   *  started.
   */
  method ProcessBatch(jobs: seq<Job>, token: LeaseToken, reserveFor: nat, scripts: seq<Script>, hasPolicy: bool,
                      releaseFails: bool, affected: nat)
    returns (fates: seq<Fate>, requested: seq<JobId>, ghost started: seq<JobId>, ghost plan: seq<Turn>)
    requires NoDuplicates(Ids(jobs)) && |scripts| == |jobs|
    requires forall i :: 0 <= i < |jobs| ==> jobs[i].reservedAt.Some? && jobs[i].reservedAt.value > ZERO_TIME
    requires forall i :: 0 <= i < |scripts| ==> ClocksRun(scripts[i])
    ensures IsPlan(BookOf(jobs), reserveFor, jobs, scripts, hasPolicy, plan) && Follows(plan, fates)
    ensures started == Ids(jobs)[..|fates|] && requested == Ids(jobs)[|fates|..]
    ensures forall id :: id in started ==> id !in requested
  {
    var ledger := new Ledger(jobs, token, reserveFor);
    TrackAllIs(map[], jobs);
    plan := PlanExists(BookOf(jobs), reserveFor, jobs, scripts, hasPolicy);
    fates, started := RunJobs(ledger, plan, jobs, scripts, hasPolicy);
    OutstandingAtEnd(BookOf(jobs), reserveFor, jobs, scripts, hasPolicy, plan, fates);
    requested := ReleaseTail(ledger, Ids(jobs), |fates|, releaseFails, affected);
    forall id | id in started ensures id !in requested {
      var i :| 0 <= i < |fates| && Ids(jobs)[i] == id;
      InTail(Ids(jobs), |fates|, i);
    }
  }
}
