/** The batch lease manager: deadlines of the claimed rows plus a cached conservative minimum that lets
 *  most operations skip the scan. Every method is proved to decide what the full scan of `LeaseSpec`
 *  decides. Clock readings, repository answers and cancellations are parameters.
 */
module LeaseLedger {
  import opened Jobs
  import opened LeaseSpec

  datatype Start = Clear | Stopped

  /** The deadline that is tracked for a job; an unreserved one has the zero instant. */
  function Deadline(job: Job): Time {
    if job.reservedAt.Some? then job.reservedAt.value else ZERO_TIME
  }

  /** Deadlines after tracking `jobs` in order; a repeated identifier keeps the last deadline. */
  function TrackAll(base: Deadlines, jobs: seq<Job>): Deadlines {
    if jobs == [] then base
    else TrackAll(base, jobs[..|jobs| - 1])[jobs[|jobs| - 1].id := Deadline(jobs[|jobs| - 1])]
  }

  function SmallerBound(bound: Time, until: Time): Time {
    if bound == ZERO_TIME || until < bound then until else bound
  }

  /** The bound after tracking `jobs` in order. */
  function TrackedBound(bound: Time, jobs: seq<Job>): Time {
    if jobs == [] then bound
    else SmallerBound(TrackedBound(bound, jobs[..|jobs| - 1]), Deadline(jobs[|jobs| - 1]))
  }

  /** The ledger of a batch that was just claimed: every deadline as claimed, under the smallest of them as bound. */
  ghost function BookOf(jobs: seq<Job>): Book {
    Book(Ids(jobs), TrackAll(map[], jobs), TrackedBound(ZERO_TIME, jobs))
  }

  /** Tracking one list and then another is tracking both. */
  lemma {:induction false} TrackConcat(base: Deadlines, bound: Time, a: seq<Job>, b: seq<Job>)
    ensures TrackAll(base, a + b) == TrackAll(TrackAll(base, a), b)
    ensures TrackedBound(bound, a + b) == TrackedBound(TrackedBound(bound, a), b)
  {
    if b == [] {
      assert a + b == a;
    } else {
      TrackConcat(base, bound, a, b[..|b| - 1]);
      assert (a + b)[..|a + b| - 1] == a + b[..|b| - 1];
    }
  }

  lemma {:induction false} TrackAllIs(base: Deadlines, jobs: seq<Job>)
    ensures TrackAll(base, jobs).Keys == base.Keys + ToSet(Ids(jobs))
    ensures forall id :: id in base && id !in Ids(jobs) ==> TrackAll(base, jobs)[id] == base[id]
    ensures PrimaryKey(jobs) ==>
              forall i :: 0 <= i < |jobs| ==> TrackAll(base, jobs)[jobs[i].id] == Deadline(jobs[i])
  {
    if jobs != [] {
      var n := |jobs| - 1;
      TrackAllIs(base, jobs[..n]);
      assert Ids(jobs) == Ids(jobs[..n]) + [jobs[n].id];
      if PrimaryKey(jobs) {
        forall i | 0 <= i < |jobs| ensures TrackAll(base, jobs)[jobs[i].id] == Deadline(jobs[i]) {
          if i < n { assert jobs[..n][i] == jobs[i]; }
        }
      }
    }
  }

  /** How many of the rows a supplemental claim returned may join the ledger: `add` stops at the first
   *  invalid or already owned one. `nows[i]` is the clock reading for row `i`.
   */
  function Addable(base: Deadlines, jobs: seq<Job>, token: LeaseToken, nows: seq<Time>): (n: nat)
    requires |nows| == |jobs|
    ensures n <= |jobs|
    ensures forall i :: 0 <= i < n ==> LeaseLive(jobs[i], token, nows[i])
  {
    if jobs == [] then 0
    else
      var last := |jobs| - 1;
      var n := Addable(base, jobs[..last], token, nows[..last]);
      if n == last && LeaseLive(jobs[last], token, nows[last]) && jobs[last].id !in TrackAll(base, jobs[..last])
      then n + 1 else n
  }

  // ----- what the operations on the ledger decide, as values

  ghost function ToppedUp(book: Book, reserveFor: nat, now: Time, ensureNow: Time, reply: Reply, after: Time)
    : (Verdict, Book)
  {
    if book.bound >= now + reserveFor / 3 then (Ok, book)
    else EnsuredTo(book, ensureNow, now + reserveFor, reply, after)
  }

  /** Admission: refused when stopped, lost when nothing is outstanding or a lease has expired, and otherwise decided by
   *  the bound as the check leaves it. */
  ghost function Admission(book: Book, reserveFor: nat, before: Start, now: Time, ensureNow: Time, reply: Reply,
                           after: Time, last: Start): (Verdict, Book)
  {
    if before.Stopped? then (Refused, book)
    else if book.outstanding == map[] then (LeaseLost, book)
    else
      var checked := book.(bound := CheckedBound(book.outstanding, book.bound, now));
      if Expired(book.outstanding, now) then (LeaseLost, checked)
      else
        var (verdict, secured) := ToppedUp(checked, reserveFor, now, ensureNow, reply, after);
        (if verdict.Ok? && last.Stopped? then Refused else verdict, secured)
  }

  /** One second after the five-second budget of a finalization. */
  function FinalizationEnd(start: Time): Time {
    start + LEASE_FINALIZATION_TIMEOUT + BATCH_FINALIZATION_MARGIN
  }

  /** The leases as they are when the finalization callback runs; it does not run otherwise. */
  ghost function Callback(book: Book, reserveFor: nat, id: JobId, start: Time, locked: bool, now: Time, reply: Reply,
                          after: Time, inTime: bool): Option<Deadlines>
  {
    var required := FinalizationEnd(start);
    var (verdict, secured) := Ensure(book.ordered, book.outstanding, now, required, required + reserveFor, reply,
                                     after);
    if locked && id in book.outstanding && verdict.Ok? && inTime then Some(secured) else None
  }

  ghost function Finalization(book: Book, reserveFor: nat, id: JobId, start: Time, locked: bool, now: Time,
                              reply: Reply, after: Time, inTime: bool, done: bool): (Verdict, Book)
  {
    if !locked then (Refused, book)
    else if id !in book.outstanding then (LeaseLost, book)
    else
      var required := FinalizationEnd(start);
      var (verdict, secured) := Ensured(book, now, required, required + reserveFor, reply, after);
      Completed(verdict, secured, id, inTime, done)
  }

  /** What follows once the leases were to be secured: the callback, and the row forgotten if it completed. */
  ghost function Completed(verdict: Verdict, secured: Book, id: JobId, inTime: bool, done: bool): (Verdict, Book) {
    if !verdict.Ok? then (verdict, secured)
    else if !inTime || !done then (Refused, secured)
    else (Ok, Forgotten(secured, id))
  }

  ghost function SecuredAll(book: Book, locked: bool, leaseUntil: Time, now: Time, reply: Reply, after: Time,
                            inTime: bool): (Verdict, Book)
  {
    if !locked then (Refused, book)
    else if book.outstanding == map[] then (LeaseLost, book)
    else
      var (verdict, secured) := EnsuredTo(book, now, leaseUntil, reply, after);
      (if verdict.Ok? && !inTime then Refused else verdict, secured)
  }

  /** The callback of a finalization runs with its own row tracked, no row forgotten, no lease shortened and every
   *  lease, the tail's too, reaching a second past its deadline.
   */
  lemma CallbackIsCovered(book: Book, reserveFor: nat, id: JobId, start: Time, locked: bool, now: Time, reply: Reply,
                          after: Time, inTime: bool)
    requires book.outstanding.Keys <= ToSet(book.ordered)
    ensures var leases := Callback(book, reserveFor, id, start, locked, now, reply, after, inTime);
      leases.Some? ==>
        && id in leases.value && leases.value.Keys == book.outstanding.Keys
        && Covered(leases.value, start + LEASE_FINALIZATION_TIMEOUT + BATCH_FINALIZATION_MARGIN)
        && forall k :: k in book.outstanding ==> leases.value[k] >= book.outstanding[k]
  {
    var required := FinalizationEnd(start);
    EnsureNeverShortens(book.ordered, book.outstanding, now, required, required + reserveFor, reply, after);
    EnsureCovers(book.ordered, book.outstanding, now, required, required + reserveFor, reply, after);
  }

  /** A batch callback runs only with leases to cover, none shortened, all reaching `leaseUntil`. */
  lemma SecuredAllIsCovered(book: Book, locked: bool, leaseUntil: Time, now: Time, reply: Reply, after: Time,
                            inTime: bool)
    requires book.outstanding.Keys <= ToSet(book.ordered)
    ensures var (verdict, secured) := SecuredAll(book, locked, leaseUntil, now, reply, after, inTime);
      && secured.outstanding.Keys == book.outstanding.Keys
      && (verdict.Ok? ==> secured.outstanding != map[] && Covered(secured.outstanding, leaseUntil))
      && forall k :: k in book.outstanding ==> secured.outstanding[k] >= book.outstanding[k]
  {
    EnsureNeverShortens(book.ordered, book.outstanding, now, leaseUntil, leaseUntil, reply, after);
    EnsureCovers(book.ordered, book.outstanding, now, leaseUntil, leaseUntil, reply, after);
    assert book.outstanding == map[] <==> book.outstanding.Keys == {};
  }

  lemma CheckedBoundIsLow(outstanding: Deadlines, bound: Time, now: Time)
    requires Covered(outstanding, bound)
    ensures Covered(outstanding, CheckedBound(outstanding, bound, now))
  {
    assert IsEarliest(outstanding, Earliest(outstanding));
  }

  lemma AdmissionKeepsKeys(book: Book, reserveFor: nat, before: Start, now: Time, ensureNow: Time, reply: Reply,
                           after: Time, last: Start)
    ensures var secured := Admission(book, reserveFor, before, now, ensureNow, reply, after, last).1;
      secured.ordered == book.ordered && secured.outstanding.Keys == book.outstanding.Keys
  {
    EnsureNeverShortens(book.ordered, book.outstanding, ensureNow, now + reserveFor, now + reserveFor, reply, after);
  }

  /** An admitted job starts with a third of the reservation on every lease, whatever the bound was. */
  lemma AdmissionIsCovered(book: Book, reserveFor: nat, before: Start, now: Time, ensureNow: Time, reply: Reply,
                           after: Time, last: Start)
    requires book.outstanding.Keys <= ToSet(book.ordered) && Covered(book.outstanding, book.bound)
    ensures var (verdict, secured) := Admission(book, reserveFor, before, now, ensureNow, reply, after, last);
      verdict.Ok? ==> secured.outstanding != map[] && Covered(secured.outstanding, now + reserveFor / 3)
  {
    CheckedBoundIsLow(book.outstanding, book.bound, now);
    AdmissionHeadroom(book.ordered, book.outstanding, CheckedBound(book.outstanding, book.bound, now), now, reserveFor,
                      ensureNow, reply, after);
  }

  /** The verdict of `Admission` is the one `LeaseSpec` studies, for the bound as the check leaves it. */
  lemma AdmissionIsCached(book: Book, reserveFor: nat, now: Time, ensureNow: Time, reply: Reply, after: Time)
    ensures var (verdict, secured) := Admission(book, reserveFor, Clear, now, ensureNow, reply, after, Clear);
      (verdict, secured.outstanding)
      == AdmitCached(book.ordered, book.outstanding, CheckedBound(book.outstanding, book.bound, now), now, reserveFor,
                     ensureNow, reply, after)
  {
  }

  /** Exactly what admission asks for: both stop checks are clear, something is tracked, nothing has expired, and the
   *  bound as the check leaves it has a third of the reservation, or securing a full one succeeds.
   */
  ghost predicate Granted(book: Book, reserveFor: nat, before: Start, now: Time, ensureNow: Time, reply: Reply,
                          after: Time, last: Start)
  {
    before.Clear? && last.Clear? && Admissible(book, reserveFor, now, ensureNow, reply, after)
  }

  ghost predicate Admissible(book: Book, reserveFor: nat, now: Time, ensureNow: Time, reply: Reply, after: Time) {
    && book.outstanding != map[] && (forall id :: id in book.outstanding ==> book.outstanding[id] > now)
    && (|| CheckedBound(book.outstanding, book.bound, now) >= now + reserveFor / 3
        || Ensure(book.ordered, book.outstanding, ensureNow, now + reserveFor, now + reserveFor, reply, after).0.Ok?)
  }

  /** When admission grants, when it refuses and when it finds the leases lost. */
  lemma AdmissionVerdict(book: Book, reserveFor: nat, before: Start, now: Time, ensureNow: Time, reply: Reply,
                         after: Time, last: Start)
    ensures var verdict := Admission(book, reserveFor, before, now, ensureNow, reply, after, last).0;
      && (verdict.Ok? <==> Granted(book, reserveFor, before, now, ensureNow, reply, after, last))
      && (verdict.Refused? <==>
            || before.Stopped?
            || (last.Stopped? && Admissible(book, reserveFor, now, ensureNow, reply, after)))
  {
  }

  /** When finalizing one row succeeds, and when its callback runs. */
  lemma FinalizationVerdict(book: Book, reserveFor: nat, id: JobId, start: Time, locked: bool, now: Time, reply: Reply,
                            after: Time, inTime: bool, done: bool)
    ensures var required := start + LEASE_FINALIZATION_TIMEOUT + BATCH_FINALIZATION_MARGIN;
      var reached := && locked && id in book.outstanding && inTime
                     && Ensure(book.ordered, book.outstanding, now, required, required + reserveFor, reply,
                               after).0.Ok?;
      && (Callback(book, reserveFor, id, start, locked, now, reply, after, inTime).Some? <==> reached)
      && (Finalization(book, reserveFor, id, start, locked, now, reply, after, inTime, done).0.Ok? <==> reached && done)
  {
  }

  /** When the callback of a whole batch is reached. */
  lemma SecuredAllVerdict(book: Book, locked: bool, leaseUntil: Time, now: Time, reply: Reply, after: Time,
                          inTime: bool)
    ensures SecuredAll(book, locked, leaseUntil, now, reply, after, inTime).0.Ok?
       <==> && locked && book.outstanding != map[] && inTime
            && Ensure(book.ordered, book.outstanding, now, leaseUntil, leaseUntil, reply, after).0.Ok?
  {
  }

  class Ledger {
    const token: LeaseToken
    const reserveFor: nat
    var ordered: seq<JobId>
    var outstanding: Deadlines
    var earliestUntil: Time
    /** The batch context: cancelled when a lease is lost, or when a finalization does not get the lock in time. */
    var cancelled: bool

    /** The cached bound is zero exactly when nothing is outstanding, and otherwise never too high. */
    ghost predicate Valid()
      reads this
    {
      && outstanding.Keys <= ToSet(ordered)
      && (forall id :: id in outstanding ==> outstanding[id] > ZERO_TIME)
      && (earliestUntil == ZERO_TIME <==> outstanding == map[])
      && earliestUntil >= ZERO_TIME
      && Covered(outstanding, earliestUntil)
    }

    ghost function State(): Book
      reads this
    {
      Book(ordered, outstanding, earliestUntil)
    }

    /** `jobs` have passed the claim validation: each carries a deadline after a positive clock reading. */
    constructor (jobs: seq<Job>, token: LeaseToken, reserveFor: nat)
      requires forall i :: 0 <= i < |jobs| ==> jobs[i].reservedAt.Some? && jobs[i].reservedAt.value > ZERO_TIME
      ensures Valid() && !cancelled && this.token == token && this.reserveFor == reserveFor
      ensures State() == BookOf(jobs)
    {
      this.token, this.reserveFor := token, reserveFor;
      ordered, outstanding, earliestUntil, cancelled := [], map[], ZERO_TIME, false;
      new;
      for i := 0 to |jobs|
        invariant Valid() && !cancelled
        invariant ordered == Ids(jobs[..i]) && outstanding == TrackAll(map[], jobs[..i])
        invariant earliestUntil == TrackedBound(ZERO_TIME, jobs[..i])
      {
        assert jobs[..i + 1][..i] == jobs[..i];
        Track(jobs[i].id, Deadline(jobs[i]));
      }
      assert jobs[..|jobs|] == jobs;
    }

    /** One row enters the ledger. */
    method Track(id: JobId, until: Time)
      requires Valid() && until > ZERO_TIME
      modifies this`ordered, this`outstanding, this`earliestUntil
      ensures Valid()
      ensures ordered == old(ordered) + [id] && outstanding == old(outstanding)[id := until]
      ensures earliestUntil == old(SmallerBound(earliestUntil, until))
    {
      ordered := ordered + [id];
      outstanding := outstanding[id := until];
      if earliestUntil == ZERO_TIME || until < earliestUntil {
        earliestUntil := until;
      }
      assert id in outstanding;
    }

    method RecomputeEarliest()
      requires forall id :: id in outstanding ==> outstanding[id] > ZERO_TIME
      modifies this`earliestUntil
      ensures earliestUntil == Earliest(outstanding)
    {
      var earliest := ZERO_TIME;
      var rest := outstanding.Keys;
      while rest != {}
        invariant rest <= outstanding.Keys
        invariant IsEarliest(map id | id in outstanding && id !in rest :: outstanding[id], earliest)
        decreases rest
      {
        var id :| id in rest;
        ghost var seen := map k | k in outstanding && k !in rest :: outstanding[k];
        assert seen == map[] <==> earliest == ZERO_TIME by { SeenIsPositive(seen, earliest); }
        if earliest == ZERO_TIME || outstanding[id] < earliest {
          earliest := outstanding[id];
        }
        rest := rest - {id};
        ghost var more := map k | k in outstanding && k !in rest :: outstanding[k];
        assert more == seen[id := outstanding[id]];
        assert id in more;
      }
      assert (map id | id in outstanding && id !in rest :: outstanding[id]) == outstanding;
      earliestUntil := earliest;
      EarliestIsUnique(outstanding, earliestUntil);
    }

    /** The fast path answers like the scan: the check fails exactly when some lease has expired. */
    method CheckLeases(now: Time) returns (ok: bool)
      requires Valid() && now > ZERO_TIME
      modifies this`earliestUntil, this`cancelled
      ensures Valid()
      ensures ok <==> !Expired(outstanding, now)
      ensures cancelled <==> old(cancelled) || !ok
      ensures earliestUntil == old(CheckedBound(outstanding, earliestUntil, now))
    {
      if now < earliestUntil {
        return true;
      }
      var rest := outstanding.Keys;
      while rest != {}
        invariant rest <= outstanding.Keys
        invariant forall id :: id in outstanding && id !in rest ==> outstanding[id] > now
        decreases rest
      {
        var id :| id in rest;
        if outstanding[id] <= now {
          cancelled := true;
          return false;
        }
        rest := rest - {id};
      }
      RecomputeEarliest();
      EarliestIsValid(outstanding, earliestUntil);
      return true;
    }

    /** Secures the leases as the full scan of `LeaseSpec.Ensure` would. */
    method EnsureLeases(now: Time, requiredUntil: Time, targetUntil: Time, reply: Reply, after: Time)
      returns (verdict: Verdict, requested: seq<JobId>)
      requires Valid() && now > ZERO_TIME && after > ZERO_TIME
      modifies this`outstanding, this`earliestUntil, this`cancelled
      ensures Valid()
      ensures (verdict, State()) == Ensured(old(State()), now, requiredUntil, targetUntil, reply, after)
      ensures requested == old(if Expired(outstanding, now) then [] else Below(ordered, outstanding, requiredUntil))
      ensures cancelled <==> old(cancelled) || verdict.LeaseLost?
    {
      var live := CheckLeases(now);
      if !live {
        return LeaseLost, [];
      }
      if earliestUntil >= requiredUntil {
        NothingBelow(ordered, outstanding, requiredUntil);
        return Ok, [];
      }
      verdict, requested := ExtendBelow(requiredUntil, targetUntil, reply, after);
    }

    /** The slow path: collect the short leases, ask the repository, record its answer. */
    method ExtendBelow(requiredUntil: Time, targetUntil: Time, reply: Reply, after: Time)
      returns (verdict: Verdict, requested: seq<JobId>)
      requires Valid() && after > ZERO_TIME
      modifies this`outstanding, this`earliestUntil, this`cancelled
      ensures Valid() && requested == Below(ordered, old(outstanding), requiredUntil)
      ensures requested == [] ==> verdict.Ok? && outstanding == old(outstanding)
      ensures requested != [] && !Accepted(requested, reply) ==> verdict.LeaseLost? && outstanding == old(outstanding)
      ensures requested != [] && Accepted(requested, reply) ==>
        && outstanding == Extended(old(outstanding), requested, ExtensionDeadline(requiredUntil, targetUntil))
        && verdict == if Expired(outstanding, after) then LeaseLost else Ok
      ensures earliestUntil == Earliest(outstanding)
      ensures cancelled <==> old(cancelled) || verdict.LeaseLost?
    {
      requested := CollectBelow(requiredUntil);
      RecomputeEarliest();
      EarliestIsValid(outstanding, earliestUntil);
      if requested == [] {
        return Ok, requested;
      }
      var target := if targetUntil < requiredUntil then requiredUntil else targetUntil;
      var until := FloorMs(target) + MILLISECOND;
      if reply.failed || reply.cancelled || reply.affected != |requested| {
        cancelled := true;
        return LeaseLost, requested;
      }
      assert until > ZERO_TIME by {
        BelowIs(ordered, outstanding, requiredUntil);
        ExtendedIsPositive(outstanding, requested, requiredUntil, targetUntil);
      }
      var stillLive := RecordExtension(requested, until, after);
      return if stillLive then Ok else LeaseLost, requested;
    }

    /** Writes the new deadlines and checks once more that none has passed meanwhile. */
    method RecordExtension(jobIds: seq<JobId>, until: Time, after: Time) returns (ok: bool)
      requires Valid() && until > ZERO_TIME && after > ZERO_TIME
      modifies this`outstanding, this`earliestUntil, this`cancelled
      ensures Valid() && outstanding == Extended(old(outstanding), jobIds, until)
      ensures ok <==> !Expired(outstanding, after)
      ensures earliestUntil == Earliest(outstanding)
      ensures cancelled <==> old(cancelled) || !ok
    {
      outstanding := Extended(outstanding, jobIds, until);
      RecomputeEarliest();
      EarliestIsValid(outstanding, earliestUntil);
      ok := CheckLeases(after);
    }

    method CollectBelow(bound: Time) returns (jobIds: seq<JobId>)
      ensures jobIds == Below(ordered, outstanding, bound)
    {
      jobIds := [];
      for i := 0 to |ordered|
        invariant jobIds == Below(ordered[..i], outstanding, bound)
      {
        assert ordered[..i + 1][..i] == ordered[..i];
        if ordered[i] in outstanding && outstanding[ordered[i]] < bound {
          jobIds := jobIds + [ordered[i]];
        }
      }
      assert ordered[..|ordered|] == ordered;
    }

    /** The heartbeat: a full reservation from now. */
    method Extend(clock: Time, now: Time, reply: Reply, after: Time) returns (verdict: Verdict)
      requires Valid() && now > ZERO_TIME && after > ZERO_TIME
      modifies this`outstanding, this`earliestUntil, this`cancelled
      ensures Valid()
      ensures (verdict, State()) == EnsuredTo(old(State()), now, clock + reserveFor, reply, after)
      ensures cancelled <==> old(cancelled) || verdict.LeaseLost?
    {
      var until := clock + reserveFor;
      verdict := EnsureTo(now, until, reply, after);
    }

    method EnsureTo(now: Time, until: Time, reply: Reply, after: Time) returns (verdict: Verdict)
      requires Valid() && now > ZERO_TIME && after > ZERO_TIME
      modifies this`outstanding, this`earliestUntil, this`cancelled
      ensures Valid()
      ensures (verdict, State()) == EnsuredTo(old(State()), now, until, reply, after)
      ensures cancelled <==> old(cancelled) || verdict.LeaseLost?
    {
      var requested;
      verdict, requested := EnsureLeases(now, until, until, reply, after);
    }

    /** Admission right before a handler runs, decided from the cached bound. */
    method Admit(before: Start, now: Time, ensureNow: Time, reply: Reply, after: Time, last: Start)
      returns (verdict: Verdict)
      requires Valid() && now > ZERO_TIME && ensureNow > ZERO_TIME && after > ZERO_TIME
      modifies this`outstanding, this`earliestUntil, this`cancelled
      ensures Valid()
      ensures (verdict, State()) == Admission(old(State()), reserveFor, before, now, ensureNow, reply, after, last)
      ensures verdict.Ok? <==> Granted(old(State()), reserveFor, before, now, ensureNow, reply, after, last)
      ensures cancelled <==> old(cancelled) || (verdict.LeaseLost? && old(outstanding) != map[])
    {
      AdmissionVerdict(State(), reserveFor, before, now, ensureNow, reply, after, last);
      if before.Stopped? {
        return Refused;
      }
      if outstanding == map[] {
        return LeaseLost;
      }
      var live := CheckLeases(now);
      if !live {
        return LeaseLost;
      }
      verdict := TopUp(now, ensureNow, reply, after);
      if verdict.Ok? && last.Stopped? {
        return Refused;
      }
    }

    /** Extends the leases to a full reservation when the bound lacks headroom. */
    method TopUp(now: Time, ensureNow: Time, reply: Reply, after: Time) returns (verdict: Verdict)
      requires Valid() && ensureNow > ZERO_TIME && after > ZERO_TIME
      modifies this`outstanding, this`earliestUntil, this`cancelled
      ensures Valid()
      ensures (verdict, State()) == ToppedUp(old(State()), reserveFor, now, ensureNow, reply, after)
      ensures cancelled <==> old(cancelled) || verdict.LeaseLost?
    {
      if earliestUntil >= now + reserveFor / 3 {
        return Ok;
      }
      verdict := Extend(now, ensureNow, reply, after);
    }

    /** Finalizes one row while every outstanding lease covers the callback's deadline plus the margin.
     *  `start` is when the five-second budget began; `done` is the callback's own result.
     */
    method Finalize(id: JobId, start: Time, locked: bool, now: Time, reply: Reply, after: Time, inTime: bool,
                    done: bool)
      returns (verdict: Verdict, ghost atCallback: Option<Deadlines>)
      requires Valid() && now > ZERO_TIME && after > ZERO_TIME
      modifies this`outstanding, this`earliestUntil, this`cancelled
      ensures Valid()
      ensures (verdict, State())
           == Finalization(old(State()), reserveFor, id, start, locked, now, reply, after, inTime, done)
      ensures atCallback == Callback(old(State()), reserveFor, id, start, locked, now, reply, after, inTime)
      ensures cancelled <==> old(cancelled) || !locked || (verdict.LeaseLost? && id in old(outstanding))
    {
      atCallback := None;
      if !locked {
        cancelled := true;
        return Refused, None;
      }
      if id !in outstanding {
        return LeaseLost, None;
      }
      var requiredUntil := FinalizationEnd(start);
      var targetUntil := requiredUntil + reserveFor;
      verdict, atCallback := FinalizeTracked(id, requiredUntil, targetUntil, now, reply, after, inTime, done);
    }

    /** The rest of a finalization, for a row that is tracked. */
    method FinalizeTracked(id: JobId, requiredUntil: Time, targetUntil: Time, now: Time, reply: Reply, after: Time,
                           inTime: bool, done: bool)
      returns (verdict: Verdict, ghost atCallback: Option<Deadlines>)
      requires Valid() && now > ZERO_TIME && after > ZERO_TIME
      modifies this`outstanding, this`earliestUntil, this`cancelled
      ensures Valid()
      ensures var (secured, book) := Ensured(old(State()), now, requiredUntil, targetUntil, reply, after);
        && (verdict, State()) == Completed(secured, book, id, inTime, done)
        && atCallback == (if secured.Ok? && inTime then Some(book.outstanding) else None)
      ensures cancelled <==> old(cancelled) || verdict.LeaseLost?
    {
      var secured, requested := EnsureLeases(now, requiredUntil, targetUntil, reply, after);
      if !secured.Ok? {
        return secured, None;
      }
      verdict, atCallback := Complete(id, inTime, done);
    }

    /** The callback and what follows it, once the leases are secured. */
    method Complete(id: JobId, inTime: bool, done: bool) returns (verdict: Verdict, ghost atCallback: Option<Deadlines>)
      requires Valid()
      modifies this`outstanding, this`earliestUntil
      ensures Valid() && verdict == if inTime && done then Ok else Refused
      ensures atCallback == if inTime then Some(old(outstanding)) else None
      ensures State() == if inTime && done then Forgotten(old(State()), id) else old(State())
    {
      if !inTime {
        return Refused, None;
      }
      atCallback := Some(outstanding);
      if !done {
        return Refused, atCallback;
      }
      Forget(id);
      return Ok, atCallback;
    }

    /** The part of finalizing a whole batch that comes before its callback. */
    method SecureAll(locked: bool, leaseUntil: Time, now: Time, reply: Reply, after: Time, inTime: bool)
      returns (verdict: Verdict)
      requires Valid() && now > ZERO_TIME && after > ZERO_TIME
      modifies this`outstanding, this`earliestUntil, this`cancelled
      ensures Valid()
      ensures (verdict, State()) == SecuredAll(old(State()), locked, leaseUntil, now, reply, after, inTime)
      ensures cancelled <==> old(cancelled) || !locked || (verdict.LeaseLost? && old(outstanding) != map[])
    {
      if !locked {
        cancelled := true;
        return Refused;
      }
      if outstanding == map[] {
        return LeaseLost;
      }
      var secured := EnsureTo(now, leaseUntil, reply, after);
      return if !secured.Ok? then secured else if !inTime then Refused else Ok;
    }

    /** Finalizes the whole batch under one deadline; `done` is the callback's own result. */
    method FinalizeAll(locked: bool, leaseUntil: Time, now: Time, reply: Reply, after: Time, inTime: bool, done: bool)
      returns (verdict: Verdict)
      requires Valid() && now > ZERO_TIME && after > ZERO_TIME
      modifies this`outstanding, this`earliestUntil, this`cancelled
      ensures Valid()
      ensures var (secured, book) := SecuredAll(old(State()), locked, leaseUntil, now, reply, after, inTime);
        && (verdict.Ok? <==> secured.Ok? && done)
        && State() == (if verdict.Ok? then Book(book.ordered, map[], ZERO_TIME) else book)
        && (cancelled <==> old(cancelled) || !locked || (secured.LeaseLost? && old(outstanding) != map[]))
    {
      verdict := SecureAll(locked, leaseUntil, now, reply, after, inTime);
      if !verdict.Ok? {
        return;
      }
      if !done {
        return Refused;
      }
      ForgetAll();
    }

    /** Supplemental rows join the ledger in order until one is invalid or already owned. */
    method Add(jobs: seq<Job>, nows: seq<Time>) returns (ok: bool)
      requires Valid() && |nows| == |jobs| && forall i :: 0 <= i < |nows| ==> nows[i] > ZERO_TIME
      modifies this`ordered, this`outstanding, this`earliestUntil
      ensures Valid()
      ensures var n := old(Addable(outstanding, jobs, token, nows));
        && (ok <==> n == |jobs|)
        && ordered == old(ordered) + Ids(jobs[..n])
        && outstanding == TrackAll(old(outstanding), jobs[..n])
        && earliestUntil == TrackedBound(old(earliestUntil), jobs[..n])
    {
      ghost var base := outstanding;
      for i := 0 to |jobs|
        invariant Valid() && Addable(base, jobs[..i], token, nows[..i]) == i
        invariant ordered == old(ordered) + Ids(jobs[..i])
        invariant outstanding == TrackAll(base, jobs[..i])
        invariant earliestUntil == TrackedBound(old(earliestUntil), jobs[..i])
      {
        if !LeaseLive(jobs[i], token, nows[i]) || jobs[i].id in outstanding {
          AddableStops(base, jobs, token, nows, i);
          return false;
        }
        OneMoreRow(base, old(earliestUntil), jobs, token, nows, i);
        Track(jobs[i].id, Deadline(jobs[i]));
      }
      assert jobs[..|jobs|] == jobs && nows[..|nows|] == nows;
      return true;
    }

    method Forget(id: JobId)
      requires Valid()
      modifies this`outstanding, this`earliestUntil
      ensures Valid() && State() == Forgotten(old(State()), id)
    {
      outstanding := outstanding - {id};
      if outstanding == map[] {
        earliestUntil := ZERO_TIME;
      } else {
        ghost var left :| left in outstanding;
      }
    }

    method ForgetAll()
      requires Valid()
      modifies this`outstanding, this`earliestUntil
      ensures Valid() && State() == Book(ordered, map[], ZERO_TIME)
    {
      outstanding, earliestUntil := map[], ZERO_TIME;
    }

    /** Releases what was never started. The ledger is emptied only when the repository confirms every row. */
    method ReleaseUnstarted(failedReply: bool, affected: nat) returns (ok: bool, requested: seq<JobId>)
      requires Valid()
      modifies this`outstanding, this`earliestUntil
      ensures Valid()
      ensures requested == Owned(ordered, old(outstanding))
      ensures forall id :: id in requested <==> id in old(outstanding)
      ensures ok <==> requested == [] || (!failedReply && affected == |requested|)
      ensures outstanding == if ok then map[] else old(outstanding)
    {
      OwnedIs(ordered, outstanding);
      requested := [];
      for i := 0 to |ordered|
        invariant requested == Owned(ordered[..i], outstanding)
      {
        assert ordered[..i + 1][..i] == ordered[..i];
        if ordered[i] in outstanding {
          requested := requested + [ordered[i]];
        }
      }
      assert ordered[..|ordered|] == ordered;
      if requested == [] {
        assert forall id :: id in outstanding ==> id in requested;
        return true, [];
      }
      if failedReply || affected != |requested| {
        return false, requested;
      }
      ForgetAll();
      return true, requested;
    }
  }

  /** A ledger whose bound is too low, reached by claiming two jobs and forgetting the one that ends first. */
  method StaleLedger() returns (ledger: Ledger)
    ensures fresh(ledger) && ledger.Valid()
    ensures ledger.State() == Book([1, 2], map[2 := 20 * SECOND], 5 * SECOND)
    ensures BoundIsTooLow(ledger.outstanding, ledger.earliestUntil, SECOND, 30 * SECOND, SECOND)
  {
    var capability := Capability("mail", 1);
    var first := Job(1, "queue", capability, "", 1, Some(5 * SECOND), 7, None, SECOND, SECOND);
    var jobs := [first, first.(id := 2, reservedAt := Some(20 * SECOND))];
    assert jobs[..1] == [first] && [first][..0] == [];
    ledger := new Ledger(jobs, 7, 30 * SECOND);
    assert TrackAll(map[], [first]) == map[1 := 5 * SECOND];
    assert Ids(jobs) == [1, 2] && TrackedBound(ZERO_TIME, [first]) == 5 * SECOND;
    assert ledger.outstanding == map[1 := 5 * SECOND, 2 := 20 * SECOND];
    ledger.Forget(1);
    assert ledger.outstanding == map[2 := 20 * SECOND];
    assert 2 in ledger.outstanding;
  }

  lemma SeenIsPositive(seen: Deadlines, earliest: Time)
    requires forall id :: id in seen ==> seen[id] > ZERO_TIME
    requires IsEarliest(seen, earliest)
    ensures seen == map[] <==> earliest == ZERO_TIME
  {
  }

  lemma EarliestIsValid(outstanding: Deadlines, earliest: Time)
    requires forall id :: id in outstanding ==> outstanding[id] > ZERO_TIME
    requires IsEarliest(outstanding, earliest)
    ensures earliest == ZERO_TIME <==> outstanding == map[]
    ensures earliest >= ZERO_TIME && Covered(outstanding, earliest)
  {
  }

  lemma ExtendedIsPositive(outstanding: Deadlines, ids: seq<JobId>, requiredUntil: Time, targetUntil: Time)
    requires forall id :: id in outstanding ==> outstanding[id] > ZERO_TIME
    requires ids != [] && forall id :: id in ids ==> id in outstanding && outstanding[id] < requiredUntil
    ensures ExtensionDeadline(requiredUntil, targetUntil) > ZERO_TIME
  {
    assert ids[0] in ids;
  }

  lemma OneMoreRow(base: Deadlines, bound: Time, jobs: seq<Job>, token: LeaseToken, nows: seq<Time>, i: nat)
    requires |nows| == |jobs| && i < |jobs| && Addable(base, jobs[..i], token, nows[..i]) == i
    requires LeaseLive(jobs[i], token, nows[i]) && jobs[i].id !in TrackAll(base, jobs[..i])
    ensures Addable(base, jobs[..i + 1], token, nows[..i + 1]) == i + 1
    ensures Ids(jobs[..i + 1]) == Ids(jobs[..i]) + [jobs[i].id]
    ensures TrackAll(base, jobs[..i + 1]) == TrackAll(base, jobs[..i])[jobs[i].id := Deadline(jobs[i])]
    ensures TrackedBound(bound, jobs[..i + 1]) == SmallerBound(TrackedBound(bound, jobs[..i]), Deadline(jobs[i]))
  {
    assert jobs[..i + 1][..i] == jobs[..i] && nows[..i + 1][..i] == nows[..i];
  }

  lemma {:induction false} AddableStops(base: Deadlines, jobs: seq<Job>, token: LeaseToken, nows: seq<Time>, i: nat)
    requires |nows| == |jobs| && i < |jobs| && Addable(base, jobs[..i], token, nows[..i]) == i
    requires !LeaseLive(jobs[i], token, nows[i]) || jobs[i].id in TrackAll(base, jobs[..i])
    ensures Addable(base, jobs, token, nows) == i
  {
    var last := |jobs| - 1;
    if i < last {
      assert jobs[..last][..i] == jobs[..i] && nows[..last][..i] == nows[..i];
      AddableStops(base, jobs[..last], token, nows[..last], i);
    }
  }

  /** The owned rows in claim order. */
  function Owned(ordered: seq<JobId>, outstanding: Deadlines): seq<JobId> {
    if ordered == [] then []
    else
      var id := ordered[|ordered| - 1];
      Owned(ordered[..|ordered| - 1], outstanding) + (if id in outstanding then [id] else [])
  }

  lemma {:induction false} OwnedIs(ordered: seq<JobId>, outstanding: Deadlines)
    ensures forall id :: id in Owned(ordered, outstanding) <==> id in ordered && id in outstanding
  {
    if ordered != [] {
      OwnedIs(ordered[..|ordered| - 1], outstanding);
      assert ordered == ordered[..|ordered| - 1] + [ordered[|ordered| - 1]];
    }
  }

  lemma {:induction false} OwnedAll(ordered: seq<JobId>, outstanding: Deadlines)
    requires forall id :: id in ordered ==> id in outstanding
    ensures Owned(ordered, outstanding) == ordered
  {
    if ordered != [] {
      OwnedAll(ordered[..|ordered| - 1], outstanding);
    }
  }

  lemma {:induction false} OwnedNone(ordered: seq<JobId>, outstanding: Deadlines)
    requires forall id :: id in ordered ==> id !in outstanding
    ensures Owned(ordered, outstanding) == []
  {
    if ordered != [] {
      OwnedNone(ordered[..|ordered| - 1], outstanding);
    }
  }

  lemma {:induction false} OwnedConcat(a: seq<JobId>, b: seq<JobId>, outstanding: Deadlines)
    ensures Owned(a + b, outstanding) == Owned(a, outstanding) + Owned(b, outstanding)
  {
    if b == [] {
      assert a + b == a;
    } else {
      OwnedConcat(a, b[..|b| - 1], outstanding);
      assert (a + b)[..|a + b| - 1] == a + b[..|b| - 1];
    }
  }
}
