/** What the lease ledger must decide, written as full scans over the outstanding deadlines, and what those decisions
 *  guarantee; then what becomes of a cached bound, and when admission by that bound agrees with the scan.
 */
module LeaseSpec {
  import opened Jobs

  /** Deadlines of the rows the worker still owns. */
  type Deadlines = map<JobId, Time>

  datatype Verdict = Ok | LeaseLost | Refused

  /** What the repository answered to an extension, and whether the call outlived its own deadline. */
  datatype Reply = Reply(failed: bool, cancelled: bool, affected: nat)

  ghost predicate Expired(outstanding: Deadlines, now: Time) {
    exists id :: id in outstanding && outstanding[id] <= now
  }

  ghost predicate Covered(outstanding: Deadlines, bound: Time) {
    forall id :: id in outstanding ==> outstanding[id] >= bound
  }

  /** The smallest deadline, or the zero time when nothing is outstanding. */
  ghost predicate IsEarliest(outstanding: Deadlines, earliest: Time) {
    if outstanding == map[] then earliest == ZERO_TIME
    else Covered(outstanding, earliest) && exists id :: id in outstanding && outstanding[id] == earliest
  }

  lemma {:induction false} EarliestExists(outstanding: Deadlines, among: set<JobId>) returns (id: JobId)
    requires among != {} && among <= outstanding.Keys
    ensures id in among && forall k :: k in among ==> outstanding[id] <= outstanding[k]
    decreases |among|
  {
    var one :| one in among;
    id := one;
    if among != {one} {
      var rest := EarliestExists(outstanding, among - {one});
      id := if outstanding[rest] < outstanding[one] then rest else one;
    }
  }

  /** The smallest deadline, or the zero time when nothing is outstanding. */
  ghost function Earliest(outstanding: Deadlines): (earliest: Time)
    ensures IsEarliest(outstanding, earliest)
  {
    assert exists e :: IsEarliest(outstanding, e) by {
      if outstanding == map[] {
        assert IsEarliest(outstanding, ZERO_TIME);
      } else {
        assert outstanding.Keys != {};
        var id := EarliestExists(outstanding, outstanding.Keys);
        assert IsEarliest(outstanding, outstanding[id]);
      }
    }
    var e :| IsEarliest(outstanding, e);
    e
  }

  lemma EarliestIsUnique(outstanding: Deadlines, earliest: Time)
    requires IsEarliest(outstanding, earliest)
    ensures earliest == Earliest(outstanding)
  {
  }

  /** The ledger rows, in claim order, whose deadline is before `bound`. */
  function Below(ordered: seq<JobId>, outstanding: Deadlines, bound: Time): seq<JobId> {
    if ordered == [] then []
    else
      var id := ordered[|ordered| - 1];
      Below(ordered[..|ordered| - 1], outstanding, bound)
      + (if id in outstanding && outstanding[id] < bound then [id] else [])
  }

  function Extended(outstanding: Deadlines, ids: seq<JobId>, until: Time): Deadlines {
    map id | id in outstanding :: if id in ids then until else outstanding[id]
  }

  /** The next whole millisecond strictly after the later of the two instants. */
  function ExtensionDeadline(requiredUntil: Time, targetUntil: Time): Time {
    FloorMs(if targetUntil < requiredUntil then requiredUntil else targetUntil) + MILLISECOND
  }

  predicate Accepted(ids: seq<JobId>, reply: Reply) {
    !reply.failed && !reply.cancelled && reply.affected == |ids|
  }

  /** Secure every outstanding lease up to `requiredUntil`; `now` and `after` are the two clock readings. */
  ghost function Ensure(ordered: seq<JobId>, outstanding: Deadlines, now: Time, requiredUntil: Time, targetUntil: Time,
                        reply: Reply, after: Time): (Verdict, Deadlines)
  {
    var ids := Below(ordered, outstanding, requiredUntil);
    if Expired(outstanding, now) then (LeaseLost, outstanding)
    else if ids == [] then (Ok, outstanding)
    else if !Accepted(ids, reply) then (LeaseLost, outstanding)
    else
      var extended := Extended(outstanding, ids, ExtensionDeadline(requiredUntil, targetUntil));
      (if Expired(extended, after) then LeaseLost else Ok, extended)
  }

  /** Exactly when the leases are secured: none has expired, and either every one already reaches the required instant
   *  or the repository extended all short ones without an error, in time, and none has expired since.
   */
  lemma EnsureOkIff(ordered: seq<JobId>, outstanding: Deadlines, now: Time, requiredUntil: Time, targetUntil: Time,
                    reply: Reply, after: Time)
    requires outstanding.Keys <= ToSet(ordered)
    ensures var (verdict, secured) := Ensure(ordered, outstanding, now, requiredUntil, targetUntil, reply, after);
      var short := Below(ordered, outstanding, requiredUntil);
      && (verdict.Ok? || verdict.LeaseLost?)
      && (verdict.Ok? <==>
            && (forall id :: id in outstanding ==> outstanding[id] > now)
            && ((forall id :: id in outstanding ==> outstanding[id] >= requiredUntil)
                || (&& !reply.failed && !reply.cancelled && reply.affected == |short|
                    && forall id :: id in secured ==> secured[id] > after)))
  {
    var short := Below(ordered, outstanding, requiredUntil);
    BelowIs(ordered, outstanding, requiredUntil);
    if short == [] {
      forall id | id in outstanding ensures outstanding[id] >= requiredUntil {
        assert id !in short;
      }
    } else {
      assert short[0] in short;
    }
  }

  // ----- what becomes of the cached bound

  /** A check touches the bound only when it must scan, and the scan makes it exact. */
  ghost function CheckedBound(outstanding: Deadlines, bound: Time, now: Time): Time {
    if bound > now || Expired(outstanding, now) then bound else Earliest(outstanding)
  }

  ghost function EnsuredBound(ordered: seq<JobId>, outstanding: Deadlines, bound: Time, now: Time, requiredUntil: Time,
                              targetUntil: Time, reply: Reply, after: Time): Time
  {
    var checked := CheckedBound(outstanding, bound, now);
    if Expired(outstanding, now) || checked >= requiredUntil then checked
    else Earliest(Ensure(ordered, outstanding, now, requiredUntil, targetUntil, reply, after).1)
  }

  /** The whole ledger as a value. */
  datatype Book = Book(ordered: seq<JobId>, outstanding: Deadlines, bound: Time)

  ghost function Ensured(book: Book, now: Time, requiredUntil: Time, targetUntil: Time, reply: Reply, after: Time)
    : (Verdict, Book)
  {
    var (verdict, secured) := Ensure(book.ordered, book.outstanding, now, requiredUntil, targetUntil, reply, after);
    (verdict, Book(book.ordered, secured,
                   EnsuredBound(book.ordered, book.outstanding, book.bound, now, requiredUntil, targetUntil, reply,
                                after)))
  }

  /** The ledger secured to one instant, required and wanted alike. */
  ghost function EnsuredTo(book: Book, now: Time, until: Time, reply: Reply, after: Time): (Verdict, Book) {
    Ensured(book, now, until, until, reply, after)
  }

  /** One row less; the bound stays, and may be too low from then on, unless nothing is left. */
  ghost function Forgotten(book: Book, id: JobId): Book {
    var left := book.outstanding - {id};
    Book(book.ordered, left, if left == map[] then ZERO_TIME else book.bound)
  }

  lemma {:induction false} BelowIs(ordered: seq<JobId>, outstanding: Deadlines, bound: Time)
    ensures forall id :: id in Below(ordered, outstanding, bound)
                    <==> id in ordered && id in outstanding && outstanding[id] < bound
    ensures NoDuplicates(ordered) ==> NoDuplicates(Below(ordered, outstanding, bound))
  {
    if ordered != [] {
      var init := ordered[..|ordered| - 1];
      BelowIs(init, outstanding, bound);
      assert ordered == init + [ordered[|ordered| - 1]];
    }
  }

  /** An extension deadline is past its target and survives storage in whole milliseconds. */
  lemma ExtensionSurvivesRoundTrip(requiredUntil: Time, targetUntil: Time)
    ensures var until := ExtensionDeadline(requiredUntil, targetUntil);
      until > requiredUntil && until > targetUntil && FloorMs(until) == until
      && until <= (if targetUntil < requiredUntil then requiredUntil else targetUntil) + MILLISECOND
  {
  }

  /** Securing never shortens a lease and never forgets one, whatever the repository answers. */
  lemma EnsureNeverShortens(ordered: seq<JobId>, outstanding: Deadlines, now: Time, requiredUntil: Time,
                            targetUntil: Time, reply: Reply, after: Time)
    ensures var secured := Ensure(ordered, outstanding, now, requiredUntil, targetUntil, reply, after).1;
      secured.Keys == outstanding.Keys && forall id :: id in outstanding ==> secured[id] >= outstanding[id]
  {
    BelowIs(ordered, outstanding, requiredUntil);
    ExtensionSurvivesRoundTrip(requiredUntil, targetUntil);
  }

  /** When securing succeeds, every lease reaches `requiredUntil` and none has expired by the last
   *  clock reading. An already expired lease is never revived.
   */
  lemma EnsureCovers(ordered: seq<JobId>, outstanding: Deadlines, now: Time, requiredUntil: Time,
                     targetUntil: Time, reply: Reply, after: Time)
    requires outstanding.Keys <= ToSet(ordered)
    ensures var (verdict, secured) := Ensure(ordered, outstanding, now, requiredUntil, targetUntil, reply, after);
      && !verdict.Refused?
      && (Expired(outstanding, now) ==> verdict.LeaseLost? && secured == outstanding)
      && (verdict.Ok? ==> Covered(secured, requiredUntil) && !Expired(outstanding, now))
      && (verdict.Ok? && secured != outstanding ==> !Expired(secured, after))
  {
    var ids := Below(ordered, outstanding, requiredUntil);
    BelowIs(ordered, outstanding, requiredUntil);
    ExtensionSurvivesRoundTrip(requiredUntil, targetUntil);
  }

  /** A repository that extends exactly the rows it still holds for the token, and reports how many, secures the leases
   *  precisely when no row was requested twice: a repeated row is counted once.
   */
  lemma HealthyExtensionIffDistinct(ordered: seq<JobId>, outstanding: Deadlines, now: Time, requiredUntil: Time,
                                    targetUntil: Time, held: set<JobId>, after: Time)
    requires !Expired(outstanding, now)
    requires var ids := Below(ordered, outstanding, requiredUntil);
      && ToSet(ids) <= held
      && !Expired(Extended(outstanding, ids, ExtensionDeadline(requiredUntil, targetUntil)), after)
    ensures var ids := Below(ordered, outstanding, requiredUntil);
      Ensure(ordered, outstanding, now, requiredUntil, targetUntil, Reply(false, false, |ToSet(ids) * held|),
             after).0.Ok?
      <==> NoDuplicates(ids)
  {
    var ids := Below(ordered, outstanding, requiredUntil);
    assert ToSet(ids) * held == ToSet(ids);
    DistinctIffFull(ids);
  }

  // ----- admission

  /** Admission decided by a full scan: extend only when some lease really lacks headroom. */
  ghost function Admit(ordered: seq<JobId>, outstanding: Deadlines, now: Time, reserveFor: int,
                       ensureNow: Time, reply: Reply, after: Time): (Verdict, Deadlines)
  {
    if outstanding == map[] || Expired(outstanding, now) then (LeaseLost, outstanding)
    else if Covered(outstanding, now + reserveFor / 3) then (Ok, outstanding)
    else Ensure(ordered, outstanding, ensureNow, now + reserveFor, now + reserveFor, reply, after)
  }

  /** Admission with a bound that may be too low: it also extends when only the bound lacks headroom. */
  ghost function AdmitCached(ordered: seq<JobId>, outstanding: Deadlines, bound: Time, now: Time, reserveFor: int,
                             ensureNow: Time, reply: Reply, after: Time): (Verdict, Deadlines)
  {
    if outstanding == map[] || Expired(outstanding, now) then (LeaseLost, outstanding)
    else if bound >= now + reserveFor / 3 then (Ok, outstanding)
    else Ensure(ordered, outstanding, ensureNow, now + reserveFor, now + reserveFor, reply, after)
  }

  /** Whatever the bound, an admitted batch has a third of the reservation as headroom on every lease. */
  lemma AdmissionHeadroom(ordered: seq<JobId>, outstanding: Deadlines, bound: Time, now: Time, reserveFor: nat,
                          ensureNow: Time, reply: Reply, after: Time)
    requires outstanding.Keys <= ToSet(ordered) && Covered(outstanding, bound)
    ensures var (verdict, secured) := AdmitCached(ordered, outstanding, bound, now, reserveFor, ensureNow, reply,
                                                  after);
      verdict.Ok? ==> secured != map[] && Covered(secured, now + reserveFor / 3)
  {
    EnsureCovers(ordered, outstanding, ensureNow, now + reserveFor, now + reserveFor, reply, after);
    EnsureNeverShortens(ordered, outstanding, ensureNow, now + reserveFor, now + reserveFor, reply, after);
  }

  ghost predicate AdmissionsAgree(ordered: seq<JobId>, outstanding: Deadlines, bound: Time, now: Time, reserveFor: int,
                                  ensureNow: Time)
  {
    forall reply, after :: AdmitCached(ordered, outstanding, bound, now, reserveFor, ensureNow, reply, after)
                        == Admit(ordered, outstanding, now, reserveFor, ensureNow, reply, after)
  }

  /** The scan would admit at once, but the bound alone lacks headroom, so the cached form secures the leases first; and
   *  that does more than nothing, because some lease ends before a full reservation from now, or has expired by the
   *  second clock reading.
   */
  ghost predicate BoundIsTooLow(outstanding: Deadlines, bound: Time, now: Time, reserveFor: nat, ensureNow: Time) {
    && outstanding != map[] && !Expired(outstanding, now)
    && bound < now + reserveFor / 3 && Covered(outstanding, now + reserveFor / 3)
    && (Expired(outstanding, ensureNow) || !Covered(outstanding, now + reserveFor))
  }

  lemma LowBoundIsHarmless(ordered: seq<JobId>, outstanding: Deadlines, bound: Time, now: Time, reserveFor: nat,
                           ensureNow: Time)
    requires outstanding.Keys <= ToSet(ordered) && Covered(outstanding, bound)
    requires !BoundIsTooLow(outstanding, bound, now, reserveFor, ensureNow)
    ensures AdmissionsAgree(ordered, outstanding, bound, now, reserveFor, ensureNow)
  {
    if outstanding != map[] && !Expired(outstanding, now)
       && bound < now + reserveFor / 3 && Covered(outstanding, now + reserveFor / 3) {
      NothingBelow(ordered, outstanding, now + reserveFor);
    }
  }

  /** The scan admits at once, and the cached form loses the lease to a failing repository or to the clock. */
  lemma LowBoundAsks(ordered: seq<JobId>, outstanding: Deadlines, bound: Time, now: Time, reserveFor: nat,
                     ensureNow: Time, after: Time)
    requires outstanding.Keys <= ToSet(ordered)
    requires BoundIsTooLow(outstanding, bound, now, reserveFor, ensureNow)
    ensures var lost := Reply(true, false, 0);
      && Admit(ordered, outstanding, now, reserveFor, ensureNow, lost, after).0.Ok?
      && AdmitCached(ordered, outstanding, bound, now, reserveFor, ensureNow, lost, after).0.LeaseLost?
  {
    if !Expired(outstanding, ensureNow) {
      var id :| id in outstanding && outstanding[id] < now + reserveFor;
      assert id in Below(ordered, outstanding, now + reserveFor) by {
        BelowIs(ordered, outstanding, now + reserveFor);
      }
    }
  }

  lemma LowBoundShows(ordered: seq<JobId>, outstanding: Deadlines, bound: Time, now: Time, reserveFor: nat,
                      ensureNow: Time)
    requires outstanding.Keys <= ToSet(ordered)
    requires BoundIsTooLow(outstanding, bound, now, reserveFor, ensureNow)
    ensures !AdmissionsAgree(ordered, outstanding, bound, now, reserveFor, ensureNow)
  {
    LowBoundAsks(ordered, outstanding, bound, now, reserveFor, ensureNow, now);
  }

  /** For every ledger with a valid bound and every pair of clock readings, the two forms of admission agree on all
   *  replies exactly when the bound is not too low.
   */
  lemma AdmissionsAgreeIff(ordered: seq<JobId>, outstanding: Deadlines, bound: Time, now: Time, reserveFor: nat,
                           ensureNow: Time)
    requires outstanding.Keys <= ToSet(ordered) && Covered(outstanding, bound)
    ensures AdmissionsAgree(ordered, outstanding, bound, now, reserveFor, ensureNow)
       <==> !BoundIsTooLow(outstanding, bound, now, reserveFor, ensureNow)
  {
    if BoundIsTooLow(outstanding, bound, now, reserveFor, ensureNow) {
      LowBoundShows(ordered, outstanding, bound, now, reserveFor, ensureNow);
    } else {
      LowBoundIsHarmless(ordered, outstanding, bound, now, reserveFor, ensureNow);
    }
  }

  lemma NothingBelow(ordered: seq<JobId>, outstanding: Deadlines, bound: Time)
    requires Covered(outstanding, bound)
    ensures Below(ordered, outstanding, bound) == []
  {
  }

  /** Two leases, the earlier one already forgotten: its deadline lingers in the bound. */
  lemma StaleBoundExtends()
    ensures !AdmissionsAgree([1, 2], map[2 := 20 * SECOND], 5 * SECOND, SECOND, 30 * SECOND, SECOND)
  {
    assert 2 in map[2 := 20 * SECOND];
    AdmissionsAgreeIff([1, 2], map[2 := 20 * SECOND], 5 * SECOND, SECOND, 30 * SECOND, SECOND);
  }

  /** A worker paused between the two readings: every lease covers a full reservation, and yet the cached form asks
   *  again and finds a lease expired that the scan admits.
   */
  lemma PausedAdmissionDiffers()
    ensures Covered(map[2 := 40 * SECOND], SECOND + 30 * SECOND)
    ensures !AdmissionsAgree([1, 2], map[2 := 40 * SECOND], 5 * SECOND, SECOND, 30 * SECOND, 41 * SECOND)
  {
    assert 2 in map[2 := 40 * SECOND];
    AdmissionsAgreeIff([1, 2], map[2 := 40 * SECOND], 5 * SECOND, SECOND, 30 * SECOND, 41 * SECOND);
  }
}
