/** The lease ledger of one worker joined with the job table it describes: while the clock has not passed a deadline of
 *  the ledger, the row in the table carries the worker's token at least that long, whatever everyone else does. Where a
 *  claim is stored in whole milliseconds, that holds of the deadline as stored.
 */
module Ownership {
  import opened Jobs
  import opened JobTable
  import opened LeaseSpec
  import opened LeaseLedger
  import opened Exclusivity

  /** The calls that reached the table, the worker's ledger, how far time has come, and whether the plain claim of the
   *  backend stores whole milliseconds.
   */
  datatype Joint = Joint(calls: seq<Call>, ordered: seq<JobId>, outstanding: Deadlines, clock: Time, millis: bool)

  /** What the table keeps of the deadline of a claim. */
  function Stored(millis: bool, until: Time): (stored: Time)
    ensures until - MILLISECOND < stored <= until
  {
    if millis then FloorMs(until) else until
  }

  lemma StoredIsMonotone(millis: bool, a: Time, b: Time)
    requires a <= b
    ensures Stored(millis, a) <= Stored(millis, b)
  {
    if FloorMs(b) < FloorMs(a) {
      var x, y := FloorMs(a) / MILLISECOND, FloorMs(b) / MILLISECOND;
      assert FloorMs(a) == x * MILLISECOND && FloorMs(b) == y * MILLISECOND;
    }
  }

  datatype Move =
    | Pass(at: Time)
    | Other(call: Call, at: Time)
    | Take(ids: seq<JobId>, tracked: seq<JobId>, now: Time, until: Time)
    | Secure(now: Time, requiredUntil: Time, targetUntil: Time, applied: bool, reply: Reply, after: Time)
    | Write(call: Call, gone: set<JobId>)

  /** The rows an extension is asked for; none when a lease has already expired. */
  ghost function Requested(j: Joint, move: Move): seq<JobId>
    requires move.Secure?
  {
    if Expired(j.outstanding, move.now) then [] else Below(j.ordered, j.outstanding, move.requiredUntil)
  }

  function ExtendCall(ids: seq<JobId>, token: LeaseToken, move: Move): Call
    requires move.Secure?
  {
    Extend(ToSet(ids), token, move.now, ExtensionDeadline(move.requiredUntil, move.targetUntil))
  }

  /** A reply without an error reports how many of the rows the table really extended. */
  ghost predicate Truthful(j: Joint, token: LeaseToken, move: Move)
    requires move.Secure?
  {
    var ids := Requested(j, move);
    ids != [] && !move.reply.failed ==>
      move.applied && move.reply.affected == |set id | id in ids && Holds(Run(j.calls), id, token, move.now)|
  }

  /** Other workers use other tokens, and no claim a clock ahead of time. Of the rows it claims, the worker tracks some
   *  it does not track already; and it forgets every row that one of its own writes touches.
   */
  ghost predicate Possible(j: Joint, token: LeaseToken, move: Move) {
    match move
    case Pass(at) => at >= j.clock
    case Other(call, at) => TokenOf(call) != token && at >= j.clock && (call.Claim? ==> call.now <= at)
    case Take(_, tracked, now, _) =>
      now <= j.clock && forall id :: id in tracked ==> id !in j.outstanding && id in Taken(j, token, move)
    case Secure(_, _, _, _, _, _) => Truthful(j, token, move)
    case Write(call, gone) =>
      TokenOf(call) == token
      && forall id :: id in j.outstanding && id !in gone ==> EffectOn(Run(j.calls), call, id).NoEffect?
  }

  function ClaimCall(j: Joint, token: LeaseToken, move: Move): Call
    requires move.Take?
  {
    Claim(ToSet(move.ids), token, move.now, Stored(j.millis, move.until))
  }

  /** The rows a claim of the worker reserves. */
  ghost function Taken(j: Joint, token: LeaseToken, move: Move): set<JobId>
    requires move.Take?
  {
    set id | id in move.ids && EffectOn(Run(j.calls), ClaimCall(j, token, move), id).Claimed?
  }

  ghost function After(j: Joint, token: LeaseToken, move: Move): Joint {
    match move
    case Pass(at) => j.(clock := at)
    case Other(call, at) => j.(calls := j.calls + [call], clock := at)
    case Take(_, tracked, _, until) =>
      j.(calls := j.calls + [ClaimCall(j, token, move)], ordered := j.ordered + tracked,
         outstanding := j.outstanding + (map id | id in tracked :: until))
    case Secure(now, requiredUntil, targetUntil, applied, reply, after) =>
      var ids := Requested(j, move);
      j.(calls := if ids != [] && applied then j.calls + [ExtendCall(ids, token, move)] else j.calls,
         outstanding := Ensure(j.ordered, j.outstanding, now, requiredUntil, targetUntil, reply, after).1)
    case Write(call, gone) => j.(calls := j.calls + [call], outstanding := j.outstanding - gone)
  }

  /** The row carries the token at least until `until`. */
  ghost predicate Carries(s: Store, token: LeaseToken, id: JobId, until: Time) {
    && id in s.jobs && s.jobs[id].token == token
    && s.jobs[id].reservedAt.Some? && s.jobs[id].reservedAt.value >= until
  }

  /** The table backs every deadline of the ledger that is still ahead, as far as it was stored. */
  ghost predicate Backed(j: Joint, token: LeaseToken) {
    && j.outstanding.Keys <= ToSet(j.ordered)
    && forall id :: id in j.outstanding && Stored(j.millis, j.outstanding[id]) > j.clock ==>
         Carries(Run(j.calls), token, id, Stored(j.millis, j.outstanding[id]))
  }

  // ----- each move keeps the ledger backed

  lemma RunNext(calls: seq<Call>, call: Call)
    ensures Run(calls + [call]) == Step(Run(calls), call)
  {
    assert (calls + [call])[..|calls|] == calls;
  }

  /** A row that a call does not touch stays as it is. */
  lemma UntouchedRow(calls: seq<Call>, call: Call, id: JobId)
    requires id in Run(calls).jobs && EffectOn(Run(calls), call, id).NoEffect?
    ensures id in Run(calls + [call]).jobs && Run(calls + [call]).jobs[id] == Run(calls).jobs[id]
  {
    RunNext(calls, call);
    HistoryHolds(calls, id);
    StepMoves(Run(calls), call, id);
  }

  /** Before its deadline no other worker's call touches a backed row. */
  lemma OtherLeavesBacked(calls: seq<Call>, token: LeaseToken, call: Call, id: JobId, until: Time)
    requires Carries(Run(calls), token, id, until) && TokenOf(call) != token && (call.Claim? ==> call.now < until)
    ensures EffectOn(Run(calls), call, id).NoEffect?
    ensures Carries(Run(calls + [call]), token, id, until)
  {
    HistoryHolds(calls, id);
    OthersLeaveRow(Run(calls), call, id, token, Run(calls).jobs[id].reservedAt.value);
    UntouchedRow(calls, call, id);
  }

  lemma OtherKeepsBacked(j: Joint, token: LeaseToken, move: Move)
    requires Backed(j, token) && move.Other? && Possible(j, token, move)
    ensures Backed(After(j, token, move), token)
  {
    forall id | id in j.outstanding && Stored(j.millis, j.outstanding[id]) > move.at
      ensures Carries(Run(j.calls + [move.call]), token, id, Stored(j.millis, j.outstanding[id]))
    {
      OtherLeavesBacked(j.calls, token, move.call, id, Stored(j.millis, j.outstanding[id]));
    }
  }

  lemma WriteKeepsBacked(j: Joint, token: LeaseToken, move: Move)
    requires Backed(j, token) && move.Write? && Possible(j, token, move)
    ensures Backed(After(j, token, move), token)
  {
    var left := j.outstanding - move.gone;
    forall id | id in left && Stored(j.millis, left[id]) > j.clock
      ensures Carries(Run(j.calls + [move.call]), token, id, Stored(j.millis, left[id]))
    {
      UntouchedRow(j.calls, move.call, id);
    }
  }

  lemma ClaimedRow(calls: seq<Call>, call: Call, id: JobId)
    requires call.Claim? && EffectOn(Run(calls), call, id).Claimed?
    ensures Carries(Run(calls + [call]), call.token, id, call.until)
  {
    RunNext(calls, call);
    HistoryHolds(calls, id);
    StepMoves(Run(calls), call, id);
  }

  lemma TakeKeepsBacked(j: Joint, token: LeaseToken, move: Move)
    requires Backed(j, token) && move.Take? && Possible(j, token, move)
    ensures Backed(After(j, token, move), token)
  {
    var next, call := After(j, token, move), ClaimCall(j, token, move);
    forall id | id in next.outstanding && Stored(j.millis, next.outstanding[id]) > j.clock
      ensures Carries(Run(next.calls), token, id, Stored(j.millis, next.outstanding[id]))
    {
      if id in move.tracked {
        ClaimedRow(j.calls, call, id);
      } else {
        assert EffectOn(Run(j.calls), call, id).NoEffect?;
        UntouchedRow(j.calls, call, id);
      }
    }
  }

  /** An extension never shortens a lease in the table that was to end before it. */
  lemma ExtendedRow(calls: seq<Call>, token: LeaseToken, call: Call, id: JobId, until: Time)
    requires call.Extend? && call.token == token && call.until >= until && Carries(Run(calls), token, id, until)
    ensures Carries(Run(calls + [call]), token, id, until)
    ensures EffectOn(Run(calls), call, id).Extended? ==> Carries(Run(calls + [call]), token, id, call.until)
  {
    RunNext(calls, call);
    HistoryHolds(calls, id);
    StepMoves(Run(calls), call, id);
  }

  /** A reply that counts every requested row means that the table extended every one of them. */
  lemma FullCountExtendsAll(s: Store, ids: seq<JobId>, token: LeaseToken, now: Time)
    requires |set id | id in ids && Holds(s, id, token, now)| == |ids|
    ensures forall id :: id in ids ==> Holds(s, id, token, now)
  {
    var held := set id | id in ids && Holds(s, id, token, now);
    assert held <= ToSet(ids);
    SubsetCardinality(held, ToSet(ids));
    DistinctIffFull(ids);
    forall id | id in ids ensures Holds(s, id, token, now) {
      assert id in ToSet(ids) && id in held;
    }
  }

  lemma HeldRow(calls: seq<Call>, token: LeaseToken, call: Call, id: JobId)
    requires call.Extend? && call.token == token && id in call.ids && Holds(Run(calls), id, token, call.now)
    ensures Carries(Run(calls + [call]), token, id, call.until)
  {
    RunNext(calls, call);
    HistoryHolds(calls, id);
    StepMoves(Run(calls), call, id);
  }

  /** The table after an extension, for the row of one lease that is still ahead. */
  lemma ExtensionKeepsRow(calls: seq<Call>, token: LeaseToken, ids: seq<JobId>, call: Call, id: JobId, until: Time)
    requires call.Extend? && call.token == token && call.ids == ToSet(ids) && Carries(Run(calls), token, id, until)
    requires id in ids ==> call.until >= until
    ensures Carries(Run(calls + [call]), token, id, until)
  {
    if id in ids {
      ExtendedRow(calls, token, call, id, until);
    } else {
      UntouchedRow(calls, call, id);
    }
  }

  lemma AcceptedKeepsBacked(j: Joint, token: LeaseToken, move: Move)
    requires Backed(j, token) && move.Secure? && Possible(j, token, move)
    requires var ids := Requested(j, move); ids != [] && Accepted(ids, move.reply)
    ensures Backed(After(j, token, move), token)
  {
    var ids, next := Requested(j, move), After(j, token, move);
    var call := ExtendCall(ids, token, move);
    FullCountExtendsAll(Run(j.calls), ids, token, move.now);
    ExtensionSurvivesRoundTrip(move.requiredUntil, move.targetUntil);
    forall id | id in next.outstanding && Stored(j.millis, next.outstanding[id]) > j.clock
      ensures Carries(Run(j.calls + [call]), token, id, Stored(j.millis, next.outstanding[id]))
    {
      if id in ids {
        HeldRow(j.calls, token, call, id);
      } else {
        ExtensionKeepsRow(j.calls, token, ids, call, id, Stored(j.millis, j.outstanding[id]));
      }
    }
  }

  lemma RejectedKeepsBacked(j: Joint, token: LeaseToken, move: Move)
    requires Backed(j, token) && move.Secure? && Possible(j, token, move)
    requires var ids := Requested(j, move); ids != [] && !Accepted(ids, move.reply)
    ensures Backed(After(j, token, move), token)
  {
    var ids := Requested(j, move);
    var call := ExtendCall(ids, token, move);
    BelowIs(j.ordered, j.outstanding, move.requiredUntil);
    ExtensionSurvivesRoundTrip(move.requiredUntil, move.targetUntil);
    if move.applied {
      forall id | id in j.outstanding && Stored(j.millis, j.outstanding[id]) > j.clock
        ensures Carries(Run(j.calls + [call]), token, id, Stored(j.millis, j.outstanding[id]))
      {
        ExtensionKeepsRow(j.calls, token, ids, call, id, Stored(j.millis, j.outstanding[id]));
      }
    }
  }

  lemma MoveKeepsBacked(j: Joint, token: LeaseToken, move: Move)
    requires Backed(j, token) && Possible(j, token, move)
    ensures Backed(After(j, token, move), token)
  {
    match move
    case Pass(_) =>
    case Other(_, _) => OtherKeepsBacked(j, token, move);
    case Take(_, _, _, _) => TakeKeepsBacked(j, token, move);
    case Write(_, _) => WriteKeepsBacked(j, token, move);
    case Secure(_, _, _, _, _, _) =>
      if Requested(j, move) != [] {
        if Accepted(Requested(j, move), move.reply) {
          AcceptedKeepsBacked(j, token, move);
        } else {
          RejectedKeepsBacked(j, token, move);
        }
      }
  }

  // ----- whole runs

  ghost function At(start: Joint, token: LeaseToken, moves: seq<Move>): Joint {
    if moves == [] then start
    else After(At(start, token, moves[..|moves| - 1]), token, moves[|moves| - 1])
  }

  /** The joint state before move `n`. */
  ghost function Before(start: Joint, token: LeaseToken, moves: seq<Move>, n: nat): Joint
    requires n <= |moves|
  {
    At(start, token, moves[..n])
  }

  ghost predicate AllPossible(start: Joint, token: LeaseToken, moves: seq<Move>) {
    forall i :: 0 <= i < |moves| ==> Possible(Before(start, token, moves, i), token, moves[i])
  }

  lemma BeforeNext(start: Joint, token: LeaseToken, moves: seq<Move>, n: nat)
    requires n < |moves|
    ensures Before(start, token, moves, n + 1) == After(Before(start, token, moves, n), token, moves[n])
  {
    assert moves[..n + 1][..n] == moves[..n];
  }

  /** From a ledger with nothing in it, whatever calls came before: in every run the table backs the ledger. */
  lemma {:induction false} LedgerIsBacked(start: Joint, token: LeaseToken, moves: seq<Move>, n: nat)
    requires start.outstanding == map[] && n <= |moves| && AllPossible(start, token, moves)
    ensures Backed(Before(start, token, moves, n), token) && Before(start, token, moves, n).millis == start.millis
  {
    if n > 0 {
      LedgerIsBacked(start, token, moves, n - 1);
      BeforeNext(start, token, moves, n - 1);
      MoveKeepsBacked(Before(start, token, moves, n - 1), token, moves[n - 1]);
    }
  }

  lemma MoveKeepsDeadline(j: Joint, token: LeaseToken, move: Move, id: JobId)
    requires Possible(j, token, move) && id in j.outstanding && !(move.Write? && id in move.gone)
    ensures var next := After(j, token, move);
      id in next.outstanding && next.outstanding[id] >= j.outstanding[id] && next.clock >= j.clock
  {
    if move.Secure? {
      EnsureNeverShortens(j.ordered, j.outstanding, move.now, move.requiredUntil, move.targetUntil, move.reply,
                          move.after);
    }
  }

  /** The worker does not let go of the row between two points of the run. */
  ghost predicate KeepsTrack(moves: seq<Move>, id: JobId, m: nat, n: nat)
    requires m <= n <= |moves|
  {
    forall i :: m <= i < n ==> !(moves[i].Write? && id in moves[i].gone)
  }

  lemma {:induction false} DeadlineLasts(start: Joint, token: LeaseToken, moves: seq<Move>, id: JobId, m: nat, n: nat)
    requires m <= n <= |moves| && AllPossible(start, token, moves) && KeepsTrack(moves, id, m, n)
    requires id in Before(start, token, moves, m).outstanding
    ensures id in Before(start, token, moves, n).outstanding
    ensures Before(start, token, moves, n).outstanding[id] >= Before(start, token, moves, m).outstanding[id]
    decreases n
  {
    if m < n {
      DeadlineLasts(start, token, moves, id, m, n - 1);
      BeforeNext(start, token, moves, n - 1);
      MoveKeepsDeadline(Before(start, token, moves, n - 1), token, moves[n - 1], id);
    }
  }

  /** The admission of a handler. */
  datatype Admitting = Admitting(book: Book, reserveFor: nat, before: Start, now: Time, ensureNow: Time, reply: Reply,
                                 after: Time, last: Start)

  ghost function Admitted(a: Admitting): (Verdict, Book) {
    Admission(a.book, a.reserveFor, a.before, a.now, a.ensureNow, a.reply, a.after, a.last)
  }

  /** The admission gets to the point of asking for an extension. */
  ghost predicate Asks(a: Admitting) {
    && a.before.Clear? && a.book.outstanding != map[] && !Expired(a.book.outstanding, a.now)
    && CheckedBound(a.book.outstanding, a.book.bound, a.now) < a.now + a.reserveFor / 3
  }

  /** The handler is admitted on the ledger before move `m`; if that takes an extension, the move is that extension. */
  ghost predicate AdmittedAt(start: Joint, token: LeaseToken, moves: seq<Move>, a: Admitting, m: nat) {
    && m <= |moves| && Admitted(a).0.Ok? && Covered(a.book.outstanding, a.book.bound)
    && Before(start, token, moves, m).ordered == a.book.ordered
    && Before(start, token, moves, m).outstanding == a.book.outstanding
    && (Asks(a) ==> m < |moves| && SecuresFor(moves[m], a))
  }

  /** The move is the extension the admission asks for. */
  ghost predicate SecuresFor(move: Move, a: Admitting) {
    && move.Secure?
    && move == Secure(a.ensureNow, a.now + a.reserveFor, a.now + a.reserveFor, move.applied, a.reply, a.after)
  }

  lemma SecuredLedger(j: Joint, token: LeaseToken, move: Move, a: Admitting)
    requires SecuresFor(move, a) && Admitted(a).0.Ok? && Asks(a)
    requires j.ordered == a.book.ordered && j.outstanding == a.book.outstanding
    ensures After(j, token, move).outstanding == Admitted(a).1.outstanding
  {
    GrantedLedger(a);
  }

  /** Where the run stands when the handler starts. */
  ghost function StartOf(a: Admitting, m: nat): nat {
    if Asks(a) then m + 1 else m
  }

  lemma GrantedLedger(a: Admitting)
    requires Admitted(a).0.Ok?
    ensures Admitted(a).1.outstanding
         == if Asks(a) then Ensure(a.book.ordered, a.book.outstanding, a.ensureNow, a.now + a.reserveFor,
                                   a.now + a.reserveFor, a.reply, a.after).1
            else a.book.outstanding
  {
  }

  lemma AdmissionIsSecuring(start: Joint, token: LeaseToken, moves: seq<Move>, a: Admitting, m: nat)
    requires AdmittedAt(start, token, moves, a, m)
    ensures StartOf(a, m) <= |moves|
    ensures Before(start, token, moves, StartOf(a, m)).outstanding == Admitted(a).1.outstanding
  {
    if Asks(a) {
      BeforeNext(start, token, moves, m);
      SecuredLedger(Before(start, token, moves, m), token, moves[m], a);
    } else {
      GrantedLedger(a);
    }
  }

  lemma BackedRow(j: Joint, token: LeaseToken, id: JobId, until: Time)
    requires Backed(j, token) && id in j.outstanding && j.outstanding[id] >= until
    requires j.clock < Stored(j.millis, until)
    ensures Carries(Run(j.calls), token, id, Stored(j.millis, until))
  {
    StoredIsMonotone(j.millis, until, j.outstanding[id]);
  }

  lemma TrackedRowIsHeld(start: Joint, token: LeaseToken, moves: seq<Move>, id: JobId, n: nat, until: Time)
    requires start.outstanding == map[] && n <= |moves| && AllPossible(start, token, moves)
    requires id in Before(start, token, moves, n).outstanding && Before(start, token, moves, n).outstanding[id] >= until
    requires Before(start, token, moves, n).clock < Stored(start.millis, until)
    ensures Carries(Run(Before(start, token, moves, n).calls), token, id, Stored(start.millis, until))
  {
    LedgerIsBacked(start, token, moves, n);
    BackedRow(Before(start, token, moves, n), token, id, until);
  }

  /** Every row of an admitted batch is tracked a third of the reservation ahead. */
  lemma AdmissionCoversRow(a: Admitting, id: JobId)
    requires Admitted(a).0.Ok? && Covered(a.book.outstanding, a.book.bound)
    requires a.book.outstanding.Keys <= ToSet(a.book.ordered) && id in a.book.outstanding
    ensures id in Admitted(a).1.outstanding && Admitted(a).1.outstanding[id] >= a.now + a.reserveFor / 3
  {
    AdmissionKeepsKeys(a.book, a.reserveFor, a.before, a.now, a.ensureNow, a.reply, a.after, a.last);
    AdmissionIsCovered(a.book, a.reserveFor, a.before, a.now, a.ensureNow, a.reply, a.after, a.last);
  }

  /** And stays so while the worker does not let go of it. */
  lemma {:induction false} AdmittedDeadline(start: Joint, token: LeaseToken, moves: seq<Move>, a: Admitting, id: JobId,
                                            m: nat, n: nat)
    requires start.outstanding == map[] && AllPossible(start, token, moves) && AdmittedAt(start, token, moves, a, m)
    requires StartOf(a, m) <= n <= |moves| && id in a.book.outstanding && KeepsTrack(moves, id, StartOf(a, m), n)
    ensures id in Before(start, token, moves, n).outstanding
    ensures Before(start, token, moves, n).outstanding[id] >= a.now + a.reserveFor / 3
  {
    LedgerIsBacked(start, token, moves, m);
    AdmissionIsSecuring(start, token, moves, a, m);
    AdmissionCoversRow(a, id);
    DeadlineLasts(start, token, moves, id, StartOf(a, m), n);
  }

  /** Once a handler is admitted at `now`, and up to any instant within a third of the reservation, every row of its
   *  batch that the worker has not let go of carries the worker's token in the table, at least until then.
   */
  lemma {:induction false} AdmittedRowsAreHeld(start: Joint, token: LeaseToken, moves: seq<Move>, a: Admitting,
                                               id: JobId, m: nat, n: nat, until: Time)
    requires start.outstanding == map[] && AllPossible(start, token, moves) && AdmittedAt(start, token, moves, a, m)
    requires StartOf(a, m) <= n <= |moves| && id in a.book.outstanding && KeepsTrack(moves, id, StartOf(a, m), n)
    requires until <= a.now + a.reserveFor / 3 && Before(start, token, moves, n).clock < Stored(start.millis, until)
    ensures Carries(Run(Before(start, token, moves, n).calls), token, id, Stored(start.millis, until))
  {
    AdmittedDeadline(start, token, moves, a, id, m, n);
    TrackedRowIsHeld(start, token, moves, id, n, until);
  }

  /** And no call of any other worker before that instant has any effect on the row. */
  lemma {:induction false} AdmittedRowsAreExclusive(start: Joint, token: LeaseToken, moves: seq<Move>, a: Admitting,
                                                    id: JobId, m: nat, n: nat, until: Time)
    requires start.outstanding == map[] && AllPossible(start, token, moves) && AdmittedAt(start, token, moves, a, m)
    requires StartOf(a, m) <= n < |moves| && id in a.book.outstanding && KeepsTrack(moves, id, StartOf(a, m), n)
    requires until <= a.now + a.reserveFor / 3 && moves[n].Other? && moves[n].at < Stored(start.millis, until)
    ensures EffectOn(Run(Before(start, token, moves, n).calls), moves[n].call, id).NoEffect?
  {
    var j := Before(start, token, moves, n);
    assert Possible(j, token, moves[n]);
    AdmittedRowsAreHeld(start, token, moves, a, id, m, n, until);
    OtherLeavesBacked(j.calls, token, moves[n].call, id, Stored(start.millis, until));
  }
}
