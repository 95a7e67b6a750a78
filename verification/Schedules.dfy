/** How one worker alternates between single jobs and batch capabilities, and how long ready work waits. */
module Schedules {
  import opened Jobs

  datatype Error = NoError | Draining | Fault

  /** What one attempt to claim and process meets: the capability is paused, or it was tried. */
  datatype Attempt = Paused | Tried(processed: bool, error: Error)

  /** What a turn would meet, per batch capability and for the single capabilities. */
  datatype Work = Work(batches: seq<Attempt>, single: Attempt)

  datatype Served = Nothing | Single | Batch(index: nat)

  datatype Schedule = Schedule(cursor: nat, preferBatch: bool)

  datatype Outcome = Outcome(schedule: Schedule, served: Served, error: Error)

  predicate Stops(a: Attempt) {
    a.Tried? && (a.processed || a.error != NoError)
  }

  /** Going round: the remainder of a number below `2n`. */
  function Wrap(x: nat, n: nat): (r: nat)
    requires x < 2 * n
    ensures r < n
  {
    if x < n then x else x - n
  }

  lemma WrapIsRemainder(x: nat, n: nat)
    requires x < 2 * n
    ensures x % n == Wrap(x, n)
  {
    Remainder(n, if x < n then 0 else 1, Wrap(x, n));
  }

  lemma Remainder(n: nat, q: int, r: nat)
    requires r < n && 0 <= q <= 1
    ensures (q * n + r) % n == r
  {
    if q == 1 {
      assert (n + r) % n == r;
    }
  }

  /** Where the cursor points. */
  function Start(cursor: nat, n: nat): (start: nat)
    requires n > 0
    ensures start < n && (cursor < n ==> start == cursor)
  {
    if cursor < n then WrapIsRemainder(cursor, n); cursor % n else cursor % n
  }

  /** How far round capability `c` is from the cursor. */
  function Distance(cursor: nat, c: nat, n: nat): (d: nat)
    requires c < n
    ensures d < n && Wrap(Start(cursor, n) + d, n) == c
  {
    var start := Start(cursor, n);
    if c >= start then c - start else c + n - start
  }

  /** What the search meets `offset` places after `start`. */
  function Met(batches: seq<Attempt>, start: nat, offset: nat): Attempt
    requires start < |batches| && offset < |batches|
  {
    batches[Wrap(start + offset, |batches|)]
  }

  /** The offset of the first capability, going round, that stops the search; `n` if none does. */
  ghost function FirstStop(batches: seq<Attempt>, start: nat, from: nat): (offset: nat)
    requires start < |batches| && from <= |batches|
    ensures from <= offset <= |batches|
    ensures offset < |batches| ==> Stops(Met(batches, start, offset))
    ensures forall k :: from <= k < offset ==> !Stops(Met(batches, start, k))
    decreases |batches| - from
  {
    if from == |batches| || Stops(Met(batches, start, from)) then from
    else FirstStop(batches, start, from + 1)
  }

  /** The batch half of a turn. */
  ghost function BatchTurn(batches: seq<Attempt>, cursor: nat): (r: (nat, Served, Error))
    ensures r.1.Nothing? || r.1.Batch?
  {
    if batches == [] then (cursor, Nothing, NoError)
    else
      var n, start := |batches|, Start(cursor, |batches|);
      var offset := FirstStop(batches, start, 0);
      if offset == n then (cursor, Nothing, NoError)
      else
        var index := Wrap(start + offset, n);
        if batches[index].processed then (Wrap(index + 1, n), Batch(index), batches[index].error)
        else (cursor, Nothing, batches[index].error)
  }

  method ProcessOneAvailableBatch(batches: seq<Attempt>, cursor: nat)
    returns (cursor': nat, served: Served, error: Error)
    ensures (cursor', served, error) == BatchTurn(batches, cursor)
  {
    if |batches| == 0 {
      return cursor, Nothing, NoError;
    }
    var start := Start(cursor, |batches|);
    for offset := 0 to |batches|
      invariant FirstStop(batches, start, 0) == FirstStop(batches, start, offset)
    {
      var index := (start + offset) % |batches|;
      WrapIsRemainder(start + offset, |batches|);
      WrapIsRemainder(index + 1, |batches|);
      if batches[index].Paused? {
        continue;
      }
      var processed, err := batches[index].processed, batches[index].error;
      if err != NoError || processed {
        return if processed then (index + 1) % |batches| else cursor, if processed then Batch(index) else Nothing, err;
      }
    }
    return cursor, Nothing, NoError;
  }

  /** A single attempt reports a drain or an empty queue as no work. */
  function SingleTurn(a: Attempt): (Served, Error) {
    if !a.Tried? || a.error == Draining then (Nothing, NoError)
    else if a.error == Fault then (Nothing, Fault)
    else (if a.processed then Single else Nothing, NoError)
  }

  /** One turn of a worker. */
  ghost function Turn(s: Schedule, work: Work): Outcome {
    var (cursor, served, error) := BatchTurn(work.batches, s.cursor);
    var batch :=
      if error == Draining then Outcome(s.(cursor := cursor), Nothing, NoError)
      else Outcome(Schedule(cursor, s.preferBatch && served.Nothing?), served, error);
    if s.preferBatch && (error != NoError || served != Nothing) then batch
    else
      var (one, fault) := SingleTurn(work.single);
      if fault != NoError || one != Nothing then Outcome(s.(preferBatch := s.preferBatch || one != Nothing), one, fault)
      else if s.preferBatch then Outcome(s, Nothing, NoError)
      else batch
  }

  class WorkerSchedule {
    var batchCursor: nat
    var preferBatch: bool

    constructor (worker: nat)
      ensures batchCursor == worker && preferBatch == (worker % 2 == 0)
    {
      batchCursor, preferBatch := worker, worker % 2 == 0;
    }

    ghost function State(): Schedule
      reads this
    {
      Schedule(batchCursor, preferBatch)
    }

    method ProcessWorkerWork(work: Work) returns (served: Served, error: Error)
      modifies this
      ensures Outcome(State(), served, error) == Turn(old(State()), work)
    {
      if preferBatch {
        batchCursor, served, error := ProcessOneAvailableBatch(work.batches, batchCursor);
        if error == Draining {
          return Nothing, NoError;
        }
        if error != NoError || served != Nothing {
          if served != Nothing {
            preferBatch := false;
          }
          return;
        }
      }
      served, error := ProcessOneAvailableSingle(work.single);
      if error != NoError || served != Nothing {
        if served != Nothing {
          preferBatch := true;
        }
        return;
      }
      if preferBatch {
        return Nothing, NoError;
      }
      batchCursor, served, error := ProcessOneAvailableBatch(work.batches, batchCursor);
      if error == Draining {
        return Nothing, NoError;
      }
      if served != Nothing {
        preferBatch := false;
      }
    }
  }

  method ProcessOneAvailableSingle(a: Attempt) returns (served: Served, error: Error)
    ensures (served, error) == SingleTurn(a)
  {
    if a.Paused? {
      return Nothing, NoError;
    }
    match a.error
    case NoError => return if a.processed then Single else Nothing, NoError;
    case Draining => return Nothing, NoError;
    case Fault => return Nothing, Fault;
  }

  // ----- errors

  /** The search for batch work meets nothing that stops it. */
  ghost predicate NoBatchWork(work: Work) {
    forall i :: 0 <= i < |work.batches| ==> !Stops(work.batches[i])
  }

  /** A fault of the single work ends the turn with that fault and leaves the schedule; a drain or a pause of it is no
   *  work at all. It is met unless batches are preferred and one of them stops the search first.
   */
  lemma SingleFaultSurfaces(s: Schedule, work: Work)
    requires !s.preferBatch || NoBatchWork(work)
    ensures work.single.Tried? && work.single.error == Fault ==> Turn(s, work) == Outcome(s, Nothing, Fault)
    ensures work.single.Paused? || work.single.error == Draining ==>
              Turn(s, work) == Turn(s, work.(single := Paused))
  {
    if work.batches != [] {
      var start := Start(s.cursor, |work.batches|);
      var offset := FirstStop(work.batches, start, 0);
      assert offset < |work.batches| ==> Stops(Met(work.batches, start, offset));
    }
  }

  /** A fault of the batch work that is served first is reported, with the batch if it was processed; a drain is not. */
  lemma BatchFaultSurfaces(s: Schedule, work: Work, c: nat)
    requires s.preferBatch && c < |work.batches| && Stops(work.batches[c])
    requires forall d :: 0 <= d < |work.batches| && Stops(work.batches[d]) ==>
               Distance(s.cursor, c, |work.batches|) <= Distance(s.cursor, d, |work.batches|)
    ensures var (n, met) := (|work.batches|, work.batches[c]);
      Turn(s, work)
      == if met.error == Draining then
           Outcome(if met.processed then s.(cursor := (c + 1) % n) else s, Nothing, NoError)
         else if met.processed then Outcome(Schedule((c + 1) % n, false), Batch(c), met.error)
         else Outcome(s, Nothing, met.error)
  {
    var n, start := |work.batches|, Start(s.cursor, |work.batches|);
    var d, offset := Distance(s.cursor, c, n), FirstStop(work.batches, start, 0);
    assert Met(work.batches, start, d) == work.batches[c];
    OffsetIsDistance(s.cursor, n, offset);
    WrapIsRemainder(c + 1, n);
  }

  lemma OffsetIsDistance(cursor: nat, n: nat, offset: nat)
    requires n > 0
    ensures offset < n ==> Distance(cursor, Wrap(Start(cursor, n) + offset, n), n) == offset
  {
  }

  // ----- bounded waiting

  predicate ErrorFree(work: Work) {
    && (work.single.Tried? ==> work.single.error == NoError)
    && forall i :: 0 <= i < |work.batches| && work.batches[i].Tried? ==> work.batches[i].error == NoError
  }

  const READY := Tried(true, NoError)

  /** What the turns of a worker serve. */
  ghost function Serves(s: Schedule, turns: seq<Work>): (served: seq<Served>)
    ensures |served| == |turns|
    decreases |turns|
  {
    if turns == [] then []
    else
      var first := Turn(s, turns[0]);
      [first.served] + Serves(first.schedule, turns[1..])
  }

  /** Turns left before capability `c` must be served: twice the distance, plus the turn a single job may take. */
  ghost function Waiting(s: Schedule, c: nat, n: nat): nat
    requires c < n
  {
    2 * Distance(s.cursor, c, n) + if s.preferBatch then 0 else 1
  }

  /** While `c` is ready the search stops at or before it, and ends strictly closer unless it serves `c`. */
  lemma {:induction false} BatchTurnApproaches(work: Work, cursor: nat, c: nat)
    requires ErrorFree(work) && c < |work.batches| && work.batches[c] == READY
    ensures var (cursor', served, error) := BatchTurn(work.batches, cursor);
            && served.Batch? && error == NoError
            && (served.index != c ==> Distance(cursor', c, |work.batches|) < Distance(cursor, c, |work.batches|))
  {
    var n, start := |work.batches|, Start(cursor, |work.batches|);
    var offset, d := FirstStop(work.batches, start, 0), Distance(cursor, c, |work.batches|);
    assert Stops(Met(work.batches, start, d));
    assert offset <= d;
    if offset == d {
      assert Wrap(start + offset, n) == c;
    } else {
      Closer(cursor, c, n, offset);
    }
  }

  lemma Closer(cursor: nat, c: nat, n: nat, offset: nat)
    requires c < n && offset < Distance(cursor, c, n)
    ensures var cursor' := Wrap(Wrap(Start(cursor, n) + offset, n) + 1, n);
            Distance(cursor', c, n) == Distance(cursor, c, n) - offset - 1
  {
  }

  lemma TurnApproaches(s: Schedule, work: Work, c: nat)
    requires ErrorFree(work) && c < |work.batches| && work.batches[c] == READY
    ensures Turn(s, work).served == Batch(c)
         || Waiting(Turn(s, work).schedule, c, |work.batches|) < Waiting(s, c, |work.batches|)
  {
    BatchTurnApproaches(work, s.cursor, c);
  }

  /** A batch capability that is always ready is served within as many turns as it is waiting for. */
  lemma {:induction false} BatchIsServed(s: Schedule, turns: seq<Work>, c: nat, n: nat)
    requires c < n && |turns| > Waiting(s, c, n)
    requires forall i :: 0 <= i < |turns| ==>
               ErrorFree(turns[i]) && |turns[i].batches| == n && turns[i].batches[c] == READY
    ensures Batch(c) in Serves(s, turns)
    decreases |turns|
  {
    var first := Turn(s, turns[0]);
    TurnApproaches(s, turns[0], c);
    if first.served != Batch(c) {
      BatchIsServed(first.schedule, turns[1..], c, n);
      assert Serves(s, turns)[1..] == Serves(first.schedule, turns[1..]);
    }
  }

  /** With `n` batch capabilities, an always ready one is served in every stretch of `2n` turns. */
  lemma {:induction false} BatchWaitsAtMostTwiceN(s: Schedule, turns: seq<Work>, c: nat, n: nat)
    requires c < n && |turns| == 2 * n
    requires forall i :: 0 <= i < |turns| ==>
               ErrorFree(turns[i]) && |turns[i].batches| == n && turns[i].batches[c] == READY
    ensures Batch(c) in Serves(s, turns)
  {
    BatchIsServed(s, turns, c, n);
  }

  /** Always ready single work is served in every two turns. */
  lemma {:induction false} SingleWaitsAtMostTwo(s: Schedule, first: Work, second: Work)
    requires ErrorFree(first) && ErrorFree(second) && first.single == READY && second.single == READY
    ensures Single in Serves(s, [first, second])
  {
    assert [first, second][1..] == [second];
    var after := Turn(s, first).schedule;
    assert Serves(s, [first, second])[1] == Turn(after, second).served;
  }

  // ----- the bound is exact

  function AllReady(n: nat): Work {
    Work(seq(n, _ => READY), READY)
  }

  lemma AllReadyTurn(s: Schedule, n: nat)
    requires s.cursor < n
    ensures Turn(s, AllReady(n))
         == if s.preferBatch then Outcome(Schedule(Wrap(s.cursor + 1, n), false), Batch(s.cursor), NoError)
            else Outcome(Schedule(s.cursor, true), Single, NoError)
  {
    assert Met(AllReady(n).batches, s.cursor, 0) == READY;
  }

  lemma TwoTurns(s: Schedule, turns: seq<Work>)
    requires |turns| >= 2
    ensures var first := Turn(s, turns[0]);
            var second := Turn(first.schedule, turns[1]);
            Serves(s, turns) == [first.served, second.served] + Serves(second.schedule, turns[2..])
  {
    assert turns[1..][1..] == turns[2..];
  }

  /** When everything is always ready, the capability before the cursor waits for the very last of the `2n` turns. */
  lemma {:induction false} BoundIsReached(turns: seq<Work>, cursor: nat, n: nat)
    requires cursor < n && |turns| == 2 * (n - cursor)
    requires forall i :: 0 <= i < |turns| ==> turns[i] == AllReady(n)
    ensures Serves(Schedule(cursor, false), turns)[|turns| - 1] == Batch(n - 1)
    ensures Batch(n - 1) !in Serves(Schedule(cursor, false), turns)[..|turns| - 1]
    decreases n - cursor
  {
    AllReadyTurn(Schedule(cursor, false), n);
    AllReadyTurn(Schedule(cursor, true), n);
    TwoTurns(Schedule(cursor, false), turns);
    if cursor + 1 < n {
      BoundIsReached(turns[2..], cursor + 1, n);
    }
  }
}
