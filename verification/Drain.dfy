/** Draining a service: workers that claim under a read lock, callers that begin a drain under the write lock,
 *  the run loop that publishes readiness and the probes that read it, in every interleaving.
 */
module Drain {
  import opened Jobs

  /** A worker holds the read lock unless it is idle. */
  datatype Worker = Idle | Admitted | Claiming | Refused

  /** A caller of the drain: before it, after clearing the flag, with the lock, after closing, done. */
  datatype Drainer = Waiting | Cleared | Locked | Closed | Returned

  datatype Runner = Off | Started | SawOpen | Live | Stopping

  datatype Probe = Fresh | SawRunning | SawUndrained | Failed | Succeeded

  datatype Service = Service(
    running: bool,
    ready: bool,
    drained: bool,
    writer: Option<nat>,
    runner: Runner,
    workers: map<nat, Worker>,
    drainers: map<nat, Drainer>,
    probes: map<nat, Probe>)

  /** One atomic action of one party. */
  datatype Action =
    | TakeReadLock(w: nat)
    | CheckDrain(w: nat)
    | ReleaseReadLock(w: nat)
    | ClearReady(d: nat)
    | TakeWriteLock(d: nat)
    | CloseDrain(d: nat)
    | ReleaseWriteLock(d: nat)
    | StartRun
    | RunChecksDrain
    | RunStoresReady
    | RunClearsReady
    | StopRun
    | ProbeReadsRunning(p: nat)
    | ProbeChecksDrain(p: nat)
    | ProbeReadsReady(p: nat)

  function WorkerOf(s: Service, w: nat): Worker {
    if w in s.workers then s.workers[w] else Idle
  }

  function DrainerOf(s: Service, d: nat): Drainer {
    if d in s.drainers then s.drainers[d] else Waiting
  }

  function ProbeOf(s: Service, p: nat): Probe {
    if p in s.probes then s.probes[p] else Fresh
  }

  predicate NoReaders(s: Service) {
    forall w :: w in s.workers ==> s.workers[w] == Idle
  }

  function SetWorker(s: Service, w: nat, state: Worker): Service {
    s.(workers := s.workers[w := state])
  }

  function SetDrainer(s: Service, d: nat, state: Drainer): Service {
    s.(drainers := s.drainers[d := state])
  }

  function SetProbe(s: Service, p: nat, state: Probe): Service {
    s.(probes := s.probes[p := state])
  }

  /** A worker's claim: the drain is checked, and the repository called, under the read lock. */
  function WorkerStep(s: Service, a: Action): Service {
    match a
    case TakeReadLock(w) => if WorkerOf(s, w) == Idle && s.writer == None then SetWorker(s, w, Admitted) else s
    case CheckDrain(w) =>
      if WorkerOf(s, w) == Admitted then SetWorker(s, w, if s.drained then Refused else Claiming) else s
    case ReleaseReadLock(w) =>
      if WorkerOf(s, w) == Claiming || WorkerOf(s, w) == Refused then SetWorker(s, w, Idle) else s
    case _ => s
  }

  /** Beginning a drain: clear the flag, take the write lock, close once, release. */
  function DrainerStep(s: Service, a: Action): Service {
    match a
    case ClearReady(d) => if DrainerOf(s, d) == Waiting then SetDrainer(s, d, Cleared).(ready := false) else s
    case TakeWriteLock(d) =>
      if DrainerOf(s, d) == Cleared && s.writer == None && NoReaders(s) then
        SetDrainer(s, d, Locked).(writer := Some(d))
      else s
    case CloseDrain(d) => if DrainerOf(s, d) == Locked then SetDrainer(s, d, Closed).(drained := true) else s
    case ReleaseWriteLock(d) => if DrainerOf(s, d) == Closed then SetDrainer(s, d, Returned).(writer := None) else s
    case _ => s
  }

  /** Publishing readiness: the check and the store are two actions. */
  function RunnerStep(s: Service, a: Action): Service {
    match a
    case StartRun => if s.runner == Off && !s.running then s.(running := true, runner := Started) else s
    case RunChecksDrain => if s.runner == Started then s.(runner := if s.drained then Live else SawOpen) else s
    case RunStoresReady => if s.runner == SawOpen then s.(runner := Live, ready := true) else s
    case RunClearsReady => if s.runner == Live then s.(runner := Stopping, ready := false) else s
    case StopRun => if s.runner == Stopping then s.(runner := Off, running := false) else s
    case _ => s
  }

  /** A readiness probe reads the three facts one after another. */
  function ProbeStep(s: Service, a: Action): Service {
    match a
    case ProbeReadsRunning(p) =>
      if ProbeOf(s, p) == Fresh then SetProbe(s, p, if s.running then SawRunning else Failed) else s
    case ProbeChecksDrain(p) =>
      if ProbeOf(s, p) == SawRunning then SetProbe(s, p, if s.drained then Failed else SawUndrained) else s
    case ProbeReadsReady(p) =>
      if ProbeOf(s, p) == SawUndrained then SetProbe(s, p, if s.ready then Succeeded else Failed) else s
    case _ => s
  }

  function Act(s: Service, a: Action): Service {
    if a.TakeReadLock? || a.CheckDrain? || a.ReleaseReadLock? then WorkerStep(s, a)
    else if a.ClearReady? || a.TakeWriteLock? || a.CloseDrain? || a.ReleaseWriteLock? then DrainerStep(s, a)
    else if a.ProbeReadsRunning? || a.ProbeChecksDrain? || a.ProbeReadsReady? then ProbeStep(s, a)
    else RunnerStep(s, a)
  }

  const INITIAL := Service(false, false, false, None, Off, map[], map[], map[])

  function Interleave(s: Service, actions: seq<Action>): Service {
    if actions == [] then s else Act(Interleave(s, actions[..|actions| - 1]), actions[|actions| - 1])
  }

  function After(actions: seq<Action>): Service {
    Interleave(INITIAL, actions)
  }

  // ----- the claim boundary

  ghost predicate LockIsExclusive(s: Service) {
    && (s.writer.Some? ==> NoReaders(s))
    && (forall d: nat :: DrainerOf(s, d) == Locked || DrainerOf(s, d) == Closed ==> s.writer == Some(d))
  }

  ghost predicate ClosedMeansDrained(s: Service) {
    forall d :: DrainerOf(s, d) == Closed || DrainerOf(s, d) == Returned ==> s.drained
  }

  ghost predicate NobodyClaims(s: Service) {
    forall w :: WorkerOf(s, w) != Claiming
  }

  ghost predicate BoundaryHolds(s: Service) {
    LockIsExclusive(s) && ClosedMeansDrained(s) && (s.drained ==> NobodyClaims(s))
  }

  lemma WorkerKeepsLock(s: Service, a: Action)
    requires LockIsExclusive(s) && ClosedMeansDrained(s)
    ensures LockIsExclusive(WorkerStep(s, a)) && ClosedMeansDrained(WorkerStep(s, a))
  {
    assert forall d :: DrainerOf(WorkerStep(s, a), d) == DrainerOf(s, d);
  }

  lemma WorkerKeepsBoundary(s: Service, a: Action)
    requires BoundaryHolds(s)
    ensures BoundaryHolds(WorkerStep(s, a))
  {
    var t := WorkerStep(s, a);
    WorkerKeepsLock(s, a);
    assert forall w :: t.workers != s.workers && w != a.w ==> WorkerOf(t, w) == WorkerOf(s, w);
  }

  lemma DrainerKeepsBoundary(s: Service, a: Action)
    requires BoundaryHolds(s)
    ensures BoundaryHolds(DrainerStep(s, a))
  {
    var t := DrainerStep(s, a);
    assert forall w :: WorkerOf(t, w) == WorkerOf(s, w);
    assert forall d :: t.drainers != s.drainers && d != a.d ==> DrainerOf(t, d) == DrainerOf(s, d);
  }

  lemma OthersKeepBoundary(s: Service, t: Service)
    requires BoundaryHolds(s)
    requires t.workers == s.workers && t.drainers == s.drainers && t.writer == s.writer && t.drained == s.drained
    ensures BoundaryHolds(t)
  {
    assert forall w :: WorkerOf(t, w) == WorkerOf(s, w);
    assert forall d :: DrainerOf(t, d) == DrainerOf(s, d);
  }

  lemma DrainIsFinal(s: Service, a: Action)
    requires s.drained
    ensures Act(s, a).drained
  {
  }

  lemma ActKeepsBoundary(s: Service, a: Action)
    requires BoundaryHolds(s)
    ensures BoundaryHolds(Act(s, a))
  {
    if a.TakeReadLock? || a.CheckDrain? || a.ReleaseReadLock? {
      WorkerKeepsBoundary(s, a);
    } else if a.ClearReady? || a.TakeWriteLock? || a.CloseDrain? || a.ReleaseWriteLock? {
      DrainerKeepsBoundary(s, a);
    } else {
      OthersKeepBoundary(s, Act(s, a));
    }
  }

  lemma {:induction false} BoundaryIsKept(s: Service, actions: seq<Action>)
    requires BoundaryHolds(s)
    ensures BoundaryHolds(Interleave(s, actions))
    ensures s.drained ==> Interleave(s, actions).drained
  {
    if actions != [] {
      BoundaryIsKept(s, actions[..|actions| - 1]);
      ActKeepsBoundary(Interleave(s, actions[..|actions| - 1]), actions[|actions| - 1]);
      if s.drained {
        DrainIsFinal(Interleave(s, actions[..|actions| - 1]), actions[|actions| - 1]);
      }
    }
  }

  /** In every interleaving: once a call of the drain has returned, no claim is in progress, and none ever starts. */
  lemma NoClaimAfterDrain(before: seq<Action>, later: seq<Action>, d: nat, w: nat)
    requires DrainerOf(After(before), d) == Returned
    ensures WorkerOf(Interleave(After(before), later), w) != Claiming
  {
    assert BoundaryHolds(INITIAL);
    BoundaryIsKept(INITIAL, before);
    BoundaryIsKept(After(before), later);
  }

  // ----- readiness

  /** A probe that may still report success although the drain is closed. */
  predicate InFlight(s: Service, p: nat) {
    ProbeOf(s, p) == SawUndrained && (s.ready || s.runner == SawOpen)
  }

  lemma ActClosesProbes(s: Service, a: Action, p: nat)
    requires s.drained && ProbeOf(s, p) != Succeeded && !InFlight(s, p)
    ensures Act(s, a).drained && ProbeOf(Act(s, a), p) != Succeeded && !InFlight(Act(s, a), p)
  {
  }

  lemma {:induction false} ProbeStaysClosed(s: Service, actions: seq<Action>, p: nat)
    requires s.drained && ProbeOf(s, p) != Succeeded && !InFlight(s, p)
    ensures ProbeOf(Interleave(s, actions), p) != Succeeded
    ensures Interleave(s, actions).drained && !InFlight(Interleave(s, actions), p)
  {
    if actions != [] {
      ProbeStaysClosed(s, actions[..|actions| - 1], p);
      ActClosesProbes(Interleave(s, actions[..|actions| - 1]), actions[|actions| - 1], p);
    }
  }

  /** Once the drain is closed, a probe whose drain check is still to come never succeeds, even if the run loop
   *  stores the ready flag afterwards. */
  lemma {:induction false} NoReadinessAfterDrain(before: seq<Action>, later: seq<Action>, p: nat)
    requires After(before).drained
    requires ProbeOf(After(before), p) == Fresh || ProbeOf(After(before), p) == SawRunning
    ensures ProbeOf(Interleave(After(before), later), p) != Succeeded
  {
    ProbeStaysClosed(After(before), later, p);
  }

  /** Exactly the in-flight probes can still succeed once the drain is closed. */
  lemma SuccessIffInFlight(s: Service, p: nat)
    requires s.drained && ProbeOf(s, p) != Succeeded
    ensures (exists actions :: ProbeOf(Interleave(s, actions), p) == Succeeded) <==> InFlight(s, p)
  {
    if InFlight(s, p) {
      var store, read := RunStoresReady, ProbeReadsReady(p);
      Two(s, [store, read]);
      assert ProbeOf(Interleave(s, [store, read]), p) == Succeeded;
    } else {
      forall actions ensures ProbeOf(Interleave(s, actions), p) != Succeeded {
        ProbeStaysClosed(s, actions, p);
      }
    }
  }

  const OPENING := [StartRun, RunChecksDrain, ProbeReadsRunning(0), ProbeChecksDrain(0)]
  const CLOSING := [ClearReady(0), TakeWriteLock(0), CloseDrain(0), ReleaseWriteLock(0)]
  const LATE := [RunStoresReady, ProbeReadsReady(0)]

  /** Both happen: the drain returns, then the run loop stores ready and an in-flight probe succeeds. */
  lemma LateReadyIsReachable()
    ensures var s := After(OPENING + CLOSING + LATE);
            DrainerOf(s, 0) == Returned && s.ready && ProbeOf(s, 0) == Succeeded
  {
    Joined(INITIAL, OPENING + CLOSING, LATE);
    Joined(INITIAL, OPENING, CLOSING);
    Opened();
    var open := After(OPENING);
    var shut := Interleave(open, CLOSING);
    Shut(open);
    Two(shut, LATE);
  }

  lemma Opened()
    ensures var s := After(OPENING);
            && s == INITIAL.(running := true, runner := SawOpen, probes := s.probes)
            && ProbeOf(s, 0) == SawUndrained
  {
    Two(INITIAL, OPENING[..2]);
    Two(After(OPENING[..2]), OPENING[2..]);
    Joined(INITIAL, OPENING[..2], OPENING[2..]);
    assert OPENING == OPENING[..2] + OPENING[2..];
  }

  lemma Shut(s: Service)
    requires DrainerOf(s, 0) == Waiting && s.writer == None && NoReaders(s)
    ensures var t := Interleave(s, CLOSING);
            t == s.(ready := false, drained := true, drainers := t.drainers) && DrainerOf(t, 0) == Returned
  {
    HalfShut(s);
    HalfOpen(Interleave(s, CLOSING[..2]));
    Joined(s, CLOSING[..2], CLOSING[2..]);
    assert CLOSING == CLOSING[..2] + CLOSING[2..];
  }

  lemma HalfShut(s: Service)
    requires DrainerOf(s, 0) == Waiting && s.writer == None && NoReaders(s)
    ensures var t := Interleave(s, CLOSING[..2]);
            t == s.(ready := false, writer := Some(0), drainers := t.drainers) && DrainerOf(t, 0) == Locked
  {
    Two(s, CLOSING[..2]);
  }

  lemma HalfOpen(s: Service)
    requires DrainerOf(s, 0) == Locked
    ensures var t := Interleave(s, CLOSING[2..]);
            t == s.(drained := true, writer := None, drainers := t.drainers) && DrainerOf(t, 0) == Returned
  {
    Two(s, CLOSING[2..]);
  }

  lemma Two(s: Service, a: seq<Action>)
    requires |a| == 2
    ensures Interleave(s, a) == Act(Act(s, a[0]), a[1])
  {
    assert a[..1][..0] == [];
    assert Interleave(s, a[..1]) == Act(Interleave(s, []), a[0]);
  }

  lemma {:induction false} Joined(s: Service, a: seq<Action>, b: seq<Action>)
    ensures Interleave(s, a + b) == Interleave(Interleave(s, a), b)
  {
    if b == [] {
      assert a + b == a;
    } else {
      assert (a + b)[..|a + b| - 1] == a + b[..|b| - 1];
      Joined(s, a, b[..|b| - 1]);
    }
  }
}
