/** The fenced job table as a protocol: any number of workers, any clock arguments, every run.
 *
 *  A run is a list of repository calls. `EffectOn` says what one call does to one row, `Run`
 *  replays a list of calls, and the theorems relate the rows to the history alone.
 */
module JobTable {
  import opened Jobs
  import opened RowHistory

  datatype OutcomeKind = Success | Retry | Defer | Dlq

  datatype Outcome = Outcome(jobId: JobId, kind: OutcomeKind, availableAt: Time, reason: string)

  datatype FailedJob = FailedJob(jobId: JobId, capability: Capability, payload: string, reason: string)

  /** `jobs`, `jobs_failed` (keyed by its unique `job_id`) and the history of creations and ACKs. */
  datatype Store = Store(
    jobs: map<JobId, Job>,
    failed: map<JobId, FailedJob>,
    acknowledged: set<JobId>,
    created: set<JobId>)

  /** One repository call; `DeadLetter` and `Finalize` are the service's transactions. */
  datatype Call =
    | Create(id: JobId, capability: Capability, payload: string, availableAt: Time, createdAt: Time)
    | Claim(ids: set<JobId>, token: LeaseToken, now: Time, until: Time)
    | Extend(ids: set<JobId>, token: LeaseToken, now: Time, until: Time)
    | Release(ids: set<JobId>, token: LeaseToken, now: Time)
    | Acknowledge(id: JobId, token: LeaseToken, now: Time)
    | Reschedule(id: JobId, token: LeaseToken, now: Time, availableAt: Time)
    | DeadLetter(id: JobId, token: LeaseToken, now: Time, reason: string)
    | Finalize(token: LeaseToken, now: Time, outcomes: seq<Outcome>)

  const EMPTY_STORE := Store(map[], map[], {}, {})

  // ----- one call

  predicate ValidOutcome(outcome: Outcome) {
    && outcome.jobId != NIL_ID
    && (outcome.kind.Retry? || outcome.kind.Defer? ==> outcome.availableAt != ZERO_TIME)
    && (outcome.kind.Dlq? ==> outcome.reason != "")
  }

  /** The row the outcome names can make its transition. */
  predicate Applicable(s: Store, token: LeaseToken, now: Time, outcome: Outcome) {
    && outcome.jobId in s.jobs
    && LeaseLive(s.jobs[outcome.jobId], token, now)
    && (outcome.kind.Retry? || outcome.kind.Defer? ==> s.jobs[outcome.jobId].attempts > 0)
    && (outcome.kind.Dlq? ==> outcome.jobId !in s.failed)
  }

  predicate DistinctOutcomes(outcomes: seq<Outcome>) {
    forall i, j :: 0 <= i < j < |outcomes| ==> outcomes[i].jobId != outcomes[j].jobId
  }

  predicate ValidRequest(token: LeaseToken, outcomes: seq<Outcome>) {
    && token != NIL_TOKEN
    && 1 <= |outcomes| <= MAX_RESERVATION_BATCH_SIZE
    && DistinctOutcomes(outcomes)
    && forall i :: 0 <= i < |outcomes| ==> ValidOutcome(outcomes[i])
  }

  /** A batch commits when the request is valid and every outcome is applicable. */
  predicate Commits(s: Store, token: LeaseToken, now: Time, outcomes: seq<Outcome>) {
    && ValidRequest(token, outcomes)
    && forall i :: 0 <= i < |outcomes| ==> Applicable(s, token, now, outcomes[i])
  }

  function OutcomeFor(outcomes: seq<Outcome>, id: JobId): Option<Outcome> {
    if outcomes == [] then None
    else if outcomes[0].jobId == id then Some(outcomes[0])
    else OutcomeFor(outcomes[1..], id)
  }

  lemma {:induction false} OutcomeForFinds(outcomes: seq<Outcome>, id: JobId)
    ensures OutcomeFor(outcomes, id).Some? ==>
              OutcomeFor(outcomes, id).value in outcomes && OutcomeFor(outcomes, id).value.jobId == id
    ensures OutcomeFor(outcomes, id).None? ==> forall o :: o in outcomes ==> o.jobId != id
  {
    if outcomes != [] {
      OutcomeForFinds(outcomes[1..], id);
    }
  }

  function OutcomeEffect(kind: OutcomeKind): Effect {
    match kind
    case Success => Acked
    case Retry => Retried
    case Defer => Deferred
    case Dlq => Failed
  }

  predicate Holds(s: Store, id: JobId, token: LeaseToken, now: Time) {
    token != NIL_TOKEN && id in s.jobs && LeaseLive(s.jobs[id], token, now)
  }

  function EffectOn(s: Store, call: Call, id: JobId): Effect {
    match call
    case Create(newId, capability, _, _, _) =>
      if id == newId && id != NIL_ID && capability.version > 0 && id !in s.created then Created else NoEffect
    case Claim(ids, token, now, _) =>
      if token != NIL_TOKEN && id in ids && id in s.jobs && Ready(s.jobs[id], now) then Claimed else NoEffect
    case Extend(ids, token, now, _) =>
      if id in ids && Holds(s, id, token, now) then Extended else NoEffect
    case Release(ids, token, now) =>
      if id in ids && Holds(s, id, token, now) && s.jobs[id].attempts > 0 then Released else NoEffect
    case Acknowledge(target, token, now) =>
      if id == target && Holds(s, id, token, now) then Acked else NoEffect
    case Reschedule(target, token, now, _) =>
      if id == target && Holds(s, id, token, now) then Retried else NoEffect
    case DeadLetter(target, token, now, _) =>
      if id == target && Holds(s, id, token, now) && id !in s.failed then Failed else NoEffect
    case Finalize(token, now, outcomes) =>
      var outcome := OutcomeFor(outcomes, id);
      if outcome.Some? && Commits(s, token, now, outcomes) then OutcomeEffect(outcome.value.kind) else NoEffect
  }

  /** The row a surviving row becomes. */
  function Updated(job: Job, call: Call, effect: Effect): Job {
    match call
    case Claim(_, token, _, until) => if effect.Claimed? then Reserved(job, token, until) else job
    case Extend(_, _, _, until) => if effect.Extended? then job.(reservedAt := Some(until)) else job
    case Release(_, _, _) => if effect.Released? then Unreserved(job).(attempts := job.attempts - 1) else job
    case Reschedule(_, _, _, at) => if effect.Retried? then Unreserved(job).(availableAt := at) else job
    case Finalize(_, _, outcomes) =>
      var outcome := OutcomeFor(outcomes, job.id);
      if effect.NoEffect? || outcome.None? then job
      else Unreserved(job).(availableAt := outcome.value.availableAt,
                            attempts := if effect.Deferred? then job.attempts - 1 else job.attempts)
    case _ => job
  }

  function FailureReason(call: Call, id: JobId): string {
    match call
    case DeadLetter(_, _, _, reason) => reason
    case Finalize(_, _, outcomes) =>
      var outcome := OutcomeFor(outcomes, id);
      if outcome.Some? then outcome.value.reason else ""
    case _ => ""
  }

  function NewJob(call: Call): map<JobId, Job>
    requires call.Create?
  {
    map[call.id := Job(call.id, "queue", call.capability, call.payload, 0, None, NIL_TOKEN, None,
                       call.availableAt, call.createdAt)]
  }

  predicate Removes(effect: Effect) { effect.Acked? || effect.Failed? }

  function Step(s: Store, call: Call): Store {
    var kept := map id | id in s.jobs && !Removes(EffectOn(s, call, id))
                  :: Updated(s.jobs[id], call, EffectOn(s, call, id));
    var dead := map id | id in s.jobs && EffectOn(s, call, id).Failed?
                  :: FailedJob(id, s.jobs[id].capability, s.jobs[id].payload, FailureReason(call, id));
    var acked := set id | id in s.jobs && EffectOn(s, call, id).Acked?;
    if call.Create? && EffectOn(s, call, call.id).Created? then
      Store(kept + NewJob(call), s.failed, s.acknowledged, s.created + {call.id})
    else
      Store(kept, s.failed + dead, s.acknowledged + acked, s.created)
  }

  // ----- where one call takes one row

  /** Where a row is. */
  datatype Place = Unborn | Active(job: Job) | Done | Dead | Torn

  function PlaceOf(s: Store, id: JobId): Place {
    if id in s.created then
      if id in s.jobs then (if id in s.acknowledged || id in s.failed then Torn else Active(s.jobs[id]))
      else if id in s.acknowledged then (if id in s.failed then Torn else Done)
      else if id in s.failed then Dead
      else Torn
    else if id in s.jobs || id in s.acknowledged || id in s.failed then Torn
    else Unborn
  }

  /** Where one effect takes a row. */
  function Moved(place: Place, call: Call, id: JobId, effect: Effect): Place {
    match effect
    case NoEffect => place
    case Created => if call.Create? && id in NewJob(call) then Active(NewJob(call)[id]) else place
    case Acked => Done
    case Failed => Dead
    case _ => if place.Active? then Active(Updated(place.job, call, effect)) else place
  }

  ghost predicate Moves(s: Store, call: Call, id: JobId) {
    var place, effect := PlaceOf(s, id), EffectOn(s, call, id);
    && PlaceOf(Step(s, call), id) == Moved(place, call, id, effect)
    && (effect.Created? ==> place.Unborn?)
    && (!effect.Created? && !effect.NoEffect? ==> place.Active?)
  }

  lemma FinalizeMoves(s: Store, call: Call, id: JobId)
    requires !PlaceOf(s, id).Torn? && call.Finalize?
    ensures Moves(s, call, id)
  {
    OutcomeForFinds(call.outcomes, id);
    var outcome := OutcomeFor(call.outcomes, id);
    if outcome.Some? && Commits(s, call.token, call.now, call.outcomes) {
      assert Applicable(s, call.token, call.now, outcome.value);
    }
  }

  lemma ClaimMoves(s: Store, call: Call, id: JobId)
    requires !PlaceOf(s, id).Torn? && (call.Create? || call.Claim?)
    ensures Moves(s, call, id)
  {
  }

  lemma LeaseMoves(s: Store, call: Call, id: JobId)
    requires !PlaceOf(s, id).Torn? && (call.Extend? || call.Release? || call.Reschedule?)
    ensures Moves(s, call, id)
  {
  }

  lemma RemovalMoves(s: Store, call: Call, id: JobId)
    requires !PlaceOf(s, id).Torn? && (call.Acknowledge? || call.DeadLetter?)
    ensures Moves(s, call, id)
  {
  }

  /** Every call takes every row where its own effect says, and nowhere else. */
  lemma StepMoves(s: Store, call: Call, id: JobId)
    requires !PlaceOf(s, id).Torn?
    ensures Moves(s, call, id)
  {
    if call.Finalize? {
      FinalizeMoves(s, call, id);
    } else if call.Create? || call.Claim? {
      ClaimMoves(s, call, id);
    } else if call.Acknowledge? || call.DeadLetter? {
      RemovalMoves(s, call, id);
    } else {
      LeaseMoves(s, call, id);
    }
  }

  /** The fence: a lease operation touches a row only while that row carries its token, unexpired. */
  lemma FenceGuards(s: Store, call: Call, id: JobId)
    requires Fenced(EffectOn(s, call, id))
    ensures !call.Create? && call.token != NIL_TOKEN
    ensures id in s.jobs && LeaseLive(s.jobs[id], call.token, call.now)
  {
    if call.Finalize? {
      OutcomeForFinds(call.outcomes, id);
      assert Applicable(s, call.token, call.now, OutcomeFor(call.outcomes, id).value);
    }
  }

  lemma ClaimGuards(s: Store, call: Call, id: JobId)
    requires EffectOn(s, call, id).Claimed?
    ensures call.Claim? && call.token != NIL_TOKEN && id in s.jobs && Ready(s.jobs[id], call.now)
  {
  }

  /** What each effect writes, whichever call caused it. */
  ghost predicate UpdateFits(job: Job, call: Call, effect: Effect) {
    var updated := Updated(job, call, effect);
    && updated.id == job.id
    && (effect.Claimed? ==> updated.token == TokenOf(call) && updated.reservedAt.Some?
                            && updated.attempts == job.attempts + 1)
    && (effect.Extended? ==> updated.token == job.token && updated.reservedAt.Some? && updated.attempts == job.attempts)
    && (effect.Released? || effect.Retried? || effect.Deferred? ==>
          updated.token == NIL_TOKEN && updated.reservedAt.None?
          && updated.attempts == job.attempts - (if effect.Retried? then 0 else 1))
  }

  lemma UpdatesFit(s: Store, call: Call, id: JobId)
    requires id in s.jobs && s.jobs[id].id == id
    ensures UpdateFits(s.jobs[id], call, EffectOn(s, call, id))
  {
  }

  // ----- every run

  function TokenOf(call: Call): LeaseToken {
    if call.Create? then NIL_TOKEN else call.token
  }

  /** The store after a list of calls. */
  function Run(calls: seq<Call>): Store {
    if calls == [] then EMPTY_STORE else Step(Run(calls[..|calls| - 1]), calls[|calls| - 1])
  }

  /** What each call of the run did to the row `id`. */
  function Events(calls: seq<Call>, id: JobId): (events: seq<Event>)
    ensures |events| == |calls|
  {
    if calls == [] then []
    else
      var init, last := calls[..|calls| - 1], calls[|calls| - 1];
      Events(init, id) + [Event(EffectOn(Run(init), last, id), TokenOf(last))]
  }

  /** A row agrees with its history. */
  ghost predicate Agrees(place: Place, id: JobId, events: seq<Event>) {
    match place
    case Active(job) =>
      && job.id == id
      && job.token == OwnerToken(events)
      && (Owner(events).Some? <==> job.token != NIL_TOKEN)
      && (job.token == NIL_TOKEN <==> job.reservedAt.None?)
      && job.attempts == Balance(events)
    case Unborn => Owner(events).None? && Balance(events) == 0
    case Torn => false
    case _ => true
  }

  /** One call keeps a row in agreement with its history, from any store. */
  lemma StepAgrees(s: Store, call: Call, id: JobId, events: seq<Event>, next: Event)
    requires Agrees(PlaceOf(s, id), id, events)
    requires next == Event(EffectOn(s, call, id), TokenOf(call))
    ensures Agrees(PlaceOf(Step(s, call), id), id, events + [next])
    ensures Fenced(next.effect) ==> Owner(events).Some? && OwnerToken(events) == next.token
  {
    StepMoves(s, call, id);
    if Fenced(next.effect) { FenceGuards(s, call, id); }
    if next.effect.Claimed? { ClaimGuards(s, call, id); }
    if PlaceOf(s, id).Active? { UpdatesFit(s, call, id); }
    EventStep(events, next);
  }

  lemma EventStep(events: seq<Event>, next: Event)
    ensures var all := events + [next];
      && (next.effect.Claimed? ==> Owner(all) == Some(|events|) && OwnerToken(all) == next.token)
      && (Quiet(next.effect) ==> Owner(all) == Owner(events) && OwnerToken(all) == OwnerToken(events))
      && (Terminal(next.effect) || next.effect.Created? ==> Owner(all).None?)
      && Balance(all) == Balance(events) + (if next.effect.Claimed? then 1 else 0)
                         - (if next.effect.Released? || next.effect.Deferred? then 1 else 0)
  {
    var all := events + [next];
    assert RowHistory.Init(all) == events && RowHistory.Last(all) == next;
  }

  /** In every run each row agrees with its history, and the fence holds throughout. */
  lemma {:induction false} HistoryHolds(calls: seq<Call>, id: JobId)
    ensures Agrees(PlaceOf(Run(calls), id), id, Events(calls, id))
    ensures FenceHolds(Events(calls, id))
  {
    if calls != [] {
      var init, last := calls[..|calls| - 1], calls[|calls| - 1];
      HistoryHolds(init, id);
      var next := Event(EffectOn(Run(init), last, id), TokenOf(last));
      StepAgrees(Run(init), last, id, Events(init, id), next);
      FenceExtends(Events(init, id), next);
    }
  }
}
