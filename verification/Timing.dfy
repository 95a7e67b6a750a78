/** What the calls of a run say about a row: when it may be claimed, until when it is leased and what it asks for. Each
 *  is read off the arguments of the calls that had an effect on the row, and no claim happens at any other time.
 */
module Timing {
  import opened Jobs
  import opened RowHistory
  import opened JobTable
  import opened FenceSafety

  // ----- from when a row may be claimed

  /** Effects that set the time from which a row may be claimed. */
  predicate Frees(effect: Effect) {
    effect.Created? || effect.Retried? || effect.Deferred?
  }

  /** The call gives the row the time `at`. */
  ghost predicate Gives(call: Call, id: JobId, at: Time) {
    match call
    case Create(newId, _, _, availableAt, _) => newId == id && availableAt == at
    case Reschedule(target, _, _, availableAt) => target == id && availableAt == at
    case Finalize(_, _, outcomes) => exists i :: 0 <= i < |outcomes| && Postpones(outcomes[i], id, at)
    case _ => false
  }

  predicate Postpones(outcome: Outcome, id: JobId, at: Time) {
    outcome.jobId == id && (outcome.kind.Retry? || outcome.kind.Defer?) && outcome.availableAt == at
  }

  /** Call `g` set the time of the row to `at`, and no later call set another. */
  ghost predicate ReleasedBy(calls: seq<Call>, id: JobId, g: nat, at: Time) {
    && g < |calls| && Frees(Events(calls, id)[g].effect) && Gives(calls[g], id, at)
    && forall k :: g < k < |calls| ==> !Frees(Events(calls, id)[k].effect)
  }

  /** In this run the row may be claimed from `at` on. */
  ghost predicate ReleasedAt(calls: seq<Call>, id: JobId, at: Time) {
    exists g: nat :: ReleasedBy(calls, id, g, at)
  }

  lemma EventsNext(calls: seq<Call>, call: Call, id: JobId)
    ensures Events(calls + [call], id) == Events(calls, id) + [Event(EffectOn(Run(calls), call, id), TokenOf(call))]
    ensures Run(calls + [call]) == Step(Run(calls), call)
  {
    assert (calls + [call])[..|calls|] == calls;
  }

  lemma ReleaseLasts(calls: seq<Call>, call: Call, id: JobId, at: Time)
    requires ReleasedAt(calls, id, at) && !Frees(EffectOn(Run(calls), call, id))
    ensures ReleasedAt(calls + [call], id, at)
  {
    EventsNext(calls, call, id);
    var g: nat :| ReleasedBy(calls, id, g, at);
    assert ReleasedBy(calls + [call], id, g, at);
  }

  lemma ReleaseStarts(calls: seq<Call>, call: Call, id: JobId, at: Time)
    requires Frees(EffectOn(Run(calls), call, id)) && Gives(call, id, at)
    ensures ReleasedAt(calls + [call], id, at)
  {
    EventsNext(calls, call, id);
    assert ReleasedBy(calls + [call], id, |calls|, at);
  }

  /** The time an effective call gives is the time the row gets. */
  lemma FreedRow(s: Store, call: Call, id: JobId)
    requires !PlaceOf(s, id).Torn? && Frees(EffectOn(s, call, id)) && (id in s.jobs ==> s.jobs[id].id == id)
    ensures id in Step(s, call).jobs && Gives(call, id, Step(s, call).jobs[id].availableAt)
  {
    StepMoves(s, call, id);
    if call.Finalize? {
      OutcomeForFinds(call.outcomes, id);
      var outcome := OutcomeFor(call.outcomes, id).value;
      var i :| 0 <= i < |call.outcomes| && call.outcomes[i] == outcome;
      assert Postpones(call.outcomes[i], id, outcome.availableAt);
    }
  }

  lemma UnfreedRow(s: Store, call: Call, id: JobId)
    requires !PlaceOf(s, id).Torn? && !Frees(EffectOn(s, call, id)) && id in Step(s, call).jobs
    ensures id in s.jobs && Step(s, call).jobs[id].availableAt == s.jobs[id].availableAt
  {
    StepMoves(s, call, id);
  }

  /** In every run a row is available from the time its calls gave it. */
  lemma {:induction false} RowIsReleased(calls: seq<Call>, id: JobId)
    requires id in Run(calls).jobs
    ensures ReleasedAt(calls, id, Run(calls).jobs[id].availableAt)
  {
    var init, last := calls[..|calls| - 1], calls[|calls| - 1];
    assert calls == init + [last];
    HistoryHolds(init, id);
    if Frees(EffectOn(Run(init), last, id)) {
      FreedRow(Run(init), last, id);
      ReleaseStarts(init, last, id, Run(calls).jobs[id].availableAt);
    } else {
      UnfreedRow(Run(init), last, id);
      RowIsReleased(init, id);
      ReleaseLasts(init, last, id, Run(calls).jobs[id].availableAt);
    }
  }

  lemma OneTimeGiven(calls: seq<Call>, call: Call, id: JobId, a: Time, b: Time)
    requires !EffectOn(Run(calls), call, id).NoEffect? && Gives(call, id, a) && Gives(call, id, b)
    ensures a == b
  {
    if call.Finalize? {
      var i :| 0 <= i < |call.outcomes| && Postpones(call.outcomes[i], id, a);
      var j :| 0 <= j < |call.outcomes| && Postpones(call.outcomes[j], id, b);
      assert i == j;
    }
  }

  /** That time is unique. */
  lemma ReleaseIsUnique(calls: seq<Call>, id: JobId, a: Time, b: Time)
    requires ReleasedAt(calls, id, a) && ReleasedAt(calls, id, b)
    ensures a == b
  {
    var g: nat :| ReleasedBy(calls, id, g, a);
    var h: nat :| ReleasedBy(calls, id, h, b);
    assert g == h;
    EventAt(calls, g, id);
    OneTimeGiven(calls[..g], calls[g], id, a, b);
  }

  // ----- until when a row is leased

  ghost predicate Leases(call: Call, until: Time) {
    (call.Claim? || call.Extend?) && call.until == until
  }

  /** Call `c` leased the row until `until`, and nothing has happened to the row since. */
  ghost predicate LeasedBy(calls: seq<Call>, id: JobId, c: nat, until: Time) {
    && c < |calls| && Leases(calls[c], until)
    && (Events(calls, id)[c].effect.Claimed? || Events(calls, id)[c].effect.Extended?)
    && SilentAfter(Events(calls, id), c)
  }

  ghost predicate SilentAfter(events: seq<Event>, c: nat) {
    forall k :: c < k < |events| ==> events[k].effect.NoEffect?
  }

  lemma SilentNext(events: seq<Event>, next: Event, c: nat)
    requires c < |events|
    ensures SilentAfter(events + [next], c) <==> next.effect.NoEffect? && SilentAfter(events, c)
    ensures (events + [next])[c] == events[c]
  {
    var all := events + [next];
    if SilentAfter(all, c) {
      assert all[|events|] == next;
      assert forall k :: 0 <= k < |events| ==> events[k] == all[k];
    }
  }

  ghost predicate LeasedUntil(calls: seq<Call>, id: JobId, until: Time) {
    exists c: nat :: LeasedBy(calls, id, c, until)
  }

  /** A lease outlasts exactly the calls that have no effect on the row. */
  lemma LeaseLasts(calls: seq<Call>, call: Call, id: JobId, c: nat, until: Time)
    requires c < |calls|
    ensures LeasedBy(calls + [call], id, c, until)
       <==> EffectOn(Run(calls), call, id).NoEffect? && LeasedBy(calls, id, c, until)
  {
    EventsNext(calls, call, id);
    SilentNext(Events(calls, id), Event(EffectOn(Run(calls), call, id), TokenOf(call)), c);
  }

  lemma LeaseStarts(calls: seq<Call>, call: Call, id: JobId, until: Time)
    ensures LeasedBy(calls + [call], id, |calls|, until)
       <==> (EffectOn(Run(calls), call, id).Claimed? || EffectOn(Run(calls), call, id).Extended?) && Leases(call, until)
  {
    EventsNext(calls, call, id);
  }

  /** One more call: what it does to the lease. */
  lemma LeaseNext(calls: seq<Call>, call: Call, id: JobId, until: Time)
    ensures var effect := EffectOn(Run(calls), call, id);
      LeasedUntil(calls + [call], id, until)
      <==> (|| ((effect.Claimed? || effect.Extended?) && Leases(call, until))
            || (effect.NoEffect? && LeasedUntil(calls, id, until)))
  {
    LeaseStarts(calls, call, id, until);
    forall c: nat | c < |calls|
      ensures LeasedBy(calls + [call], id, c, until)
         <==> EffectOn(Run(calls), call, id).NoEffect? && LeasedBy(calls, id, c, until)
    {
      LeaseLasts(calls, call, id, c, until);
    }
  }

  /** What one call writes into the reservation of a row that survives it. */
  lemma LeaseWritten(s: Store, call: Call, id: JobId)
    requires !PlaceOf(s, id).Torn? && id in Step(s, call).jobs && (id in s.jobs ==> s.jobs[id].id == id)
    ensures var effect, reservedAt := EffectOn(s, call, id), Step(s, call).jobs[id].reservedAt;
      && (effect.Claimed? || effect.Extended? ==> (call.Claim? || call.Extend?) && reservedAt == Some(call.until))
      && (effect.NoEffect? ==> id in s.jobs && reservedAt == s.jobs[id].reservedAt)
      && (!effect.Claimed? && !effect.Extended? && !effect.NoEffect? ==> reservedAt.None?)
  {
    StepMoves(s, call, id);
    if id in s.jobs {
      UpdatesFit(s, call, id);
    }
  }

  /** In every run a row is leased until the instant its latest claim or extension named, and no other. */
  lemma {:induction false} RowIsLeased(calls: seq<Call>, id: JobId, until: Time)
    requires id in Run(calls).jobs
    ensures Run(calls).jobs[id].reservedAt == Some(until) <==> LeasedUntil(calls, id, until)
  {
    var init, last := calls[..|calls| - 1], calls[|calls| - 1];
    assert calls == init + [last];
    HistoryHolds(init, id);
    LeaseNext(init, last, id, until);
    LeaseWritten(Run(init), last, id);
    if EffectOn(Run(init), last, id).NoEffect? {
      RowIsLeased(init, id, until);
    }
  }

  // ----- claims

  /** The row is not leased at `now`. */
  ghost predicate FreeAt(calls: seq<Call>, id: JobId, now: Time) {
    forall until :: LeasedUntil(calls, id, until) ==> until <= now
  }

  /** A claim takes a row exactly when it names the row with a token, the row is queued, its time has come and its
   *  lease, if it has one, is over.
   */
  lemma {:induction false} ClaimedIff(calls: seq<Call>, id: JobId, call: Call)
    requires call.Claim?
    ensures EffectOn(Run(calls), call, id).Claimed?
       <==> && call.token != NIL_TOKEN && id in call.ids && id in Run(calls).jobs && FreeAt(calls, id, call.now)
            && exists at :: ReleasedAt(calls, id, at) && at <= call.now
  {
    if id in Run(calls).jobs {
      var job := Run(calls).jobs[id];
      RowIsReleased(calls, id);
      forall at | ReleasedAt(calls, id, at) ensures at == job.availableAt {
        ReleaseIsUnique(calls, id, at, job.availableAt);
      }
      forall until ensures job.reservedAt == Some(until) <==> LeasedUntil(calls, id, until) {
        RowIsLeased(calls, id, until);
      }
    }
  }

  /** In every run, no row is claimed before the time its calls gave it, nor while it is leased. */
  lemma {:induction false} NeverClaimedEarly(calls: seq<Call>, id: JobId, i: nat, at: Time)
    requires i < |calls| && Events(calls, id)[i].effect.Claimed? && ReleasedAt(calls[..i], id, at)
    ensures calls[i].Claim? && id in calls[i].ids && calls[i].now >= at && FreeAt(calls[..i], id, calls[i].now)
  {
    EventAt(calls, i, id);
    ClaimGuards(Run(calls[..i]), calls[i], id);
    ClaimedIff(calls[..i], id, calls[i]);
    var b :| ReleasedAt(calls[..i], id, b) && b <= calls[i].now;
    ReleaseIsUnique(calls[..i], id, at, b);
  }

  /** And conversely: a queued row whose time has come and that is not leased is taken by the next claim that names it.
   */
  lemma {:induction false} DueRowIsClaimed(calls: seq<Call>, id: JobId, i: nat, at: Time)
    requires i < |calls| && calls[i].Claim? && calls[i].token != NIL_TOKEN && id in calls[i].ids
    requires id in Run(calls[..i]).jobs && ReleasedAt(calls[..i], id, at) && at <= calls[i].now
    requires FreeAt(calls[..i], id, calls[i].now)
    ensures Events(calls, id)[i].effect.Claimed?
  {
    EventAt(calls, i, id);
    ClaimedIff(calls[..i], id, calls[i]);
  }

  // ----- what a row asks for

  /** Call `g` created the row, with these fields. */
  ghost predicate CreatedBy(calls: seq<Call>, id: JobId, g: nat, job: Job) {
    && g < |calls| && Events(calls, id)[g].effect.Created? && calls[g].Create? && calls[g].id == id == job.id
    && job.capability == calls[g].capability && job.payload == calls[g].payload
    && job.createdAt == calls[g].createdAt && job.queue == "queue" && job.deduplicationKey.None?
  }

  lemma NewRow(s: Store, call: Call, id: JobId)
    requires !PlaceOf(s, id).Torn? && EffectOn(s, call, id).Created?
    ensures call.Create? && call.id == id && id in Step(s, call).jobs
    ensures Step(s, call).jobs[id]
         == Job(id, "queue", call.capability, call.payload, 0, None, NIL_TOKEN, None, call.availableAt, call.createdAt)
  {
  }

  lemma CreatedRow(calls: seq<Call>, call: Call, id: JobId)
    requires EffectOn(Run(calls), call, id).Created?
    ensures id in Run(calls + [call]).jobs && CreatedBy(calls + [call], id, |calls|, Run(calls + [call]).jobs[id])
  {
    HistoryHolds(calls, id);
    NewRow(Run(calls), call, id);
    EventsNext(calls, call, id);
  }

  /** No other call touches these fields. */
  lemma KeptContent(s: Store, call: Call, id: JobId)
    requires !PlaceOf(s, id).Torn? && !EffectOn(s, call, id).Created? && id in Step(s, call).jobs
    ensures id in s.jobs
    ensures var job, was := Step(s, call).jobs[id], s.jobs[id];
      && job.id == was.id && job.capability == was.capability && job.payload == was.payload
      && job.createdAt == was.createdAt && job.queue == was.queue && job.deduplicationKey == was.deduplicationKey
  {
    StepMoves(s, call, id);
  }

  /** In every run a row asks for what its create call said. */
  lemma {:induction false} RowIsCreated(calls: seq<Call>, id: JobId)
    requires id in Run(calls).jobs
    ensures exists g: nat :: CreatedBy(calls, id, g, Run(calls).jobs[id])
  {
    var init, last := calls[..|calls| - 1], calls[|calls| - 1];
    assert calls == init + [last];
    EventsNext(init, last, id);
    if EffectOn(Run(init), last, id).Created? {
      CreatedRow(init, last, id);
    } else {
      HistoryHolds(init, id);
      KeptContent(Run(init), last, id);
      RowIsCreated(init, id);
      var g: nat :| CreatedBy(init, id, g, Run(init).jobs[id]);
      assert Events(calls, id)[g] == Events(init, id)[g];
      assert CreatedBy(calls, id, g, Run(calls).jobs[id]);
    }
  }
}
