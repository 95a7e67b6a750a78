/** What a ledger deadline is worth: until it passes, nobody else can take or change the row. */
module Exclusivity {
  import opened Jobs
  import opened RowHistory
  import opened JobTable

  /** Nobody else uses the token, and no claim of the segment looks at the clock at or after `until`. */
  ghost predicate BeforeDeadline(calls: seq<Call>, from: nat, token: LeaseToken, until: Time) {
    forall k :: from <= k < |calls| ==>
      TokenOf(calls[k]) != token && (calls[k].Claim? ==> calls[k].now < until)
  }

  lemma OthersLeaveRow(s: Store, call: Call, id: JobId, token: LeaseToken, until: Time)
    requires !PlaceOf(s, id).Torn? && id in s.jobs
    requires s.jobs[id].token == token && s.jobs[id].reservedAt == Some(until)
    requires TokenOf(call) != token && (call.Claim? ==> call.now < until)
    ensures EffectOn(s, call, id).NoEffect?
    ensures id in Step(s, call).jobs && Step(s, call).jobs[id] == s.jobs[id]
  {
    var effect := EffectOn(s, call, id);
    StepMoves(s, call, id);
    if Fenced(effect) { FenceGuards(s, call, id); }
    if effect.Claimed? { ClaimGuards(s, call, id); }
    assert effect.NoEffect?;
  }

  /** A worker that owns a row until `until` finds it untouched by any number of calls other workers
   *  make before that instant, whatever those calls are.
   */
  lemma {:induction false} LeaseExcludesOthers(calls: seq<Call>, from: nat, id: JobId, token: LeaseToken, until: Time)
    requires from <= |calls| && BeforeDeadline(calls, from, token, until)
    requires id in Run(calls[..from]).jobs
    requires Run(calls[..from]).jobs[id].token == token && Run(calls[..from]).jobs[id].reservedAt == Some(until)
    ensures id in Run(calls).jobs && Run(calls).jobs[id] == Run(calls[..from]).jobs[id]
  {
    if from == |calls| {
      assert calls[..from] == calls;
    } else {
      var init := calls[..|calls| - 1];
      assert init[..from] == calls[..from];
      LeaseExcludesOthers(init, from, id, token, until);
      HistoryHolds(init, id);
      OthersLeaveRow(Run(init), calls[|calls| - 1], id, token, until);
    }
  }

  // ----- millisecond columns

  /** SQLite stores and compares whole milliseconds. */
  predicate ClaimableInMs(deadline: Time, now: Time) {
    FloorMs(deadline) <= FloorMs(now)
  }

  ghost predicate ExclusiveUntil(deadline: Time) {
    forall now: Time :: now < deadline ==> !ClaimableInMs(deadline, now)
  }

  /** The plain SQLite claim reports the unrounded deadline. It is exclusive exactly when it falls on a
   *  whole millisecond; otherwise another worker may claim the row during its last partial millisecond,
   *  and never before.
   */
  lemma MillisecondExclusivity(deadline: Time)
    ensures ExclusiveUntil(deadline) <==> FloorMs(deadline) == deadline
    ensures forall now: Time :: now < deadline && ClaimableInMs(deadline, now) ==> deadline - now < MILLISECOND
  {
    if FloorMs(deadline) == deadline {
      forall now: Time | now < deadline ensures !ClaimableInMs(deadline, now) { }
    } else {
      assert ClaimableInMs(deadline, FloorMs(deadline)) by { assert FloorMs(FloorMs(deadline)) == FloorMs(deadline); }
      assert FloorMs(deadline) < deadline;
    }
    forall now: Time | now < deadline && ClaimableInMs(deadline, now) ensures deadline - now < MILLISECOND { }
  }

  /** A deadline half a millisecond past a whole one can be taken early. */
  lemma PlainClaimNotExclusive()
    ensures !ExclusiveUntil(MILLISECOND + MILLISECOND / 2)
  {
    MillisecondExclusivity(MILLISECOND + MILLISECOND / 2);
  }
}
