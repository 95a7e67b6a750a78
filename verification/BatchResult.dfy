/** Checking the result a batch handler returned, and turning it into durable outcomes. */
module BatchResult {
  import opened Jobs
  import opened JobTable
  import opened ReservationBatch

  datatype ItemResult = ItemResult(jobId: JobId, error: HandlerError)

  function ItemIds(items: seq<ItemResult>): seq<JobId> {
    Each((item: ItemResult) => item.jobId, items)
  }

  /** The results name every input exactly once, in any order. */
  ghost predicate ExactCover(input: seq<JobId>, items: seq<ItemResult>) {
    NIL_ID !in input && NoDuplicates(input) && multiset(ItemIds(items)) == multiset(input)
  }

  lemma {:induction false} DistinctCounts(s: seq<JobId>, x: JobId)
    requires NoDuplicates(s)
    ensures multiset(s)[x] == if x in s then 1 else 0
  {
    if s != [] {
      DistinctCounts(s[1..], x);
      assert s == [s[0]] + s[1..];
    }
  }

  /** Distinct results that all name inputs, as many as there are inputs, cover them exactly. */
  lemma CoverFromDistinct(input: seq<JobId>, ids: seq<JobId>)
    requires NoDuplicates(input) && NoDuplicates(ids) && |ids| == |input|
    requires forall id :: id in ids ==> id in input
    ensures multiset(ids) == multiset(input)
  {
    DistinctIffFull(ids);
    DistinctIffFull(input);
    SubsetCardinality(ToSet(ids), ToSet(input));
    forall x ensures multiset(ids)[x] == multiset(input)[x] {
      assert x in ids <==> x in ToSet(ids);
      assert x in input <==> x in ToSet(input);
      DistinctCounts(ids, x);
      DistinctCounts(input, x);
    }
  }

  lemma CountsTwice(s: seq<JobId>, i: nat, j: nat)
    requires i < j < |s|
    ensures s[i] == s[j] ==> multiset(s)[s[i]] >= 2
  {
    assert s == s[..i] + [s[i]] + s[i + 1..j] + [s[j]] + s[j + 1..];
  }

  /** A repeated or unknown result identifier rules out an exact cover. */
  lemma CoverMembers(input: seq<JobId>, items: seq<ItemResult>)
    ensures ExactCover(input, items) ==>
      && |items| == |input| && NoDuplicates(ItemIds(items))
      && forall i :: 0 <= i < |items| ==> items[i].jobId in input
  {
    var ids := ItemIds(items);
    assert |multiset(ids)| == |ids| && |multiset(input)| == |input|;
    if ExactCover(input, items) {
      forall i | 0 <= i < |items| ensures items[i].jobId in input {
        assert ids[i] in multiset(ids);
      }
      forall i, j | 0 <= i < j < |ids| ensures ids[i] != ids[j] {
        CountsTwice(ids, i, j);
        DistinctCounts(input, ids[i]);
      }
    }
  }

  /** The errors of a covered input: each input position carries the error reported for its own job. */
  ghost predicate Placed(input: seq<JobId>, items: seq<ItemResult>, errors: seq<HandlerError>) {
    && |errors| == |input|
    && forall i, p :: 0 <= i < |items| && 0 <= p < |input| && input[p] == items[i].jobId ==> errors[p] == items[i].error
  }

  method Positions(input: seq<JobId>) returns (ok: bool, positions: map<JobId, nat>)
    ensures ok <==> NIL_ID !in input && NoDuplicates(input)
    ensures ok ==> positions.Keys == ToSet(input)
    ensures ok ==> forall id :: id in positions ==> positions[id] < |input| && input[positions[id]] == id
  {
    positions := map[];
    for i := 0 to |input|
      invariant NIL_ID !in input[..i] && NoDuplicates(input[..i])
      invariant positions.Keys == ToSet(input[..i])
      invariant forall id :: id in positions ==> positions[id] < i && input[positions[id]] == id
    {
      assert input[..i + 1] == input[..i] + [input[i]];
      if input[i] == NIL_ID || input[i] in positions {
        return false, positions;
      }
      positions := positions[input[i] := i];
    }
    assert input[..|input|] == input;
    return true, positions;
  }

  /** The validator succeeds exactly on an exact cover, and then puts every error at its own position. */
  method ValidateResult(input: seq<JobId>, items: seq<ItemResult>) returns (r: Option<seq<HandlerError>>)
    ensures r.Some? <==> ExactCover(input, items)
    ensures r.Some? ==> Placed(input, items, r.value)
  {
    var ids := ItemIds(items);
    CoverMembers(input, items);
    if |items| != |input| {
      return None;
    }
    var ok, positions := Positions(input);
    if !ok {
      return None;
    }
    var errors := seq(|input|, _ => NoError);
    var seen: set<JobId> := {};
    for i := 0 to |items|
      invariant |errors| == |input| && seen == ToSet(ids[..i]) && NoDuplicates(ids[..i])
      invariant forall k :: 0 <= k < i ==> ids[k] in input
      invariant forall k :: 0 <= k < i ==> errors[positions[ids[k]]] == items[k].error
    {
      assert ids[..i + 1] == ids[..i] + [ids[i]];
      var id := items[i].jobId;
      if id !in positions {
        return None;
      }
      if id in seen {
        var k :| 0 <= k < i && ids[..i][k] == id;
        assert ids[k] == ids[i];
        return None;
      }
      seen := seen + {id};
      errors := errors[positions[id] := items[i].error];
      assert forall k :: 0 <= k < i ==> ids[k] != id;
    }
    assert ids[..|ids|] == ids;
    CoverFromDistinct(input, ids);
    return Some(errors);
  }

  // ----- outcomes

  function KindOf(disposition: Disposition): OutcomeKind {
    match disposition
    case Acknowledge => Success
    case DeadLetter => Dlq
    case Postpone => Defer
    case _ => OutcomeKind.Retry
  }

  /** What happened to one item, apart from its job: the reported error, its text, and the delay a retry would get. */
  datatype Report = Report(error: HandlerError, text: string, delay: int)

  function Later(a: Time, b: Time): Time {
    if a < b then b else a
  }

  /** The retry time: an explicit one, or the delay of the policy; a negative delay fails closed. */
  function RetryTime(error: HandlerError, now: Time, delay: int): Option<Time>
    requires error.Failure?
  {
    if error.retryAt.Some? then Some(Later(error.retryAt.value, now))
    else if delay < 0 then None
    else Some(now + delay)
  }

  /** What one item becomes. Without a policy a batch still retries, so none is left to its lease. */
  predicate OutcomeFits(outcome: Outcome, job: Job, report: Report, now: Time, maxAttempts: int) {
    && outcome.jobId == job.id
    && outcome.kind == KindOf(Decide(report.error, job.attempts, maxAttempts, true))
    && (outcome.kind.Defer? ==> outcome.availableAt == Later(report.error.deferAt.value, now))
    && (outcome.kind.Retry? ==>
          job.attempts < maxAttempts && RetryTime(report.error, now, report.delay) == Some(outcome.availableAt))
    && (outcome.kind.Dlq? ==>
          outcome.reason
          == (if report.error.permanent then "permanent failure: " else "max attempts exceeded: ") + report.text)
    && (outcome.kind.Success? || outcome.kind.Dlq? ==> outcome.availableAt == ZERO_TIME)
    && (!outcome.kind.Dlq? ==> outcome.reason == "")
    && ValidOutcome(outcome)
  }

  /** The item is to be retried and the policy's delay is negative. */
  predicate RetryRefused(job: Job, report: Report, maxAttempts: int) {
    Decide(report.error, job.attempts, maxAttempts, true).Retry? && report.error.retryAt.None? && report.delay < 0
  }

  /** Builds one outcome per input job, or none at all exactly when some retry cannot be scheduled. */
  method ItemOutcomes(jobs: seq<Job>, reports: seq<Report>, now: Time, maxAttempts: int)
    returns (r: Option<seq<Outcome>>)
    requires |reports| == |jobs| && now > ZERO_TIME
    requires forall i :: 0 <= i < |jobs| ==> jobs[i].id != NIL_ID
    ensures r.Some? ==> |r.value| == |jobs|
                        && forall i :: 0 <= i < |jobs| ==>
                             OutcomeFits(r.value[i], jobs[i], reports[i], now, maxAttempts)
    ensures r.Some? ==> forall i :: 0 <= i < |jobs| ==>
              Honoured(reports[i].error, jobs[i], r.value[i], now, maxAttempts, reports[i].delay, reports[i].text)
    ensures r.None? <==> exists i :: 0 <= i < |jobs| && RetryRefused(jobs[i], reports[i], maxAttempts)
  {
    var outcomes: seq<Outcome> := [];
    for i := 0 to |jobs|
      invariant |outcomes| == i
      invariant forall k :: 0 <= k < i ==> OutcomeFits(outcomes[k], jobs[k], reports[k], now, maxAttempts)
      invariant forall k :: 0 <= k < i ==> !RetryRefused(jobs[k], reports[k], maxAttempts)
    {
      var job, error := jobs[i], reports[i].error;
      var outcome: Outcome;
      var disposition := Decide(error, job.attempts, maxAttempts, true);
      if disposition.Acknowledge? {
        outcome := Outcome(job.id, Success, ZERO_TIME, "");
      } else if disposition.DeadLetter? {
        var reason := if error.permanent then "permanent failure: " else "max attempts exceeded: ";
        outcome := Outcome(job.id, Dlq, ZERO_TIME, reason + reports[i].text);
      } else if disposition.Postpone? {
        outcome := Outcome(job.id, Defer, Later(error.deferAt.value, now), "");
      } else {
        var at := RetryTime(error, now, reports[i].delay);
        if at.None? {
          return None;
        }
        outcome := Outcome(job.id, OutcomeKind.Retry, at.value, "");
      }
      outcomes := outcomes + [outcome];
    }
    forall i | 0 <= i < |jobs|
      ensures Honoured(reports[i].error, jobs[i], outcomes[i], now, maxAttempts, reports[i].delay, reports[i].text)
    {
      FitIsHonoured(outcomes[i], jobs[i], reports[i], now, maxAttempts);
    }
    return Some(outcomes);
  }

  /** A handler's answer: a top-level error must come without items. */
  datatype Answer = Answer(topLevel: HandlerError, items: seq<ItemResult>)

  /** What a valid answer turns into. Nothing is acknowledged unless the handler named that very job with
   *  a nil error, and every retry is below the attempt limit.
   */
  ghost predicate FinishFits(jobs: seq<Job>, answer: Answer, outcomes: seq<Outcome>, maxAttempts: int) {
    && |outcomes| == |jobs|
    && (forall i :: 0 <= i < |jobs| ==> outcomes[i].jobId == jobs[i].id && ValidOutcome(outcomes[i]))
    && (forall i :: 0 <= i < |jobs| && outcomes[i].kind.Success? ==> ItemResult(jobs[i].id, NoError) in answer.items)
    && (forall i :: 0 <= i < |jobs| && outcomes[i].kind.Retry? ==> jobs[i].attempts < maxAttempts)
    && (answer.topLevel.Failure? ==> forall i :: 0 <= i < |jobs| ==> outcomes[i].kind.Defer?)
  }

  /** What the handler reported for each job, with the text and the delay that would go with it. */
  ghost predicate Reported(jobs: seq<Job>, items: seq<ItemResult>, delays: seq<int>, texts: seq<string>,
                           reports: seq<Report>) {
    && |reports| == |jobs| == |delays| == |texts|
    && forall i :: 0 <= i < |jobs| ==> ItemResult(jobs[i].id, reports[i].error) in items
                                       && reports[i].text == texts[i] && reports[i].delay == delays[i]
  }

  /** What a reported error asks for, and gets: a nil one acknowledges; a permanent one is dead-lettered; one with a
   *  defer time is deferred to it; one at the attempt limit is dead-lettered; any other is retried, at its own time or
   *  after the delay of the policy. No time is in the past.
   */
  ghost predicate Honoured(error: HandlerError, job: Job, outcome: Outcome, now: Time, maxAttempts: int, delay: int,
                           text: string)
  {
    && outcome.jobId == job.id
    && if error.NoError? then outcome.kind.Success?
       else if error.permanent then outcome.kind.Dlq? && outcome.reason == "permanent failure: " + text
       else if error.deferAt.Some? then
         && outcome.kind.Defer? && outcome.availableAt >= now && outcome.availableAt >= error.deferAt.value
         && (outcome.availableAt == now || outcome.availableAt == error.deferAt.value)
       else if job.attempts >= maxAttempts then
         outcome.kind.Dlq? && outcome.reason == "max attempts exceeded: " + text
       else
         && outcome.kind.Retry? && outcome.availableAt >= now
         && (error.retryAt.Some? ==>
               && outcome.availableAt >= error.retryAt.value
               && (outcome.availableAt == now || outcome.availableAt == error.retryAt.value))
         && (error.retryAt.None? ==> outcome.availableAt == now + delay)
  }

  /** Every item gets, for its own job, what it asks for. */
  ghost predicate AllHonoured(jobs: seq<Job>, items: seq<ItemResult>, outcomes: seq<Outcome>, now: Time,
                              maxAttempts: int, delays: seq<int>, texts: seq<string>)
  {
    && |outcomes| == |jobs| == |delays| == |texts|
    && forall i, k :: 0 <= i < |jobs| && 0 <= k < |items| && items[k].jobId == jobs[i].id ==>
         Honoured(items[k].error, jobs[i], outcomes[i], now, maxAttempts, delays[i], texts[i])
  }

  lemma FitIsHonoured(outcome: Outcome, job: Job, report: Report, now: Time, maxAttempts: int)
    requires OutcomeFits(outcome, job, report, now, maxAttempts)
    ensures Honoured(report.error, job, outcome, now, maxAttempts, report.delay, report.text)
  {
    DispositionMeans(report.error, job.attempts, maxAttempts, true);
  }

  /** Outcomes that follow from the reports honour the items. */
  lemma FinishedHonours(jobs: seq<Job>, answer: Answer, now: Time, deferUntil: Time, maxAttempts: int,
                        delays: seq<int>, texts: seq<string>, outcomes: seq<Outcome>, reports: seq<Report>)
    requires Finished(jobs, answer, now, deferUntil, maxAttempts, delays, texts, Some(outcomes), reports)
    requires answer.topLevel.NoError?
    ensures AllHonoured(jobs, answer.items, outcomes, now, maxAttempts, delays, texts)
  {
    forall i, k | 0 <= i < |jobs| && 0 <= k < |answer.items| && answer.items[k].jobId == jobs[i].id
      ensures Honoured(answer.items[k].error, jobs[i], outcomes[i], now, maxAttempts, delays[i], texts[i])
    {
      assert ItemResult(jobs[i].id, answer.items[k].error) in answer.items;
      OneReport(jobs, answer.items, jobs[i].id, answer.items[k].error, reports[i].error);
      FitIsHonoured(outcomes[i], jobs[i], reports[i], now, maxAttempts);
    }
  }

  /** How a batch is finished. With a top-level error every job is deferred, unless the error is permanent or came with
   *  items. Without one, it is refused exactly when the result is not an exact cover or some reported retry cannot be
   *  scheduled; and otherwise each job gets the outcome that follows from what was reported for it.
   */
  ghost predicate Finished(jobs: seq<Job>, answer: Answer, now: Time, deferUntil: Time, maxAttempts: int,
                           delays: seq<int>, texts: seq<string>, r: Option<seq<Outcome>>, reports: seq<Report>)
  {
    && (answer.topLevel.Failure? ==> (r.Some? <==> answer.items == [] && !answer.topLevel.permanent))
    && (answer.topLevel.Failure? && r.Some? ==>
          && |r.value| == |jobs|
          && forall i :: 0 <= i < |jobs| ==> r.value[i] == Outcome(jobs[i].id, Defer, deferUntil, ""))
    && (answer.topLevel.NoError? && ExactCover(Ids(jobs), answer.items) ==>
          && Reported(jobs, answer.items, delays, texts, reports)
          && (r.None? <==> exists i :: 0 <= i < |jobs| && RetryRefused(jobs[i], reports[i], maxAttempts)))
    && (answer.topLevel.NoError? && r.Some? ==>
          && ExactCover(Ids(jobs), answer.items) && |r.value| == |jobs| == |reports|
          && forall i :: 0 <= i < |jobs| ==> OutcomeFits(r.value[i], jobs[i], reports[i], now, maxAttempts))
  }

  lemma OneReport(jobs: seq<Job>, items: seq<ItemResult>, id: JobId, a: HandlerError, b: HandlerError)
    requires ExactCover(Ids(jobs), items) && ItemResult(id, a) in items && ItemResult(id, b) in items
    ensures a == b
  {
    CoverMembers(Ids(jobs), items);
    var i :| 0 <= i < |items| && items[i] == ItemResult(id, a);
    var j :| 0 <= j < |items| && items[j] == ItemResult(id, b);
    assert ItemIds(items)[i] == id && ItemIds(items)[j] == id;
  }

  lemma ReportsAreUnique(jobs: seq<Job>, items: seq<ItemResult>, delays: seq<int>, texts: seq<string>,
                         a: seq<Report>, b: seq<Report>)
    requires ExactCover(Ids(jobs), items)
    requires Reported(jobs, items, delays, texts, a) && Reported(jobs, items, delays, texts, b)
    ensures a == b
  {
    forall i | 0 <= i < |jobs| ensures a[i] == b[i] {
      OneReport(jobs, items, jobs[i].id, a[i].error, b[i].error);
    }
  }

  lemma OutcomeIsUnique(a: Outcome, b: Outcome, job: Job, report: Report, now: Time, maxAttempts: int)
    requires OutcomeFits(a, job, report, now, maxAttempts) && OutcomeFits(b, job, report, now, maxAttempts)
    ensures a == b
  {
  }

  /** The answer fixes the outcomes of a batch. */
  lemma FinishedIsUnique(jobs: seq<Job>, answer: Answer, now: Time, deferUntil: Time, maxAttempts: int,
                         delays: seq<int>, texts: seq<string>, r: Option<seq<Outcome>>, reports: seq<Report>,
                         r': Option<seq<Outcome>>, reports': seq<Report>)
    requires Finished(jobs, answer, now, deferUntil, maxAttempts, delays, texts, r, reports)
    requires Finished(jobs, answer, now, deferUntil, maxAttempts, delays, texts, r', reports')
    ensures r == r'
  {
    assert answer.topLevel.Failure? && r.Some? ==> r.value == r'.value;
    if answer.topLevel.NoError? && ExactCover(Ids(jobs), answer.items) {
      ReportsAreUnique(jobs, answer.items, delays, texts, reports, reports');
      if r.Some? {
        forall i | 0 <= i < |jobs| ensures r.value[i] == r'.value[i] {
          OutcomeIsUnique(r.value[i], r'.value[i], jobs[i], reports[i], now, maxAttempts);
        }
        assert r.value == r'.value;
      }
    }
  }

  method Finish(jobs: seq<Job>, answer: Answer, now: Time, deferUntil: Time, maxAttempts: int, delays: seq<int>,
                texts: seq<string>)
    returns (r: Option<seq<Outcome>>, ghost reports: seq<Report>)
    requires |delays| == |texts| == |jobs| && now > ZERO_TIME && deferUntil >= now
    requires NoDuplicates(Ids(jobs)) && forall i :: 0 <= i < |jobs| ==> jobs[i].id != NIL_ID
    ensures Finished(jobs, answer, now, deferUntil, maxAttempts, delays, texts, r, reports)
    ensures r.Some? ==> FinishFits(jobs, answer, r.value, maxAttempts) && DistinctOutcomes(r.value)
    ensures r.Some? && answer.topLevel.NoError? ==>
              AllHonoured(jobs, answer.items, r.value, now, maxAttempts, delays, texts)
  {
    reports := [];
    if answer.topLevel.Failure? {
      if answer.items != [] || answer.topLevel.permanent {
        return None, [];
      }
      var outcomes := seq(|jobs|, i requires 0 <= i < |jobs| => Outcome(jobs[i].id, Defer, deferUntil, ""));
      DistinctFromJobs(jobs, outcomes);
      return Some(outcomes), [];
    }
    var errors := ValidateResult(Ids(jobs), answer.items);
    if errors.None? {
      return None, [];
    }
    var all := seq(|jobs|, i requires 0 <= i < |jobs| => Report(errors.value[i], texts[i], delays[i]));
    reports := all;
    SuccessWasReported(jobs, answer.items, errors.value);
    r := ItemOutcomes(jobs, all, now, maxAttempts);
    if r.Some? {
      DistinctFromJobs(jobs, r.value);
      SuccessesFit(jobs, answer, r.value, all, now, maxAttempts, delays, texts);
      FinishedHonours(jobs, answer, now, deferUntil, maxAttempts, delays, texts, r.value, all);
    }
  }

  /** The shape of a finished batch follows from the outcomes of its items. */
  lemma SuccessesFit(jobs: seq<Job>, answer: Answer, outcomes: seq<Outcome>, reports: seq<Report>, now: Time,
                     maxAttempts: int, delays: seq<int>, texts: seq<string>)
    requires answer.topLevel.NoError? && Reported(jobs, answer.items, delays, texts, reports) && |outcomes| == |jobs|
    requires forall i :: 0 <= i < |jobs| ==> OutcomeFits(outcomes[i], jobs[i], reports[i], now, maxAttempts)
    ensures FinishFits(jobs, answer, outcomes, maxAttempts)
  {
    forall i | 0 <= i < |jobs| && outcomes[i].kind.Success? ensures ItemResult(jobs[i].id, NoError) in answer.items {
      assert ItemResult(jobs[i].id, reports[i].error) in answer.items;
    }
  }

  lemma DistinctFromJobs(jobs: seq<Job>, outcomes: seq<Outcome>)
    requires NoDuplicates(Ids(jobs)) && |outcomes| == |jobs|
    requires forall i :: 0 <= i < |jobs| ==> outcomes[i].jobId == jobs[i].id
    ensures DistinctOutcomes(outcomes)
  {
    forall i, j | 0 <= i < j < |outcomes| ensures outcomes[i].jobId != outcomes[j].jobId {
      assert Ids(jobs)[i] != Ids(jobs)[j];
    }
  }

  /** A nil error in the placed errors comes from an item of the result, not from the initial value. */
  lemma SuccessWasReported(jobs: seq<Job>, items: seq<ItemResult>, errors: seq<HandlerError>)
    requires ExactCover(Ids(jobs), items) && Placed(Ids(jobs), items, errors)
    ensures forall i :: 0 <= i < |jobs| ==> ItemResult(jobs[i].id, errors[i]) in items
  {
    forall i | 0 <= i < |jobs| ensures ItemResult(jobs[i].id, errors[i]) in items {
      assert Ids(jobs)[i] in multiset(ItemIds(items));
      var k :| 0 <= k < |items| && ItemIds(items)[k] == jobs[i].id;
      assert items[k] == ItemResult(jobs[i].id, errors[i]);
    }
  }
}
