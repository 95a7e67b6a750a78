/** What every run of the job table keeps, stated over the list of calls alone. */
module FenceSafety {
  import opened Jobs
  import opened RowHistory
  import opened JobTable

  lemma {:induction false} EventAt(calls: seq<Call>, i: nat, id: JobId)
    requires i < |calls|
    ensures Events(calls, id)[i] == Event(EffectOn(Run(calls[..i]), calls[i], id), TokenOf(calls[i]))
  {
    if i < |calls| - 1 {
      EventAt(calls[..|calls| - 1], i, id);
      assert calls[..|calls| - 1][..i] == calls[..i];
    }
  }

  /** Fence safety. Whenever a lease operation of any worker, with any clock argument, changes a row,
   *  its token was written by the row's latest claim and nothing has ended that claim since.
   */
  lemma {:induction false} FencedCallOwnsRow(calls: seq<Call>, i: nat, id: JobId)
    requires i < |calls| && Fenced(EffectOn(Run(calls[..i]), calls[i], id))
    ensures exists c: nat :: Owns(Events(calls, id), c, i) && TokenOf(calls[c]) == TokenOf(calls[i])
  {
    HistoryHolds(calls, id);
    EventAt(calls, i, id);
    FencedEffectHasOwner(Events(calls, id), i);
    var c: nat :| Owns(Events(calls, id), c, i) && Events(calls, id)[c].token == Events(calls, id)[i].token;
    EventAt(calls, c, id);
  }

  /** Each claim is ended at most once: two terminal effects on a row are separated by a new claim. */
  lemma {:induction false} TerminalEffectsNeedClaims(calls: seq<Call>, i: nat, k: nat, id: JobId)
    requires i < k < |calls|
    requires Terminal(Events(calls, id)[i].effect) && Terminal(Events(calls, id)[k].effect)
    ensures exists c: nat :: i < c < k && Events(calls, id)[c].effect.Claimed?
                             && TokenOf(calls[c]) == TokenOf(calls[k])
  {
    HistoryHolds(calls, id);
    ClaimBetweenTerminals(Events(calls, id), i, k);
    var events := Events(calls, id);
    var c: nat :| i < c < k && events[c].effect.Claimed? && events[c].token == events[k].token;
    EventAt(calls, c, id);
    EventAt(calls, k, id);
  }

  /** In every reachable state a row has the nil token exactly when it is unreserved, and its attempt
   *  counter is the number of claims less the refunds, never negative.
   */
  lemma {:induction false} ReachableRow(calls: seq<Call>, id: JobId)
    requires id in Run(calls).jobs
    ensures var job, events := Run(calls).jobs[id], Events(calls, id);
      && (job.token == NIL_TOKEN <==> job.reservedAt.None?)
      && job.attempts == Count(events, Claimed) - Count(events, Released) - Count(events, Deferred)
      && job.attempts >= Count(events, Retried)
  {
    HistoryHolds(calls, id);
    BalanceCoversRetries(Events(calls, id));
  }

  /** Conservation: every job ever created is in exactly one of the active table, the acknowledged
   *  history and the failed table, and nothing else is.
   */
  lemma {:induction false} JobsAreConserved(calls: seq<Call>)
    ensures var s := Run(calls);
      && s.created == s.jobs.Keys + s.acknowledged + s.failed.Keys
      && s.jobs.Keys !! s.acknowledged !! s.failed.Keys
  {
    var s := Run(calls);
    forall id: JobId
      ensures !PlaceOf(s, id).Torn?
      ensures id in s.created <==> id in s.jobs.Keys + s.acknowledged + s.failed.Keys
    {
      HistoryHolds(calls, id);
    }
  }

  lemma ClaimedRowIsActive(s: Store, call: Call, id: JobId)
    requires !PlaceOf(s, id).Torn? && EffectOn(s, call, id).Claimed?
    ensures id in Step(s, call).jobs
  {
    ClaimGuards(s, call, id);
  }

  lemma {:induction false} ClaimActivates(calls: seq<Call>, c: nat, id: JobId)
    requires c < |calls| && EffectOn(Run(calls[..c]), calls[c], id).Claimed?
    ensures id in Run(calls[..c + 1]).jobs
  {
    assert calls[..c + 1][..c] == calls[..c];
    HistoryHolds(calls[..c], id);
    ClaimedRowIsActive(Run(calls[..c]), calls[c], id);
  }

  lemma {:induction false} ActiveRowHasBalance(calls: seq<Call>, id: JobId)
    requires id in Run(calls).jobs
    ensures Run(calls).jobs[id].attempts == Balance(Events(calls, id))
  {
    HistoryHolds(calls, id);
  }

  /** The attempt number a claim returns to its worker is the one the retry rule speaks of. */
  lemma {:induction false} ClaimReturnsBalance(calls: seq<Call>, c: nat, id: JobId)
    requires c < |calls| && Events(calls, id)[c].effect.Claimed?
    ensures id in Run(calls[..c + 1]).jobs
    ensures Run(calls[..c + 1]).jobs[id].attempts == Balance(Events(calls, id)[..c + 1])
  {
    EventAt(calls, c, id);
    ClaimActivates(calls, c, id);
    ActiveRowHasBalance(calls[..c + 1], id);
    EventsPrefix(calls, c + 1, id);
  }

  lemma {:induction false} EventsPrefix(calls: seq<Call>, n: nat, id: JobId)
    requires n <= |calls|
    ensures Events(calls[..n], id) == Events(calls, id)[..n]
  {
    if n == |calls| {
      assert calls[..n] == calls;
    } else {
      EventsPrefix(calls[..|calls| - 1], n, id);
      assert calls[..|calls| - 1][..n] == calls[..n];
    }
  }
}
