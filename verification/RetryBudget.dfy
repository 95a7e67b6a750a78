/** The attempt limit over whole runs: what the service decides from the copy of a job that its claim returned bounds
 *  the retries of the row, however the calls of all workers interleave.
 */
module RetryBudget {
  import opened Jobs
  import opened RowHistory
  import opened JobTable
  import opened FenceSafety
  import ReservationBatch

  /** The retry at step `k` was decided by a worker on the copy its claim at step `c` returned. */
  ghost predicate DecidedOn(calls: seq<Call>, id: JobId, c: nat, k: nat, error: ReservationBatch.HandlerError,
                            hasPolicy: bool, maxAttempts: nat)
  {
    && c < k < |calls| && Events(calls, id)[c].effect.Claimed? && TokenOf(calls[c]) == TokenOf(calls[k])
    && id in Run(calls[..c + 1]).jobs
    && ReservationBatch.Decide(error, Run(calls[..c + 1]).jobs[id].attempts, maxAttempts, hasPolicy).Retry?
  }

  /** Every retry of the row follows the service's rule for some handler error. */
  ghost predicate ServiceRetries(calls: seq<Call>, id: JobId, maxAttempts: nat) {
    forall k: nat :: k < |calls| && Events(calls, id)[k].effect.Retried? ==>
      exists c: nat, error, hasPolicy :: DecidedOn(calls, id, c, k, error, hasPolicy, maxAttempts)
  }

  /** No two claims of the row use one token. */
  ghost predicate FreshTokens(calls: seq<Call>, id: JobId) {
    forall c: nat, d: nat ::
      c < d < |calls| && Events(calls, id)[c].effect.Claimed? && Events(calls, id)[d].effect.Claimed? ==>
      TokenOf(calls[c]) != TokenOf(calls[d])
  }

  lemma OwnerIsUnique(events: seq<Event>, c: nat, d: nat, i: nat)
    requires i < |events| && Owns(events, c, i) && Owns(events, d, i)
    ensures c == d
  {
  }

  /** The claim that owns the row when it is retried is the one whose copy the worker decided on. */
  lemma {:induction false} OwnerDecided(calls: seq<Call>, id: JobId, owner: nat, c: nat, k: nat,
                                        error: ReservationBatch.HandlerError, hasPolicy: bool, maxAttempts: nat)
    requires FreshTokens(calls, id) && DecidedOn(calls, id, c, k, error, hasPolicy, maxAttempts)
    requires Events(calls, id)[k].effect.Retried? && Owns(Events(calls, id), owner, k)
    ensures owner == c
  {
    EventAt(calls, k, id);
    FencedCallOwnsRow(calls, k, id);
    var d: nat :| Owns(Events(calls, id), d, k) && TokenOf(calls[d]) == TokenOf(calls[k]);
    OwnerIsUnique(Events(calls, id), owner, d, k);
  }

  lemma {:induction false} ServiceRetriesBelow(calls: seq<Call>, id: JobId, maxAttempts: nat)
    requires FreshTokens(calls, id) && ServiceRetries(calls, id, maxAttempts)
    ensures RetriesBelow(Events(calls, id), maxAttempts)
  {
    var events := Events(calls, id);
    forall k: nat, owner: nat | k < |events| && events[k].effect.Retried? && Owns(events, owner, k)
      ensures Balance(events[..owner + 1]) < maxAttempts
    {
      var c: nat, error, hasPolicy :| DecidedOn(calls, id, c, k, error, hasPolicy, maxAttempts);
      OwnerDecided(calls, id, owner, c, k, error, hasPolicy, maxAttempts);
      ClaimReturnsBalance(calls, c, id);
      ReservationBatch.RetryNeedsAttempts(error, Run(calls[..c + 1]).jobs[id].attempts, maxAttempts, hasPolicy);
    }
  }

  /** However claims, expiries, releases and defers interleave, a job whose workers decide on the copies their claims
   *  returned receives at most `maxAttempts - 1` retry outcomes.
   */
  lemma {:induction false} JobRetriesAreBounded(calls: seq<Call>, id: JobId, maxAttempts: nat)
    requires FreshTokens(calls, id) && ServiceRetries(calls, id, maxAttempts)
    ensures Count(Events(calls, id), Retried) <= if maxAttempts == 0 then 0 else maxAttempts - 1
  {
    ServiceRetriesBelow(calls, id, maxAttempts);
    HistoryHolds(calls, id);
    RetriesAreBounded(Events(calls, id), maxAttempts);
  }
}
