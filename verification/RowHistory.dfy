/** The history of one row as a list of events, independent of how the table computes them. */
module RowHistory {
  import opened Jobs

  /** What a repository call did to one row. */
  datatype Effect = NoEffect | Created | Claimed | Extended | Released | Acked | Retried | Deferred | Failed

  datatype Event = Event(effect: Effect, token: LeaseToken)

  /** Effects that end a claim. */
  predicate Terminal(effect: Effect) {
    effect.Released? || effect.Acked? || effect.Retried? || effect.Deferred? || effect.Failed?
  }

  /** Effects that only the owner of a claim may have. */
  predicate Fenced(effect: Effect) { effect.Extended? || Terminal(effect) }

  predicate Quiet(effect: Effect) { effect.NoEffect? || effect.Extended? }

  function Init(events: seq<Event>): seq<Event>
    requires events != []
  {
    events[..|events| - 1]
  }

  function Last(events: seq<Event>): Event
    requires events != []
  {
    events[|events| - 1]
  }

  function Count(events: seq<Event>, effect: Effect): nat {
    if events == [] then 0
    else Count(Init(events), effect) + (if Last(events).effect == effect then 1 else 0)
  }

  /** Claims less the attempts given back by releases and defers. */
  function Balance(events: seq<Event>): int {
    Count(events, Claimed) - Count(events, Released) - Count(events, Deferred)
  }

  /** The claim that still owns the row: the latest one, unless something ended it since. */
  function Owner(events: seq<Event>): (owner: Option<nat>)
    ensures owner.Some? ==> owner.value < |events|
  {
    if events == [] then None
    else if Last(events).effect.Claimed? then Some(|events| - 1)
    else if Quiet(Last(events).effect) then Owner(Init(events))
    else None
  }

  function OwnerToken(events: seq<Event>): LeaseToken {
    if Owner(events).Some? then events[Owner(events).value].token else NIL_TOKEN
  }

  /** Call `c` claimed the row and nothing has ended or replaced that claim before `i`. */
  ghost predicate Owns(events: seq<Event>, c: nat, i: nat)
    requires i <= |events|
  {
    c < i && events[c].effect.Claimed? && forall k :: c < k < i ==> Quiet(events[k].effect)
  }

  /** Every fenced effect carries the token of the claim that owns the row at that moment. */
  ghost predicate FenceHolds(events: seq<Event>) {
    forall i :: 0 <= i < |events| && Fenced(events[i].effect) ==>
      Owner(events[..i]).Some? && OwnerToken(events[..i]) == events[i].token
  }

  lemma FenceExtends(events: seq<Event>, next: Event)
    requires FenceHolds(events)
    requires Fenced(next.effect) ==> Owner(events).Some? && OwnerToken(events) == next.token
    ensures FenceHolds(events + [next])
  {
    var all := events + [next];
    forall i | 0 <= i < |all| && Fenced(all[i].effect)
      ensures Owner(all[..i]).Some? && OwnerToken(all[..i]) == all[i].token
    {
      if i < |events| { assert all[..i] == events[..i]; } else { assert all[..i] == events; }
    }
  }

  lemma {:induction false} OwnerOwns(events: seq<Event>)
    requires Owner(events).Some?
    ensures Owns(events, Owner(events).value, |events|)
    ensures Balance(events) == Balance(events[..Owner(events).value + 1])
  {
    if Last(events).effect.Claimed? {
      assert events[..|events|] == events;
    } else {
      var init, c := Init(events), Owner(events).value;
      OwnerOwns(init);
      assert init[..c + 1] == events[..c + 1];
      forall k | c < k < |events| ensures Quiet(events[k].effect) {
        if k < |init| { assert init[k] == events[k]; }
      }
    }
  }

  /** A fenced effect belongs to the latest claim, and that claim has not been ended. */
  lemma FencedEffectHasOwner(events: seq<Event>, i: nat)
    requires FenceHolds(events) && i < |events| && Fenced(events[i].effect)
    ensures exists c: nat :: Owns(events, c, i) && events[c].token == events[i].token
  {
    OwnerOwns(events[..i]);
    var c := Owner(events[..i]).value;
    assert forall k :: 0 <= k < i ==> events[..i][k] == events[k];
    assert Owns(events, c, i);
  }

  /** Two terminal effects are separated by a new claim. */
  lemma ClaimBetweenTerminals(events: seq<Event>, i: nat, k: nat)
    requires FenceHolds(events) && i < k < |events|
    requires Terminal(events[i].effect) && Terminal(events[k].effect)
    ensures exists c: nat :: i < c < k && events[c].effect.Claimed? && events[c].token == events[k].token
  {
    FencedEffectHasOwner(events, k);
    var c: nat :| Owns(events, c, k) && events[c].token == events[k].token;
    assert i != c && !(c < i);
  }

  /** Each retry keeps an attempt of its own: the balance covers them, and the claim in force. */
  lemma {:induction false} BalanceCoversRetries(events: seq<Event>)
    requires FenceHolds(events)
    ensures Balance(events) >= Count(events, Retried) + (if Owner(events).Some? then 1 else 0)
  {
    if events != [] {
      FenceInit(events);
      BalanceCoversRetries(Init(events));
      assert events[..|events| - 1] == Init(events);
    }
  }

  lemma FenceInit(events: seq<Event>)
    requires FenceHolds(events) && events != []
    ensures FenceHolds(Init(events))
  {
    assert forall i :: 0 <= i <= |Init(events)| ==> Init(events)[..i] == events[..i];
  }

  /** A worker asks for a retry only while the attempt number its own claim returned is below the
   *  limit. That number is the balance right after the claim.
   */
  ghost predicate RetriesBelow(events: seq<Event>, maxAttempts: nat) {
    forall i: nat, c: nat :: i < |events| && events[i].effect.Retried? && Owns(events, c, i) ==>
      Balance(events[..c + 1]) < maxAttempts
  }

  lemma RetriesBelowInit(events: seq<Event>, maxAttempts: nat)
    requires RetriesBelow(events, maxAttempts) && events != []
    ensures RetriesBelow(Init(events), maxAttempts)
  {
    var init := Init(events);
    forall i: nat, c: nat | i < |init| && init[i].effect.Retried? && Owns(init, c, i)
      ensures Balance(init[..c + 1]) < maxAttempts
    {
      assert init[..c + 1] == events[..c + 1];
      assert forall k :: 0 <= k < |init| ==> init[k] == events[k];
      assert Owns(events, c, i);
    }
  }

  lemma {:induction false} RetriesAreBounded(events: seq<Event>, maxAttempts: nat)
    requires FenceHolds(events) && RetriesBelow(events, maxAttempts)
    ensures Count(events, Retried) <= if maxAttempts == 0 then 0 else maxAttempts - 1
  {
    if events != [] {
      var init, n := Init(events), |events| - 1;
      FenceInit(events);
      RetriesBelowInit(events, maxAttempts);
      RetriesAreBounded(init, maxAttempts);
      if Last(events).effect.Retried? {
        assert events[..n] == init && Owner(init).Some?;
        OwnerOwns(init);
        BalanceCoversRetries(init);
        var c := Owner(init).value;
        assert init[..c + 1] == events[..c + 1];
        assert forall k :: 0 <= k < n ==> init[k] == events[k];
        assert Owns(events, c, n);
      }
    }
  }
}
