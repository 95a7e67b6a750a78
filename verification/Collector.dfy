/** Collecting one real handler batch: supplemental claims under the remaining message and byte limits,
 *  the checks on what the repository returned, and the release of what does not fit.
 */
module Collector {
  import opened Jobs
  import opened BoundedClaims
  import opened LeaseSpec
  import opened LeaseLedger

  const DEFAULT_SCHEMA_VERSION := 1

  function Normalized(capability: Capability): Capability {
    if capability.version <= 0 then capability.(version := DEFAULT_SCHEMA_VERSION) else capability
  }

  /** What the service accepts from a claim; `nows[i]` is the clock reading for row `i`. */
  ghost predicate ClaimAcceptable(jobs: seq<Job>, capability: Capability, token: LeaseToken, limit: int,
                                  nows: seq<Time>)
    requires |nows| == |jobs|
  {
    && 1 <= |jobs| <= limit
    && Distinct(Ids(jobs))
    && forall i :: 0 <= i < |jobs| ==>
         Normalized(jobs[i].capability) == capability && LeaseLive(jobs[i], token, nows[i])
  }

  /** The validator accepts exactly the acceptable claims. */
  method ValidateClaimedBatch(jobs: seq<Job>, capability: Capability, token: LeaseToken, limit: int, nows: seq<Time>)
    returns (ok: bool)
    requires |nows| == |jobs|
    ensures ok <==> ClaimAcceptable(jobs, capability, token, limit, nows)
  {
    if |jobs| == 0 || |jobs| > limit {
      return false;
    }
    var seen: set<JobId> := {};
    for i := 0 to |jobs|
      invariant seen == ToSet(Ids(jobs)[..i])
      invariant NoDuplicates(Ids(jobs)[..i])
      invariant forall k :: 0 <= k < i ==>
                  Normalized(jobs[k].capability) == capability && LeaseLive(jobs[k], token, nows[k])
    {
      assert Ids(jobs)[..i + 1] == Ids(jobs)[..i] + [jobs[i].id];
      if Normalized(jobs[i].capability) != capability || !LeaseLive(jobs[i], token, nows[i]) {
        return false;
      }
      if jobs[i].id in seen {
        var k :| 0 <= k < i && Ids(jobs)[..i][k] == jobs[i].id;
        assert Ids(jobs)[k] == Ids(jobs)[i];
        DistinctIffFull(Ids(jobs));
        return false;
      }
      seen := seen + {jobs[i].id};
    }
    assert Ids(jobs)[..|jobs|] == Ids(jobs);
    DistinctIffFull(Ids(jobs));
    return true;
  }

  /** How many leading rows fit into the bytes that are left. */
  function Fitting(jobs: seq<Job>, maxBytes: int, used: nat): (n: nat)
    ensures n <= |jobs|
  {
    if jobs == [] || used + |jobs[0].payload| > maxBytes then 0
    else 1 + Fitting(jobs[1..], maxBytes, used + |jobs[0].payload|)
  }

  /** The rows that fit do fit, and the next one does not. */
  lemma {:induction false} FittingFits(jobs: seq<Job>, maxBytes: int, used: nat)
    ensures var n := Fitting(jobs, maxBytes, used);
      && (n == 0 || used + PayloadBytes(jobs[..n]) <= maxBytes)
      && (n < |jobs| ==> used + PayloadBytes(jobs[..n]) + |jobs[n].payload| > maxBytes)
  {
    if jobs != [] && used + |jobs[0].payload| <= maxBytes {
      var rest, more := jobs[1..], used + |jobs[0].payload|;
      FittingFits(rest, maxBytes, more);
      var n := Fitting(rest, maxBytes, more);
      assert jobs[..n + 1] == [jobs[0]] + rest[..n];
      BytesConcat([jobs[0]], rest[..n]);
      assert [jobs[0]][..0] == [];
    }
  }

  /** Splits a claim at the first row that no longer fits. */
  method SelectPayloadLimit(jobs: seq<Job>, maxBytes: int, used: nat) returns (selected: seq<Job>, tail: seq<Job>)
    ensures selected == jobs[..Fitting(jobs, maxBytes, used)] && tail == jobs[Fitting(jobs, maxBytes, used)..]
  {
    selected := [];
    var total := used;
    for i := 0 to |jobs|
      invariant selected == jobs[..i] && total >= 0
      invariant Fitting(jobs, maxBytes, used) == i + Fitting(jobs[i..], maxBytes, total)
    {
      assert jobs[i..][1..] == jobs[i + 1..];
      if total + |jobs[i].payload| > maxBytes {
        return selected, jobs[i..];
      }
      selected := selected + [jobs[i]];
      total := total + |jobs[i].payload|;
    }
    return selected, [];
  }

  datatype Wait = TimerFired | WindowClosed | Cancelled | Draining

  /** What one attempt to fill the batch met. */
  datatype Answer =
    | FillDeadline
    | NothingReady(wait: Wait)
    | ClaimFailed
    | Rows(jobs: seq<Job>, checked: seq<Time>, added: seq<Time>, releaseFails: bool, released: nat)

  predicate WellClocked(answer: Answer) {
    answer.Rows? ==>
      && |answer.checked| == |answer.jobs| && |answer.added| == |answer.jobs|
      && forall i :: 0 <= i < |answer.added| ==> answer.added[i] > ZERO_TIME
  }

  /** One accepted claim: the rows kept for the batch and the rows handed back. */
  datatype Split = Split(claimed: seq<Job>, selected: seq<Job>, tail: seq<Job>)

  function Selected(splits: seq<Split>): seq<Job> {
    if splits == [] then [] else Selected(splits[..|splits| - 1]) + splits[|splits| - 1].selected
  }

  datatype Config = Config(maxMessages: nat, maxBytes: nat, bounded: bool)

  /** The ledger owns exactly the collected rows, each of them once. */
  ghost predicate Owns(ledger: Ledger, jobs: seq<Job>)
    reads ledger
  {
    && ledger.Valid() && ledger.ordered == Ids(jobs)
    && ledger.outstanding.Keys == ToSet(Ids(jobs)) && Distinct(Ids(jobs))
  }

  /** And tracks each of them with the deadline of its claim, under the smallest of these as bound. */
  ghost predicate Tracks(ledger: Ledger, jobs: seq<Job>)
    reads ledger
  {
    ledger.Valid() && ledger.State() == BookOf(jobs) && Distinct(Ids(jobs))
  }

  lemma TrackingIsOwning(ledger: Ledger, jobs: seq<Job>)
    requires Tracks(ledger, jobs)
    ensures Owns(ledger, jobs)
  {
    TrackAllIs(map[], jobs);
  }

  /** Both limits hold; only the initial claim may be over the byte limit. */
  ghost predicate WithinLimits(config: Config, initial: seq<Job>, jobs: seq<Job>) {
    && initial <= jobs && |jobs| <= config.maxMessages
    && (jobs == initial || PayloadBytes(jobs) <= config.maxBytes)
  }

  lemma IdsConcat(a: seq<Job>, b: seq<Job>)
    ensures Ids(a + b) == Ids(a) + Ids(b)
  {
  }

  lemma DisjointParts(a: seq<JobId>, b: seq<JobId>)
    requires Distinct(a) && Distinct(b) && ToSet(a) !! ToSet(b)
    ensures Distinct(a + b) && ToSet(a + b) == ToSet(a) + ToSet(b)
  {
    assert ToSet(a + b) == ToSet(a) + ToSet(b);
  }

  lemma NewIds(before: Deadlines, token: LeaseToken, more: seq<Job>, nows: seq<Time>)
    requires |nows| == |more| && Addable(before, more, token, nows) == |more|
    ensures Distinct(Ids(more)) && before.Keys !! ToSet(Ids(more))
  {
    AddableDistinct(before, more, token, nows);
    DistinctIffFull(Ids(more));
  }

  /** Rows that join a tracked batch leave the ledger of the longer batch. */
  lemma AddedRows(token: LeaseToken, jobs: seq<Job>, more: seq<Job>, nows: seq<Time>)
    requires |nows| == |more| && Addable(TrackAll(map[], jobs), more, token, nows) == |more| && Distinct(Ids(jobs))
    ensures var book := BookOf(jobs);
      BookOf(jobs + more)
      == Book(book.ordered + Ids(more), TrackAll(book.outstanding, more), TrackedBound(book.bound, more))
    ensures Distinct(Ids(jobs + more))
  {
    IdsConcat(jobs, more);
    TrackConcat(map[], ZERO_TIME, jobs, more);
    TrackAllIs(map[], jobs);
    NewIds(TrackAll(map[], jobs), token, more, nows);
    DisjointParts(Ids(jobs), Ids(more));
  }

  lemma {:induction false} AddableDistinct(base: Deadlines, jobs: seq<Job>, token: LeaseToken, nows: seq<Time>)
    requires |nows| == |jobs| && Addable(base, jobs, token, nows) == |jobs|
    ensures NoDuplicates(Ids(jobs)) && forall id :: id in Ids(jobs) ==> id !in base
  {
    if jobs != [] {
      var last := |jobs| - 1;
      AddableDistinct(base, jobs[..last], token, nows[..last]);
      TrackAllIs(base, jobs[..last]);
      assert Ids(jobs) == Ids(jobs[..last]) + [jobs[last].id];
    }
  }

  /** How an accepted claim is split. */
  function SplitOf(jobs: seq<Job>, maxBytes: int, used: nat): Split {
    var n := Fitting(jobs, maxBytes, used);
    Split(jobs, jobs[..n], jobs[n..])
  }

  function ClaimLimit(config: Config, held: nat): int {
    if config.bounded then config.maxMessages - held else 1
  }

  /** The service accepts a supplemental claim, given what is left of both limits. */
  ghost predicate Admissible(config: Config, held: nat, used: nat, capability: Capability, token: LeaseToken,
                             answer: Answer)
    requires answer.Rows? && WellClocked(answer)
  {
    && ClaimAcceptable(answer.jobs, capability, token, ClaimLimit(config, held), answer.checked)
    && (config.bounded ==> PayloadAdmissible(answer.jobs, config.maxBytes - used))
  }

  /** The check on a supplemental claim. */
  method Acceptable(config: Config, held: nat, used: nat, capability: Capability, token: LeaseToken, answer: Answer)
    returns (ok: bool)
    requires answer.Rows? && WellClocked(answer)
    ensures ok <==> Admissible(config, held, used, capability, token, answer)
  {
    ok := ValidateClaimedBatch(answer.jobs, capability, token, ClaimLimit(config, held), answer.checked);
    if ok && config.bounded {
      ok := ValidateBoundedPayload(answer.jobs, config.maxBytes - used);
    }
  }

  /** The rows can join a ledger that owns `ids`: still leased, and none of them owned already. */
  ghost predicate Joins(ids: set<JobId>, rows: seq<Job>, token: LeaseToken, nows: seq<Time>) {
    && |rows| <= |nows|
    && forall i :: 0 <= i < |rows| ==> LeaseLive(rows[i], token, nows[i]) && rows[i].id !in ids
  }

  /** How many leading rows can join a ledger that owns `ids`. */
  ghost function Joinable(ids: set<JobId>, rows: seq<Job>, token: LeaseToken, nows: seq<Time>): (n: nat)
    requires |rows| <= |nows|
    ensures n <= |rows| && Joins(ids, rows[..n], token, nows)
    ensures n < |rows| ==> !LeaseLive(rows[n], token, nows[n]) || rows[n].id in ids
  {
    if rows == [] then 0
    else
      var last := |rows| - 1;
      var n := Joinable(ids, rows[..last], token, nows);
      if n == last && LeaseLive(rows[last], token, nows[last]) && rows[last].id !in ids then n + 1 else n
  }

  lemma JoinableIffJoins(ids: set<JobId>, rows: seq<Job>, token: LeaseToken, nows: seq<Time>)
    requires |rows| <= |nows|
    ensures Joinable(ids, rows, token, nows) == |rows| <==> Joins(ids, rows, token, nows)
  {
    assert rows[..|rows|] == rows;
  }

  /** For distinct rows the ledger takes exactly those. */
  lemma {:induction false} AddableIsJoinable(base: Deadlines, rows: seq<Job>, token: LeaseToken, nows: seq<Time>)
    requires |rows| <= |nows| && NoDuplicates(Ids(rows))
    ensures Addable(base, rows, token, nows[..|rows|]) == Joinable(base.Keys, rows, token, nows)
  {
    if rows != [] {
      var last := |rows| - 1;
      LastIsNew(base, rows);
      AddableIsJoinable(base, rows[..last], token, nows);
      assert nows[..|rows|][..last] == nows[..last];
    }
  }

  /** Behind distinct rows, the last one is tracked already only if it was tracked before. */
  lemma LastIsNew(base: Deadlines, rows: seq<Job>)
    requires rows != [] && NoDuplicates(Ids(rows))
    ensures var last := |rows| - 1;
      && NoDuplicates(Ids(rows[..last]))
      && (rows[last].id in TrackAll(base, rows[..last]) <==> rows[last].id in base)
  {
    var last := |rows| - 1;
    assert Ids(rows) == Ids(rows[..last]) + [rows[last].id];
    TrackAllIs(base, rows[..last]);
    assert rows[last].id !in Ids(rows[..last]);
  }

  datatype Taking = Taken | Rejected | TailNotReleased

  predicate TailReleased(tail: seq<Job>, answer: Answer)
    requires answer.Rows?
  {
    tail == [] || (!answer.releaseFails && answer.released == |tail|)
  }

  /** What becomes of a supplemental claim: rejected exactly when it is not admissible or its selection cannot join. */
  ghost function Judge(config: Config, capability: Capability, token: LeaseToken, jobs: seq<Job>, used: nat,
                       answer: Answer): Taking
    requires answer.Rows? && WellClocked(answer)
  {
    var split := SplitOf(answer.jobs, config.maxBytes, used);
    if !Admissible(config, |jobs|, used, capability, token, answer)
       || !Joins(ToSet(Ids(jobs)), split.selected, token, answer.added) then Rejected
    else if TailReleased(split.tail, answer) then Taken
    else TailNotReleased
  }

  lemma DistinctPrefix(jobs: seq<Job>, n: nat)
    requires n <= |jobs| && Distinct(Ids(jobs))
    ensures NoDuplicates(Ids(jobs[..n]))
  {
    DistinctIffFull(Ids(jobs));
    assert Ids(jobs[..n]) == Ids(jobs)[..n];
  }

  /** The rows a ledger tracks after a claim: those it tracked, and the leading rows of the selection that join,
   *  provided that the claim is admissible at all.
   */
  ghost function HeldAfterClaim(config: Config, capability: Capability, token: LeaseToken, jobs: seq<Job>, used: nat,
                                answer: Answer): seq<Job>
    requires answer.Rows? && WellClocked(answer)
  {
    if !Admissible(config, |jobs|, used, capability, token, answer) then jobs
    else
      var selected := SplitOf(answer.jobs, config.maxBytes, used).selected;
      jobs + selected[..Joinable(ToSet(Ids(jobs)), selected, token, answer.added)]
  }

  lemma TakenIsHeld(config: Config, capability: Capability, token: LeaseToken, jobs: seq<Job>, used: nat,
                    answer: Answer)
    requires answer.Rows? && WellClocked(answer)
    requires !Judge(config, capability, token, jobs, used, answer).Rejected?
    ensures HeldAfterClaim(config, capability, token, jobs, used, answer)
         == jobs + SplitOf(answer.jobs, config.maxBytes, used).selected
  {
    var selected := SplitOf(answer.jobs, config.maxBytes, used).selected;
    JoinableIffJoins(ToSet(Ids(jobs)), selected, token, answer.added);
    assert selected[..|selected|] == selected;
  }

  /** One supplemental claim: it splits exactly into rows added to the ledger and a tail to release. */
  method TakeRows(ledger: Ledger, config: Config, capability: Capability, jobs: seq<Job>, used: nat, answer: Answer)
    returns (taking: Taking, split: Split, ghost held: seq<Job>)
    requires answer.Rows? && WellClocked(answer) && Tracks(ledger, jobs)
    modifies ledger`ordered, ledger`outstanding, ledger`earliestUntil
    ensures taking == Judge(config, capability, ledger.token, jobs, used, answer)
    ensures !taking.Rejected? ==> split == SplitOf(answer.jobs, config.maxBytes, used)
    ensures Tracks(ledger, held) && held == HeldAfterClaim(config, capability, ledger.token, jobs, used, answer)
  {
    split := Split(answer.jobs, [], []);
    var acceptable := Acceptable(config, |jobs|, used, capability, ledger.token, answer);
    held := jobs;
    if !acceptable {
      return Rejected, split, jobs;
    }
    var selected, tail := SelectPayloadLimit(answer.jobs, config.maxBytes, used);
    split := Split(answer.jobs, selected, tail);
    var added;
    added, held := AddSelected(ledger, jobs, answer, selected);
    if !added {
      return Rejected, split, held;
    }
    taking := if tail == [] || (!answer.releaseFails && answer.released == |tail|) then Taken else TailNotReleased;
  }

  /** The selected rows join the ledger up to the first that cannot. */
  method AddSelected(ledger: Ledger, ghost jobs: seq<Job>, answer: Answer, selected: seq<Job>)
    returns (added: bool, ghost held: seq<Job>)
    requires answer.Rows? && WellClocked(answer) && Tracks(ledger, jobs)
    requires Distinct(Ids(answer.jobs)) && |selected| <= |answer.jobs| && selected == answer.jobs[..|selected|]
    modifies ledger`ordered, ledger`outstanding, ledger`earliestUntil
    ensures added <==> Joins(ToSet(Ids(jobs)), selected, ledger.token, answer.added)
    ensures Tracks(ledger, held)
    ensures held == jobs + selected[..Joinable(ToSet(Ids(jobs)), selected, ledger.token, answer.added)]
  {
    var nows := answer.added[..|selected|];
    ghost var n := Joinable(ToSet(Ids(jobs)), selected, ledger.token, answer.added);
    JoiningRows(ledger.token, jobs, answer, selected);
    held := jobs + selected[..n];
    added := ledger.Add(selected, nows);
  }

  /** What joins, and the ledger afterwards. */
  lemma JoiningRows(token: LeaseToken, jobs: seq<Job>, answer: Answer, selected: seq<Job>)
    requires answer.Rows? && WellClocked(answer) && Distinct(Ids(jobs))
    requires Distinct(Ids(answer.jobs)) && |selected| <= |answer.jobs| && selected == answer.jobs[..|selected|]
    ensures var book, n := BookOf(jobs), Joinable(ToSet(Ids(jobs)), selected, token, answer.added);
      && n == Addable(book.outstanding, selected, token, answer.added[..|selected|])
      && (n == |selected| <==> Joins(ToSet(Ids(jobs)), selected, token, answer.added))
      && Distinct(Ids(jobs + selected[..n]))
      && BookOf(jobs + selected[..n])
      == Book(book.ordered + Ids(selected[..n]), TrackAll(book.outstanding, selected[..n]),
              TrackedBound(book.bound, selected[..n]))
  {
    var base, nows := TrackAll(map[], jobs), answer.added[..|selected|];
    var n := Joinable(ToSet(Ids(jobs)), selected, token, answer.added);
    TrackAllIs(map[], jobs);
    DistinctPrefix(answer.jobs, |selected|);
    AddableIsJoinable(base, selected, token, answer.added);
    JoinableIffJoins(ToSet(Ids(jobs)), selected, token, answer.added);
    AddablePrefix(base, selected, token, nows, n);
    AddedRows(token, jobs, selected[..n], nows[..n]);
  }

  /** The rows that join can join on their own. */
  lemma {:induction false} AddablePrefix(base: Deadlines, rows: seq<Job>, token: LeaseToken, nows: seq<Time>, n: nat)
    requires |nows| == |rows| && n == Addable(base, rows, token, nows)
    ensures Addable(base, rows[..n], token, nows[..n]) == n
  {
    if n == |rows| {
      assert rows[..n] == rows && nows[..n] == nows;
    } else {
      var last := |rows| - 1;
      AddablePrefix(base, rows[..last], token, nows[..last], n);
      assert rows[..last][..n] == rows[..n] && nows[..last][..n] == nows[..n];
    }
  }

  /** Every split is exact, and only the last one can have a tail. */
  ghost predicate SplitsExact(splits: seq<Split>) {
    && (forall i :: 0 <= i < |splits| ==> splits[i].claimed == splits[i].selected + splits[i].tail)
    && forall i :: 0 <= i < |splits| - 1 ==> splits[i].tail == []
  }

  predicate NoTails(splits: seq<Split>) {
    forall i :: 0 <= i < |splits| ==> splits[i].tail == []
  }

  /** What the loop keeps: the batch is the initial claim plus the selections so far, and the byte count
   *  is exact.
   */
  ghost predicate Progress(config: Config, initial: seq<Job>, batch: Batch) {
    && WithinLimits(config, initial, batch.jobs) && batch.used == PayloadBytes(batch.jobs)
    && batch.jobs == initial + Selected(batch.splits) && SplitsExact(batch.splits)
  }

  datatype Batch = Batch(jobs: seq<Job>, used: nat, splits: seq<Split>)

  datatype Next = Again | Finished | Failed

  lemma SplitsGrow(config: Config, initial: seq<Job>, batch: Batch, split: Split)
    requires Progress(config, initial, batch)
    requires NoTails(batch.splits)
    requires split.claimed == split.selected + split.tail
    requires |batch.jobs + split.selected| <= config.maxMessages
    requires PayloadBytes(batch.jobs + split.selected) <= config.maxBytes
    ensures Progress(config, initial, Batch(batch.jobs + split.selected, batch.used + PayloadBytes(split.selected),
                                            batch.splits + [split]))
  {
    BytesConcat(batch.jobs, split.selected);
    assert (batch.splits + [split])[..|batch.splits|] == batch.splits;
    assert initial + Selected(batch.splits) + split.selected == initial + (Selected(batch.splits) + split.selected);
  }

  /** The batch after an accepted claim. */
  function Grown(batch: Batch, split: Split): Batch {
    Batch(batch.jobs + split.selected, batch.used + PayloadBytes(split.selected), batch.splits + [split])
  }

  /** The batch after one answer, and whether to ask again. */
  datatype Stage = Stage(next: Next, batch: Batch)

  /** An accepted claim appends its own split to the batch; every other answer leaves the batch as it is. */
  ghost function NextStage(config: Config, capability: Capability, token: LeaseToken, batch: Batch,
                           answer: Answer): Stage
    requires WellClocked(answer)
  {
    match answer
    case FillDeadline => Stage(Finished, batch)
    case ClaimFailed => Stage(Failed, batch)
    case NothingReady(wait) =>
      Stage(if wait.WindowClosed? then Finished else if wait.TimerFired? then Again else Failed, batch)
    case Rows(jobs, _, _, _, _) =>
      ClaimStage(batch, Judge(config, capability, token, batch.jobs, batch.used, answer),
                 SplitOf(jobs, config.maxBytes, batch.used))
  }

  function ClaimStage(batch: Batch, taking: Taking, split: Split): Stage {
    if taking.Rejected? then Stage(Failed, batch)
    else
      Stage(if taking.TailNotReleased? then Failed else if split.tail != [] then Finished else Again,
            Grown(batch, split))
  }

  /** Each answer keeps the limits, the byte count and the shape of the batch. */
  lemma StageKeepsProgress(config: Config, capability: Capability, token: LeaseToken, initial: seq<Job>, batch: Batch,
                           answer: Answer)
    requires Progress(config, initial, batch) && NoTails(batch.splits) && !Full(config, batch) && WellClocked(answer)
    ensures var stage := NextStage(config, capability, token, batch, answer);
      Progress(config, initial, stage.batch) && (stage.next.Again? ==> NoTails(stage.batch.splits))
  {
    if answer.Rows? {
      AcceptedFits(config, capability, token, batch, answer);
      if !Judge(config, capability, token, batch.jobs, batch.used, answer).Rejected? {
        ClaimKeepsProgress(config, initial, batch, answer.jobs);
      }
    }
  }

  lemma AcceptedFits(config: Config, capability: Capability, token: LeaseToken, batch: Batch, answer: Answer)
    requires answer.Rows? && WellClocked(answer) && |batch.jobs| < config.maxMessages
    ensures !Judge(config, capability, token, batch.jobs, batch.used, answer).Rejected? ==>
              |batch.jobs| + |answer.jobs| <= config.maxMessages
  {
  }

  lemma ClaimKeepsProgress(config: Config, initial: seq<Job>, batch: Batch, claimed: seq<Job>)
    requires Progress(config, initial, batch) && NoTails(batch.splits) && !Full(config, batch)
    requires |batch.jobs| + |claimed| <= config.maxMessages
    ensures var split := SplitOf(claimed, config.maxBytes, batch.used);
      Progress(config, initial, Grown(batch, split)) && (split.tail == [] ==> NoTails(Grown(batch, split).splits))
  {
    var split := SplitOf(claimed, config.maxBytes, batch.used);
    FittingFits(claimed, config.maxBytes, batch.used);
    BytesConcat(batch.jobs, split.selected);
    assert claimed == split.selected + split.tail;
    SplitsGrow(config, initial, batch, split);
  }

  /** The rows the ledger tracks after one answer. */
  ghost function HeldOnce(config: Config, capability: Capability, token: LeaseToken, batch: Batch,
                          answer: Answer): seq<Job>
    requires WellClocked(answer)
  {
    if answer.Rows? then HeldAfterClaim(config, capability, token, batch.jobs, batch.used, answer) else batch.jobs
  }

  /** One turn of the loop. */
  method FillOnce(ledger: Ledger, config: Config, capability: Capability, batch: Batch, answer: Answer)
    returns (next: Next, after: Batch, ghost held: seq<Job>)
    requires Tracks(ledger, batch.jobs) && WellClocked(answer)
    modifies ledger`ordered, ledger`outstanding, ledger`earliestUntil
    ensures Stage(next, after) == NextStage(config, capability, ledger.token, batch, answer)
    ensures Tracks(ledger, held) && held == HeldOnce(config, capability, ledger.token, batch, answer)
    ensures !next.Failed? ==> held == after.jobs
  {
    match answer {
      case FillDeadline => return Finished, batch, batch.jobs;
      case ClaimFailed => return Failed, batch, batch.jobs;
      case NothingReady(wait) =>
        return if wait.WindowClosed? then Finished else if wait.TimerFired? then Again else Failed, batch, batch.jobs;
      case Rows(_, _, _, _, _) =>
        next, after, held := FillFromClaim(ledger, config, capability, batch, answer);
    }
  }

  /** A turn in which the repository returned rows. */
  method FillFromClaim(ledger: Ledger, config: Config, capability: Capability, batch: Batch, answer: Answer)
    returns (next: Next, after: Batch, ghost held: seq<Job>)
    requires Tracks(ledger, batch.jobs) && answer.Rows? && WellClocked(answer)
    modifies ledger`ordered, ledger`outstanding, ledger`earliestUntil
    ensures Stage(next, after) == NextStage(config, capability, ledger.token, batch, answer)
    ensures Tracks(ledger, held) && held == HeldOnce(config, capability, ledger.token, batch, answer)
    ensures !next.Failed? ==> held == after.jobs
  {
    var taking, split;
    taking, split, held := TakeRows(ledger, config, capability, batch.jobs, batch.used, answer);
    if taking.Rejected? {
      return Failed, batch, held;
    }
    TakenIsHeld(config, capability, ledger.token, batch.jobs, batch.used, answer);
    after := Grow(batch, split);
    next := if taking.TailNotReleased? then Failed else if split.tail != [] then Finished else Again;
  }

  method Grow(batch: Batch, split: Split) returns (after: Batch)
    ensures after == Grown(batch, split) && after.jobs == batch.jobs + split.selected
  {
    var added := TotalBytes(split.selected);
    after := Batch(batch.jobs + split.selected, batch.used + added, batch.splits + [split]);
  }

  predicate Full(config: Config, batch: Batch) {
    |batch.jobs| >= config.maxMessages || batch.used >= config.maxBytes
  }

  ghost function BatchAfter(start: Batch, trail: seq<Stage>): Batch {
    if trail == [] then start else trail[|trail| - 1].batch
  }

  /** The rows the ledger tracks once the loop has ended. */
  ghost function HeldAfter(config: Config, capability: Capability, token: LeaseToken, start: Batch,
                           answers: seq<Answer>, trail: seq<Stage>): seq<Job>
    requires trail != [] ==> |trail| <= |answers| && WellClocked(answers[|trail| - 1])
  {
    if trail == [] then start.jobs
    else
      var last := |trail| - 1;
      HeldOnce(config, capability, token, BatchAfter(start, trail[..last]), answers[last])
  }

  /** Answer `i` was asked for because the batch was not full, and led to stage `i`. */
  ghost predicate Led(config: Config, capability: Capability, token: LeaseToken, start: Batch, answers: seq<Answer>,
                      trail: seq<Stage>, i: nat)
  {
    && i < |trail| <= |answers| && WellClocked(answers[i])
    && !Full(config, BatchAfter(start, trail[..i]))
    && trail[i] == NextStage(config, capability, token, BatchAfter(start, trail[..i]), answers[i])
  }

  /** How the loop consumed the answers: one stage each, all but the last asking again, until the batch was full, the
   *  last answer ended it, or the answers ran out.
   */
  ghost predicate Consumed(config: Config, capability: Capability, token: LeaseToken, start: Batch,
                           answers: seq<Answer>, trail: seq<Stage>)
  {
    && |trail| <= |answers|
    && (forall i :: 0 <= i < |trail| ==> Led(config, capability, token, start, answers, trail, i))
    && (forall i :: 0 <= i < |trail| - 1 ==> trail[i].next.Again?)
    && (|| |trail| == |answers|
        || Full(config, BatchAfter(start, trail))
        || (trail != [] && !trail[|trail| - 1].next.Again?))
  }

  /** The row asks for the capability, an unset version standing for the first, and is reserved with the token. */
  predicate RowFits(job: Job, capability: Capability, token: LeaseToken) {
    && job.capability.name == capability.name && job.token == token && job.reservedAt.Some?
    && (job.capability.version == capability.version || (job.capability.version <= 0 && capability.version == 1))
  }

  lemma AcceptedRowsFit(jobs: seq<Job>, capability: Capability, token: LeaseToken, limit: int, nows: seq<Time>)
    requires |nows| == |jobs| && ClaimAcceptable(jobs, capability, token, limit, nows)
    ensures forall job :: job in jobs ==> RowFits(job, capability, token)
  {
  }

  /** Every row that joins the batch fits it. */
  lemma {:induction false} BatchRowsFit(config: Config, capability: Capability, token: LeaseToken, start: Batch,
                                        answers: seq<Answer>, trail: seq<Stage>, n: nat, job: Job)
    requires Consumed(config, capability, token, start, answers, trail) && n <= |trail|
    requires job in BatchAfter(start, trail[..n]).jobs
    ensures job in start.jobs || RowFits(job, capability, token)
  {
    if n > 0 {
      var before, answer := BatchAfter(start, trail[..n - 1]), answers[n - 1];
      assert Led(config, capability, token, start, answers, trail, n - 1);
      assert BatchAfter(start, trail[..n]) == trail[n - 1].batch;
      if job in before.jobs {
        BatchRowsFit(config, capability, token, start, answers, trail, n - 1, job);
      } else {
        AcceptedRowsFit(answer.jobs, capability, token, ClaimLimit(config, |before.jobs|), answer.checked);
      }
    }
  }

  /** A failed claim, a cancellation or a drain ends the collection as a failure, with the batch and the ledger as they
   *  were; the end of the fill window ends it well; and only an elapsed pause asks again.
   */
  lemma StopsEndCollecting(config: Config, capability: Capability, token: LeaseToken, start: Batch,
                           answers: seq<Answer>, trail: seq<Stage>, i: nat)
    requires Consumed(config, capability, token, start, answers, trail) && i < |trail| && !answers[i].Rows?
    ensures var stops := answers[i] in {ClaimFailed, NothingReady(Cancelled), NothingReady(Draining)};
      var ends := answers[i] in {FillDeadline, NothingReady(WindowClosed)};
      && (trail[i].next.Failed? <==> stops) && (trail[i].next.Finished? <==> ends)
      && (stops || ends ==> i == |trail| - 1)
      && trail[i].batch == BatchAfter(start, trail[..i])
      && HeldOnce(config, capability, token, BatchAfter(start, trail[..i]), answers[i]) == trail[i].batch.jobs
  {
    assert Led(config, capability, token, start, answers, trail, i);
  }

  /** The answers fix how the loop goes. */
  lemma {:induction false} TrailPrefix(config: Config, capability: Capability, token: LeaseToken, start: Batch,
                                       answers: seq<Answer>, a: seq<Stage>, b: seq<Stage>, n: nat)
    requires Consumed(config, capability, token, start, answers, a) && n <= |a| && n <= |b|
    requires Consumed(config, capability, token, start, answers, b)
    ensures a[..n] == b[..n]
  {
    if n > 0 {
      TrailPrefix(config, capability, token, start, answers, a, b, n - 1);
      assert Led(config, capability, token, start, answers, a, n - 1);
      assert Led(config, capability, token, start, answers, b, n - 1);
      assert a[..n] == a[..n - 1] + [a[n - 1]] && b[..n] == b[..n - 1] + [b[n - 1]];
    }
  }

  lemma NoLongerTrail(config: Config, capability: Capability, token: LeaseToken, start: Batch, answers: seq<Answer>,
                      a: seq<Stage>, b: seq<Stage>)
    requires Consumed(config, capability, token, start, answers, a)
    requires Consumed(config, capability, token, start, answers, b)
    ensures |b| <= |a|
  {
    TrailPrefix(config, capability, token, start, answers, a, b, if |a| < |b| then |a| else |b|);
    assert a[..|a|] == a;
    assert |a| < |b| ==> b[..|a|] == a && Led(config, capability, token, start, answers, b, |a|);
  }

  lemma TrailIsUnique(config: Config, capability: Capability, token: LeaseToken, start: Batch, answers: seq<Answer>,
                      a: seq<Stage>, b: seq<Stage>)
    requires Consumed(config, capability, token, start, answers, a)
    requires Consumed(config, capability, token, start, answers, b)
    ensures a == b
  {
    NoLongerTrail(config, capability, token, start, answers, a, b);
    NoLongerTrail(config, capability, token, start, answers, b, a);
    TrailPrefix(config, capability, token, start, answers, a, b, |a|);
    assert a[..|a|] == a && b[..|b|] == b;
  }

  /** The claims among the answers, in order. */
  function Claims(answers: seq<Answer>): seq<seq<Job>> {
    if answers == [] then []
    else
      var last := answers[|answers| - 1];
      Claims(answers[..|answers| - 1]) + (if last.Rows? then [last.jobs] else [])
  }

  function Claimed(splits: seq<Split>): (claims: seq<seq<Job>>)
    ensures |claims| == |splits|
  {
    seq(|splits|, i requires 0 <= i < |splits| => splits[i].claimed)
  }

  /** How many of the consumed answers were accepted or empty: all of them, unless the last one was a claim that was
   *  rejected. */
  ghost function Kept(start: Batch, answers: seq<Answer>, trail: seq<Stage>): (n: nat)
    requires |trail| <= |answers|
    ensures n <= |answers|
  {
    var n := |trail|;
    if n > 0 && answers[n - 1].Rows? && trail[n - 1].batch == BatchAfter(start, trail[..n - 1]) then n - 1 else n
  }

  /** Conservation: the splits of the batch are, in order, the claims of the consumed answers. */
  lemma {:induction false} ClaimsAreKept(config: Config, capability: Capability, token: LeaseToken, start: Batch,
                                         answers: seq<Answer>, trail: seq<Stage>, n: nat)
    requires start.splits == [] && n <= |trail| <= |answers|
    requires forall i :: 0 <= i < |trail| ==> Led(config, capability, token, start, answers, trail, i)
    requires forall i :: 0 <= i < n ==> trail[i].next.Again?
    ensures Claimed(BatchAfter(start, trail[..n]).splits) == Claims(answers[..n])
  {
    if n > 0 {
      ClaimsAreKept(config, capability, token, start, answers, trail, n - 1);
      StageKeepsClaims(config, capability, token, start, answers, trail, n - 1);
    }
  }

  lemma StageKeepsClaims(config: Config, capability: Capability, token: LeaseToken, start: Batch, answers: seq<Answer>,
                         trail: seq<Stage>, i: nat)
    requires i < |trail| <= |answers| && Led(config, capability, token, start, answers, trail, i)
    requires Claimed(BatchAfter(start, trail[..i]).splits) == Claims(answers[..i])
    ensures Claimed(trail[i].batch.splits)
         == Claims(if answers[i].Rows? && trail[i].batch == BatchAfter(start, trail[..i]) then answers[..i]
                   else answers[..i + 1])
  {
    var before := BatchAfter(start, trail[..i]);
    assert answers[..i + 1][..i] == answers[..i];
    if answers[i].Rows? && trail[i].batch != before {
      var split := SplitOf(answers[i].jobs, config.maxBytes, before.used);
      assert trail[i].batch.splits == before.splits + [split];
      assert Claimed(before.splits + [split]) == Claimed(before.splits) + [split.claimed];
    }
  }

  lemma AllClaimsAreKept(config: Config, capability: Capability, token: LeaseToken, start: Batch, answers: seq<Answer>,
                         trail: seq<Stage>)
    requires start.splits == [] && Consumed(config, capability, token, start, answers, trail)
    ensures Claimed(BatchAfter(start, trail).splits) == Claims(answers[..Kept(start, answers, trail)])
  {
    var n := |trail|;
    assert trail[..n] == trail;
    if n > 0 {
      assert trail[..n][..n - 1] == trail[..n - 1];
      ClaimsAreKept(config, capability, token, start, answers, trail, n - 1);
      StageKeepsClaims(config, capability, token, start, answers, trail, n - 1);
    } else {
      assert answers[..0] == [];
    }
  }

  lemma {:induction false} AgainLeavesNoTails(config: Config, capability: Capability, token: LeaseToken, start: Batch,
                                              answers: seq<Answer>, trail: seq<Stage>, n: nat)
    requires start.splits == [] && n <= |trail| <= |answers|
    requires forall i :: 0 <= i < |trail| ==> Led(config, capability, token, start, answers, trail, i)
    requires forall i :: 0 <= i < n ==> trail[i].next.Again?
    ensures NoTails(BatchAfter(start, trail[..n]).splits)
  {
    if n > 0 {
      AgainLeavesNoTails(config, capability, token, start, answers, trail, n - 1);
      assert Led(config, capability, token, start, answers, trail, n - 1);
    }
  }

  /** The split is that of the answer, and its tail was confirmed released. */
  ghost predicate Released(split: Split, answer: Answer) {
    answer.Rows? && split.claimed == answer.jobs && !answer.releaseFails && answer.released == |split.tail|
  }

  /** Rows that were claimed and not kept have been confirmed released. */
  ghost predicate TailsReleased(answers: seq<Answer>, trail: seq<Stage>, batch: Batch) {
    forall i :: 0 <= i < |batch.splits| && batch.splits[i].tail != [] ==>
      0 < |trail| <= |answers| && Released(batch.splits[i], answers[|trail| - 1])
  }

  lemma StageReleases(config: Config, capability: Capability, token: LeaseToken, batch: Batch, answer: Answer)
    requires NoTails(batch.splits) && WellClocked(answer)
    ensures var stage := NextStage(config, capability, token, batch, answer);
      !stage.next.Failed? ==>
        forall i :: 0 <= i < |stage.batch.splits| && stage.batch.splits[i].tail != [] ==>
          Released(stage.batch.splits[i], answer)
  {
  }

  /** A batch that was collected without failure has had the tail of its last claim, the only one with a tail, confirmed
   *  released. */
  lemma LastTailIsReleased(config: Config, capability: Capability, token: LeaseToken, start: Batch,
                           answers: seq<Answer>, trail: seq<Stage>)
    requires start.splits == [] && Consumed(config, capability, token, start, answers, trail)
    requires trail != [] ==> !trail[|trail| - 1].next.Failed?
    ensures TailsReleased(answers, trail, BatchAfter(start, trail))
  {
    if trail != [] {
      var last := |trail| - 1;
      AgainLeavesNoTails(config, capability, token, start, answers, trail, last);
      assert Led(config, capability, token, start, answers, trail, last);
      StageReleases(config, capability, token, BatchAfter(start, trail[..last]), answers[last]);
    }
  }

  /** Fills the batch. Whatever the repository answers, both limits hold, unless the batch is one oversized initial job;
   *  the batch is the initial claim plus the selected part of each accepted claim; and the claims of the consumed
   *  answers are, in order, those splits. The ledger tracks the collected rows as they were claimed, and after a
   *  rejected claim also those of its leading rows that joined.
   */
  method Fill(ledger: Ledger, config: Config, capability: Capability, initial: seq<Job>, answers: seq<Answer>)
    returns (batch: Batch, ok: bool, ghost trail: seq<Stage>, ghost held: seq<Job>)
    requires Tracks(ledger, initial) && 1 <= |initial| <= config.maxMessages
    requires forall i :: 0 <= i < |answers| ==> WellClocked(answers[i])
    modifies ledger`ordered, ledger`outstanding, ledger`earliestUntil
    ensures Progress(config, initial, batch)
    ensures var start := Batch(initial, PayloadBytes(initial), []);
      && Consumed(config, capability, ledger.token, start, answers, trail) && batch == BatchAfter(start, trail)
      && Claimed(batch.splits) == Claims(answers[..Kept(start, answers, trail)])
      && held == HeldAfter(config, capability, ledger.token, start, answers, trail)
    ensures PayloadAdmissible(initial, config.maxBytes) ==>
              PayloadBytes(batch.jobs) <= config.maxBytes || (|batch.jobs| == 1 && batch.jobs == initial)
    ensures ok <==> trail == [] || !trail[|trail| - 1].next.Failed?
    ensures forall job :: job in batch.jobs ==> job in initial || RowFits(job, capability, ledger.token)
    ensures Tracks(ledger, held)
    ensures ok ==> held == batch.jobs && TailsReleased(answers, trail, batch)
  {
    var used := TotalBytes(initial);
    ghost var start := Batch(initial, used, []);
    batch, ok, trail, held := FillLoop(ledger, config, capability, Batch(initial, used, []), answers);
    ProgressHolds(config, capability, ledger.token, start, answers, trail, |trail|);
    assert trail[..|trail|] == trail;
    forall job | job in batch.jobs ensures job in initial || RowFits(job, capability, ledger.token) {
      BatchRowsFit(config, capability, ledger.token, start, answers, trail, |trail|, job);
    }
    AllClaimsAreKept(config, capability, ledger.token, start, answers, trail);
    if ok {
      LastTailIsReleased(config, capability, ledger.token, start, answers, trail);
    }
  }

  method FillLoop(ledger: Ledger, config: Config, capability: Capability, start: Batch, answers: seq<Answer>)
    returns (batch: Batch, ok: bool, ghost trail: seq<Stage>, ghost held: seq<Job>)
    requires Tracks(ledger, start.jobs) && forall i :: 0 <= i < |answers| ==> WellClocked(answers[i])
    modifies ledger`ordered, ledger`outstanding, ledger`earliestUntil
    ensures Consumed(config, capability, ledger.token, start, answers, trail) && batch == BatchAfter(start, trail)
    ensures ok <==> trail == [] || !trail[|trail| - 1].next.Failed?
    ensures Tracks(ledger, held) && held == HeldAfter(config, capability, ledger.token, start, answers, trail)
    ensures ok ==> held == batch.jobs
  {
    batch, trail, ok, held := start, [], true, start.jobs;
    for i := 0 to |answers|
      invariant ok && |trail| == i && batch == BatchAfter(start, trail) && held == batch.jobs && Tracks(ledger, held)
      invariant Collecting(config, capability, ledger.token, start, answers, trail)
      invariant held == HeldAfter(config, capability, ledger.token, start, answers, trail)
    {
      if |batch.jobs| >= config.maxMessages || batch.used >= config.maxBytes {
        break;
      }
      var next;
      next, batch, trail, held := FillAt(ledger, config, capability, start, batch, answers, i, trail);
      if !next.Again? {
        ok := next.Finished?;
        break;
      }
    }
  }

  /** The turn of answer `i`. */
  method FillAt(ledger: Ledger, config: Config, capability: Capability, ghost start: Batch, batch: Batch,
                answers: seq<Answer>, i: nat, ghost trail: seq<Stage>)
    returns (next: Next, after: Batch, ghost longer: seq<Stage>, ghost held: seq<Job>)
    requires Collecting(config, capability, ledger.token, start, answers, trail) && batch == BatchAfter(start, trail)
    requires i == |trail| < |answers| && WellClocked(answers[i]) && !Full(config, batch) && Tracks(ledger, batch.jobs)
    modifies ledger`ordered, ledger`outstanding, ledger`earliestUntil
    ensures |longer| == i + 1 && longer[i] == Stage(next, after)
    ensures next.Again? ==> Collecting(config, capability, ledger.token, start, answers, longer)
    ensures !next.Again? ==> Consumed(config, capability, ledger.token, start, answers, longer)
    ensures Tracks(ledger, held) && held == HeldAfter(config, capability, ledger.token, start, answers, longer)
    ensures !next.Failed? ==> held == after.jobs
  {
    StageFollows(config, capability, ledger.token, start, answers, trail);
    next, after, held := FillOnce(ledger, config, capability, batch, answers[i]);
    longer := trail + [Stage(next, after)];
    assert longer[..i] == trail;
  }

  /** The loop is under way: every answer so far asked for another. */
  ghost predicate Collecting(config: Config, capability: Capability, token: LeaseToken, start: Batch,
                             answers: seq<Answer>, trail: seq<Stage>)
  {
    && |trail| <= |answers|
    && (forall i :: 0 <= i < |trail| ==> Led(config, capability, token, start, answers, trail, i))
    && (forall i :: 0 <= i < |trail| ==> trail[i].next.Again?)
  }

  lemma StageFollows(config: Config, capability: Capability, token: LeaseToken, start: Batch, answers: seq<Answer>,
                     trail: seq<Stage>)
    requires Collecting(config, capability, token, start, answers, trail)
    requires |trail| < |answers| && WellClocked(answers[|trail|]) && !Full(config, BatchAfter(start, trail))
    ensures var stage := NextStage(config, capability, token, BatchAfter(start, trail), answers[|trail|]);
      if stage.next.Again? then Collecting(config, capability, token, start, answers, trail + [stage])
      else Consumed(config, capability, token, start, answers, trail + [stage])
  {
    var stage := NextStage(config, capability, token, BatchAfter(start, trail), answers[|trail|]);
    LedGrows(config, capability, token, start, answers, trail, stage);
    assert BatchAfter(start, trail + [stage]) == stage.batch;
  }

  lemma ProgressNext(config: Config, capability: Capability, token: LeaseToken, initial: seq<Job>, batch: Batch,
                     answer: Answer, stage: Stage)
    requires Progress(config, initial, batch) && NoTails(batch.splits) && !Full(config, batch) && WellClocked(answer)
    requires stage == NextStage(config, capability, token, batch, answer)
    ensures Progress(config, initial, stage.batch) && (stage.next.Again? ==> NoTails(stage.batch.splits))
  {
    StageKeepsProgress(config, capability, token, initial, batch, answer);
  }

  /** The limits, the byte count and the shape of the batch at every point of the loop. */
  lemma {:induction false} ProgressHolds(config: Config, capability: Capability, token: LeaseToken, start: Batch,
                                         answers: seq<Answer>, trail: seq<Stage>, n: nat)
    requires Consumed(config, capability, token, start, answers, trail) && n <= |trail|
    requires start == Batch(start.jobs, PayloadBytes(start.jobs), []) && |start.jobs| <= config.maxMessages
    ensures var batch := BatchAfter(start, trail[..n]);
      && Progress(config, start.jobs, batch)
      && (n == 0 || trail[n - 1].next.Again? ==> NoTails(batch.splits))
  {
    if n == 0 {
      StartIsProgress(config, start);
    } else {
      ProgressHolds(config, capability, token, start, answers, trail, n - 1);
      assert Led(config, capability, token, start, answers, trail, n - 1);
      ProgressNext(config, capability, token, start.jobs, BatchAfter(start, trail[..n - 1]), answers[n - 1],
                   trail[n - 1]);
      assert BatchAfter(start, trail[..n]) == trail[n - 1].batch;
    }
  }

  lemma StartIsProgress(config: Config, start: Batch)
    requires start == Batch(start.jobs, PayloadBytes(start.jobs), []) && |start.jobs| <= config.maxMessages
    ensures Progress(config, start.jobs, start) && NoTails(start.splits)
  {
    assert start.jobs + Selected([]) == start.jobs;
  }

  lemma LedGrows(config: Config, capability: Capability, token: LeaseToken, start: Batch, answers: seq<Answer>,
                 trail: seq<Stage>, stage: Stage)
    requires |trail| < |answers| && WellClocked(answers[|trail|]) && !Full(config, BatchAfter(start, trail))
    requires forall k :: 0 <= k < |trail| ==> Led(config, capability, token, start, answers, trail, k)
    requires stage == NextStage(config, capability, token, BatchAfter(start, trail), answers[|trail|])
    ensures forall k :: 0 <= k <= |trail| ==> Led(config, capability, token, start, answers, trail + [stage], k)
  {
    forall k | 0 <= k <= |trail| ensures Led(config, capability, token, start, answers, trail + [stage], k) {
      assert (trail + [stage])[..k] == trail[..k];
      if k < |trail| {
        assert Led(config, capability, token, start, answers, trail, k);
      } else {
        assert trail[..k] == trail;
      }
    }
  }

  method TotalBytes(jobs: seq<Job>) returns (bytes: nat)
    ensures bytes == PayloadBytes(jobs)
  {
    bytes := 0;
    for i := 0 to |jobs|
      invariant bytes == PayloadBytes(jobs[..i])
    {
      assert jobs[..i + 1][..i] == jobs[..i];
      bytes := bytes + |jobs[i].payload|;
    }
    assert jobs[..|jobs|] == jobs;
  }
}
