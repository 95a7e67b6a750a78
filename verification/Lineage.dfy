/** Chains of replays: a replayed job may fail and be replayed in turn. All jobs that descend from one original form its
 *  lineage.
 */
module Lineage {
  import opened Jobs
  import opened Encoding
  import opened Registry
  import opened Replay

  /** The call creates a replay. */
  ghost predicate Creates(w: World, call: Call, blank: string -> bool) {
    call.Ask? && var reply := Replay.Replay(w, call.request, call.baseline, blank).reply; reply.Replayed? && reply.isNew
  }

  /** The job that a creating call replays. */
  ghost function Replays(w: World, call: Call, blank: string -> bool): JobId
    requires Creates(w, call, blank)
  {
    Replay.Replay(w, call.request, call.baseline, blank).reply.record.source.originalJobId
  }

  /** The original that each replay descends from. */
  ghost function Roots(calls: seq<Call>, blank: string -> bool): map<JobId, JobId> {
    if calls == [] then map[]
    else
      var before, call := calls[..|calls| - 1], calls[|calls| - 1];
      NextRoots(Roots(before, blank), Replay.After(before, blank), call, blank)
  }

  ghost function NextRoots(roots: map<JobId, JobId>, w: World, call: Call, blank: string -> bool): map<JobId, JobId> {
    if Creates(w, call, blank) then roots[call.request.newId := RootOf(roots, Replays(w, call, blank))] else roots
  }

  function RootOf(roots: map<JobId, JobId>, id: JobId): JobId {
    if id in roots then roots[id] else id
  }

  /** No job of the lineage of `id` is queued. */
  ghost predicate LineageIdle(w: World, roots: map<JobId, JobId>, id: JobId) {
    forall a :: a in w.tables.jobs ==> RootOf(roots, a) != RootOf(roots, id)
  }

  /** At most one job of each lineage is queued. */
  ghost predicate OneQueued(w: World, roots: map<JobId, JobId>) {
    forall a, b :: a in w.tables.jobs && b in w.tables.jobs && RootOf(roots, a) == RootOf(roots, b) ==> a == b
  }

  ghost predicate RootsKnown(w: World, roots: map<JobId, JobId>) {
    forall id :: id in roots ==> id in w.tables.created && roots[id] in w.tables.created
  }

  lemma CreatingStages(w: World, call: Call, blank: string -> bool)
    requires Creates(w, call, blank)
    ensures var request, id := call.request, Replays(w, call, blank);
      && LockSource(w, request.failedId).Some? && id == LockSource(w, request.failedId).value.originalJobId
      && Unused(w.tables, request.newId)
      && exists source, key :: CanStage(w, request, source) && Next(w, call, blank) == Staged(w, request, source, key)
  {
    var source := LockSource(w, call.request.failedId).value;
    var kept := Admitted(source, call.baseline);
    assert CanStage(w, call.request, kept);
    assert Next(w, call, blank) == Staged(w, call.request, kept, call.request.answer.value);
  }

  lemma StagedJobs(w: World, request: Request, source: Source, key: string)
    requires CanStage(w, request, source)
    ensures var v := Staged(w, request, source, key);
      && v.tables.jobs.Keys == w.tables.jobs.Keys + {request.newId}
      && v.tables.created.Keys == w.tables.created.Keys + {request.newId}
  {
  }

  lemma CreatingJobs(w: World, call: Call, blank: string -> bool)
    requires Creates(w, call, blank)
    ensures var v, id := Next(w, call, blank), call.request.newId;
      && Unused(w.tables, id)
      && v.tables.jobs.Keys == w.tables.jobs.Keys + {id} && v.tables.created.Keys == w.tables.created.Keys + {id}
  {
    CreatingStages(w, call, blank);
    var source, key :|
      CanStage(w, call.request, source) && Next(w, call, blank) == Staged(w, call.request, source, key);
    StagedJobs(w, call.request, source, key);
  }

  lemma CallGrows(w: World, call: Call, blank: string -> bool)
    requires !Creates(w, call, blank)
    ensures Grows(w.tables, Next(w, call, blank).tables)
  {
    if call.Work? {
      StepGrows(w.tables, call.op);
    }
  }

  lemma RootsStayKnown(w: World, roots: map<JobId, JobId>, call: Call, blank: string -> bool)
    requires Provenance(w) && RootsKnown(w, roots)
    ensures RootsKnown(Next(w, call, blank), NextRoots(roots, w, call, blank))
  {
    if Creates(w, call, blank) {
      CreatingJobs(w, call, blank);
      CreatingStages(w, call, blank);
      assert w.failed[call.request.failedId].jobId in w.tables.created;
    } else {
      CallGrows(w, call, blank);
    }
  }

  /** Any call but a creating one keeps every lineage to one queued job. */
  lemma OtherCallsKeepOneQueued(w: World, roots: map<JobId, JobId>, call: Call, blank: string -> bool)
    requires RootsKnown(w, roots) && OneQueued(w, roots) && !Creates(w, call, blank) && Consistent(w.tables)
    ensures OneQueued(Next(w, call, blank), roots)
  {
    var v := Next(w, call, blank);
    CallGrows(w, call, blank);
    forall a, b | a in v.tables.jobs && b in v.tables.jobs && RootOf(roots, a) == RootOf(roots, b) ensures a == b {
      assert a in w.tables.jobs ==> RowIsRegistered(w.tables, a);
      assert b in w.tables.jobs ==> RowIsRegistered(w.tables, b);
    }
  }

  /** The queued jobs after a creating call, and their lineages: only the new one joins. */
  lemma CreatingRoots(w: World, roots: map<JobId, JobId>, call: Call, blank: string -> bool)
    requires RootsKnown(w, roots) && Creates(w, call, blank)
    ensures var v, next, id := Next(w, call, blank), NextRoots(roots, w, call, blank), call.request.newId;
      && v.tables.jobs.Keys == w.tables.jobs.Keys + {id}
      && (id in w.tables.jobs ==> RootOf(next, id) != RootOf(roots, id))
      && RootOf(next, id) == RootOf(roots, Replays(w, call, blank))
      && forall a :: a != id ==> RootOf(next, a) == RootOf(roots, a)
  {
    CreatingJobs(w, call, blank);
  }

  lemma OneMoreQueued(jobs: set<JobId>, roots: map<JobId, JobId>, next: map<JobId, JobId>, id: JobId)
    requires id in jobs ==> RootOf(next, id) != RootOf(roots, id)
    requires forall a :: a != id ==> RootOf(next, a) == RootOf(roots, a)
    requires forall a, b :: a in jobs && b in jobs && RootOf(roots, a) == RootOf(roots, b) ==> a == b
    ensures (forall a, b :: a in jobs + {id} && b in jobs + {id} && RootOf(next, a) == RootOf(next, b) ==> a == b)
       <==> (forall a :: a in jobs ==> RootOf(roots, a) != RootOf(next, id))
  {
    if forall a, b :: a in jobs + {id} && b in jobs + {id} && RootOf(next, a) == RootOf(next, b) ==> a == b {
      forall a | a in jobs ensures RootOf(roots, a) != RootOf(next, id) {
        assert a in jobs + {id} && id in jobs + {id};
      }
    }
  }

  /** A creating call does exactly when the lineage it extends is idle. */
  lemma CreatingKeepsOneQueuedIff(w: World, roots: map<JobId, JobId>, call: Call, blank: string -> bool)
    requires RootsKnown(w, roots) && OneQueued(w, roots) && Creates(w, call, blank)
    ensures OneQueued(Next(w, call, blank), NextRoots(roots, w, call, blank))
       <==> LineageIdle(w, roots, Replays(w, call, blank))
  {
    CreatingRoots(w, roots, call, blank);
    OneMoreQueued(w.tables.jobs.Keys, roots, NextRoots(roots, w, call, blank), call.request.newId);
    assert forall a :: a in Next(w, call, blank).tables.jobs <==> a in w.tables.jobs.Keys + {call.request.newId};
  }

  // ----- whole runs

  ghost predicate Calm(calls: seq<Call>, blank: string -> bool, i: nat)
    requires i <= |calls|
  {
    OneQueued(Replay.After(calls[..i], blank), Roots(calls[..i], blank))
  }

  /** If call `i` creates a replay, the lineage it extends was idle. */
  ghost predicate Waits(calls: seq<Call>, blank: string -> bool, i: nat)
    requires i < |calls|
  {
    var w := Replay.After(calls[..i], blank);
    Creates(w, calls[i], blank) ==> LineageIdle(w, Roots(calls[..i], blank), Replays(w, calls[i], blank))
  }

  lemma ReachablePrefix(calls: seq<Call>, blank: string -> bool, n: nat)
    requires Reachable(calls, blank) && n <= |calls|
    ensures Reachable(calls[..n], blank)
  {
    forall i | 0 <= i < n ensures Possible(Replay.After(calls[..n][..i], blank), calls[..n][i]) {
      assert calls[..n][..i] == calls[..i];
    }
  }

  lemma {:induction false} RootsHold(calls: seq<Call>, blank: string -> bool)
    requires Reachable(calls, blank)
    ensures RootsKnown(Replay.After(calls, blank), Roots(calls, blank))
  {
    if calls != [] {
      var n := |calls| - 1;
      ReachablePrefix(calls, blank, n);
      RootsHold(calls[..n], blank);
      ProvenanceHolds(calls[..n], blank);
      RootsStayKnown(Replay.After(calls[..n], blank), Roots(calls[..n], blank), calls[n], blank);
    }
  }

  /** One more call keeps every lineage to one queued job exactly when it waits for an idle lineage. */
  lemma {:induction false} CalmIffWaits(calls: seq<Call>, blank: string -> bool, i: nat)
    requires Reachable(calls, blank) && i < |calls| && Calm(calls, blank, i)
    ensures Calm(calls, blank, i + 1) <==> Waits(calls, blank, i)
  {
    var before := calls[..i];
    assert calls[..i + 1][..i] == before;
    ReachablePrefix(calls, blank, i);
    RootsHold(before, blank);
    ProvenanceHolds(before, blank);
    if Creates(Replay.After(before, blank), calls[i], blank) {
      CreatingKeepsOneQueuedIff(Replay.After(before, blank), Roots(before, blank), calls[i], blank);
    } else {
      OtherCallsKeepOneQueued(Replay.After(before, blank), Roots(before, blank), calls[i], blank);
    }
  }

  /** Throughout a run every lineage has at most one queued job, exactly when every replay that is created finds the
   *  whole lineage of its source idle. The code itself looks only at the original and the replays of one failed row.
   */
  lemma {:induction false} OneQueuedIffLineageWaits(calls: seq<Call>, blank: string -> bool)
    requires Reachable(calls, blank)
    ensures (forall i :: 0 <= i <= |calls| ==> Calm(calls, blank, i))
       <==> (forall i :: 0 <= i < |calls| ==> Waits(calls, blank, i))
  {
    if forall i :: 0 <= i <= |calls| ==> Calm(calls, blank, i) {
      forall i | 0 <= i < |calls| ensures Waits(calls, blank, i) {
        assert Calm(calls, blank, i) && Calm(calls, blank, i + 1);
        CalmIffWaits(calls, blank, i);
      }
    }
    if forall i :: 0 <= i < |calls| ==> Waits(calls, blank, i) {
      forall i | 0 <= i <= |calls| ensures Calm(calls, blank, i) {
        WaitingStaysCalm(calls, blank, i);
      }
    }
  }

  lemma {:induction false} WaitingStaysCalm(calls: seq<Call>, blank: string -> bool, n: nat)
    requires Reachable(calls, blank) && n <= |calls|
    requires forall i :: 0 <= i < |calls| ==> Waits(calls, blank, i)
    ensures Calm(calls, blank, n)
  {
    if n > 0 {
      WaitingStaysCalm(calls, blank, n - 1);
      assert Waits(calls, blank, n - 1);
      CalmIffWaits(calls, blank, n - 1);
    }
  }

  // ----- the lineage as the records show it

  /** A record shows that `id` replays `original`. */
  ghost predicate Link(records: map<RequestId, Record>, id: JobId, original: JobId) {
    exists q :: q in records && records[q].jobId == id && records[q].source.originalJobId == original
  }

  ghost predicate IsReplay(records: map<RequestId, Record>, id: JobId) {
    exists q :: q in records && records[q].jobId == id
  }

  /** From replay to replayed job, down to a job that is no replay. */
  ghost predicate Chain(records: map<RequestId, Record>, path: seq<JobId>) {
    && path != [] && !IsReplay(records, path[|path| - 1])
    && forall i :: 0 <= i < |path| - 1 ==> Link(records, path[i], path[i + 1])
  }

  ghost predicate ChainFrom(records: map<RequestId, Record>, path: seq<JobId>, id: JobId, root: JobId) {
    Chain(records, path) && path[0] == id && path[|path| - 1] == root
  }

  ghost predicate Descends(records: map<RequestId, Record>, id: JobId, root: JobId) {
    exists path :: ChainFrom(records, path, id, root)
  }

  ghost predicate RootsFit(records: map<RequestId, Record>, roots: map<JobId, JobId>) {
    && (forall q :: q in records ==> RootFits(records[q], roots))
    && (forall id :: id in roots ==> IsReplay(records, id))
  }

  ghost predicate RootFits(record: Record, roots: map<JobId, JobId>) {
    record.jobId in roots && roots[record.jobId] == RootOf(roots, record.source.originalJobId)
  }

  /** A chain ends at the root. */
  lemma {:induction false} ChainEndsAtRoot(records: map<RequestId, Record>, roots: map<JobId, JobId>, path: seq<JobId>)
    requires RootsFit(records, roots) && Chain(records, path)
    ensures RootOf(roots, path[0]) == path[|path| - 1]
  {
    if |path| > 1 {
      var rest := path[1..];
      forall i | 0 <= i < |rest| - 1 ensures Link(records, rest[i], rest[i + 1]) {
        assert Link(records, path[i + 1], path[i + 2]);
      }
      ChainEndsAtRoot(records, roots, rest);
      assert Link(records, path[0], path[1]);
      var q :| q in records && records[q].jobId == path[0] && records[q].source.originalJobId == path[1];
      assert RootFits(records[q], roots);
    }
  }

  ghost predicate Rooted(records: map<RequestId, Record>, roots: map<JobId, JobId>) {
    forall id :: Descends(records, id, RootOf(roots, id))
  }

  lemma OtherCallsKeepRecords(w: World, call: Call, blank: string -> bool)
    requires !Creates(w, call, blank)
    ensures Next(w, call, blank).records == w.records
  {
  }

  /** The record a creating call leaves. */
  lemma CreatingRecord(w: World, call: Call, blank: string -> bool) returns (record: Record)
    requires Creates(w, call, blank)
    ensures call.request.id !in w.records && Next(w, call, blank).records == w.records[call.request.id := record]
    ensures record.jobId == call.request.newId && record.source.originalJobId == Replays(w, call, blank)
    ensures record.jobId !in w.tables.created
  {
    CreatingJobs(w, call, blank);
    record := Replay.Replay(w, call.request, call.baseline, blank).reply.record;
  }

  /** The jobs that records name have been created. */
  ghost predicate RecordsKnown(records: map<RequestId, Record>, created: set<JobId>) {
    forall q :: q in records ==> records[q].jobId in created && records[q].source.originalJobId in created
  }

  lemma ProvenanceKnows(w: World)
    requires Provenance(w)
    ensures RecordsKnown(w.records, w.tables.created.Keys)
  {
    forall q | q in w.records
      ensures w.records[q].jobId in w.tables.created && w.records[q].source.originalJobId in w.tables.created
    {
      assert RecordFits(w, q);
    }
  }

  lemma RecordKeepsFit(records: map<RequestId, Record>, roots: map<JobId, JobId>, created: set<JobId>, q: RequestId,
                       record: Record)
    requires RootsFit(records, roots) && RecordsKnown(records, created) && q !in records
    requires record.jobId !in created && record.source.originalJobId in created
    ensures RootsFit(records[q := record], roots[record.jobId := RootOf(roots, record.source.originalJobId)])
  {
    var more := records[q := record];
    var next := roots[record.jobId := RootOf(roots, record.source.originalJobId)];
    forall p | p in more ensures RootFits(more[p], next) {
      assert p != q ==> RootFits(records[p], roots);
    }
    forall id | id in next ensures IsReplay(more, id) {
      if id == record.jobId {
        assert more[q].jobId == id;
      } else {
        var p :| p in records && records[p].jobId == id;
        assert more[p].jobId == id;
      }
    }
  }

  /** Chains that do not end at the new job last. */
  lemma ChainLasts(records: map<RequestId, Record>, q: RequestId, record: Record, path: seq<JobId>)
    requires Chain(records, path) && q !in records && path[|path| - 1] != record.jobId
    ensures Chain(records[q := record], path)
  {
    var more := records[q := record];
    forall i | 0 <= i < |path| - 1 ensures Link(more, path[i], path[i + 1]) {
      assert Link(records, path[i], path[i + 1]);
      var p :| p in records && records[p].jobId == path[i] && records[p].source.originalJobId == path[i + 1];
      assert p in more && more[p] == records[p];
    }
  }

  lemma ChainEndIsKnown(records: map<RequestId, Record>, created: set<JobId>, path: seq<JobId>, id: JobId)
    requires RecordsKnown(records, created) && Chain(records, path) && id !in created && path[0] != id
    ensures path[|path| - 1] != id
  {
    if |path| > 1 {
      assert Link(records, path[|path| - 2], path[|path| - 2 + 1]);
    }
  }

  lemma DescentLasts(records: map<RequestId, Record>, created: set<JobId>, q: RequestId, record: Record, id: JobId,
                     root: JobId)
    requires RecordsKnown(records, created) && record.jobId !in created && q !in records
    requires Descends(records, id, root) && id != record.jobId
    ensures Descends(records[q := record], id, root)
  {
    var path :| ChainFrom(records, path, id, root);
    ChainEndIsKnown(records, created, path, record.jobId);
    ChainLasts(records, q, record, path);
    assert ChainFrom(records[q := record], path, id, root);
  }

  lemma NewDescent(records: map<RequestId, Record>, q: RequestId, record: Record, root: JobId)
    requires q in records && records[q] == record && Descends(records, record.source.originalJobId, root)
    ensures Descends(records, record.jobId, root)
  {
    var path :| ChainFrom(records, path, record.source.originalJobId, root);
    var longer := [record.jobId] + path;
    forall i | 0 <= i < |longer| - 1 ensures Link(records, longer[i], longer[i + 1]) {
      if i > 0 {
        assert Link(records, path[i - 1], path[i - 1 + 1]);
      }
    }
    assert ChainFrom(records, longer, record.jobId, root);
  }

  lemma RecordKeepsRooted(records: map<RequestId, Record>, roots: map<JobId, JobId>, created: set<JobId>, q: RequestId,
                          record: Record)
    requires Rooted(records, roots) && RecordsKnown(records, created) && q !in records
    requires record.jobId !in created && record.source.originalJobId in created
    ensures Rooted(records[q := record], roots[record.jobId := RootOf(roots, record.source.originalJobId)])
  {
    var original := record.source.originalJobId;
    var next := roots[record.jobId := RootOf(roots, original)];
    forall id ensures Descends(records[q := record], id, RootOf(next, id)) {
      if id == record.jobId {
        DescentLasts(records, created, q, record, original, RootOf(roots, original));
        NewDescent(records[q := record], q, record, RootOf(roots, original));
      } else {
        DescentLasts(records, created, q, record, id, RootOf(roots, id));
      }
    }
  }

  lemma {:induction false} RecordsShowRoots(calls: seq<Call>, blank: string -> bool)
    requires Reachable(calls, blank)
    ensures RootsFit(Replay.After(calls, blank).records, Roots(calls, blank))
    ensures Rooted(Replay.After(calls, blank).records, Roots(calls, blank))
  {
    if calls == [] {
      forall id ensures Descends(map[], id, id) {
        assert ChainFrom(map[], [id], id, id);
      }
    } else {
      var n := |calls| - 1;
      ReachablePrefix(calls, blank, n);
      RecordsShowRoots(calls[..n], blank);
      NextShowsRoots(calls[..n], calls[n], blank);
    }
  }

  lemma NextShowsRoots(calls: seq<Call>, call: Call, blank: string -> bool)
    requires Reachable(calls, blank)
    requires RootsFit(Replay.After(calls, blank).records, Roots(calls, blank))
    requires Rooted(Replay.After(calls, blank).records, Roots(calls, blank))
    ensures var w, roots := Replay.After(calls, blank), Roots(calls, blank);
      && RootsFit(Next(w, call, blank).records, NextRoots(roots, w, call, blank))
      && Rooted(Next(w, call, blank).records, NextRoots(roots, w, call, blank))
  {
    var w, roots := Replay.After(calls, blank), Roots(calls, blank);
    if Creates(w, call, blank) {
      ProvenanceHolds(calls, blank);
      ProvenanceKnows(w);
      var record := CreatingRecord(w, call, blank);
      CreatingStages(w, call, blank);
      assert w.failed[call.request.failedId].jobId in w.tables.created;
      RecordKeepsFit(w.records, roots, w.tables.created.Keys, call.request.id, record);
      RecordKeepsRooted(w.records, roots, w.tables.created.Keys, call.request.id, record);
    } else {
      OtherCallsKeepRecords(w, call, blank);
    }
  }

  /** In every run, following the records from a job to the job it replays leads to its root, and nowhere else. */
  lemma {:induction false} RootByRecords(calls: seq<Call>, blank: string -> bool, id: JobId, root: JobId)
    requires Reachable(calls, blank)
    ensures Descends(Replay.After(calls, blank).records, id, root) <==> root == RootOf(Roots(calls, blank), id)
  {
    var records, roots := Replay.After(calls, blank).records, Roots(calls, blank);
    RecordsShowRoots(calls, blank);
    assert Descends(records, id, RootOf(roots, id));
    if Descends(records, id, root) {
      var path :| ChainFrom(records, path, id, root);
      ChainEndsAtRoot(records, roots, path);
    }
  }

  /** The records show a common root of both jobs. */
  ghost predicate Related(records: map<RequestId, Record>, a: JobId, b: JobId) {
    exists root :: Descends(records, a, root) && Descends(records, b, root)
  }

  lemma {:induction false} RelatedIffSameRoot(calls: seq<Call>, blank: string -> bool, a: JobId, b: JobId)
    requires Reachable(calls, blank)
    ensures Related(Replay.After(calls, blank).records, a, b)
       <==> RootOf(Roots(calls, blank), a) == RootOf(Roots(calls, blank), b)
  {
    var records, roots := Replay.After(calls, blank).records, Roots(calls, blank);
    RootByRecords(calls, blank, a, RootOf(roots, a));
    RootByRecords(calls, blank, b, RootOf(roots, b));
    if Related(records, a, b) {
      var root :| Descends(records, a, root) && Descends(records, b, root);
      RootByRecords(calls, blank, a, root);
      RootByRecords(calls, blank, b, root);
    }
  }

  /** So a host can tell before a request, from the tables alone, whether a lineage is idle. */
  lemma {:induction false} IdleByRecords(calls: seq<Call>, blank: string -> bool, id: JobId)
    requires Reachable(calls, blank)
    ensures var w := Replay.After(calls, blank);
      LineageIdle(w, Roots(calls, blank), id) <==> forall a :: a in w.tables.jobs ==> !Related(w.records, a, id)
  {
    var w := Replay.After(calls, blank);
    forall a | a in w.tables.jobs
      ensures Related(w.records, a, id) <==> RootOf(Roots(calls, blank), a) == RootOf(Roots(calls, blank), id)
    {
      RelatedIffSameRoot(calls, blank, a, id);
    }
  }

  // ----- a run in which two jobs of one lineage are queued

  lemma AfterNext(calls: seq<Call>, call: Call, blank: string -> bool)
    ensures Replay.After(calls + [call], blank) == Next(Replay.After(calls, blank), call, blank)
    ensures Roots(calls + [call], blank) == NextRoots(Roots(calls, blank), Replay.After(calls, blank), call, blank)
    ensures Reachable(calls, blank) && Possible(Replay.After(calls, blank), call) ==> Reachable(calls + [call], blank)
  {
    var all := calls + [call];
    assert all[..|calls|] == calls;
    if Reachable(calls, blank) && Possible(Replay.After(calls, blank), call) {
      forall i | 0 <= i < |all| ensures Possible(Replay.After(all[..i], blank), all[i]) {
        assert i < |calls| ==> all[..i] == calls[..i];
      }
    }
  }

  /** A new request for a failed row that meets no objection. */
  ghost predicate Stageable(w: World, request: Request, baseline: Option<Record>, source: Source,
                            blank: string -> bool) {
    && request.id != 0 && request.failedId != 0 && request.id !in w.records && IsBaseline(w, request.failedId, baseline)
    && LockSource(w, request.failedId) == Some(source) && ValidateSource(source).None?
    && Objection(w, request, source, baseline, blank).None?
  }

  lemma AskIs(calls: seq<Call>, request: Request, baseline: Option<Record>, source: Source, blank: string -> bool)
    requires Reachable(calls, blank) && Stageable(Replay.After(calls, blank), request, baseline, source, blank)
    ensures var w, kept := Replay.After(calls, blank), Admitted(source, baseline);
      var all := calls + [Ask(request, baseline)];
      && Reachable(all, blank) && CanStage(w, request, kept)
      && Replay.After(all, blank) == Staged(w, request, kept, request.answer.value)
      && Replay.After(all, blank).tables.jobs.Keys == w.tables.jobs.Keys + {request.newId}
      && Replay.After(all, blank).tables.created.Keys == w.tables.created.Keys + {request.newId}
      && Roots(all, blank)
      == Roots(calls, blank)[request.newId := RootOf(Roots(calls, blank), source.originalJobId)]
  {
    var w, kept := Replay.After(calls, blank), Admitted(source, baseline);
    AfterNext(calls, Ask(request, baseline), blank);
    assert CanStage(w, request, kept);
    assert Creates(w, Ask(request, baseline), blank);
    StagedJobs(w, request, kept, request.answer.value);
  }

  const MAIL := Capability("mail", 1)

  function ReplayKey(id: RequestId): string {
    "outbox.replay." + Decimal(id)
  }

  lemma ReplayKeysDiffer(a: RequestId, b: RequestId)
    ensures ReplayKey(a) == ReplayKey(b) ==> a == b
  {
    DecimalReadsBack(a);
    DecimalReadsBack(b);
    assert ReplayKey(a)[14..] == Decimal(a) && ReplayKey(b)[14..] == Decimal(b);
  }

  lemma MailIsNoFanout()
    ensures !IsFanout("mail")
  {
    assert "mail"[0] != FANOUT_DISPATCHER[0];
    assert "mail"[0] != FANOUT_PREFIX[0];
  }

  const ROW := FailedRow(1, MAIL, "p", "queue")
  const FIRST := Record(1, 2, Source(10, 1, MAIL, "p", "queue", ""), "k")
  const SECOND := Record(2, 3, Source(10, 1, MAIL, "p", "queue", ""), "k")

  /** Job 1 fails as row 10. */
  const FAILED: seq<Call> := [Work(PutPlain(1, MAIL, "p", 1, 1))] + [Fail(10, 1)] + [Work(Remove(1))]

  /** Row 10 is replayed as job 2. */
  const REPLAYED := FAILED + [Ask(Request(1, 10, Some("k"), 2, 5), None)]

  /** Job 2 fails as row 20. */
  const FAILED_AGAIN := REPLAYED + [Fail(20, 2)] + [Work(Remove(2))]

  /** Row 10 is replayed once more, as job 3. */
  const REPLAYED_AGAIN := FAILED_AGAIN + [Ask(Request(2, 10, Some("k"), 3, 6), Some(FIRST))]

  /** And row 20 is replayed as job 4, under the same business key. */
  const FORKED := REPLAYED_AGAIN + [Ask(Request(3, 20, Some("k"), 4, 7), None)]

  ghost predicate HasFailed(w: World) {
    && w.failed == map[10 := ROW] && w.records == map[] && w.tables.keys == map[] && w.tables.jobs == map[]
    && w.tables.created.Keys == {1} && w.tables.created[1].deduplicationKey.None?
  }

  ghost predicate HasReplayed(w: World) {
    && w.records == map[1 := FIRST]
    && w.tables.created.Keys == {1, 2} && w.tables.created[1].deduplicationKey.None?
    && w.tables.created[2].deduplicationKey == Some(ReplayKey(1))
    && w.tables.keys.Keys == {ReplayKey(1)} && w.tables.keys[ReplayKey(1)].jobId == 2
  }

  ghost predicate HasReplayedAgain(w: World) {
    && w.failed == map[10 := ROW, 20 := ROW.(jobId := 2)] && w.records == map[1 := FIRST, 2 := SECOND]
    && w.tables.jobs.Keys == {3} && w.tables.created.Keys == {1, 2, 3}
    && w.tables.created[2].deduplicationKey == Some(ReplayKey(1))
    && w.tables.keys.Keys == {ReplayKey(1), ReplayKey(2)} && w.tables.keys[ReplayKey(1)].jobId == 2
  }

  lemma FailingFirst(blank: string -> bool)
    ensures var w := Next(World(Run([]), map[], map[]), Work(PutPlain(1, MAIL, "p", 1, 1)), blank);
      HasFailed(Next(Next(w, Fail(10, 1), blank), Work(Remove(1)), blank))
  {
  }

  lemma JobFailed(blank: string -> bool)
    ensures Reachable(FAILED, blank) && Roots(FAILED, blank) == map[] && HasFailed(Replay.After(FAILED, blank))
  {
    var put := Work(PutPlain(1, MAIL, "p", 1, 1));
    AfterNext([], put, blank);
    assert [] + [put] == [put];
    AfterNext([put], Fail(10, 1), blank);
    AfterNext([put] + [Fail(10, 1)], Work(Remove(1)), blank);
    FailingFirst(blank);
  }

  lemma JobReplayed(blank: string -> bool)
    requires !blank("k")
    ensures Reachable(REPLAYED, blank) && Roots(REPLAYED, blank) == map[2 := 1]
    ensures var w := Replay.After(REPLAYED, blank);
      && HasReplayed(w) && w.failed == map[10 := ROW] && w.tables.jobs.Keys == {2}
      && w.tables.jobs[2].capability == MAIL && w.tables.jobs[2].payload == "p" && w.tables.jobs[2].queue == "queue"
  {
    var w, request := Replay.After(FAILED, blank), Request(1, 10, Some("k"), 2, 5);
    JobFailed(blank);
    MailIsNoFanout();
    AskIs(FAILED, request, None, FIRST.source, blank);
    StagedRow(w, request, FIRST.source);
  }

  /** Job 2 stops working for good. */
  lemma FailingAgain(w: World, blank: string -> bool)
    requires HasReplayed(w) && w.failed == map[10 := ROW] && w.tables.jobs.Keys == {2}
    requires w.tables.jobs[2].capability == MAIL && w.tables.jobs[2].payload == "p" && w.tables.jobs[2].queue == "queue"
    ensures var v := Next(Next(w, Fail(20, 2), blank), Work(Remove(2)), blank);
      && HasReplayed(v) && v.failed == map[10 := ROW, 20 := ROW.(jobId := 2)] && v.tables.jobs.Keys == {}
  {
  }

  lemma ReplayFailed(blank: string -> bool)
    requires !blank("k")
    ensures Reachable(FAILED_AGAIN, blank) && Roots(FAILED_AGAIN, blank) == map[2 := 1]
    ensures var w := Replay.After(FAILED_AGAIN, blank);
      && HasReplayed(w) && w.failed == map[10 := ROW, 20 := ROW.(jobId := 2)] && w.tables.jobs.Keys == {}
  {
    JobReplayed(blank);
    AfterNext(REPLAYED, Fail(20, 2), blank);
    AfterNext(REPLAYED + [Fail(20, 2)], Work(Remove(2)), blank);
    FailingAgain(Replay.After(REPLAYED, blank), blank);
  }

  lemma MayReplayAgain(w: World, request: Request, blank: string -> bool)
    requires HasReplayed(w) && w.failed == map[10 := ROW, 20 := ROW.(jobId := 2)] && w.tables.jobs.Keys == {}
    requires request == Request(2, 10, Some("k"), 3, 6) && !blank("k")
    ensures Stageable(w, request, Some(FIRST), FIRST.source, blank)
    ensures HasReplayedAgain(Staged(w, request, FIRST.source, "k"))
  {
    MailIsNoFanout();
    ReplayKeysDiffer(1, 2);
    assert ReplayOf(w, 1, 10) && w.records[1] == FIRST;
    StagedJobs(w, request, FIRST.source, "k");
  }

  lemma JobReplayedAgain(blank: string -> bool)
    requires !blank("k")
    ensures Reachable(REPLAYED_AGAIN, blank) && Roots(REPLAYED_AGAIN, blank) == map[2 := 1, 3 := 1]
    ensures HasReplayedAgain(Replay.After(REPLAYED_AGAIN, blank))
  {
    var w, request := Replay.After(FAILED_AGAIN, blank), Request(2, 10, Some("k"), 3, 6);
    ReplayFailed(blank);
    MayReplayAgain(w, request, blank);
    AskIs(FAILED_AGAIN, request, Some(FIRST), FIRST.source, blank);
  }

  /** Row 20 looks idle: its job is gone and no request has replayed the row. */
  lemma ReplayMayBeReplayed(w: World, blank: string -> bool)
    requires HasReplayedAgain(w) && !blank("k")
    ensures Stageable(w, Request(3, 20, Some("k"), 4, 7), None, Source(20, 2, MAIL, "p", "queue", ReplayKey(1)), blank)
  {
    MailIsNoFanout();
    ReplayKeysDiffer(1, 3);
    ReplayKeysDiffer(2, 3);
  }

  /** Two requests, each accepted because the failed row it names looks idle, leave two jobs of one lineage queued. */
  lemma LineageForks(blank: string -> bool)
    requires !blank("k")
    ensures var w, roots := Replay.After(FORKED, blank), Roots(FORKED, blank);
      && Reachable(FORKED, blank)
      && w.tables.jobs.Keys == {3, 4} && RootOf(roots, 3) == RootOf(roots, 4) == 1 && !OneQueued(w, roots)
  {
    JobReplayedAgain(blank);
    ReplayMayBeReplayed(Replay.After(REPLAYED_AGAIN, blank), blank);
    AskIs(REPLAYED_AGAIN, Request(3, 20, Some("k"), 4, 7), None, Source(20, 2, MAIL, "p", "queue", ReplayKey(1)),
          blank);
    var w := Replay.After(FORKED, blank);
    assert w.tables.jobs.Keys == {3, 4};
    assert 3 in w.tables.jobs && 4 in w.tables.jobs;
  }
}
