/** Replaying a dead-lettered job: what is retained about each replay, and what every run keeps. */
module Replay {
  import opened Jobs
  import opened Encoding
  import opened Registry

  type RequestId = nat
  type FailedId = nat

  datatype Source = Source(
    failedId: FailedId,
    originalJobId: JobId,
    capability: Capability,
    payload: string,
    queue: string,
    originalKey: string)

  datatype Record = Record(requestId: RequestId, jobId: JobId, source: Source, businessKey: string)

  datatype FailedRow = FailedRow(jobId: JobId, capability: Capability, payload: string, queue: string)

  datatype World = World(tables: Tables, failed: map<FailedId, FailedRow>, records: map<RequestId, Record>)

  /** One request; `answer` is what the host's admission says when it is asked, `None` for an error. */
  datatype Request = Request(id: RequestId, failedId: FailedId, answer: Option<string>, newId: JobId, now: Time)

  datatype Reply =
    | InvalidRequest
    | SourceNotFound
    | InvalidSource
    | UnsupportedFanout
    | RequestConflict
    | AdmissionFailed
    | NotAdmitted
    | SourceActive
    | StageFailed
    | Replayed(record: Record, isNew: bool)

  const FANOUT_DISPATCHER := "outbox.fanout.dispatch"
  const FANOUT_PREFIX := "fanout."

  // ----- the source of a replay

  /** The key the registry still holds for a job, or the empty text. */
  function KeyHint(t: Tables, id: JobId): string {
    if id in t.created && t.created[id].deduplicationKey.Some? then
      var k := t.created[id].deduplicationKey.value;
      if k in t.keys && t.keys[k].jobId == id then k else ""
    else ""
  }

  /** The hint is what a search of the registry by job would find. */
  lemma {:induction false} KeyHintSearches(t: Tables, id: JobId, k: string)
    requires Consistent(t) && k != ""
    ensures KeyHint(t, id) == k <==> k in t.keys && t.keys[k].jobId == id
  {
    if k in t.keys {
      assert KeyNamesRow(t, k);
    }
  }

  function LockSource(w: World, failedId: FailedId): Option<Source> {
    if failedId !in w.failed then None
    else
      var row := w.failed[failedId];
      Some(Source(failedId, row.jobId, row.capability, row.payload, row.queue, KeyHint(w.tables, row.jobId)))
  }

  predicate IsFanout(name: string) {
    name == FANOUT_DISPATCHER || FANOUT_PREFIX <= name
  }

  function ValidateSource(source: Source): Option<Reply> {
    if source.originalJobId == NIL_ID || source.capability.version <= 0 then Some(InvalidSource)
    else if IsFanout(source.capability.name) then Some(UnsupportedFanout)
    else None
  }

  function Keeping(source: Source, record: Record): Source {
    source.(originalKey := record.source.originalKey)
  }

  predicate ReplayOf(w: World, q: RequestId, failedId: FailedId) {
    q in w.records && w.records[q].source.failedId == failedId
  }

  /** The original job or one of its replays is still queued. */
  predicate Active(w: World, source: Source) {
    || source.originalJobId in w.tables.jobs
    || exists q :: q in w.records && w.records[q].source.failedId == source.failedId
        && w.records[q].jobId in w.tables.jobs
  }

  // ----- one request, given the retained snapshot it is compared with

  function ReplayPut(request: Request, source: Source): Put {
    Put("outbox.replay." + Decimal(request.id), source.capability, source.payload, request.now)
  }

  /** The put and the copy of the queue, as steps of the job table. */
  function StagedTables(t: Tables, request: Request, source: Source): Tables {
    Step(Step(t, PutUnique(ReplayPut(request, source), request.newId, request.now)),
         Rewrite(request.newId, source.queue, 0, None, NIL_TOKEN, request.now))
  }

  predicate CanStage(w: World, request: Request, source: Source) {
    Unused(w.tables, request.newId) && ValidPut(ReplayPut(request, source))
    && ReplayPut(request, source).key !in w.tables.keys
  }

  function Staged(w: World, request: Request, source: Source, key: string): World {
    w.(tables := StagedTables(w.tables, request, source),
       records := w.records[request.id := Record(request.id, request.newId, source, key)])
  }

  /** A request whose id is already recorded. */
  function Repeat(w: World, request: Request, source: Source): Reply
    requires request.id in w.records
  {
    var prior := w.records[request.id];
    if Keeping(source, prior) != prior.source then RequestConflict
    else if request.answer.None? then AdmissionFailed
    else if request.answer.value != prior.businessKey then RequestConflict
    else Replayed(prior, false)
  }

  /** Why a new request is turned down, if it is; `baseline` is some earlier record of the failed row. */
  function Objection(w: World, request: Request, source: Source, baseline: Option<Record>,
                     blank: string -> bool): Option<Reply> {
    if baseline.Some? && Keeping(source, baseline.value) != baseline.value.source then Some(RequestConflict)
    else if request.answer.None? then Some(AdmissionFailed)
    else if blank(request.answer.value) then Some(NotAdmitted)
    else if baseline.Some? && request.answer.value != baseline.value.businessKey then Some(RequestConflict)
    else if Active(w, source) then Some(SourceActive)
    else if !Unused(w.tables, request.newId) then Some(StageFailed)
    else if !CanStage(w, request, source) then Some(RequestConflict)
    else None
  }

  function Admitted(source: Source, baseline: Option<Record>): Source {
    if baseline.Some? then Keeping(source, baseline.value) else source
  }

  datatype Result = Result(world: World, reply: Reply)

  function Replay(w: World, request: Request, baseline: Option<Record>, blank: string -> bool): Result {
    var locked := LockSource(w, request.failedId);
    if request.id == 0 || request.failedId == 0 then Result(w, InvalidRequest)
    else if locked.None? then Result(w, SourceNotFound)
    else
      var source := locked.value;
      if ValidateSource(source).Some? then Result(w, ValidateSource(source).value)
      else if request.id in w.records then Result(w, Repeat(w, request, source))
      else if Objection(w, request, source, baseline, blank).Some? then
        Result(w, Objection(w, request, source, baseline, blank).value)
      else
        var kept, key := Admitted(source, baseline), request.answer.value;
        Result(Staged(w, request, kept, key), Replayed(Record(request.id, request.newId, kept, key), true))
  }

  /** What a lookup by failed row with `limit 1` may return. */
  ghost predicate IsBaseline(w: World, failedId: FailedId, baseline: Option<Record>) {
    if baseline.Some? then exists q :: ReplayOf(w, q, failedId) && w.records[q] == baseline.value
    else forall q :: !ReplayOf(w, q, failedId)
  }

  // ----- runs

  datatype Call =
    | Work(op: Op)
    | Fail(failedId: FailedId, jobId: JobId)
    | Forget(failedId: FailedId)
    | Ask(request: Request, baseline: Option<Record>)

  /** One committed call. A job fails while it is queued; failed rows may be removed by the host. */
  function Next(w: World, call: Call, blank: string -> bool): World {
    match call
    case Work(op) => w.(tables := Step(w.tables, op))
    case Fail(failedId, jobId) =>
      if failedId in w.failed || jobId !in w.tables.jobs then w
      else
        var row := w.tables.jobs[jobId];
        w.(failed := w.failed[failedId := FailedRow(jobId, row.capability, row.payload, row.queue)])
    case Forget(failedId) => w.(failed := w.failed - {failedId})
    case Ask(request, baseline) => Replay(w, request, baseline, blank).world
  }

  /** Each lookup of a run returns something the table holds at that moment. */
  ghost predicate Possible(w: World, call: Call) {
    call.Ask? ==> IsBaseline(w, call.request.failedId, call.baseline)
  }

  function After(calls: seq<Call>, blank: string -> bool): World {
    if calls == [] then World(Run([]), map[], map[])
    else Next(After(calls[..|calls| - 1], blank), calls[|calls| - 1], blank)
  }

  ghost predicate Reachable(calls: seq<Call>, blank: string -> bool) {
    forall i :: 0 <= i < |calls| ==> Possible(After(calls[..i], blank), calls[i])
  }

  /** Exactly when a request makes new work: it names a failed row of a valid job that is no fan-out, it is not
   *  recorded, the host admits it under a key that is not blank, an earlier replay of the row agrees in job and key,
   *  nothing of the row is queued, and the new identifiers are unused.
   */
  ghost predicate Welcome(w: World, request: Request, baseline: Option<Record>, blank: string -> bool) {
    && request.id != 0 && request.failedId != 0 && request.failedId in w.failed && request.id !in w.records
    && var row := w.failed[request.failedId];
    && row.jobId != NIL_ID && row.capability.version > 0
    && row.capability.name != "outbox.fanout.dispatch" && !("fanout." <= row.capability.name)
    && request.answer.Some? && !blank(request.answer.value)
    && (baseline.Some? ==>
          && baseline.value.businessKey == request.answer.value
          && baseline.value.source.failedId == request.failedId && baseline.value.source.originalJobId == row.jobId
          && baseline.value.source.capability == row.capability && baseline.value.source.payload == row.payload
          && baseline.value.source.queue == row.queue)
    && row.jobId !in w.tables.jobs
    && (forall q :: ReplayOf(w, q, request.failedId) ==> w.records[q].jobId !in w.tables.jobs)
    && request.newId != NIL_ID && request.newId !in w.tables.created
    && ("outbox.replay." + Decimal(request.id)) !in w.tables.keys
  }

  lemma CreatedIffWelcome(w: World, request: Request, baseline: Option<Record>, blank: string -> bool)
    ensures var reply := Replay(w, request, baseline, blank).reply;
      reply.Replayed? && reply.isNew <==> Welcome(w, request, baseline, blank)
  {
    if request.failedId in w.failed {
      var source := LockSource(w, request.failedId).value;
      assert Active(w, source) <==>
             || source.originalJobId in w.tables.jobs
             || exists q :: ReplayOf(w, q, request.failedId) && w.records[q].jobId in w.tables.jobs;
    }
  }

  /** In every run, whatever was replayed is a valid job and no fan-out. */
  lemma {:induction false} NoFanoutIsReplayed(calls: seq<Call>, blank: string -> bool, q: RequestId)
    requires q in After(calls, blank).records
    ensures var capability := After(calls, blank).records[q].source.capability;
      capability.version > 0 && capability.name != "outbox.fanout.dispatch" && !("fanout." <= capability.name)
  {
    var before, call := After(calls[..|calls| - 1], blank), calls[|calls| - 1];
    if q in before.records {
      NoFanoutIsReplayed(calls[..|calls| - 1], blank, q);
    }
  }

  // ----- what every run keeps

  /** All records of one failed row share their source and business key. */
  ghost predicate Shared(w: World) {
    forall p, q :: p in w.records && q in w.records && w.records[p].source.failedId == w.records[q].source.failedId ==>
                     w.records[p].source == w.records[q].source && w.records[p].businessKey == w.records[q].businessKey
  }

  /** A job that belongs to a failed row: the original or a replay. */
  ghost predicate Member(w: World, failedId: FailedId, id: JobId) {
    exists q :: ReplayOf(w, q, failedId) && (id == w.records[q].jobId || id == w.records[q].source.originalJobId)
  }

  /** At most one of the jobs of a failed row is queued. */
  ghost predicate OneActive(w: World) {
    forall f, a, b :: Member(w, f, a) && Member(w, f, b) && a in w.tables.jobs && b in w.tables.jobs ==> a == b
  }

  ghost predicate RowsExisted(w: World) {
    && (forall f :: f in w.failed ==> w.failed[f].jobId in w.tables.created)
    && (forall q :: q in w.records ==> RecordFits(w, q))
  }

  ghost predicate RecordFits(w: World, q: RequestId)
    requires q in w.records
  {
    var record := w.records[q];
    && record.requestId == q
    && record.jobId in w.tables.created
    && record.source.originalJobId in w.tables.created
    && w.tables.created[record.jobId].capability == record.source.capability
    && w.tables.created[record.jobId].payload == record.source.payload
    && w.tables.created[record.jobId].deduplicationKey == Some("outbox.replay." + Decimal(q))
  }

  ghost predicate Provenance(w: World) {
    Consistent(w.tables) && RowsExisted(w) && Shared(w) && OneActive(w)
  }

  /** A step of the job table forgets no inserted row and queues only rows that are new. */
  ghost predicate Grows(t: Tables, s: Tables) {
    && (forall id :: id in t.created ==> id in s.created && s.created[id] == t.created[id])
    && (forall id :: id in s.jobs ==> id in t.jobs || id !in t.created)
  }

  lemma {:induction false} PutsGrow(t: Tables, puts: seq<Put>, ids: seq<JobId>, now: Time, n: nat)
    requires n <= |puts| == |ids| && AllUnused(t, ids)
    ensures Grows(t, Fold(t, puts, ids, now, n))
  {
    if n > 0 {
      PutsGrow(t, puts, ids, now, n - 1);
    }
  }

  lemma StepGrows(t: Tables, op: Op)
    ensures Grows(t, Step(t, op))
  {
    if op.PutMany? && ManyCommit(t, op.puts, op.ids, op.now) {
      PutsGrow(t, op.puts, op.ids, op.now, |op.puts|);
    }
  }

  lemma GrowthKeepsRecords(w: World, s: Tables)
    requires RowsExisted(w) && Grows(w.tables, s)
    ensures RowsExisted(w.(tables := s))
  {
    var v := w.(tables := s);
    forall q | q in v.records ensures RecordFits(v, q) {
      assert RecordFits(w, q);
    }
  }

  lemma MembersExisted(w: World, failedId: FailedId, id: JobId)
    requires RowsExisted(w) && Member(w, failedId, id)
    ensures id in w.tables.created
  {
    var q :| ReplayOf(w, q, failedId) && (id == w.records[q].jobId || id == w.records[q].source.originalJobId);
    assert RecordFits(w, q);
  }

  lemma SameMembers(w: World, v: World, failedId: FailedId, id: JobId)
    requires v.records == w.records && Member(v, failedId, id)
    ensures Member(w, failedId, id)
  {
    var q :| ReplayOf(v, q, failedId) && (id == v.records[q].jobId || id == v.records[q].source.originalJobId);
    assert ReplayOf(w, q, failedId);
  }

  lemma GrowthKeepsOneActive(w: World, s: Tables)
    requires RowsExisted(w) && OneActive(w) && Grows(w.tables, s)
    ensures OneActive(w.(tables := s))
  {
    var v := w.(tables := s);
    forall f, a, b | Member(v, f, a) && Member(v, f, b) && a in v.tables.jobs && b in v.tables.jobs ensures a == b {
      SameMembers(w, v, f, a);
      SameMembers(w, v, f, b);
      MembersExisted(w, f, a);
      MembersExisted(w, f, b);
    }
  }

  lemma WorkKeepsProvenance(w: World, op: Op)
    requires Provenance(w)
    ensures Provenance(w.(tables := Step(w.tables, op)))
  {
    StepIsConsistent(w.tables, op);
    StepGrows(w.tables, op);
    GrowthKeepsRecords(w, Step(w.tables, op));
    GrowthKeepsOneActive(w, Step(w.tables, op));
  }

  /** Failed rows come and go without touching what is retained. */
  lemma FailedRowsKeepProvenance(w: World, failed: map<FailedId, FailedRow>)
    requires Provenance(w)
    requires forall f :: f in failed ==> failed[f].jobId in w.tables.created
    ensures Provenance(w.(failed := failed))
  {
    var v := w.(failed := failed);
    forall q | q in v.records ensures RecordFits(v, q) {
      assert RecordFits(w, q);
    }
    forall f, a, b | Member(v, f, a) && Member(v, f, b) && a in v.tables.jobs && b in v.tables.jobs ensures a == b {
      SameMembers(w, v, f, a);
      SameMembers(w, v, f, b);
    }
  }

  /** A request that gets past every objection. */
  ghost predicate Accepted(w: World, request: Request, source: Source, baseline: Option<Record>,
                           blank: string -> bool) {
    && IsBaseline(w, request.failedId, baseline)
    && LockSource(w, request.failedId) == Some(source)
    && request.id !in w.records
    && Objection(w, request, source, baseline, blank).None?
  }

  lemma AcceptedAgrees(w: World, request: Request, source: Source, baseline: Option<Record>, blank: string -> bool,
                       q: RequestId)
    requires Shared(w) && Accepted(w, request, source, baseline, blank) && ReplayOf(w, q, request.failedId)
    ensures w.records[q].source == Admitted(source, baseline) && Some(w.records[q].businessKey) == request.answer
  {
    assert baseline.Some?;
    var p :| ReplayOf(w, p, request.failedId) && w.records[p] == baseline.value;
    assert w.records[p].source == w.records[q].source && w.records[p].businessKey == w.records[q].businessKey;
  }

  lemma StagingKeepsShared(w: World, request: Request, source: Source, baseline: Option<Record>, blank: string -> bool)
    requires Shared(w) && Accepted(w, request, source, baseline, blank)
    ensures Shared(Staged(w, request, Admitted(source, baseline), request.answer.value))
  {
    forall q | ReplayOf(w, q, request.failedId)
      ensures w.records[q].source == Admitted(source, baseline) && Some(w.records[q].businessKey) == request.answer {
      AcceptedAgrees(w, request, source, baseline, blank, q);
    }
    var v := Staged(w, request, Admitted(source, baseline), request.answer.value);
    forall p, q | p in v.records && q in v.records && v.records[p].source.failedId == v.records[q].source.failedId
      ensures v.records[p].source == v.records[q].source && v.records[p].businessKey == v.records[q].businessKey {
      assert p != request.id && q == request.id ==> ReplayOf(w, p, request.failedId);
      assert q != request.id && p == request.id ==> ReplayOf(w, q, request.failedId);
    }
  }

  lemma StagedTablesGrow(t: Tables, request: Request, source: Source)
    requires Consistent(t)
    ensures Consistent(StagedTables(t, request, source))
    ensures Grows(t, StagedTables(t, request, source))
  {
    var put := PutUnique(ReplayPut(request, source), request.newId, request.now);
    var rewrite := Rewrite(request.newId, source.queue, 0, None, NIL_TOKEN, request.now);
    StepIsConsistent(t, put);
    StepIsConsistent(Step(t, put), rewrite);
    StepGrows(t, put);
    StepGrows(Step(t, put), rewrite);
  }

  lemma StagedRow(w: World, request: Request, source: Source)
    requires CanStage(w, request, source)
    ensures var t := StagedTables(w.tables, request, source);
            && request.newId in t.created && request.newId in t.jobs
            && t.created[request.newId] == NewRow(ReplayPut(request, source), request.newId, request.now)
            && t.jobs[request.newId].queue == source.queue
            && (forall id :: id in t.jobs ==> id in w.tables.jobs || id == request.newId)
  {
  }

  lemma StagingKeepsRows(w: World, request: Request, source: Source, key: string)
    requires Consistent(w.tables) && RowsExisted(w) && CanStage(w, request, source) && request.id !in w.records
    requires source.originalJobId in w.tables.created
    ensures RowsExisted(Staged(w, request, source, key))
  {
    StagedTablesGrow(w.tables, request, source);
    StagedRow(w, request, source);
    GrowthKeepsRecords(w, StagedTables(w.tables, request, source));
    var u, v := w.(tables := StagedTables(w.tables, request, source)), Staged(w, request, source, key);
    forall q | q in v.records ensures RecordFits(v, q) {
      assert q != request.id ==> RecordFits(u, q);
    }
  }

  /** When a request is accepted, no job of its failed row is queued. */
  lemma {:induction false} FamilyIsIdle(w: World, request: Request, source: Source, baseline: Option<Record>,
                                        blank: string -> bool, id: JobId)
    requires Shared(w) && Accepted(w, request, source, baseline, blank) && Member(w, request.failedId, id)
    ensures id !in w.tables.jobs
  {
    var q :| ReplayOf(w, q, request.failedId) && (id == w.records[q].jobId || id == w.records[q].source.originalJobId);
    AcceptedAgrees(w, request, source, baseline, blank, q);
  }

  lemma OlderMember(w: World, request: Request, source: Source, baseline: Option<Record>, blank: string -> bool,
                    f: FailedId, id: JobId)
    requires RowsExisted(w) && Shared(w) && Accepted(w, request, source, baseline, blank) && Member(w, f, id)
    ensures id != request.newId && (f == request.failedId ==> id !in w.tables.jobs)
  {
    MembersExisted(w, f, id);
    if f == request.failedId {
      FamilyIsIdle(w, request, source, baseline, blank, id);
    }
  }

  /** Which queued jobs belong to a failed row once the request is staged. */
  lemma StagedMember(w: World, request: Request, source: Source, baseline: Option<Record>, blank: string -> bool,
                     v: World, f: FailedId, id: JobId)
    requires RowsExisted(w) && Shared(w) && Accepted(w, request, source, baseline, blank)
    requires v.records == w.records[request.id := Record(request.id, request.newId, Admitted(source, baseline),
                                                         request.answer.value)]
    requires forall j :: j in v.tables.jobs ==> j in w.tables.jobs || j == request.newId
    requires Member(v, f, id) && id in v.tables.jobs
    ensures id == request.newId || (f != request.failedId && Member(w, f, id) && id in w.tables.jobs)
    ensures id == request.newId ==> f == request.failedId
  {
    var q :| ReplayOf(v, q, f) && (id == v.records[q].jobId || id == v.records[q].source.originalJobId);
    if q != request.id {
      assert ReplayOf(w, q, f);
      OlderMember(w, request, source, baseline, blank, f, id);
    }
  }

  lemma StagingKeepsOneActive(w: World, request: Request, source: Source, baseline: Option<Record>,
                              blank: string -> bool)
    requires Provenance(w) && Accepted(w, request, source, baseline, blank)
    ensures OneActive(Staged(w, request, Admitted(source, baseline), request.answer.value))
  {
    var v := Staged(w, request, Admitted(source, baseline), request.answer.value);
    StagedRow(w, request, Admitted(source, baseline));
    forall f, a, b | Member(v, f, a) && Member(v, f, b) && a in v.tables.jobs && b in v.tables.jobs ensures a == b {
      StagedMember(w, request, source, baseline, blank, v, f, a);
      StagedMember(w, request, source, baseline, blank, v, f, b);
    }
  }

  lemma StagingKeepsProvenance(w: World, request: Request, source: Source, baseline: Option<Record>,
                               blank: string -> bool)
    requires Provenance(w) && Accepted(w, request, source, baseline, blank)
    ensures Provenance(Staged(w, request, Admitted(source, baseline), request.answer.value))
  {
    StagedTablesGrow(w.tables, request, Admitted(source, baseline));
    StagingKeepsRows(w, request, Admitted(source, baseline), request.answer.value);
    StagingKeepsShared(w, request, source, baseline, blank);
    StagingKeepsOneActive(w, request, source, baseline, blank);
  }

  lemma AskKeepsProvenance(w: World, request: Request, baseline: Option<Record>, blank: string -> bool)
    requires Provenance(w) && IsBaseline(w, request.failedId, baseline)
    ensures Provenance(Replay(w, request, baseline, blank).world)
  {
    if Replay(w, request, baseline, blank).world != w {
      StagingKeepsProvenance(w, request, LockSource(w, request.failedId).value, baseline, blank);
    }
  }

  lemma CallKeepsProvenance(w: World, call: Call, blank: string -> bool)
    requires Provenance(w) && Possible(w, call)
    ensures Provenance(Next(w, call, blank))
  {
    match call
    case Work(op) => WorkKeepsProvenance(w, op);
    case Ask(request, baseline) => AskKeepsProvenance(w, request, baseline, blank);
    case Fail(_, jobId) =>
      assert jobId in w.tables.jobs ==> RowIsRegistered(w.tables, jobId);
      FailedRowsKeepProvenance(w, Next(w, call, blank).failed);
    case Forget(_) =>
      FailedRowsKeepProvenance(w, Next(w, call, blank).failed);
  }

  /** In every reachable state the records of one failed row agree, at most one of its jobs is queued, and
   *  each record names a job inserted for its request with its source's content. */
  lemma {:induction false} ProvenanceHolds(calls: seq<Call>, blank: string -> bool)
    requires Reachable(calls, blank)
    ensures Provenance(After(calls, blank))
  {
    if calls == [] {
      RegistryHolds([]);
    } else {
      var before := calls[..|calls| - 1];
      forall i | 0 <= i < |before| ensures Possible(After(before[..i], blank), before[i]) {
        assert before[..i] == calls[..i];
      }
      ProvenanceHolds(before, blank);
      CallKeepsProvenance(After(before, blank), calls[|calls| - 1], blank);
    }
  }

  /** It does not matter which earlier record the lookup returns. */
  lemma {:induction false} AnyBaselineWillDo(w: World, request: Request, a: Option<Record>, b: Option<Record>,
                                             blank: string -> bool)
    requires Shared(w) && IsBaseline(w, request.failedId, a) && IsBaseline(w, request.failedId, b)
    ensures Replay(w, request, a, blank) == Replay(w, request, b, blank)
  {
    if a.Some? && b.Some? {
      var p :| ReplayOf(w, p, request.failedId) && w.records[p] == a.value;
      var q :| ReplayOf(w, q, request.failedId) && w.records[q] == b.value;
      assert a.value.source == b.value.source && a.value.businessKey == b.value.businessKey;
    }
  }

  // ----- repeating a request

  /** The failed row still describes the operation that was recorded. */
  predicate StillDescribes(w: World, request: Request, record: Record) {
    && request.id != 0 && request.failedId != 0
    && request.failedId in w.failed
    && record.source.failedId == request.failedId
    && w.failed[request.failedId]
       == FailedRow(record.source.originalJobId, record.source.capability, record.source.payload, record.source.queue)
    && ValidateSource(record.source).None?
  }

  /** A recorded request never makes new work. It is answered with its record exactly when the failed row still
   *  describes the same operation and the host admits the same key; queue and registry have no say. */
  lemma {:induction false} RepeatingIsQuiet(w: World, request: Request, baseline: Option<Record>, blank: string -> bool)
    requires request.id in w.records
    ensures Replay(w, request, baseline, blank).world == w
    ensures var prior, reply := w.records[request.id], Replay(w, request, baseline, blank).reply;
            && (reply.Replayed? ==> reply == Replayed(prior, false))
            && (reply.Replayed? <==> StillDescribes(w, request, prior) && request.answer == Some(prior.businessKey))
  {
    var prior := w.records[request.id];
    var locked := LockSource(w, request.failedId);
    if locked.Some? {
      assert Keeping(locked.value, prior) == prior.source ==>
          ValidateSource(locked.value) == ValidateSource(prior.source);
      assert Keeping(locked.value, prior) == prior.source <==>
             prior.source.failedId == request.failedId
             && w.failed[request.failedId]
                == FailedRow(prior.source.originalJobId, prior.source.capability, prior.source.payload,
                             prior.source.queue);
    }
  }

  lemma {:induction false} RecordsAreRetained(calls: seq<Call>, m: nat, q: RequestId, blank: string -> bool)
    requires m <= |calls| && q in After(calls[..m], blank).records
    ensures q in After(calls, blank).records && After(calls, blank).records[q] == After(calls[..m], blank).records[q]
  {
    if m == |calls| {
      assert calls[..m] == calls;
    } else {
      var before := calls[..|calls| - 1];
      assert before[..m] == calls[..m];
      RecordsAreRetained(before, m, q, blank);
    }
  }

  lemma ReplayedIsRecorded(w: World, request: Request, baseline: Option<Record>, blank: string -> bool)
    requires Replay(w, request, baseline, blank).reply.Replayed?
    ensures var result := Replay(w, request, baseline, blank);
            request.id in result.world.records && result.world.records[request.id] == result.reply.record
  {
  }

  /** Whatever happens after a replay is created (the job finishes, keys are pruned, other requests come), its request
   *  id never creates anything again, and every successful repeat returns the same record. */
  lemma {:induction false} ReplayIsRemembered(calls: seq<Call>, m: nat, request: Request, baseline: Option<Record>,
                           again: Request, lookup: Option<Record>, blank: string -> bool)
    requires m < |calls| && calls[m] == Ask(request, baseline) && again.id == request.id
    requires Replay(After(calls[..m], blank), request, baseline, blank).reply.Replayed?
    ensures var result := Replay(After(calls, blank), again, lookup, blank);
            && result.world == After(calls, blank)
            && (result.reply.Replayed? ==>
                  && !result.reply.isNew
                  && result.reply.record == Replay(After(calls[..m], blank), request, baseline, blank).reply.record)
  {
    assert calls[..m + 1][..m] == calls[..m];
    ReplayedIsRecorded(After(calls[..m], blank), request, baseline, blank);
    RecordsAreRetained(calls, m + 1, request.id, blank);
    RepeatingIsQuiet(After(calls, blank), again, lookup, blank);
  }

  /** The request as the code runs it: the lookup takes any record of the failed row, and the result is the
   *  one every lookup would have led to. */
  method Perform(w: World, request: Request, blank: string -> bool) returns (w': World, reply: Reply)
    requires Shared(w)
    ensures forall baseline :: IsBaseline(w, request.failedId, baseline) ==>
                                 Result(w', reply) == Replay(w, request, baseline, blank)
  {
    var baseline: Option<Record> := FindBaseline(w, request.failedId);
    forall other | IsBaseline(w, request.failedId, other)
      ensures Replay(w, request, baseline, blank) == Replay(w, request, other, blank) {
      AnyBaselineWillDo(w, request, baseline, other, blank);
    }
    w', reply := PerformWith(w, request, baseline, blank);
  }

  method FindBaseline(w: World, failedId: FailedId) returns (baseline: Option<Record>)
    ensures IsBaseline(w, failedId, baseline)
  {
    baseline := None;
    var left := w.records.Keys;
    while left != {}
      invariant left <= w.records.Keys
      invariant forall q :: q in w.records && q !in left ==> w.records[q].source.failedId != failedId
      decreases |left|
    {
      var q :| q in left;
      if w.records[q].source.failedId == failedId {
        assert ReplayOf(w, q, failedId);
        return Some(w.records[q]);
      }
      left := left - {q};
    }
  }

  method PerformWith(w: World, request: Request, baseline: Option<Record>, blank: string -> bool)
    returns (w': World, reply: Reply)
    ensures Result(w', reply) == Replay(w, request, baseline, blank)
  {
    if request.id == 0 || request.failedId == 0 {
      return w, InvalidRequest;
    }
    var locked := LockSource(w, request.failedId);
    if locked.None? {
      return w, SourceNotFound;
    }
    var source := locked.value;
    var invalid := ValidateSource(source);
    if invalid.Some? {
      return w, invalid.value;
    }
    if request.id in w.records {
      return w, Repeat(w, request, source);
    }
    if baseline.Some? {
      source := source.(originalKey := baseline.value.source.originalKey);
      if source != baseline.value.source {
        return w, RequestConflict;
      }
    }
    if request.answer.None? {
      return w, AdmissionFailed;
    }
    var key := request.answer.value;
    if blank(key) {
      return w, NotAdmitted;
    }
    if baseline.Some? && key != baseline.value.businessKey {
      return w, RequestConflict;
    }
    if Active(w, source) {
      return w, SourceActive;
    }
    w', reply := Stage(w, request, source, key);
  }

  /** The unique put, the queue copy and the retained record. */
  method Stage(w: World, request: Request, source: Source, key: string) returns (w': World, reply: Reply)
    requires request.id !in w.records
    ensures !Unused(w.tables, request.newId) ==> w' == w && reply == StageFailed
    ensures Unused(w.tables, request.newId) && !CanStage(w, request, source) ==> w' == w && reply == RequestConflict
    ensures CanStage(w, request, source) ==>
              && w' == Staged(w, request, source, key)
              && reply == Replayed(Record(request.id, request.newId, source, key), true)
    ensures reply.Replayed? ==>
              && w'.tables.jobs == w.tables.jobs[request.newId :=
                   Job(request.newId, source.queue, source.capability, source.payload, 0, None, NIL_TOKEN,
                       Some("outbox.replay." + Decimal(request.id)), request.now, request.now)]
              && w'.failed == w.failed
  {
    if !Unused(w.tables, request.newId) {
      return w, StageFailed;
    }
    var put := ReplayPut(request, source);
    var answer := AnswerTo(w.tables, put, request.newId);
    if !answer.Stored? || !answer.isNew {
      return w, RequestConflict;
    }
    var tables := AfterPut(w.tables, put, request.newId, request.now);
    var row := tables.jobs[request.newId];
    tables := tables.(jobs := tables.jobs[request.newId := row.(queue := source.queue)]);
    var record := Record(request.id, request.newId, source, key);
    w' := w.(tables := tables, records := w.records[request.id := record]);
    reply := Replayed(record, true);
  }
}
