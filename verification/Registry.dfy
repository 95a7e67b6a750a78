/** The registry of idempotency keys beside the job table: unique puts, unique batch puts and the
 *  pruning of tombstones, and what every run of them keeps.
 */
module Registry {
  import opened Jobs
  import opened Encoding

  datatype Put = Put(key: string, capability: Capability, payload: string, availableAt: Time)

  /** A fingerprint. The original hashes a canonical text of these fields; the text determines them
   *  (`TextsDetermineFingerprints`), so a collision-free digest is as good as the fields. */
  datatype Fingerprint = Fingerprint(capability: Capability, payload: string, availableAt: Time)

  datatype Key = Key(jobId: JobId, fingerprint: Fingerprint, createdAt: Time)

  /** `created` holds each row as it was inserted; `inserted` and `pruned` count keys over the run. */
  datatype Tables = Tables(
    keys: map<string, Key>,
    jobs: map<JobId, Job>,
    created: map<JobId, Job>,
    inserted: multiset<string>,
    pruned: multiset<string>)

  datatype Answer = Invalid | Conflict | Stored(jobId: JobId, isNew: bool)

  const MAX_PRUNE: nat := 10_000
  const DEFAULT_QUEUE := "queue"

  function Signed(n: int): string {
    if n < 0 then "-" + Decimal(-n) else Decimal(n)
  }

  /** The text that is hashed. */
  function FingerprintText(f: Fingerprint): string {
    Canonical(f.capability.name, Signed(f.capability.version), f.payload, Signed(f.availableAt))
  }

  lemma SignedIsInjective(a: int, b: int)
    requires Signed(a) == Signed(b)
    ensures a == b
  {
    DecimalReadsBack(if a < 0 then -a else a);
    DecimalReadsBack(if b < 0 then -b else b);
    assert !IsDigit('-');
    assert a < 0 ==> Signed(a)[0] == '-' && Signed(a)[1..] == Decimal(-a);
    assert b < 0 ==> Signed(b)[0] == '-' && Signed(b)[1..] == Decimal(-b);
  }

  lemma SignedReadsBack(n: int)
    ensures ReadSigned(Signed(n)) == n
  {
    DecimalReadsBack(if n < 0 then -n else n);
    assert !IsDigit('-');
    assert n < 0 ==> Signed(n)[1..] == Decimal(-n);
    assert n >= 0 ==> Signed(n)[0] != '-';
  }

  /** Two fingerprint texts are equal exactly when the jobs they describe are. */
  lemma TextsDetermineFingerprints(f: Fingerprint, g: Fingerprint)
    ensures FingerprintText(f) == FingerprintText(g) <==> f == g
  {
    if FingerprintText(f) == FingerprintText(g) {
      CanonicalIsInjective(f.capability.name, Signed(f.capability.version), f.payload, Signed(f.availableAt),
                           g.capability.name, Signed(g.capability.version), g.payload, Signed(g.availableAt));
      SignedIsInjective(f.capability.version, g.capability.version);
      SignedIsInjective(f.availableAt, g.availableAt);
    }
  }

  function PutFingerprint(put: Put): Fingerprint {
    Fingerprint(put.capability, put.payload, put.availableAt)
  }

  function NewRow(put: Put, id: JobId, now: Time): Job {
    Job(id, DEFAULT_QUEUE, put.capability, put.payload, 0, None, NIL_TOKEN, Some(put.key), put.availableAt, now)
  }

  predicate ValidPut(put: Put) {
    put.key != "" && put.capability.version > 0
  }

  predicate Unused(t: Tables, id: JobId) {
    id != NIL_ID && id !in t.created
  }

  function Inserted(t: Tables, put: Put, id: JobId, now: Time): Tables {
    var row := NewRow(put, id, now);
    Tables(t.keys[put.key := Key(id, PutFingerprint(put), now)], t.jobs[id := row], t.created[id := row],
           t.inserted + multiset{put.key}, t.pruned)
  }

  /** A unique put, as the table sees it. */
  function AnswerTo(t: Tables, put: Put, id: JobId): Answer {
    if !ValidPut(put) then Invalid
    else if put.key !in t.keys then Stored(id, true)
    else if t.keys[put.key].fingerprint == PutFingerprint(put) then Stored(t.keys[put.key].jobId, false)
    else Conflict
  }

  function AfterPut(t: Tables, put: Put, id: JobId, now: Time): Tables {
    if ValidPut(put) && put.key !in t.keys then Inserted(t, put, id, now) else t
  }

  // ----- the two ways the backends write a unique put

  /** One statement: upsert guarded by the fingerprint, insert the job if the returned row is ours. */
  method PutByUpsert(t: Tables, put: Put, id: JobId, now: Time) returns (t': Tables, answer: Answer)
    requires Consistent(t) && Unused(t, id)
    ensures t' == AfterPut(t, put, id, now)
    ensures answer == AnswerTo(t, put, id)
  {
    if put.key == "" || put.capability.version <= 0 {
      return t, Invalid;
    }
    var key := Key(id, PutFingerprint(put), now);
    var keys, returned := t.keys, None;
    if put.key !in t.keys {
      keys, returned := t.keys[put.key := key], Some(id);
    } else if t.keys[put.key].fingerprint == key.fingerprint {
      returned := Some(t.keys[put.key].jobId);
    }
    if returned.None? {
      return t, Conflict;
    }
    assert put.key in t.keys ==> t.keys[put.key].jobId in t.created;
    t' := t.(keys := keys);
    if returned.value == id {
      var row := NewRow(put, id, now);
      t' := t'.(jobs := t'.jobs[id := row], created := t'.created[id := row],
                inserted := t'.inserted + multiset{put.key});
    }
    answer := Stored(returned.value, returned.value == id);
  }

  /** Several statements: insert or ignore, read the key back, compare, insert the job. */
  method PutByReadBack(t: Tables, put: Put, id: JobId, now: Time) returns (t': Tables, answer: Answer)
    requires Consistent(t) && Unused(t, id)
    ensures t' == AfterPut(t, put, id, now)
    ensures answer == AnswerTo(t, put, id)
  {
    if put.key == "" || put.capability.version <= 0 {
      return t, Invalid;
    }
    var affected := if put.key in t.keys then 0 else 1;
    t' := if affected == 0 then t else t.(keys := t.keys[put.key := Key(id, PutFingerprint(put), now)]);
    var stored := t'.keys[put.key];
    if stored.fingerprint != PutFingerprint(put) {
      return t, Conflict;
    }
    if affected == 0 {
      return t', Stored(stored.jobId, false);
    }
    var row := NewRow(put, stored.jobId, now);
    t' := t'.(jobs := t'.jobs[stored.jobId := row], created := t'.created[stored.jobId := row],
              inserted := t'.inserted + multiset{put.key});
    answer := Stored(stored.jobId, true);
  }

  // ----- what every run keeps

  /** The registered key names the row that was inserted for it. */
  ghost predicate KeysNameRows(t: Tables) {
    forall k :: k in t.keys ==> KeyNamesRow(t, k)
  }

  ghost predicate KeyNamesRow(t: Tables, k: string)
    requires k in t.keys
  {
    var id := t.keys[k].jobId;
    && id in t.created
    && t.created[id].deduplicationKey == Some(k)
    && t.keys[k].fingerprint == Fingerprint(t.created[id].capability, t.created[id].payload, t.created[id].availableAt)
  }

  /** An active row with a key is the row its key is registered for. */
  ghost predicate RowsAreRegistered(t: Tables) {
    forall id :: id in t.jobs ==> RowIsRegistered(t, id)
  }

  ghost predicate RowIsRegistered(t: Tables, id: JobId)
    requires id in t.jobs
  {
    && t.jobs[id].id == id
    && id in t.created
    && t.jobs[id].deduplicationKey == t.created[id].deduplicationKey
    && (t.jobs[id].deduplicationKey.Some? ==>
          var k := t.jobs[id].deduplicationKey.value;
          k in t.keys && t.keys[k].jobId == id)
  }

  ghost predicate Consistent(t: Tables) {
    && KeysNameRows(t)
    && RowsAreRegistered(t)
    && t.inserted == t.pruned + multiset(t.keys.Keys)
  }

  datatype Op =
    | PutUnique(put: Put, id: JobId, now: Time)
    | PutMany(puts: seq<Put>, ids: seq<JobId>, now: Time)
    | PutPlain(id: JobId, capability: Capability, payload: string, availableAt: Time, now: Time)
    | Rewrite(id: JobId, queue: string, attempts: int, reservedAt: Option<Time>, token: LeaseToken, availableAt: Time)
    | Remove(id: JobId)
    | Prune(gone: set<string>, before: Time, limit: int)

  predicate Prunable(t: Tables, k: string, before: Time) {
    k in t.keys && t.keys[k].createdAt < before && forall id :: id in t.jobs ==> t.jobs[id].deduplicationKey != Some(k)
  }

  predicate PruneAllowed(t: Tables, op: Op)
    requires op.Prune?
  {
    1 <= op.limit <= MAX_PRUNE && |op.gone| <= op.limit && forall k :: k in op.gone ==> Prunable(t, k, op.before)
  }

  function Pruned(t: Tables, gone: set<string>): Tables {
    t.(keys := t.keys - gone, pruned := t.pruned + multiset(gone))
  }

  function Rewritten(row: Job, op: Op): Job
    requires op.Rewrite?
  {
    row.(queue := op.queue, attempts := op.attempts, reservedAt := op.reservedAt, token := op.token,
         availableAt := op.availableAt)
  }

  /** One committed call; a call the tables refuse changes nothing. */
  function Step(t: Tables, op: Op): Tables {
    match op
    case PutUnique(put, id, now) => if Unused(t, id) then AfterPut(t, put, id, now) else t
    case PutMany(puts, ids, now) => if ManyCommit(t, puts, ids, now) then AfterPuts(t, puts, ids, now) else t
    case PutPlain(id, capability, payload, availableAt, now) =>
      if !Unused(t, id) || capability.version <= 0 then t
      else
        var row := Job(id, DEFAULT_QUEUE, capability, payload, 0, None, NIL_TOKEN, None, availableAt, now);
        t.(jobs := t.jobs[id := row], created := t.created[id := row])
    case Rewrite(id, _, _, _, _, _) =>
      if id in t.jobs then t.(jobs := t.jobs[id := Rewritten(t.jobs[id], op)]) else t
    case Remove(id) => t.(jobs := t.jobs - {id})
    case Prune(gone, _, _) => if PruneAllowed(t, op) then Pruned(t, gone) else t
  }

  function Run(ops: seq<Op>): Tables {
    if ops == [] then Tables(map[], map[], map[], multiset{}, multiset{})
    else Step(Run(ops[..|ops| - 1]), ops[|ops| - 1])
  }

  // ----- batches

  /** The table after the first `n` puts, made one by one. */
  function Fold(t: Tables, puts: seq<Put>, ids: seq<JobId>, now: Time, n: nat): Tables
    requires n <= |puts| == |ids|
  {
    if n == 0 then t else AfterPut(Fold(t, puts, ids, now, n - 1), puts[n - 1], ids[n - 1], now)
  }

  function AfterPuts(t: Tables, puts: seq<Put>, ids: seq<JobId>, now: Time): Tables
    requires |puts| == |ids|
  {
    Fold(t, puts, ids, now, |puts|)
  }

  /** The answer to put `i`, asked of the table the earlier ones left. */
  function Answered(t: Tables, puts: seq<Put>, ids: seq<JobId>, now: Time, i: nat): Answer
    requires i < |puts| == |ids|
  {
    AnswerTo(Fold(t, puts, ids, now, i), puts[i], ids[i])
  }

  function AnswersTo(t: Tables, puts: seq<Put>, ids: seq<JobId>, now: Time): (answers: seq<Answer>)
    requires |puts| == |ids|
    ensures |answers| == |puts|
  {
    seq(|puts|, i requires 0 <= i < |puts| => Answered(t, puts, ids, now, i))
  }

  /** The unique puts of one transaction commit when every one of them is stored. */
  predicate ManyCommit(t: Tables, puts: seq<Put>, ids: seq<JobId>, now: Time) {
    && |ids| == |puts|
    && AllUnused(t, ids)
    && forall i :: 0 <= i < |puts| ==> Answered(t, puts, ids, now, i).Stored?
  }

  predicate DistinctKeys(puts: seq<Put>) {
    forall i, j :: 0 <= i < j < |puts| ==> puts[i].key != puts[j].key
  }

  predicate ValidBatch(puts: seq<Put>) {
    && 1 <= |puts| <= MAX_RESERVATION_BATCH_SIZE
    && (forall i :: 0 <= i < |puts| ==> ValidPut(puts[i]))
    && DistinctKeys(puts)
  }

  predicate Clashes(t: Tables, put: Put) {
    put.key in t.keys && t.keys[put.key].fingerprint != PutFingerprint(put)
  }

  predicate AllUnused(t: Tables, ids: seq<JobId>) {
    NoDuplicates(ids) && forall i :: 0 <= i < |ids| ==> Unused(t, ids[i])
  }

  predicate BatchCommits(t: Tables, puts: seq<Put>, ids: seq<JobId>) {
    && |ids| == |puts|
    && ValidBatch(puts)
    && AllUnused(t, ids)
    && forall i :: 0 <= i < |puts| ==> !Clashes(t, puts[i])
  }

  // ----- proofs

  lemma InsertedKeysNameRows(t: Tables, put: Put, id: JobId, now: Time)
    requires KeysNameRows(t) && Unused(t, id) && put.key !in t.keys
    ensures KeysNameRows(Inserted(t, put, id, now))
  {
    var s := Inserted(t, put, id, now);
    assert KeyNamesRow(s, put.key);
    forall k | k in s.keys && k != put.key ensures KeyNamesRow(s, k) {
      assert KeyNamesRow(t, k);
    }
  }

  lemma InsertedRowsAreRegistered(t: Tables, put: Put, id: JobId, now: Time)
    requires RowsAreRegistered(t) && Unused(t, id) && put.key !in t.keys
    ensures RowsAreRegistered(Inserted(t, put, id, now))
  {
    var s := Inserted(t, put, id, now);
    assert RowIsRegistered(s, id);
    forall j | j in s.jobs && j != id ensures RowIsRegistered(s, j) {
      assert RowIsRegistered(t, j);
    }
  }

  lemma OneMore(keys: set<string>, k: string)
    requires k !in keys
    ensures multiset(keys + {k}) == multiset(keys) + multiset{k}
  {
  }

  lemma InsertedIsConsistent(t: Tables, put: Put, id: JobId, now: Time)
    requires Consistent(t) && Unused(t, id) && put.key !in t.keys
    ensures Consistent(Inserted(t, put, id, now))
  {
    InsertedKeysNameRows(t, put, id, now);
    InsertedRowsAreRegistered(t, put, id, now);
    OneMore(t.keys.Keys, put.key);
    assert Inserted(t, put, id, now).keys.Keys == t.keys.Keys + {put.key};
  }

  lemma PutIsConsistent(t: Tables, put: Put, id: JobId, now: Time)
    requires Consistent(t) && Unused(t, id)
    ensures Consistent(AfterPut(t, put, id, now))
  {
    if put.key !in t.keys {
      InsertedIsConsistent(t, put, id, now);
    }
  }

  /** Each put uses up its own id and no later one. */
  lemma {:induction false} PutsAreConsistent(t: Tables, puts: seq<Put>, ids: seq<JobId>, now: Time, n: nat)
    requires Consistent(t) && n <= |puts| == |ids| && AllUnused(t, ids)
    ensures Consistent(Fold(t, puts, ids, now, n))
    ensures forall i :: n <= i < |ids| ==> Unused(Fold(t, puts, ids, now, n), ids[i])
  {
    if n > 0 {
      PutsAreConsistent(t, puts, ids, now, n - 1);
      PutIsConsistent(Fold(t, puts, ids, now, n - 1), puts[n - 1], ids[n - 1], now);
    }
  }

  lemma PruneIsConsistent(t: Tables, op: Op)
    requires Consistent(t) && op.Prune? && PruneAllowed(t, op)
    ensures Consistent(Pruned(t, op.gone))
  {
    var s := Pruned(t, op.gone);
    forall k | k in s.keys ensures KeyNamesRow(s, k) {
      assert KeyNamesRow(t, k);
    }
    forall id | id in s.jobs ensures RowIsRegistered(s, id) {
      assert RowIsRegistered(t, id);
    }
    assert op.gone <= t.keys.Keys;
    assert s.keys.Keys == t.keys.Keys - op.gone;
  }

  /** Keys keep naming their rows while no inserted row is forgotten. */
  lemma KeysKeepNaming(t: Tables, s: Tables)
    requires KeysNameRows(t) && s.keys == t.keys
    requires forall id :: id in t.created ==> id in s.created && s.created[id] == t.created[id]
    ensures KeysNameRows(s)
  {
    forall k | k in s.keys ensures KeyNamesRow(s, k) {
      assert KeyNamesRow(t, k);
    }
  }

  lemma RowStepKeepsKeys(t: Tables, op: Op)
    requires op.PutPlain? || op.Rewrite? || op.Remove?
    ensures var s := Step(t, op);
            && s.keys == t.keys && s.inserted == t.inserted && s.pruned == t.pruned
            && (forall id :: id in t.created ==> id in s.created && s.created[id] == t.created[id])
  {
  }

  lemma RowStepKeepsRows(t: Tables, op: Op)
    requires RowsAreRegistered(t) && (op.PutPlain? || op.Rewrite? || op.Remove?)
    ensures RowsAreRegistered(Step(t, op))
  {
    forall id | id in Step(t, op).jobs ensures RowIsRegistered(Step(t, op), id) {
      assert id in t.jobs ==> RowIsRegistered(t, id);
    }
  }

  /** One pruning removes no more keys than its limit says, and none at all unless that is between 1 and 10,000. */
  lemma PruningIsBounded(t: Tables, op: Op)
    requires op.Prune?
    ensures Step(t, op).keys.Keys <= t.keys.Keys
    ensures |t.keys.Keys - Step(t, op).keys.Keys| <= if op.limit > 0 then op.limit else 0
    ensures !(1 <= op.limit <= 10_000) ==> Step(t, op) == t
    ensures Step(t, op).jobs == t.jobs && Step(t, op).created == t.created
  {
    var gone := t.keys.Keys - Step(t, op).keys.Keys;
    if PruneAllowed(t, op) {
      assert gone <= op.gone;
      SubsetCardinality(gone, op.gone);
    } else {
      assert gone == {};
    }
  }

  lemma RowStepIsConsistent(t: Tables, op: Op)
    requires Consistent(t) && (op.PutPlain? || op.Rewrite? || op.Remove?)
    ensures Consistent(Step(t, op))
  {
    RowStepKeepsKeys(t, op);
    KeysKeepNaming(t, Step(t, op));
    RowStepKeepsRows(t, op);
  }

  lemma StepIsConsistent(t: Tables, op: Op)
    requires Consistent(t)
    ensures Consistent(Step(t, op))
  {
    match op
    case PutUnique(put, id, now) =>
      if Unused(t, id) { PutIsConsistent(t, put, id, now); }
    case PutMany(puts, ids, now) =>
      if ManyCommit(t, puts, ids, now) { PutsAreConsistent(t, puts, ids, now, |puts|); }
    case Prune(_, _, _) =>
      if PruneAllowed(t, op) { PruneIsConsistent(t, op); }
    case _ => RowStepIsConsistent(t, op);
  }

  /** In every reachable state each key names the row inserted for it, each active row with a key is
   *  the one its key names, and a key was inserted once per pruning and once more while registered. */
  lemma {:induction false} RegistryHolds(ops: seq<Op>)
    ensures Consistent(Run(ops))
  {
    if ops != [] {
      RegistryHolds(ops[..|ops| - 1]);
      StepIsConsistent(Run(ops[..|ops| - 1]), ops[|ops| - 1]);
    }
  }

  // ----- keys over a run

  lemma {:induction false} PutsKeepKeys(t: Tables, puts: seq<Put>, ids: seq<JobId>, now: Time, n: nat)
    requires n <= |puts| == |ids|
    ensures var s := Fold(t, puts, ids, now, n);
            s.pruned == t.pruned && forall k :: k in t.keys ==> k in s.keys && s.keys[k] == t.keys[k]
  {
    if n > 0 {
      PutsKeepKeys(t, puts, ids, now, n - 1);
    }
  }

  /** A step forgets a key only by pruning it, and never changes it. */
  lemma StepKeepsKey(t: Tables, op: Op, k: string)
    ensures Step(t, op).pruned[k] >= t.pruned[k]
    ensures k in t.keys && Step(t, op).pruned[k] == t.pruned[k] ==>
              k in Step(t, op).keys && Step(t, op).keys[k] == t.keys[k]
  {
    if op.PutMany? && ManyCommit(t, op.puts, op.ids, op.now) {
      PutsKeepKeys(t, op.puts, op.ids, op.now, |op.puts|);
    }
  }

  lemma {:induction false} PrunesOnlyGrow(ops: seq<Op>, m: nat, k: string)
    requires m <= |ops|
    ensures Run(ops[..m]).pruned[k] <= Run(ops).pruned[k]
  {
    if m == |ops| {
      assert ops[..m] == ops;
    } else {
      var before := ops[..|ops| - 1];
      assert before[..m] == ops[..m];
      PrunesOnlyGrow(before, m, k);
      StepKeepsKey(Run(before), ops[|ops| - 1], k);
    }
  }

  /** Until it is pruned, a registered key keeps its job and its fingerprint. */
  lemma {:induction false} KeyIsStable(ops: seq<Op>, m: nat, k: string)
    requires m <= |ops| && k in Run(ops[..m]).keys
    requires Run(ops).pruned[k] == Run(ops[..m]).pruned[k]
    ensures k in Run(ops).keys && Run(ops).keys[k] == Run(ops[..m]).keys[k]
  {
    if m == |ops| {
      assert ops[..m] == ops;
    } else {
      var before := ops[..|ops| - 1];
      assert before[..m] == ops[..m];
      PrunesOnlyGrow(before, m, k);
      StepKeepsKey(Run(before), ops[|ops| - 1], k);
      KeyIsStable(before, m, k);
    }
  }

  /** Every pruning from step `m` on spares keys created at or after `cutoff`. */
  ghost predicate PrunesOlder(ops: seq<Op>, m: nat, cutoff: Time) {
    forall i :: m <= i < |ops| && ops[i].Prune? ==> ops[i].before <= cutoff
  }

  /** A key outlives every pruning that asks only for keys older than it. */
  lemma {:induction false} KeyOutlivesOlderPrunes(ops: seq<Op>, m: nat, k: string)
    requires m <= |ops| && k in Run(ops[..m]).keys && PrunesOlder(ops, m, Run(ops[..m]).keys[k].createdAt)
    ensures Run(ops).pruned[k] == Run(ops[..m]).pruned[k]
    ensures k in Run(ops).keys && Run(ops).keys[k] == Run(ops[..m]).keys[k]
  {
    if m == |ops| {
      assert ops[..m] == ops;
    } else {
      var before := ops[..|ops| - 1];
      assert before[..m] == ops[..m];
      KeyOutlivesOlderPrunes(before, m, k);
      OlderPruneSpares(Run(before), ops[|ops| - 1], k);
    }
  }

  lemma OlderPruneSpares(t: Tables, op: Op, k: string)
    requires k in t.keys && (op.Prune? ==> op.before <= t.keys[k].createdAt)
    ensures Step(t, op).pruned[k] == t.pruned[k]
    ensures k in Step(t, op).keys && Step(t, op).keys[k] == t.keys[k]
  {
    if op.PutMany? && ManyCommit(t, op.puts, op.ids, op.now) {
      PutsKeepKeys(t, op.puts, op.ids, op.now, |op.puts|);
    }
    StepKeepsKey(t, op, k);
  }

  /** How often a job was inserted for a key: once per pruning, and once more while registered. */
  lemma InsertionsAreCounted(ops: seq<Op>, k: string)
    ensures Run(ops).inserted[k] == Run(ops).pruned[k] + if k in Run(ops).keys then 1 else 0
  {
    RegistryHolds(ops);
    assert k in Run(ops).keys <==> k in Run(ops).keys.Keys;
  }

  /** While its job is active a key cannot be pruned. */
  lemma ActiveKeyIsNotPruned(ops: seq<Op>, op: Op, id: JobId)
    requires id in Run(ops).jobs && Run(ops).jobs[id].deduplicationKey.Some?
    ensures var k := Run(ops).jobs[id].deduplicationKey.value;
            && Run(ops + [op]).pruned[k] == Run(ops).pruned[k]
            && k in Run(ops + [op]).keys && Run(ops + [op]).keys[k].jobId == id
  {
    var t, k := Run(ops), Run(ops).jobs[id].deduplicationKey.value;
    RegistryHolds(ops);
    assert RowIsRegistered(t, id);
    assert (ops + [op])[..|ops|] == ops;
    if op.PutMany? && ManyCommit(t, op.puts, op.ids, op.now) {
      PutsKeepKeys(t, op.puts, op.ids, op.now, |op.puts|);
    }
    StepKeepsKey(t, op, k);
  }

  predicate Registered(t: Tables, put: Put) {
    put.key in t.keys && t.keys[put.key].fingerprint == PutFingerprint(put)
  }

  lemma StoredIsRegistered(t: Tables, put: Put, id: JobId, now: Time)
    requires AnswerTo(t, put, id).Stored?
    ensures var after := AfterPut(t, put, id, now);
            Registered(after, put) && after.keys[put.key].jobId == AnswerTo(t, put, id).jobId
  {
  }

  lemma StepStores(ops: seq<Op>, m: nat, put: Put, id: JobId, now: Time)
    requires m < |ops| && ops[m] == PutUnique(put, id, now)
    requires Unused(Run(ops[..m]), id) && AnswerTo(Run(ops[..m]), put, id).Stored?
    ensures var after := Run(ops[..m + 1]);
            Registered(after, put) && after.keys[put.key].jobId == AnswerTo(Run(ops[..m]), put, id).jobId
  {
    assert ops[..m + 1][..m] == ops[..m];
    StoredIsRegistered(Run(ops[..m]), put, id, now);
  }

  /** What a registered key answers to. */
  lemma RegisteredDecides(t: Tables, put: Put, again: Put, id: JobId)
    requires Registered(t, put) && ValidPut(again) && again.key == put.key
    ensures AnswerTo(t, again, id) == if again == put then Stored(t.keys[put.key].jobId, false) else Conflict
  {
  }

  /** Once a put is stored, and until its key is pruned, the same put answers with the same job and
   *  changes nothing, and every other put under that key is a conflict, finished job or not. */
  lemma FirstPutDecides(ops: seq<Op>, m: nat, put: Put, id: JobId, again: Put, newId: JobId, now: Time)
    requires m < |ops| && ops[m] == PutUnique(put, id, now)
    requires Unused(Run(ops[..m]), id) && AnswerTo(Run(ops[..m]), put, id).Stored?
    requires Run(ops).pruned[put.key] == Run(ops[..m + 1]).pruned[put.key]
    requires ValidPut(again) && again.key == put.key
    ensures AnswerTo(Run(ops), again, newId)
         == if again == put then Stored(AnswerTo(Run(ops[..m]), put, id).jobId, false) else Conflict
    ensures AfterPut(Run(ops), again, newId, now) == Run(ops)
  {
    StepStores(ops, m, put, id, now);
    KeyIsStable(ops, m + 1, put.key);
    RegisteredDecides(Run(ops), put, again, newId);
  }

  // ----- a batch is the fold of its puts

  /** No earlier put of a batch registers a later one's key. */
  lemma {:induction false} FoldLeavesLater(t: Tables, puts: seq<Put>, ids: seq<JobId>, now: Time, n: nat, i: nat)
    requires n <= i < |puts| == |ids| && DistinctKeys(puts)
    ensures puts[i].key in Fold(t, puts, ids, now, n).keys <==> puts[i].key in t.keys
  {
    if n > 0 {
      FoldLeavesLater(t, puts, ids, now, n - 1, i);
    }
  }

  lemma {:induction false} FoldKeepsKey(t: Tables, puts: seq<Put>, ids: seq<JobId>, now: Time, m: nat, n: nat,
                                        k: string)
    requires m <= n <= |puts| == |ids|
    requires k in Fold(t, puts, ids, now, m).keys
    ensures k in Fold(t, puts, ids, now, n).keys
    ensures Fold(t, puts, ids, now, n).keys[k] == Fold(t, puts, ids, now, m).keys[k]
    decreases n
  {
    if m < n {
      FoldKeepsKey(t, puts, ids, now, m, n - 1, k);
    }
  }

  /** What the registry holds for put `i` once every key of the batch is registered. */
  ghost function Lookup(t: Tables, put: Put, id: JobId, now: Time): Key {
    if put.key in t.keys then t.keys[put.key] else Key(id, PutFingerprint(put), now)
  }

  lemma FoldRegisters(t: Tables, puts: seq<Put>, ids: seq<JobId>, now: Time, i: nat)
    requires i < |puts| == |ids| && DistinctKeys(puts) && ValidPut(puts[i])
    ensures puts[i].key in Fold(t, puts, ids, now, i + 1).keys
    ensures Fold(t, puts, ids, now, i + 1).keys[puts[i].key] == Lookup(t, puts[i], ids[i], now)
  {
    FoldLeavesLater(t, puts, ids, now, i, i);
    PutsKeepKeys(t, puts, ids, now, i);
  }

  lemma FoldLookup(t: Tables, puts: seq<Put>, ids: seq<JobId>, now: Time, i: nat)
    requires i < |puts| == |ids| && DistinctKeys(puts) && ValidPut(puts[i])
    ensures puts[i].key in Fold(t, puts, ids, now, |puts|).keys
    ensures Fold(t, puts, ids, now, |puts|).keys[puts[i].key] == Lookup(t, puts[i], ids[i], now)
  {
    FoldRegisters(t, puts, ids, now, i);
    FoldKeepsKey(t, puts, ids, now, i + 1, |puts|, puts[i].key);
  }

  /** The fingerprint check and the id comparison of the batch, against the single put. */
  lemma LookupAnswers(t: Tables, puts: seq<Put>, ids: seq<JobId>, now: Time, i: nat)
    requires i < |puts| == |ids| && DistinctKeys(puts) && ValidPut(puts[i])
    requires KeysNameRows(t) && Unused(t, ids[i])
    ensures var stored := Lookup(t, puts[i], ids[i], now);
            && (stored.fingerprint != PutFingerprint(puts[i]) <==> Clashes(t, puts[i]))
            && (!Clashes(t, puts[i]) ==>
                  AnswerTo(Fold(t, puts, ids, now, i), puts[i], ids[i]) == Stored(stored.jobId, stored.jobId == ids[i]))
            && (stored.jobId == ids[i] <==> puts[i].key !in Fold(t, puts, ids, now, i).keys)
  {
    assert puts[i].key in t.keys ==> KeyNamesRow(t, puts[i].key);
    FoldLeavesLater(t, puts, ids, now, i, i);
    PutsKeepKeys(t, puts, ids, now, i);
  }

  /** Put by put, the fold meets a conflict exactly where the batch clashes with the table it started from. */
  lemma ConflictIsClash(t: Tables, puts: seq<Put>, ids: seq<JobId>, now: Time, i: nat)
    requires i < |puts| == |ids| && DistinctKeys(puts) && ValidPut(puts[i])
    ensures Answered(t, puts, ids, now, i).Conflict? <==> Clashes(t, puts[i])
    ensures Answered(t, puts, ids, now, i).Stored? <==> !Clashes(t, puts[i])
  {
    FoldLeavesLater(t, puts, ids, now, i, i);
    PutsKeepKeys(t, puts, ids, now, i);
  }

  /** A batch commits exactly when it is well formed and its puts, made one by one, are all stored. */
  lemma BatchIsOneTransaction(t: Tables, puts: seq<Put>, ids: seq<JobId>, now: Time)
    ensures BatchCommits(t, puts, ids) <==> ValidBatch(puts) && ManyCommit(t, puts, ids, now)
  {
    if |puts| == |ids| && ValidBatch(puts) {
      forall i | 0 <= i < |puts| ensures Answered(t, puts, ids, now, i).Stored? <==> !Clashes(t, puts[i]) {
        ConflictIsClash(t, puts, ids, now, i);
      }
    }
  }

  // ----- the puts of one transaction, repeated

  /** A committed transaction registers every one of its puts. */
  lemma ManyAreRegistered(t: Tables, puts: seq<Put>, ids: seq<JobId>, now: Time, i: nat)
    requires i < |puts| && ManyCommit(t, puts, ids, now)
    ensures Registered(AfterPuts(t, puts, ids, now), puts[i])
  {
    assert Answered(t, puts, ids, now, i).Stored?;
    FoldKeepsKey(t, puts, ids, now, i + 1, |puts|, puts[i].key);
  }

  lemma {:induction false} RepeatingStoresNothing(t: Tables, puts: seq<Put>, ids: seq<JobId>, now: Time, n: nat)
    requires n <= |puts| == |ids|
    requires forall i :: 0 <= i < |puts| ==> puts[i].key in t.keys
    ensures Fold(t, puts, ids, now, n) == t
  {
    if n > 0 {
      RepeatingStoresNothing(t, puts, ids, now, n - 1);
    }
  }

  /** Repeating puts that are all registered stores nothing and conflicts with nothing. */
  lemma RepeatingCommits(t: Tables, puts: seq<Put>, ids: seq<JobId>, now: Time)
    requires |puts| == |ids| && AllUnused(t, ids)
    requires forall put :: put in puts ==> ValidPut(put) && Registered(t, put)
    ensures ManyCommit(t, puts, ids, now) && AfterPuts(t, puts, ids, now) == t
  {
    assert forall i :: 0 <= i < |puts| ==> puts[i] in puts;
    RepeatingStoresNothing(t, puts, ids, now, |puts|);
    forall i | 0 <= i < |puts| ensures Answered(t, puts, ids, now, i).Stored? {
      RepeatingStoresNothing(t, puts, ids, now, i);
    }
  }

  datatype BatchAnswer = Refused | Clashed | Accepted(answers: seq<Answer>)

  method CheckBatch(puts: seq<Put>) returns (ok: bool)
    ensures ok <==> ValidBatch(puts)
  {
    if |puts| < 1 || |puts| > MAX_RESERVATION_BATCH_SIZE {
      return false;
    }
    var seen: set<string> := {};
    for i := 0 to |puts|
      invariant forall k :: k in seen <==> exists j :: 0 <= j < i && puts[j].key == k
      invariant forall j :: 0 <= j < i ==> ValidPut(puts[j])
      invariant DistinctKeys(puts[..i])
    {
      if puts[i].key == "" || puts[i].key in seen || puts[i].capability.version <= 0 {
        return false;
      }
      seen := seen + {puts[i].key};
    }
    assert puts[..|puts|] == puts;
    return true;
  }

  method RegisterKeys(t: Tables, puts: seq<Put>, ids: seq<JobId>, now: Time) returns (keys: map<string, Key>)
    requires |puts| == |ids| && ValidBatch(puts)
    ensures keys == Fold(t, puts, ids, now, |puts|).keys
  {
    keys := t.keys;
    for i := 0 to |puts|
      invariant keys == Fold(t, puts, ids, now, i).keys
    {
      if puts[i].key !in keys {
        keys := keys[puts[i].key := Key(ids[i], PutFingerprint(puts[i]), now)];
      }
    }
  }

  /** What the check of put `i` relies on. */
  ghost predicate CanCheck(t: Tables, puts: seq<Put>, ids: seq<JobId>, i: nat) {
    i < |puts| == |ids| && ValidPut(puts[i]) && Unused(t, ids[i]) && KeysNameRows(t) && DistinctKeys(puts)
  }

  /** The check of one fingerprint and the insert of one job, given the registered keys. */
  method AcceptNext(ghost t: Tables, current: Tables, keys: map<string, Key>, puts: seq<Put>, ids: seq<JobId>,
                    now: Time, i: nat)
    returns (clash: bool, next: Tables, answer: Answer)
    requires |puts| == |ids| && CanCheck(t, puts, ids, i)
    requires current == Fold(t, puts, ids, now, i) && keys == Fold(t, puts, ids, now, |puts|).keys
    ensures clash <==> Clashes(t, puts[i])
    ensures !clash ==> next == Fold(t, puts, ids, now, i + 1)
    ensures !clash ==> answer == Answered(t, puts, ids, now, i)
  {
    FoldLookup(t, puts, ids, now, i);
    LookupAnswers(t, puts, ids, now, i);
    var stored := keys[puts[i].key];
    if stored.fingerprint != PutFingerprint(puts[i]) {
      return true, current, Conflict;
    }
    var isNew := stored.jobId == ids[i];
    clash, answer := false, Stored(stored.jobId, isNew);
    next := if isNew then Inserted(current, puts[i], ids[i], now) else current;
  }

  lemma AnswersAre(t: Tables, puts: seq<Put>, ids: seq<JobId>, now: Time, all: seq<Answer>)
    requires |all| == |puts| == |ids| && forall i :: 0 <= i < |all| ==> all[i] == Answered(t, puts, ids, now, i)
    ensures all == AnswersTo(t, puts, ids, now)
  {
  }

  method AcceptAll(t: Tables, keys: map<string, Key>, puts: seq<Put>, ids: seq<JobId>, now: Time)
    returns (t': Tables, answers: Option<seq<Answer>>)
    requires |puts| == |ids| && keys == Fold(t, puts, ids, now, |puts|).keys
    requires forall i :: 0 <= i < |puts| ==> CanCheck(t, puts, ids, i)
    ensures answers.None? <==> exists i :: 0 <= i < |puts| && Clashes(t, puts[i])
    ensures answers.None? ==> t' == t
    ensures answers.Some? ==> t' == AfterPuts(t, puts, ids, now) && answers.value == AnswersTo(t, puts, ids, now)
  {
    var all: seq<Answer> := [];
    t' := t;
    for i := 0 to |puts|
      invariant forall j :: 0 <= j < i ==> !Clashes(t, puts[j])
      invariant |all| == i && forall j :: 0 <= j < i ==> all[j] == Answered(t, puts, ids, now, j)
      invariant t' == Fold(t, puts, ids, now, i)
    {
      var clash, one;
      clash, t', one := AcceptNext(t, t', keys, puts, ids, now, i);
      if clash {
        return t, None;
      }
      all := all + [one];
    }
    AnswersAre(t, puts, ids, now, all);
    answers := Some(all);
  }

  /** A batch put in one transaction: register every key, check every fingerprint, insert the jobs.
   *  It is the ordered fold of single puts, or nothing. */
  method PutBatchInOneTransaction(t: Tables, puts: seq<Put>, ids: seq<JobId>, now: Time)
    returns (t': Tables, answer: BatchAnswer)
    requires Consistent(t) && |ids| == |puts| && AllUnused(t, ids)
    ensures answer.Refused? <==> !ValidBatch(puts)
    ensures answer.Accepted? <==> BatchCommits(t, puts, ids)
    ensures answer.Accepted? ==> t' == AfterPuts(t, puts, ids, now) && answer.answers == AnswersTo(t, puts, ids, now)
    ensures !answer.Accepted? ==> t' == t
  {
    var valid := CheckBatch(puts);
    if !valid {
      return t, Refused;
    }
    var keys := RegisterKeys(t, puts, ids, now);
    var answers;
    t', answers := AcceptAll(t, keys, puts, ids, now);
    answer := if answers.None? then Clashed else Accepted(answers.value);
  }

  // ----- the same batch as one statement

  /** What the guarded upsert returns for put `i`: its key and job, unless the stored fingerprint differs. */
  ghost predicate Returns(t: Tables, puts: seq<Put>, ids: seq<JobId>, now: Time, returned: map<string, JobId>, i: nat) {
    && i < |puts| == |ids|
    && (puts[i].key in returned <==> !Clashes(t, puts[i]))
    && (puts[i].key in returned ==> returned[puts[i].key] == Lookup(t, puts[i], ids[i], now).jobId)
  }

  /** The upsert of every key, guarded by its fingerprint. */
  method UpsertKeys(t: Tables, puts: seq<Put>, ids: seq<JobId>, now: Time) returns (returned: map<string, JobId>)
    requires |puts| == |ids| && DistinctKeys(puts)
    ensures forall i :: 0 <= i < |puts| ==> Returns(t, puts, ids, now, returned, i)
  {
    returned := map[];
    for i := 0 to |puts|
      invariant forall k :: 0 <= k < i ==> Returns(t, puts, ids, now, returned, k)
      invariant forall k :: i <= k < |puts| ==> puts[k].key !in returned
    {
      ghost var before := returned;
      if puts[i].key !in t.keys {
        returned := returned[puts[i].key := ids[i]];
      } else if t.keys[puts[i].key].fingerprint == PutFingerprint(puts[i]) {
        returned := returned[puts[i].key := t.keys[puts[i].key].jobId];
      }
      forall k | 0 <= k < i ensures Returns(t, puts, ids, now, returned, k) {
        assert Returns(t, puts, ids, now, before, k);
        assert puts[k].key != puts[i].key;
      }
    }
  }

  /** The joined row of put `i` and the insert that goes with it, against the single put. */
  lemma JoinStep(t: Tables, puts: seq<Put>, ids: seq<JobId>, now: Time, returned: map<string, JobId>, i: nat)
    requires |puts| == |ids| && CanCheck(t, puts, ids, i) && Returns(t, puts, ids, now, returned, i)
    requires !Clashes(t, puts[i])
    ensures var id, at := returned[puts[i].key], Fold(t, puts, ids, now, i);
      && Answered(t, puts, ids, now, i) == Stored(id, id == ids[i])
      && Fold(t, puts, ids, now, i + 1) == if id == ids[i] then Inserted(at, puts[i], ids[i], now) else at
  {
    LookupAnswers(t, puts, ids, now, i);
  }

  /** The join of the input with the returned keys: complete exactly when nothing clashes. */
  method JoinRows(t: Tables, returned: map<string, JobId>, puts: seq<Put>, ids: seq<JobId>, now: Time)
    returns (t': Tables, rows: seq<Answer>)
    requires |puts| == |ids|
    requires forall i :: 0 <= i < |puts| ==> CanCheck(t, puts, ids, i) && Returns(t, puts, ids, now, returned, i)
    ensures |rows| == |puts| <==> forall i :: 0 <= i < |puts| ==> !Clashes(t, puts[i])
    ensures |rows| == |puts| ==> t' == AfterPuts(t, puts, ids, now) && rows == AnswersTo(t, puts, ids, now)
  {
    t', rows := t, [];
    for i := 0 to |puts|
      invariant |rows| <= i && (|rows| == i <==> forall k :: 0 <= k < i ==> !Clashes(t, puts[k]))
      invariant |rows| == i ==> t' == Fold(t, puts, ids, now, i)
      invariant |rows| == i ==> forall k :: 0 <= k < i ==> rows[k] == Answered(t, puts, ids, now, k)
    {
      assert CanCheck(t, puts, ids, i) && Returns(t, puts, ids, now, returned, i);
      if puts[i].key in returned {
        JoinStep(t, puts, ids, now, returned, i);
        var id := returned[puts[i].key];
        rows := rows + [Stored(id, id == ids[i])];
        if id == ids[i] {
          t' := Inserted(t', puts[i], ids[i], now);
        }
      }
    }
    if |rows| == |puts| {
      AnswersAre(t, puts, ids, now, rows);
    }
  }

  /** A batch put as one statement: rows are missing from the join when a fingerprint differs, and the count then rolls
   *  the transaction back. It is the same fold of single puts, or nothing.
   */
  method PutBatchInOneStatement(t: Tables, puts: seq<Put>, ids: seq<JobId>, now: Time)
    returns (t': Tables, answer: BatchAnswer)
    requires Consistent(t) && |ids| == |puts| && AllUnused(t, ids)
    ensures answer.Refused? <==> !ValidBatch(puts)
    ensures answer.Accepted? <==> BatchCommits(t, puts, ids)
    ensures answer.Accepted? ==> t' == AfterPuts(t, puts, ids, now) && answer.answers == AnswersTo(t, puts, ids, now)
    ensures !answer.Accepted? ==> t' == t
  {
    var valid := CheckBatch(puts);
    if !valid {
      return t, Refused;
    }
    var returned := UpsertKeys(t, puts, ids, now);
    var rows;
    t', rows := JoinRows(t, returned, puts, ids, now);
    if |rows| != |puts| {
      return t, Clashed;
    }
    answer := Accepted(rows);
  }

  method StageNext(ghost t: Tables, current: Tables, puts: seq<Put>, ids: seq<JobId>, now: Time, i: nat)
    returns (next: Tables, stored: bool)
    requires Consistent(t) && i < |ids| == |puts| && AllUnused(t, ids)
    requires current == Fold(t, puts, ids, now, i)
    ensures next == Fold(t, puts, ids, now, i + 1)
    ensures stored <==> Answered(t, puts, ids, now, i).Stored?
  {
    PutsAreConsistent(t, puts, ids, now, i);
    var answer;
    next, answer := PutByUpsert(current, puts[i], ids[i], now);
    stored := answer.Stored?;
  }

  /** Unique puts one after another in one transaction, rolled back on the first that is not stored or
   *  when the context is cancelled. */
  method StageAll(t: Tables, puts: seq<Put>, ids: seq<JobId>, now: Time, cancelledAt: Option<nat>)
    returns (t': Tables, ok: bool)
    requires Consistent(t) && |ids| == |puts| && AllUnused(t, ids)
    ensures ok ==> t' == AfterPuts(t, puts, ids, now)
    ensures !ok ==> t' == t
    ensures ok <==> ManyCommit(t, puts, ids, now) && (cancelledAt.Some? ==> cancelledAt.value >= |puts|)
  {
    t' := t;
    for i := 0 to |puts|
      invariant t' == Fold(t, puts, ids, now, i)
      invariant forall j :: 0 <= j < i ==> Answered(t, puts, ids, now, j).Stored?
      invariant cancelledAt.Some? ==> cancelledAt.value >= i
    {
      if cancelledAt == Some(i) {
        return t, false;
      }
      var stored;
      t', stored := StageNext(t, t', puts, ids, now, i);
      if !stored {
        return t, false;
      }
    }
    ok := true;
  }

  // ----- a transaction somewhere in a run

  /** The transaction of `puts` at step `m` of the run commits. */
  ghost predicate Committed(ops: seq<Op>, m: nat, puts: seq<Put>, ids: seq<JobId>, now: Time) {
    && m < |ops|
    && ops[m] == PutMany(puts, ids, now)
    && ManyCommit(Run(ops[..m]), puts, ids, now)
  }

  /** The row was inserted for the put. */
  ghost predicate InsertedFor(row: Job, put: Put) {
    && row.deduplicationKey == Some(put.key)
    && row.capability == put.capability
    && row.payload == put.payload
    && row.availableAt == put.availableAt
  }

  /** A row as it must be inserted: under its own identifier, in the default queue, not attempted and not reserved. */
  ghost predicate Fresh(row: Job, id: JobId) {
    && row.id == id && row.queue == "queue" && row.attempts == 0 && row.capability.version > 0
    && row.reservedAt.None? && row.token == NIL_TOKEN && row.deduplicationKey != Some("")
  }

  ghost predicate AllFresh(t: Tables) {
    forall id :: id in t.created ==> Fresh(t.created[id], id)
  }

  lemma {:induction false} FoldKeepsFresh(t: Tables, puts: seq<Put>, ids: seq<JobId>, now: Time, n: nat)
    requires n <= |puts| == |ids| && AllFresh(t)
    ensures AllFresh(Fold(t, puts, ids, now, n))
  {
    if n > 0 {
      FoldKeepsFresh(t, puts, ids, now, n - 1);
    }
  }

  /** In every run, every row was inserted like that. */
  lemma {:induction false} RowsStartFresh(ops: seq<Op>)
    ensures AllFresh(Run(ops))
  {
    if ops != [] {
      var before, op := Run(ops[..|ops| - 1]), ops[|ops| - 1];
      RowsStartFresh(ops[..|ops| - 1]);
      if op.PutMany? && ManyCommit(before, op.puts, op.ids, op.now) {
        FoldKeepsFresh(before, op.puts, op.ids, op.now, |op.puts|);
      }
    }
  }

  lemma StaysRegistered(ops: seq<Op>, m: nat, puts: seq<Put>, ids: seq<JobId>, now: Time, i: nat)
    requires Committed(ops, m, puts, ids, now) && i < |puts|
    requires Run(ops).pruned[puts[i].key] == Run(ops[..m + 1]).pruned[puts[i].key]
    ensures Registered(Run(ops), puts[i])
  {
    assert ops[..m + 1][..m] == ops[..m];
    ManyAreRegistered(Run(ops[..m]), puts, ids, now, i);
    KeyIsStable(ops, m + 1, puts[i].key);
  }

  lemma RegisteredRow(ops: seq<Op>, put: Put)
    requires Registered(Run(ops), put)
    ensures exists id :: id in Run(ops).created && InsertedFor(Run(ops).created[id], put)
  {
    RegistryHolds(ops);
    assert KeyNamesRow(Run(ops), put.key);
    var row := Run(ops).created[Run(ops).keys[put.key].jobId];
    assert InsertedFor(row, put);
  }

  lemma OneInsertionWhileUnpruned(ops: seq<Op>, m: nat, puts: seq<Put>, ids: seq<JobId>, now: Time, i: nat)
    requires Committed(ops, m, puts, ids, now) && i < |puts|
    requires Run(ops).pruned[puts[i].key] == 0
    ensures Run(ops).inserted[puts[i].key] == 1
    ensures exists id :: id in Run(ops).created && InsertedFor(Run(ops).created[id], puts[i])
                         && Fresh(Run(ops).created[id], id)
  {
    RowsStartFresh(ops);
    PrunesOnlyGrow(ops, m + 1, puts[i].key);
    StaysRegistered(ops, m, puts, ids, now, i);
    InsertionsAreCounted(ops, puts[i].key);
    RegisteredRow(ops, puts[i]);
  }

  lemma StoredPutsAreValid(t: Tables, puts: seq<Put>, ids: seq<JobId>, now: Time, i: nat)
    requires ManyCommit(t, puts, ids, now) && i < |puts|
    ensures ValidPut(puts[i])
  {
    assert Answered(t, puts, ids, now, i).Stored?;
  }

  lemma CommittingAgainIsQuiet(ops: seq<Op>, m: nat, puts: seq<Put>, ids: seq<JobId>, now: Time,
                               newIds: seq<JobId>, later: Time)
    requires Committed(ops, m, puts, ids, now)
    requires forall i :: 0 <= i < |puts| ==> Run(ops).pruned[puts[i].key] == Run(ops[..m + 1]).pruned[puts[i].key]
    requires |newIds| == |puts| && AllUnused(Run(ops), newIds)
    ensures ManyCommit(Run(ops), puts, newIds, later)
    ensures Run(ops + [PutMany(puts, newIds, later)]) == Run(ops)
  {
    forall put | put in puts ensures ValidPut(put) && Registered(Run(ops), put) {
      var i :| 0 <= i < |puts| && puts[i] == put;
      StaysRegistered(ops, m, puts, ids, now, i);
      StoredPutsAreValid(Run(ops[..m]), puts, ids, now, i);
    }
    RepeatingCommits(Run(ops), puts, newIds, later);
    assert (ops + [PutMany(puts, newIds, later)])[..|ops|] == ops;
  }

  lemma CommitPrunesNothing(ops: seq<Op>, m: nat, puts: seq<Put>, ids: seq<JobId>, now: Time)
    requires Committed(ops, m, puts, ids, now) && m + 1 == |ops|
    ensures Run(ops).pruned == Run(ops[..m]).pruned
  {
    PutsKeepKeys(Run(ops[..m]), puts, ids, now, |puts|);
  }

  lemma RegisteredOnceMore(ops: seq<Op>, put: Put)
    requires Registered(Run(ops), put)
    ensures Run(ops).inserted[put.key] == Run(ops).pruned[put.key] + 1
  {
    InsertionsAreCounted(ops, put.key);
  }

  lemma OneInsertionIffNeverPruned(ops: seq<Op>, m: nat, puts: seq<Put>, ids: seq<JobId>, now: Time, i: nat)
    requires Committed(ops, m, puts, ids, now) && m + 1 == |ops| && i < |puts|
    ensures Run(ops).inserted[puts[i].key] == 1 <==> Run(ops[..m]).pruned[puts[i].key] == 0
  {
    CommitPrunesNothing(ops, m, puts, ids, now);
    assert ops[..m + 1] == ops;
    StaysRegistered(ops, m, puts, ids, now, i);
    RegisteredOnceMore(ops, puts[i]);
  }

  /** What a host can do about it: while it prunes only keys older than this one, its job is inserted no second time. */
  lemma {:induction false} OneInsertionWhilePrunesAreOlder(ops: seq<Op>, m: nat, k: string)
    requires m <= |ops| && k in Run(ops[..m]).keys && PrunesOlder(ops, m, Run(ops[..m]).keys[k].createdAt)
    ensures Run(ops).inserted[k] == Run(ops[..m]).inserted[k]
    ensures Run(ops[..m]).pruned[k] == 0 ==> Run(ops).inserted[k] == 1
  {
    KeyOutlivesOlderPrunes(ops, m, k);
    InsertionsAreCounted(ops, k);
    InsertionsAreCounted(ops[..m], k);
  }

  /** The run that inserts twice: put, finish, prune, put again. */
  lemma PrunedPutIsRepeated(put: Put)
    requires ValidPut(put)
    ensures var ops := [PutMany([put], [1], 0), Remove(1), Prune({put.key}, 1, 1), PutMany([put], [2], 2)];
      Run(ops).inserted[put.key] == 2
  {
    var first, done, prune, second := PutMany([put], [1], 0), Remove(1), Prune({put.key}, 1, 1), PutMany([put], [2], 2);
    var ops := [first, done, prune, second];
    assert ops[..3] == [first, done, prune] && [first, done, prune][..2] == [first, done];
    assert [first, done][..1] == [first] && [first][..0] == [];
    OnePut(Run([]), put, 1, 0);
    assert Run([first]) == Inserted(Run([]), put, 1, 0);
    assert Run([first, done]).jobs == map[];
    OnePut(Run([first, done, prune]), put, 2, 2);
  }

  lemma OnePut(t: Tables, put: Put, id: JobId, now: Time)
    requires ValidPut(put) && Unused(t, id) && put.key !in t.keys
    ensures ManyCommit(t, [put], [id], now) && AfterPuts(t, [put], [id], now) == Inserted(t, put, id, now)
  {
    assert Fold(t, [put], [id], now, 0) == t;
  }
}
