/** Fan-out: the canonical form of a snapshot, and the dispatcher that stages one delivery per target. */
module Fanout {
  import opened Jobs
  import opened Encoding
  import opened Ordering
  import opened Registry

  datatype Event = Event(id: nat, topic: string, version: int, payload: string, occurredAt: Time)

  datatype Target = Target(kind: string, id: string, snapshot: string)

  datatype Snapshot = Snapshot(event: Event, targets: seq<Target>, availableAt: Time)

  /** The two checks that belong to libraries: JSON syntax and white space. */
  datatype Rules = Rules(jsonValid: string -> bool, blank: string -> bool)

  const MAX_NAME: nat := 255
  const MAX_TARGET_ID: nat := 512

  predicate ValidEvent(rules: Rules, e: Event) {
    && e.id != 0
    && ValidToken(e.topic, true)
    && |DeliveryJobName("consumer", e.topic)| <= MAX_NAME
    && e.version > 0
    && e.occurredAt != ZERO_TIME
    && rules.jsonValid(e.payload)
  }

  function Filled(target: Target): Target {
    if target.snapshot == "" then target.(snapshot := "{}") else target
  }

  predicate NormalTarget(rules: Rules, target: Target) {
    && ValidToken(target.kind, false)
    && !rules.blank(target.id)
    && |target.id| <= MAX_TARGET_ID
    && |DeliveryJobName(target.kind, "topic")| <= MAX_NAME
    && rules.jsonValid(Filled(target).snapshot)
  }

  predicate ValidTarget(rules: Rules, topic: string, target: Target) {
    NormalTarget(rules, target) && |DeliveryJobName(target.kind, topic)| <= MAX_NAME
  }

  function Pair(target: Target): (string, string) {
    (target.kind, target.id)
  }

  predicate Acceptable(rules: Rules, s: Snapshot) {
    && ValidEvent(rules, s.event)
    && (forall target :: target in s.targets ==> ValidTarget(rules, s.event.topic, target))
    && NoDuplicates(Each(Pair, s.targets))
  }

  // ----- the order of targets

  predicate LexLe(a: string, b: string) {
    a == "" || (b != "" && (a[0] < b[0] || (a[0] == b[0] && LexLe(a[1..], b[1..]))))
  }

  /** Byte by byte: a text comes before another up to their first difference. */
  ghost predicate Precedes(a: string, b: string) {
    exists n :: 0 <= n <= |a| && n <= |b| && DiffersAt(a, b, n)
  }

  ghost predicate DiffersAt(a: string, b: string, n: nat) {
    n <= |a| && n <= |b| && a[..n] == b[..n] && (n == |a| || (n < |b| && a[n] < b[n]))
  }

  lemma {:induction false} LexMeans(a: string, b: string)
    ensures LexLe(a, b) <==> Precedes(a, b)
  {
    if a == "" {
      assert DiffersAt(a, b, 0);
    } else if b != "" {
      LexMeans(a[1..], b[1..]);
      if LexLe(a, b) {
        if a[0] < b[0] {
          assert DiffersAt(a, b, 0);
        } else {
          var n :| 0 <= n <= |a[1..]| && n <= |b[1..]| && DiffersAt(a[1..], b[1..], n);
          assert a[..n + 1] == [a[0]] + a[1..][..n] && b[..n + 1] == [b[0]] + b[1..][..n];
          assert DiffersAt(a, b, n + 1);
        }
      }
      if Precedes(a, b) {
        var n :| 0 <= n <= |a| && n <= |b| && DiffersAt(a, b, n);
        if n > 0 {
          assert a[..n][0] == b[..n][0];
          assert a[1..][..n - 1] == a[..n][1..] && b[1..][..n - 1] == b[..n][1..];
          assert DiffersAt(a[1..], b[1..], n - 1);
        }
      }
    }
  }

  predicate TargetLe(a: Target, b: Target) {
    if a.kind == b.kind then LexLe(a.id, b.id) else LexLe(a.kind, b.kind)
  }

  lemma {:induction false} LexTotal(a: string, b: string)
    ensures LexLe(a, b) || LexLe(b, a)
    ensures LexLe(a, b) && LexLe(b, a) ==> a == b
  {
    if a != "" && b != "" {
      LexTotal(a[1..], b[1..]);
      assert a == [a[0]] + a[1..] && b == [b[0]] + b[1..];
    }
  }

  lemma {:induction false} LexTransitive(a: string, b: string, c: string)
    requires LexLe(a, b) && LexLe(b, c)
    ensures LexLe(a, c)
  {
    if a != "" && a[0] == b[0] && b[0] == c[0] {
      LexTransitive(a[1..], b[1..], c[1..]);
    }
  }

  lemma TargetsAreOrdered()
    ensures TotalPreorder(TargetLe)
  {
    forall a, b ensures TargetLe(a, b) || TargetLe(b, a) {
      LexTotal(a.id, b.id);
      LexTotal(a.kind, b.kind);
    }
    forall a, b, c | TargetLe(a, b) && TargetLe(b, c) ensures TargetLe(a, c) {
      LexTotal(a.kind, b.kind);
      LexTotal(b.kind, c.kind);
      if a.kind == b.kind == c.kind {
        LexTransitive(a.id, b.id, c.id);
      } else {
        assert LexLe(a.kind, b.kind) && LexLe(b.kind, c.kind) by { LexTotal(a.kind, a.kind); LexTotal(c.kind, c.kind); }
        LexTransitive(a.kind, b.kind, c.kind);
        LexTotal(a.kind, c.kind);
      }
    }
  }

  lemma DistinctTargetsDoNotTie(targets: seq<Target>)
    requires NoDuplicates(Each(Pair, targets))
    ensures NoTies(targets, TargetLe)
  {
    forall x, y | x in targets && y in targets && TargetLe(x, y) && TargetLe(y, x) ensures x == y {
      LexTotal(x.id, y.id);
      LexTotal(x.kind, y.kind);
      var i :| 0 <= i < |targets| && targets[i] == x;
      var j :| 0 <= j < |targets| && targets[j] == y;
      assert Each(Pair, targets)[i] == Each(Pair, targets)[j];
    }
  }

  // ----- normalization

  ghost function Canonicalized(s: Snapshot): (r: Snapshot)
    ensures |r.targets| == |s.targets|
  {
    TargetsAreOrdered();
    OrderBySorts(Each(Filled, s.targets), TargetLe);
    s.(targets := OrderBy(Each(Filled, s.targets), TargetLe))
  }

  lemma StillDistinct(items: seq<Target>, i: nat)
    requires i < |items| && NoDuplicates(Each(Pair, items[..i]))
    requires forall j :: 0 <= j < i ==> TargetKey(items[j].kind, items[j].id) != TargetKey(items[i].kind, items[i].id)
    ensures NoDuplicates(Each(Pair, items[..i + 1]))
  {
    assert forall j :: 0 <= j < i ==> Each(Pair, items[..i + 1])[j] == Each(Pair, items[..i])[j];
  }

  /** The loop over the targets with its `seen` map. */
  method NormalizeTargets(rules: Rules, topic: string, items: seq<Target>) returns (targets: Option<seq<Target>>)
    ensures targets.Some? <==>
              (forall item :: item in items ==> ValidTarget(rules, topic, item)) && NoDuplicates(Each(Pair, items))
    ensures targets.Some? ==> targets.value == Each(Filled, items)
  {
    var filled: seq<Target> := [];
    var seen: set<string> := {};
    for i := 0 to |items|
      invariant filled == Each(Filled, items[..i])
      invariant forall j :: 0 <= j < i ==> ValidTarget(rules, topic, items[j])
      invariant forall k :: k in seen <==> exists j :: 0 <= j < i && TargetKey(items[j].kind, items[j].id) == k
      invariant NoDuplicates(Each(Pair, items[..i]))
    {
      if !ValidTarget(rules, topic, items[i]) {
        return None;
      }
      var key := TargetKey(items[i].kind, items[i].id);
      if key in seen {
        var j :| 0 <= j < i && TargetKey(items[j].kind, items[j].id) == key;
        TargetKeyIsInjective(items[j].kind, items[j].id, items[i].kind, items[i].id);
        assert Each(Pair, items)[j] == Each(Pair, items)[i];
        return None;
      }
      StillDistinct(items, i);
      seen := seen + {key};
      filled := filled + [Filled(items[i])];
    }
    assert items[..|items|] == items;
    targets := Some(filled);
  }

  /** A snapshot is accepted or refused as a whole, and an accepted one is put in canonical form. */
  method Normalize(rules: Rules, s: Snapshot) returns (r: Option<Snapshot>)
    ensures r.Some? <==> Acceptable(rules, s)
    ensures r.Some? ==> r.value == Canonicalized(s)
    ensures r.Some? ==> Sorted(r.value.targets, TargetLe)
                        && multiset(r.value.targets) == multiset(Each(Filled, s.targets))
    ensures r.Some? ==> && s.event.id != 0 && s.event.version > 0 && s.event.occurredAt != ZERO_TIME
                        && ValidToken(s.event.topic, true) && |s.event.topic| <= 239 && rules.jsonValid(s.event.payload)
    ensures r.Some? ==> forall t :: t in s.targets ==>
              && ValidToken(t.kind, false) && !rules.blank(t.id) && |t.id| <= 512
              && |t.kind| + |s.event.topic| <= 247 && |t.kind| <= 242
              && rules.jsonValid(if t.snapshot == "" then "{}" else t.snapshot)
    ensures r.Some? ==> InOrder(r.value.targets) && SameTargets(s.targets, r.value.targets)
                        && r.value.event == s.event && r.value.availableAt == s.availableAt
  {
    if !ValidEvent(rules, s.event) {
      return None;
    }
    var targets := NormalizeTargets(rules, s.event.topic, s.targets);
    if targets.None? {
      return None;
    }
    TargetsAreOrdered();
    OrderBySorts(targets.value, TargetLe);
    r := Some(s.(targets := OrderBy(targets.value, TargetLe)));
    SortedIsInOrder(r.value.targets);
    FilledAreSame(s.targets, r.value.targets);
  }

  /** By kind, and by identifier within a kind. */
  ghost predicate InOrder(targets: seq<Target>) {
    forall i, j :: 0 <= i < j < |targets| ==>
      && Precedes(targets[i].kind, targets[j].kind)
      && (targets[i].kind == targets[j].kind ==> Precedes(targets[i].id, targets[j].id))
  }

  /** The same targets, an empty snapshot written out as an empty object. */
  ghost predicate SameTargets(before: seq<Target>, after: seq<Target>) {
    && |after| == |before|
    && forall t :: t in before ==> Target(t.kind, t.id, if t.snapshot == "" then "{}" else t.snapshot) in after
  }

  lemma SortedIsInOrder(targets: seq<Target>)
    requires Sorted(targets, TargetLe)
    ensures InOrder(targets)
  {
    forall i, j | 0 <= i < j < |targets|
      ensures Precedes(targets[i].kind, targets[j].kind)
      ensures targets[i].kind == targets[j].kind ==> Precedes(targets[i].id, targets[j].id)
    {
      assert TargetLe(targets[i], targets[j]);
      LexTotal(targets[i].kind, targets[i].kind);
      LexMeans(targets[i].kind, targets[j].kind);
      LexMeans(targets[i].id, targets[j].id);
    }
  }

  lemma FilledAreSame(before: seq<Target>, after: seq<Target>)
    requires multiset(after) == multiset(Each(Filled, before))
    ensures SameTargets(before, after)
  {
    SameElements(after, Each(Filled, before));
    forall t | t in before ensures Target(t.kind, t.id, if t.snapshot == "" then "{}" else t.snapshot) in after {
      var i :| 0 <= i < |before| && before[i] == t;
      assert Each(Filled, before)[i] == Filled(t);
    }
  }

  lemma PermutedAcceptable(rules: Rules, s: Snapshot, targets: seq<Target>)
    requires multiset(targets) == multiset(s.targets) && Acceptable(rules, s)
    ensures Acceptable(rules, s.(targets := targets))
  {
    SameElements(s.targets, targets);
    EachPermutation(Pair, s.targets, targets);
    DistinctPermutation(Each(Pair, s.targets), Each(Pair, targets));
  }

  lemma FilledTargets(rules: Rules, s: Snapshot)
    requires Acceptable(rules, s)
    ensures Acceptable(rules, s.(targets := Each(Filled, s.targets)))
  {
    var filled := Each(Filled, s.targets);
    forall target | target in filled ensures ValidTarget(rules, s.event.topic, target) {
      var i :| 0 <= i < |filled| && filled[i] == target;
      assert s.targets[i] in s.targets;
    }
    assert Each(Pair, filled) == Each(Pair, s.targets);
  }

  /** Every order of the same targets is accepted alike and has one canonical form. */
  lemma NormalizationIgnoresOrder(rules: Rules, s: Snapshot, targets: seq<Target>)
    requires multiset(targets) == multiset(s.targets)
    ensures Acceptable(rules, s) <==> Acceptable(rules, s.(targets := targets))
    ensures Acceptable(rules, s) ==> Canonicalized(s) == Canonicalized(s.(targets := targets))
  {
    if Acceptable(rules, s) {
      PermutedAcceptable(rules, s, targets);
      FilledTargets(rules, s);
      DistinctTargetsDoNotTie(Each(Filled, s.targets));
      EachPermutation(Filled, s.targets, targets);
      TargetsAreOrdered();
      OrderByPermutation(Each(Filled, s.targets), Each(Filled, targets), TargetLe);
    }
    if Acceptable(rules, s.(targets := targets)) {
      PermutedAcceptable(rules, s.(targets := targets), s.targets);
      assert s.(targets := targets).(targets := s.targets) == s;
    }
  }

  /** A canonical snapshot is accepted again and left as it is. */
  lemma NormalizationIsIdempotent(rules: Rules, s: Snapshot)
    requires Acceptable(rules, s)
    ensures Acceptable(rules, Canonicalized(s))
    ensures Canonicalized(Canonicalized(s)) == Canonicalized(s)
  {
    var filled, sorted := Each(Filled, s.targets), Canonicalized(s).targets;
    FilledTargets(rules, s);
    TargetsAreOrdered();
    OrderBySorts(filled, TargetLe);
    PermutedAcceptable(rules, s.(targets := filled), sorted);
    forall i | 0 <= i < |sorted| ensures Filled(sorted[i]) == sorted[i] {
      assert sorted[i] in filled;
    }
    assert Each(Filled, sorted) == sorted;
    DistinctTargetsDoNotTie(sorted);
    OrderBySorted(sorted, TargetLe);
  }

  // ----- the dispatcher

  function DeliveryName(e: Event, target: Target): string {
    Decimal(e.id) + [NUL] + TargetKey(target.kind, target.id)
  }

  function DeliveryKey(e: Event, target: Target): string {
    "fanout-delivery:" + DeliveryName(e, target)
  }

  /** The stable payload that a target-specific worker handles. */
  datatype FanoutDelivery = FanoutDelivery(identity: string, event: Event, target: Target)

  function DeliveryFields(d: FanoutDelivery): (fields: seq<string>)
    ensures |fields| == 9
  {
    [d.identity, Decimal(d.event.id), d.event.topic, Signed(d.event.version), d.event.payload,
     Signed(d.event.occurredAt), d.target.kind, d.target.id, d.target.snapshot]
  }

  /** A delivery as text. */
  function Marshalled(d: FanoutDelivery): string {
    Joined(DeliveryFields(d))
  }

  function Unmarshalled(text: string): Option<FanoutDelivery> {
    var fields := Fields(text, 9);
    if fields.None? then None
    else
      var f := fields.value;
      Some(FanoutDelivery(f[0], Event(Value(f[1]), f[2], ReadSigned(f[3]), f[4], ReadSigned(f[5])),
                          Target(f[6], f[7], f[8])))
  }

  lemma MarshalledReadsBack(d: FanoutDelivery)
    ensures Unmarshalled(Marshalled(d)) == Some(d)
  {
    FieldsReadBack(DeliveryFields(d));
    DecimalReadsBack(d.event.id);
    SignedReadsBack(d.event.version);
    SignedReadsBack(d.event.occurredAt);
  }

  /** What a consumer does with a payload before it uses it. */
  function DecodeDelivery(rules: Rules, text: string): Option<FanoutDelivery> {
    var read := Unmarshalled(text);
    if read.None? then None
    else
      var d := read.value;
      if !ValidEvent(rules, d.event) || !NormalTarget(rules, d.target) then None
      else if d.identity != DeliveryName(d.event, d.target) then None
      else Some(d.(target := Filled(d.target)))
  }

  /** A genuine delivery is read back; one with another identity than its event and target have is refused. */
  lemma DecodesIffGenuine(rules: Rules, d: FanoutDelivery)
    requires ValidEvent(rules, d.event) && NormalTarget(rules, d.target) && d.target.snapshot != ""
    ensures DecodeDelivery(rules, Marshalled(d))
         == if d.identity == Decimal(d.event.id) + [NUL] + d.target.kind + [NUL] + d.target.id then Some(d) else None
  {
    MarshalledReadsBack(d);
    assert DeliveryName(d.event, d.target)
        == Decimal(d.event.id) + [NUL] + d.target.kind + [NUL] + d.target.id;
  }

  /** The delivery payload of an event and a target. */
  function DeliveryText(e: Event, target: Target): string {
    Marshalled(FanoutDelivery(DeliveryName(e, target), e, target))
  }

  function Delivery(e: Event, availableAt: Time, target: Target): Put {
    Put(DeliveryKey(e, target), Capability(DeliveryJobName(target.kind, e.topic), e.version),
        DeliveryText(e, target), availableAt)
  }

  function Deliveries(s: Snapshot): (puts: seq<Put>)
    ensures |puts| == |s.targets|
  {
    Each(target => Delivery(s.event, s.availableAt, target), s.targets)
  }

  /** A delivery identity determines the event, the kind and the target. */
  lemma DeliveryKeyIsInjective(e: Event, target: Target, e': Event, target': Target)
    requires ValidToken(target.kind, false) && ValidToken(target'.kind, false)
    requires DeliveryKey(e, target) == DeliveryKey(e', target')
    ensures e.id == e'.id && Pair(target) == Pair(target')
  {
    assert DeliveryKey(e, target)[16..] == DeliveryName(e, target);
    assert DeliveryKey(e', target')[16..] == DeliveryName(e', target');
    DecimalReadsBack(e.id);
    DecimalReadsBack(e'.id);
    assert !IsDigit(NUL);
    SplitAtSeparator(NUL, Decimal(e.id), Decimal(e'.id),
                     TargetKey(target.kind, target.id), TargetKey(target'.kind, target'.id));
    TargetKeyIsInjective(target.kind, target.id, target'.kind, target'.id);
  }

  /** Each target of an accepted snapshot gets a key of its own. */
  lemma DeliveriesAreDistinct(rules: Rules, s: Snapshot)
    requires Acceptable(rules, s)
    ensures DistinctKeys(Deliveries(s))
  {
    forall i, j | 0 <= i < j < |s.targets| ensures Deliveries(s)[i].key != Deliveries(s)[j].key {
      var a, b := s.targets[i], s.targets[j];
      assert a in s.targets && b in s.targets;
      assert Each(Pair, s.targets)[i] != Each(Pair, s.targets)[j];
      if DeliveryKey(s.event, a) == DeliveryKey(s.event, b) {
        DeliveryKeyIsInjective(s.event, a, s.event, b);
      }
    }
  }

  /** The row is the delivery of the event to the target: handled under the target's kind and the event's topic and
   *  version, available when the snapshot says, under the delivery's own key, with a payload from which a consumer
   *  reads exactly this event and this target.
   */
  ghost predicate Delivers(rules: Rules, row: Job, s: Snapshot, target: Target) {
    var identity := Decimal(s.event.id) + [NUL] + target.kind + [NUL] + target.id;
    && row.capability.name == "fanout." + target.kind + "." + s.event.topic
    && row.capability.version == s.event.version && row.availableAt == s.availableAt
    && row.deduplicationKey == Some("fanout-delivery:" + identity)
    && DecodeDelivery(rules, row.payload) == Some(FanoutDelivery(identity, s.event, target))
  }

  lemma InsertedDelivers(rules: Rules, row: Job, s: Snapshot, i: nat)
    requires i < |s.targets| && InsertedFor(row, Deliveries(s)[i])
    requires ValidEvent(rules, s.event) && NormalTarget(rules, s.targets[i]) && s.targets[i].snapshot != ""
    ensures Delivers(rules, row, s, s.targets[i])
  {
    var e, target := s.event, s.targets[i];
    DecodesIffGenuine(rules, FanoutDelivery(DeliveryName(e, target), e, target));
    assert DeliveryName(e, target) == Decimal(e.id) + [NUL] + target.kind + [NUL] + target.id;
  }

  /** The targets of a canonical snapshot are normal, and none has an empty snapshot of its own. */
  lemma CanonicalTargets(rules: Rules, s: Snapshot, i: nat)
    requires Acceptable(rules, s) && i < |s.targets|
    ensures var target := Canonicalized(s).targets[i];
      NormalTarget(rules, target) && target.snapshot != ""
  {
    NormalizationIsIdempotent(rules, s);
    TargetsAreOrdered();
    OrderBySorts(Each(Filled, s.targets), TargetLe);
    assert Canonicalized(s).targets[i] in Canonicalized(s).targets;
  }

  /** The delivery to target `i` is registered, and the job under its key delivers. */
  ghost predicate Dispatched(rules: Rules, t: Tables, s: Snapshot, i: nat)
    requires i < |s.targets|
  {
    var target := s.targets[i];
    var key := "fanout-delivery:" + (Decimal(s.event.id) + [NUL] + target.kind + [NUL] + target.id);
    && key in t.keys && t.keys[key].jobId in t.created
    && Delivers(rules, t.created[t.keys[key].jobId], s, target)
  }

  lemma CommitDispatches(rules: Rules, t: Tables, payload: Snapshot, ids: seq<JobId>, now: Time, i: nat)
    requires Consistent(t) && Acceptable(rules, payload) && i < |payload.targets|
    requires ManyCommit(t, Deliveries(Canonicalized(payload)), ids, now)
    ensures Dispatched(rules, AfterPuts(t, Deliveries(Canonicalized(payload)), ids, now), Canonicalized(payload), i)
  {
    var s := Canonicalized(payload);
    var puts, target := Deliveries(s), s.targets[i];
    var after := AfterPuts(t, puts, ids, now);
    ManyAreRegistered(t, puts, ids, now, i);
    PutsAreConsistent(t, puts, ids, now, |puts|);
    assert KeyNamesRow(after, puts[i].key);
    CanonicalTargets(rules, payload, i);
    InsertedDelivers(rules, after.created[after.keys[puts[i].key].jobId], s, i);
    assert DeliveryName(s.event, target) == Decimal(s.event.id) + [NUL] + target.kind + [NUL] + target.id;
  }

  /** One run of the dispatcher: every delivery is stored in one transaction, or nothing is. The
   *  context may be cancelled before any of the puts. */
  method Handle(rules: Rules, t: Tables, payload: Snapshot, ids: seq<JobId>, now: Time, cancelledAt: Option<nat>)
    returns (t': Tables, ok: bool)
    requires Consistent(t) && |ids| == |payload.targets| && AllUnused(t, ids)
    ensures ok ==> t' == AfterPuts(t, Deliveries(Canonicalized(payload)), ids, now)
    ensures ok ==> t' == Step(t, PutMany(Deliveries(Canonicalized(payload)), ids, now))
    ensures !ok ==> t' == t
    ensures ok <==> && Acceptable(rules, payload)
                    && ManyCommit(t, Deliveries(Canonicalized(payload)), ids, now)
                    && (cancelledAt.Some? ==> cancelledAt.value >= |payload.targets|)
    ensures ok ==> forall i :: 0 <= i < |payload.targets| ==> Dispatched(rules, t', Canonicalized(payload), i)
  {
    var normalized := Normalize(rules, payload);
    if normalized.None? {
      return t, false;
    }
    t', ok := StageAll(t, Deliveries(normalized.value), ids, now, cancelledAt);
    if ok {
      forall i | 0 <= i < |payload.targets| ensures Dispatched(rules, t', Canonicalized(payload), i) {
        CommitDispatches(rules, t, payload, ids, now, i);
      }
    }
  }

  // ----- any number of dispatches

  /** Once a dispatch of an accepted snapshot has committed, and while its keys are not pruned, every target has had
   *  exactly one delivery job, whatever else ran before or after, and that job delivers the event to the target.
   */
  lemma {:induction false} ExactlyOneDelivery(rules: Rules, ops: seq<Op>, m: nat, payload: Snapshot, ids: seq<JobId>,
                                              now: Time, i: nat)
    requires Acceptable(rules, payload) && i < |payload.targets|
    requires Committed(ops, m, Deliveries(Canonicalized(payload)), ids, now)
    requires Run(ops).pruned[DeliveryKey(payload.event, Canonicalized(payload).targets[i])] == 0
    ensures var s := Canonicalized(payload);
      && Run(ops).inserted[DeliveryKey(s.event, s.targets[i])] == 1
      && exists id :: id in Run(ops).created && Fresh(Run(ops).created[id], id)
                      && Delivers(rules, Run(ops).created[id], s, s.targets[i])
  {
    var s := Canonicalized(payload);
    OneInsertionWhileUnpruned(ops, m, Deliveries(s), ids, now, i);
    var id :| id in Run(ops).created && InsertedFor(Run(ops).created[id], Deliveries(s)[i])
              && Fresh(Run(ops).created[id], id);
    CanonicalTargets(rules, payload, i);
    InsertedDelivers(rules, Run(ops).created[id], s, i);
  }

  /** Dispatching again commits and changes nothing, even after the deliveries are finished. */
  lemma {:induction false} DispatchingAgainIsQuiet(rules: Rules, ops: seq<Op>, m: nat, s: Snapshot, ids: seq<JobId>,
                                                   now: Time, newIds: seq<JobId>, later: Time)
    requires Acceptable(rules, s) && Committed(ops, m, Deliveries(s), ids, now)
    requires forall i :: 0 <= i < |s.targets| ==>
                           Run(ops).pruned[Deliveries(s)[i].key] == Run(ops[..m + 1]).pruned[Deliveries(s)[i].key]
    requires |newIds| == |s.targets| && AllUnused(Run(ops), newIds)
    ensures ManyCommit(Run(ops), Deliveries(s), newIds, later)
    ensures Run(ops + [PutMany(Deliveries(s), newIds, later)]) == Run(ops)
  {
    CommittingAgainIsQuiet(ops, m, Deliveries(s), ids, now, newIds, later);
  }

  /** When a dispatch has just committed, a target has had exactly one delivery job if and only if its key was
   *  never pruned before. */
  lemma {:induction false} OneDeliveryIffNeverPruned(ops: seq<Op>, m: nat, s: Snapshot, ids: seq<JobId>, now: Time,
                                                     i: nat)
    requires Committed(ops, m, Deliveries(s), ids, now) && m + 1 == |ops| && i < |s.targets|
    ensures Run(ops).inserted[DeliveryKey(s.event, s.targets[i])] == 1
       <==> Run(ops[..m]).pruned[DeliveryKey(s.event, s.targets[i])] == 0
  {
    OneInsertionIffNeverPruned(ops, m, Deliveries(s), ids, now, i);
  }
}
