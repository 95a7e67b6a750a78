/** The records, identifiers and clock shared by every part of the model.
 *
 *  - A `Time` counts nanoseconds from the zero instant of the original clock, so `ZERO_TIME`
 *    is the "unset" instant and every clock reading is positive.
 *  - Identifiers and lease tokens are numbers; `NIL_ID` and `NIL_TOKEN` are the zero UUIDs.
 *  - A text is a sequence of bytes, one `char` per byte.
 */
module Jobs {

  type Time = int
  type JobId = nat
  type LeaseToken = nat

  const ZERO_TIME: Time := 0
  const NIL_ID: JobId := 0
  const NIL_TOKEN: LeaseToken := 0

  const MILLISECOND: int := 1_000_000
  const SECOND: int := 1_000_000_000
  const LEASE_FINALIZATION_TIMEOUT: int := 5 * SECOND
  const BATCH_FINALIZATION_MARGIN: int := SECOND
  const BATCH_DLQ_INSERT_ALLOWANCE: int := 25 * MILLISECOND
  const MAX_RESERVATION_BATCH_SIZE: nat := 1000

  datatype Option<+T> = None | Some(value: T)

  datatype Capability = Capability(name: string, version: int)

  datatype Job = Job(
    id: JobId,
    queue: string,
    capability: Capability,
    payload: string,
    attempts: int,
    reservedAt: Option<Time>,
    token: LeaseToken,
    deduplicationKey: Option<string>,
    availableAt: Time,
    createdAt: Time)

  /** A lease is live at `now` for `token` when the row carries the token and expires later. */
  predicate LeaseLive(job: Job, token: LeaseToken, now: Time) {
    job.token == token && job.reservedAt.Some? && job.reservedAt.value > now
  }

  /** A row may be claimed at `now`. */
  predicate Ready(job: Job, now: Time) {
    job.availableAt <= now && (job.reservedAt.None? || job.reservedAt.value <= now)
  }

  function Reserved(job: Job, token: LeaseToken, until: Time): Job {
    job.(attempts := job.attempts + 1, reservedAt := Some(until), token := token)
  }

  function Unreserved(job: Job): Job {
    job.(reservedAt := None, token := NIL_TOKEN)
  }

  /** One function applied to every element. */
  function Each<T, U>(f: T -> U, s: seq<T>): (r: seq<U>)
    ensures |r| == |s| && forall i :: 0 <= i < |s| ==> r[i] == f(s[i])
  {
    seq(|s|, i requires 0 <= i < |s| => f(s[i]))
  }

  function Ids(jobs: seq<Job>): (ids: seq<JobId>)
    ensures |ids| == |jobs|
    ensures forall i :: 0 <= i < |jobs| ==> ids[i] == jobs[i].id
  {
    Each((job: Job) => job.id, jobs)
  }

  /** The primary key of a list of rows. */
  predicate PrimaryKey(rows: seq<Job>) {
    forall i, j :: 0 <= i < j < |rows| ==> rows[i].id != rows[j].id
  }

  /** Truncation to a millisecond, as the clock library and the SQLite columns do it. */
  function FloorMs(t: Time): (r: Time)
    ensures r <= t < r + MILLISECOND
    ensures r % MILLISECOND == 0
  {
    t - t % MILLISECOND
  }

  predicate NoDuplicates<T(==)>(s: seq<T>) {
    forall i, j :: 0 <= i < j < |s| ==> s[i] != s[j]
  }

  function ToSet<T>(s: seq<T>): set<T> {
    set x | x in s
  }

  /** No element occurs twice, said by counting; `DistinctIffFull` relates it to `NoDuplicates`. */
  ghost predicate Distinct<T>(s: seq<T>) {
    |ToSet(s)| == |s|
  }

  /** A sequence has no duplicates exactly when it has as many elements as its set. */
  lemma {:induction false} DistinctIffFull<T>(s: seq<T>)
    ensures |ToSet(s)| <= |s|
    ensures |ToSet(s)| == |s| <==> NoDuplicates(s)
  {
    if s != [] {
      var tail := s[1..];
      DistinctIffFull(tail);
      assert ToSet(s) == {s[0]} + ToSet(tail);
      if s[0] in tail {
        assert ToSet(s) == ToSet(tail);
        var k :| 0 <= k < |tail| && tail[k] == s[0];
        assert s[k + 1] == s[0];
      } else {
        assert NoDuplicates(s) <==> NoDuplicates(tail) by {
          assert forall k :: 0 <= k < |tail| ==> s[k + 1] == tail[k];
          if NoDuplicates(tail) {
            forall i, j | 0 <= i < j < |s| ensures s[i] != s[j] {
              assert tail[j - 1] == s[j];
            }
          }
        }
      }
    }
  }

  /** A subset as large as the whole is the whole. */
  lemma SubsetCardinality<T>(xs: set<T>, ys: set<T>)
    requires xs <= ys
    ensures |xs| <= |ys|
    ensures |xs| == |ys| ==> xs == ys
  {
    var rest := ys - xs;
    assert ys == xs + rest;
  }
}
