/** Payload-aware claims: the window-sum filter of PostgreSQL, the early-stop loop of MySQL and
 *  SQLite, and the check the service runs on whatever a repository returned.
 */
module BoundedClaims {
  import opened Jobs
  import opened Ordering
  import opened ClaimQueries

  function PayloadBytes(rows: seq<Job>): nat {
    if rows == [] then 0
    else PayloadBytes(rows[..|rows| - 1]) + |rows[|rows| - 1].payload|
  }

  /** `WHERE ordinal = 1 OR cumulative_bytes <= maxBytes` over candidates in queue order. */
  function WindowSelect(rows: seq<Job>, maxBytes: nat): seq<Job> {
    if rows == [] then []
    else
      var before := WindowSelect(rows[..|rows| - 1], maxBytes);
      if |rows| == 1 || PayloadBytes(rows) <= maxBytes then before + [rows[|rows| - 1]] else before
  }

  lemma {:induction false} BytesConcat(a: seq<Job>, b: seq<Job>)
    ensures PayloadBytes(a + b) == PayloadBytes(a) + PayloadBytes(b)
  {
    if b == [] {
      assert a + b == a;
    } else {
      BytesConcat(a, b[..|b| - 1]);
      assert (a + b)[..|a + b| - 1] == a + b[..|b| - 1];
    }
  }

  lemma BytesMonotone(rows: seq<Job>, i: nat)
    requires i <= |rows|
    ensures PayloadBytes(rows[..i]) <= PayloadBytes(rows)
  {
    BytesConcat(rows[..i], rows[i..]);
    assert rows[..i] + rows[i..] == rows;
  }

  /** The repository contract: the longest prefix within the byte limit, or the first row alone
   *  when it is oversized; nothing only when nothing is ready.
   */
  ghost predicate LongestPrefix(rows: seq<Job>, maxBytes: nat, selected: seq<Job>) {
    && selected <= rows
    && (selected == [] <==> rows == [])
    && (|selected| <= 1 || PayloadBytes(selected) <= maxBytes)
    && forall m :: |selected| < m <= |rows| ==> PayloadBytes(rows[..m]) > maxBytes
  }

  /** Within the limit nothing is left out. */
  lemma PrefixWhole(rows: seq<Job>, maxBytes: nat, selected: seq<Job>)
    requires LongestPrefix(rows, maxBytes, selected) && PayloadBytes(rows) <= maxBytes
    ensures selected == rows
  {
    assert rows[..|rows|] == rows;
  }

  /** Past the limit another row changes nothing. */
  lemma PrefixGrows(init: seq<Job>, x: Job, maxBytes: nat, selected: seq<Job>)
    requires LongestPrefix(init, maxBytes, selected) && init != []
    requires PayloadBytes(init + [x]) > maxBytes
    ensures LongestPrefix(init + [x], maxBytes, selected)
  {
    var rows := init + [x];
    forall m | |selected| < m <= |rows| ensures PayloadBytes(rows[..m]) > maxBytes {
      if m == |rows| { assert rows[..m] == rows; } else { assert rows[..m] == init[..m]; }
    }
  }

  /** The window filter keeps exactly the contract's prefix. */
  lemma {:induction false} WindowIsLongestPrefix(rows: seq<Job>, maxBytes: nat)
    ensures LongestPrefix(rows, maxBytes, WindowSelect(rows, maxBytes))
  {
    if rows != [] {
      var init, x := rows[..|rows| - 1], rows[|rows| - 1];
      assert rows == init + [x];
      if |rows| == 1 {
        assert WindowSelect(rows, maxBytes) == rows;
      } else {
        WindowIsLongestPrefix(init, maxBytes);
        if PayloadBytes(rows) <= maxBytes {
          BytesMonotone(rows, |init|);
          PrefixWhole(init, maxBytes, WindowSelect(init, maxBytes));
        } else {
          PrefixGrows(init, x, maxBytes, WindowSelect(init, maxBytes));
        }
      }
    }
  }

  /** The candidate loop. It reads every row but stops selecting at the first one that overflows. */
  method EarlyStopSelect(rows: seq<Job>, maxBytes: nat) returns (selected: seq<Job>)
    ensures selected == WindowSelect(rows, maxBytes)
  {
    selected := [];
    var usedBytes := 0;
    var limitReached := false;
    for i := 0 to |rows|
      invariant selected == WindowSelect(rows[..i], maxBytes)
      invariant !limitReached ==> usedBytes == PayloadBytes(rows[..i]) <= maxBytes && |selected| == i
      invariant limitReached ==> i > 0 && PayloadBytes(rows[..i]) > maxBytes
    {
      assert rows[..i + 1][..i] == rows[..i];
      if limitReached {
        continue;
      }
      var payloadBytes := |rows[i].payload|;
      if selected == [] || usedBytes + payloadBytes <= maxBytes {
        selected := selected + [rows[i]];
        usedBytes := usedBytes + payloadBytes;
        if usedBytes > maxBytes {
          limitReached := true;
        }
        continue;
      }
      limitReached := true;
    }
    assert rows[..|rows|] == rows;
  }

  /** What the service accepts from a bounded claim. */
  ghost predicate PayloadAdmissible(jobs: seq<Job>, maxBytes: int) {
    || jobs == []
    || (|jobs| == 1 && |jobs[0].payload| > maxBytes)
    || PayloadBytes(jobs) <= maxBytes
  }

  /** The incremental check of the service decides exactly `PayloadAdmissible`. */
  method ValidateBoundedPayload(jobs: seq<Job>, maxBytes: int) returns (ok: bool)
    ensures ok <==> PayloadAdmissible(jobs, maxBytes)
  {
    var usedBytes := 0;
    for i := 0 to |jobs|
      invariant usedBytes == PayloadBytes(jobs[..i])
      invariant i > 0 ==> usedBytes <= maxBytes
    {
      var payloadBytes := |jobs[i].payload|;
      assert jobs[..i + 1][..i] == jobs[..i];
      BytesMonotone(jobs, i + 1);
      if i == 0 && payloadBytes > maxBytes {
        return |jobs| == 1;
      }
      if payloadBytes > maxBytes - usedBytes {
        return false;
      }
      usedBytes := usedBytes + payloadBytes;
    }
    assert jobs[..|jobs|] == jobs;
    return true;
  }

  lemma {:induction false} BytesOfPart(part: seq<Job>, whole: seq<Job>)
    requires multiset(part) <= multiset(whole)
    ensures PayloadBytes(part) <= PayloadBytes(whole)
  {
    if part != [] {
      var init, x := part[..|part| - 1], part[|part| - 1];
      assert part == init + [x];
      assert multiset(part) == multiset(init) + multiset{x};
      assert x in multiset(part);
      var k :| 0 <= k < |whole| && whole[k] == x;
      var rest := whole[..k] + whole[k + 1..];
      assert whole == whole[..k] + [x] + whole[k + 1..];
      assert multiset(whole) == multiset(rest) + multiset{x};
      forall y ensures multiset(init)[y] <= multiset(rest)[y] {
        assert multiset(part)[y] <= multiset(whole)[y];
      }
      BytesOfPart(init, rest);
      BytesConcat(whole[..k], whole[k + 1..]);
      BytesConcat(whole[..k], [x]);
      BytesConcat(whole[..k] + [x], whole[k + 1..]);
    }
  }

  /** Whatever part of a bounded selection survives a repository's compare-and-set, the service
   *  accepts it.
   */
  lemma EveryPartIsAdmissible(rows: seq<Job>, maxBytes: nat, part: seq<Job>)
    requires multiset(part) <= multiset(WindowSelect(rows, maxBytes))
    ensures PayloadAdmissible(part, maxBytes)
  {
    var selected := WindowSelect(rows, maxBytes);
    WindowIsLongestPrefix(rows, maxBytes);
    BytesOfPart(part, selected);
    assert |part| == |multiset(part)| && |selected| == |multiset(selected)|;
    if |part| > 1 {
      assert |multiset(selected) - multiset(part)| == |selected| - |part|;
    } else if part != [] {
      assert part == part[..0] + [part[0]];
      assert part[..0] == [];
    }
  }

  /** A bounded claim is the longest prefix, in queue order, of all ready rows of the listed capabilities that keeps
   *  within both limits, or the first row alone when it is oversized; it is empty only when nothing is ready.
   */
  lemma BoundedClaimIsLongest(rows: seq<Job>, capabilities: seq<Capability>, now: Time, maxMessages: nat, maxBytes: nat)
    requires maxMessages > 0
    ensures var all := OrderBy(Select(rows, capabilities, now), NotAfter);
      var claimed := WindowSelect(ClaimContract(rows, capabilities, now, maxMessages), maxBytes);
      && claimed <= all && |claimed| <= maxMessages
      && (claimed == [] <==> all == [])
      && (|claimed| <= 1 || PayloadBytes(claimed) <= maxBytes)
      && forall m :: |claimed| < m <= |all| ==> m > maxMessages || PayloadBytes(all[..m]) > maxBytes
  {
    var all := OrderBy(Select(rows, capabilities, now), NotAfter);
    var candidates := ClaimContract(rows, capabilities, now, maxMessages);
    var claimed := WindowSelect(candidates, maxBytes);
    WindowIsLongestPrefix(candidates, maxBytes);
    forall m | |claimed| < m <= |all| && m <= maxMessages ensures PayloadBytes(all[..m]) > maxBytes {
      assert all[..m] == candidates[..m];
    }
  }
}
