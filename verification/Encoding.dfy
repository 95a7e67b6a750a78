/** The texts that identify things: the canonical job text behind a fingerprint, the delivery job name
 *  and the NUL-joined target key. Each determines the fields it was built from.
 */
module Encoding {
  import opened Jobs

  const DIGITS := "0123456789"

  function Decimal(n: nat): string {
    if n < 10 then [DIGITS[n]] else Decimal(n / 10) + [DIGITS[n % 10]]
  }

  predicate IsDigit(c: char) { c in DIGITS }

  function DigitValue(c: char): nat {
    if '0' <= c <= '9' then (c as int - '0' as int) else 0
  }

  function Value(s: string): nat {
    if s == "" then 0 else 10 * Value(s[..|s| - 1]) + DigitValue(s[|s| - 1])
  }

  /** Decimal text consists of digits and reads back. */
  lemma {:induction false} DecimalReadsBack(n: nat)
    ensures Decimal(n) != "" && forall i :: 0 <= i < |Decimal(n)| ==> IsDigit(Decimal(n)[i])
    ensures Value(Decimal(n)) == n
  {
    DigitReadsBack(n % 10);
    if n < 10 {
      assert Decimal(n)[..0] == "";
    } else {
      DecimalReadsBack(n / 10);
      assert Decimal(n)[..|Decimal(n)| - 1] == Decimal(n / 10);
    }
  }

  lemma DigitReadsBack(d: nat)
    requires d < 10
    ensures DigitValue(DIGITS[d]) == d && IsDigit(DIGITS[d])
  {
    assert DIGITS == ['0', '1', '2', '3', '4', '5', '6', '7', '8', '9'];
  }

  /** Where a separator first occurs decides how a text splits. */
  lemma SplitAtSeparator(sep: char, a: string, b: string, restA: string, restB: string)
    requires sep !in a && sep !in b
    requires a + [sep] + restA == b + [sep] + restB
    ensures a == b && restA == restB
  {
    var s := a + [sep] + restA;
    assert s[|a|] == sep && s[|b|] == sep;
    assert forall k :: 0 <= k < |a| ==> s[k] == a[k] && s[k] != sep;
    assert forall k :: 0 <= k < |b| ==> s[k] == b[k] && s[k] != sep;
    assert a == s[..|a|] && b == s[..|b|];
    assert restA == s[|a| + 1..] && restB == s[|b| + 1..];
  }

  /** One length-prefixed field. */
  function Field(s: string): string {
    Decimal(|s|) + ":" + s
  }

  /** A length-prefixed field can be cut off the front of any text, whatever the field contains. */
  lemma FieldCutsOff(a: string, b: string, restA: string, restB: string)
    requires Field(a) + restA == Field(b) + restB
    ensures a == b && restA == restB
  {
    DecimalReadsBack(|a|);
    DecimalReadsBack(|b|);
    assert !IsDigit(':');
    assert Field(a) + restA == Decimal(|a|) + [':'] + (a + restA);
    assert Field(b) + restB == Decimal(|b|) + [':'] + (b + restB);
    SplitAtSeparator(':', Decimal(|a|), Decimal(|b|), a + restA, b + restB);
    assert (a + restA)[..|a|] == a && (b + restB)[..|b|] == b;
    assert (a + restA)[|a|..] == restA && (b + restB)[|b|..] == restB;
  }

  // ----- reading fields back

  function FirstColon(s: string): (n: nat)
    ensures n <= |s|
  {
    if s == "" || s[0] == ':' then 0 else 1 + FirstColon(s[1..])
  }

  lemma {:induction false} ColonAfter(a: string, rest: string)
    requires ':' !in a
    ensures FirstColon(a + ":" + rest) == |a|
  {
    if a == "" {
      assert a + ":" + rest == ":" + rest;
    } else {
      assert (a + ":" + rest)[1..] == a[1..] + ":" + rest;
      ColonAfter(a[1..], rest);
    }
  }

  /** Cuts one length-prefixed field off the front of a text. */
  function Cut(s: string): Option<(string, string)> {
    var n := FirstColon(s);
    if n == |s| then None
    else
      var size, rest := Value(s[..n]), s[n + 1..];
      if size > |rest| then None else Some((rest[..size], rest[size..]))
  }

  lemma CutReadsField(a: string, rest: string)
    ensures Cut(Field(a) + rest) == Some((a, rest))
  {
    var s := Field(a) + rest;
    DecimalReadsBack(|a|);
    assert !IsDigit(':');
    assert s == Decimal(|a|) + ":" + (a + rest);
    ColonAfter(Decimal(|a|), a + rest);
    assert s[..|Decimal(|a|)|] == Decimal(|a|) && s[|Decimal(|a|)| + 1..] == a + rest;
    assert (a + rest)[..|a|] == a && (a + rest)[|a|..] == rest;
  }

  /** Fields written one after another. */
  function Joined(fields: seq<string>): string {
    if fields == [] then "" else Field(fields[0]) + Joined(fields[1..])
  }

  function Fields(s: string, n: nat): (fields: Option<seq<string>>)
    ensures fields.Some? ==> |fields.value| == n
  {
    if n == 0 then (if s == "" then Some([]) else None)
    else
      var first := Cut(s);
      if first.None? then None
      else
        var rest := Fields(first.value.1, n - 1);
        if rest.None? then None else Some([first.value.0] + rest.value)
  }

  /** Any fields, whatever they contain, can be read back. */
  lemma {:induction false} FieldsReadBack(fields: seq<string>)
    ensures Fields(Joined(fields), |fields|) == Some(fields)
    decreases |fields|
  {
    if fields != [] {
      CutReadsField(fields[0], Joined(fields[1..]));
      FieldsReadBack(fields[1..]);
      assert fields == [fields[0]] + fields[1..];
    }
  }

  function ReadSigned(s: string): int {
    if s != "" && s[0] == '-' then 0 - Value(s[1..]) as int else Value(s)
  }

  /** The text that is hashed into a fingerprint. */
  function Canonical(name: string, version: string, payload: string, available: string): string {
    Field(name) + (Field(version) + (Field(payload) + (Field(available) + "")))
  }

  /** The canonical text determines its four fields, for all strings. */
  lemma CanonicalIsInjective(n: string, v: string, p: string, a: string,
                             n': string, v': string, p': string, a': string)
    requires Canonical(n, v, p, a) == Canonical(n', v', p', a')
    ensures n == n' && v == v' && p == p' && a == a'
  {
    var afterPayload, afterPayload' := Field(a) + "", Field(a') + "";
    var afterVersion, afterVersion' := Field(p) + afterPayload, Field(p') + afterPayload';
    FieldCutsOff(n, n', Field(v) + afterVersion, Field(v') + afterVersion');
    FieldCutsOff(v, v', afterVersion, afterVersion');
    FieldCutsOff(p, p', afterPayload, afterPayload');
    FieldCutsOff(a, a', "", "");
  }

  // ----- fan-out names

  predicate TokenChar(c: char, allowDot: bool) {
    'a' <= c <= 'z' || 'A' <= c <= 'Z' || '0' <= c <= '9' || c == '-' || c == '_' || (allowDot && c == '.')
  }

  predicate ValidToken(s: string, allowDot: bool) {
    s != "" && forall i :: 0 <= i < |s| ==> TokenChar(s[i], allowDot)
  }

  method CheckToken(s: string, allowDot: bool) returns (ok: bool)
    ensures ok <==> ValidToken(s, allowDot)
  {
    if s == "" {
      return false;
    }
    for i := 0 to |s|
      invariant forall k :: 0 <= k < i ==> TokenChar(s[k], allowDot)
    {
      var c := s[i];
      if 'a' <= c <= 'z' || 'A' <= c <= 'Z' || '0' <= c <= '9' {
        continue;
      }
      if c == '-' || c == '_' || (allowDot && c == '.') {
        continue;
      }
      return false;
    }
    return true;
  }

  function DeliveryJobName(kind: string, topic: string): string {
    "fanout." + kind + "." + topic
  }

  /** A delivery job name determines kind and topic, although topics may contain dots. */
  lemma DeliveryJobNameIsInjective(kind: string, topic: string, kind': string, topic': string)
    requires ValidToken(kind, false) && ValidToken(kind', false)
    requires DeliveryJobName(kind, topic) == DeliveryJobName(kind', topic')
    ensures kind == kind' && topic == topic'
  {
    assert DeliveryJobName(kind, topic)[7..] == kind + ['.'] + topic;
    assert DeliveryJobName(kind', topic')[7..] == kind' + ['.'] + topic';
    SplitAtSeparator('.', kind, kind', topic, topic');
  }

  const NUL: char := '\0'

  function TargetKey(kind: string, id: string): string {
    kind + [NUL] + id
  }

  /** A target key determines kind and identifier, whatever the identifier contains. */
  lemma TargetKeyIsInjective(kind: string, id: string, kind': string, id': string)
    requires ValidToken(kind, false) && ValidToken(kind', false)
    requires TargetKey(kind, id) == TargetKey(kind', id')
    ensures kind == kind' && id == id'
  {
    SplitAtSeparator(NUL, kind, kind', id, id');
  }

  /** Without the rule on kinds the key is ambiguous. */
  lemma TargetKeyNeedsTokens()
    ensures TargetKey(['a', NUL], ['b']) == TargetKey(['a'], [NUL, 'b'])
  {
  }
}
