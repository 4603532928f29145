/** The revision annotation: an unsigned 32-bit hash kept as decimal text. */
module Revisions {
  import opened Objects

  type Revision = n: nat | n < 0x1_0000_0000

  const DIGITS := "0123456789"

  /** `strconv.FormatUint(n, 10)`. */
  function FormatUint(n: nat): (s: string)
    ensures |s| > 0
  {
    if n < 10 then [DIGITS[n]] else FormatUint(n / 10) + [DIGITS[n % 10]]
  }

  predicate IsDigit(c: char) { '0' <= c <= '9' }

  function DigitValue(c: char): nat
    requires IsDigit(c)
  {
    c as int - '0' as int
  }

  function DecimalValue(s: string): nat
    requires forall i :: 0 <= i < |s| ==> IsDigit(s[i])
  {
    if s == "" then 0 else DecimalValue(s[..|s| - 1]) * 10 + DigitValue(s[|s| - 1])
  }

  /** `strconv.ParseUint(s, 10, 32)`: empty text, a foreign character and a value that does not
      fit in 32 bits are errors. */
  function ParseUint32(s: string): Option<Revision> {
    if s == "" || exists i :: 0 <= i < |s| && !IsDigit(s[i]) then None
    else if DecimalValue(s) >= 0x1_0000_0000 then None
    else Some(DecimalValue(s))
  }

  function GetRevision(o: Object): Revision {
    if REVISION_ANNOTATION !in o.annotations then 0
    else match o.annotations[REVISION_ANNOTATION]
      case Instant(_) => 0
      case Text(raw) => if ParseUint32(raw).Some? then ParseUint32(raw).value else 0
  }

  function SetRevision(o: Object, rev: Revision): Object {
    o.(annotations := o.annotations[REVISION_ANNOTATION := Text(FormatUint(rev))])
  }

  lemma {:induction false} FormatIsDecimal(n: nat)
    ensures forall i :: 0 <= i < |FormatUint(n)| ==> IsDigit(FormatUint(n)[i])
    ensures DecimalValue(FormatUint(n)) == n
  {
    if n < 10 {
      assert FormatUint(n)[..0] == "";
    } else {
      FormatIsDecimal(n / 10);
      assert FormatUint(n)[..|FormatUint(n)| - 1] == FormatUint(n / 10);
    }
  }

  /** Reading a revision back yields the one that was set, for every 32-bit value. */
  lemma RevisionRoundTrip(o: Object, rev: Revision)
    ensures GetRevision(SetRevision(o, rev)) == rev
  {
    FormatIsDecimal(rev);
  }

  /** The stale marker shares the annotation map with the revision and never disturbs it. */
  lemma MarkerKeepsRevision(o: Object, annotations: map<string, Annotation>)
    requires annotations - {STALE_SINCE_ANNOTATION} == o.annotations - {STALE_SINCE_ANNOTATION}
    ensures GetRevision(o.(annotations := annotations)) == GetRevision(o)
  {
    assert |REVISION_ANNOTATION| != |STALE_SINCE_ANNOTATION|;
    var a, b := annotations - {STALE_SINCE_ANNOTATION}, o.annotations - {STALE_SINCE_ANNOTATION};
    assert REVISION_ANNOTATION in a <==> REVISION_ANNOTATION in annotations;
    assert REVISION_ANNOTATION in b <==> REVISION_ANNOTATION in o.annotations;
    if REVISION_ANNOTATION in a {
      assert a[REVISION_ANNOTATION] == annotations[REVISION_ANNOTATION];
    }
  }
}
