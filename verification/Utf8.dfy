/** UTF-8 validity (section 4 of RFC 3629) and the first fault of a payload
    (src/observability/frame_log.rs). A byte string holds one byte per char. */
module Utf8 {
  import opened Common

  predicate Tail(c: char) { 0x80 <= c as int <= 0xBF }

  predicate Between(c: char, low: int, high: int) { low <= c as int <= high }

  /** The length of the encoded character a byte string starts with, or 0 when it starts with none:
      the rules UTF8-1 to UTF8-4. */
  function ScalarLen(s: string): (n: nat)
    ensures n <= 4 && n <= |s|
  {
    if s == "" then 0
    else if Between(s[0], 0x00, 0x7F) then 1
    else if Between(s[0], 0xC2, 0xDF) && |s| >= 2 && Tail(s[1]) then 2
    else if |s| >= 3 && Tail(s[2]) && (
        || (Between(s[0], 0xE0, 0xE0) && Between(s[1], 0xA0, 0xBF))
        || (Between(s[0], 0xE1, 0xEC) && Tail(s[1]))
        || (Between(s[0], 0xED, 0xED) && Between(s[1], 0x80, 0x9F))
        || (Between(s[0], 0xEE, 0xEF) && Tail(s[1]))) then 3
    else if |s| >= 4 && Tail(s[2]) && Tail(s[3]) && (
        || (Between(s[0], 0xF0, 0xF0) && Between(s[1], 0x90, 0xBF))
        || (Between(s[0], 0xF1, 0xF3) && Tail(s[1]))
        || (Between(s[0], 0xF4, 0xF4) && Between(s[1], 0x80, 0x8F))) then 4
    else 0
  }

  /** A byte string that is a sequence of encoded characters. */
  predicate Valid(s: string)
    decreases |s|
  {
    s == "" || (ScalarLen(s) > 0 && Valid(s[ScalarLen(s)..]))
  }

  /** Where a validating scan stops: `Utf8Error::valid_up_to`, or the length when it does not. */
  function ValidUpTo(s: string): (n: nat)
    ensures n <= |s|
    decreases |s|
  {
    if ScalarLen(s) == 0 then 0 else ScalarLen(s) + ValidUpTo(s[ScalarLen(s)..])
  }

  /** The character a string starts with is decided by its own bytes. */
  lemma ScalarLocal(s: string, t: string)
    requires ScalarLen(s) > 0
    ensures ScalarLen(s + t) == ScalarLen(s)
  {
  }

  lemma ScalarOfPrefix(s: string, k: nat)
    requires k <= |s|
    ensures ScalarLen(s[..k]) == if ScalarLen(s) <= k then ScalarLen(s) else 0
  {
    if ScalarLen(s[..k]) > 0 {
      ScalarLocal(s[..k], s[k..]);
      assert s[..k] + s[k..] == s;
    }
  }

  lemma {:induction false} ValidConcat(a: string, b: string)
    requires Valid(a)
    ensures Valid(a + b) <==> Valid(b)
    decreases |a|
  {
    if a == "" {
      assert a + b == b;
    } else {
      var n := ScalarLen(a);
      ScalarLocal(a, b);
      assert (a + b)[n..] == a[n..] + b;
      ValidConcat(a[n..], b);
    }
  }

  /** The scan stops at the end of the longest valid prefix. */
  lemma {:induction false} ValidUpToIsLongest(s: string)
    ensures Valid(s[..ValidUpTo(s)])
    ensures forall k :: ValidUpTo(s) < k <= |s| ==> !Valid(s[..k])
    decreases |s|
  {
    var n := ScalarLen(s);
    forall k | 0 <= k <= |s|
      ensures ScalarLen(s[..k]) == if n <= k then n else 0
    {
      ScalarOfPrefix(s, k);
    }
    if n > 0 {
      ValidUpToIsLongest(s[n..]);
      forall k | n <= k <= |s|
        ensures s[..k][n..] == s[n..][..k - n]
      {
      }
    }
  }

  lemma ValidIffScansThrough(s: string)
    ensures Valid(s) <==> ValidUpTo(s) == |s|
  {
    ValidUpToIsLongest(s);
    assert s[..|s|] == s;
  }

  // ----- U+FFFD -----

  /** The bytes EF BF BD stand at offset `k`. */
  predicate ReplacementAt(s: string, k: nat) {
    k + 3 <= |s| && s[k] as int == 0xEF && s[k + 1] as int == 0xBF && s[k + 2] as int == 0xBD
  }

  /** `str::find` of U+FFFD: character by character. */
  function FindReplacement(s: string): (r: Option<nat>)
    requires Valid(s)
    decreases |s|
  {
    if s == "" then None
    else if ReplacementAt(s, 0) then Some(0)
    else match FindReplacement(s[ScalarLen(s)..])
      case None => None
      case Some(k) => Some(ScalarLen(s) + k)
  }

  lemma TailsFollow(s: string)
    ensures forall i :: 0 < i < ScalarLen(s) ==> Tail(s[i])
    ensures ReplacementAt(s, 0) ==> ScalarLen(s) == 3
  {
  }

  /** U+FFFD past the first character starts no earlier than the second. */
  lemma ReplacementShift(s: string, k: nat)
    requires 0 < k
    ensures ReplacementAt(s, k) ==> k >= ScalarLen(s)
    ensures k >= ScalarLen(s) ==> (ReplacementAt(s, k) <==> ReplacementAt(s[ScalarLen(s)..], k - ScalarLen(s)))
  {
    TailsFollow(s);
    hide ScalarLen;
  }

  /** Self-synchronization: in a valid string the bytes EF BF BD occur only as a whole character, so
      what precedes them is valid. */
  lemma {:induction false} ReplacementAligned(s: string, k: nat)
    requires k < ValidUpTo(s) && ReplacementAt(s, k)
    ensures k + 3 <= ValidUpTo(s) && Valid(s[..k])
    decreases |s|
  {
    TailsFollow(s);
    hide ScalarLen;
    var n := ScalarLen(s);
    if k > 0 {
      ReplacementShift(s, k);
      hide ReplacementAt;
      ReplacementAligned(s[n..], k - n);
      ScalarOfPrefix(s, k);
      SliceShift(s, n, k);
    }
  }

  lemma SliceShift(s: string, n: nat, k: nat)
    requires n <= k <= |s|
    ensures s[..k][n..] == s[n..][..k - n]
  {
  }

  lemma FindUnfolds(s: string)
    requires Valid(s)
    ensures s == "" ==> FindReplacement(s) == None
    ensures s != "" && ReplacementAt(s, 0) ==> FindReplacement(s) == Some(0)
    ensures s != "" && !ReplacementAt(s, 0) ==>
              var n := ScalarLen(s);
              n > 0 && Valid(s[n..])
              && FindReplacement(s)
                 == match FindReplacement(s[n..]) case None => None case Some(k) => Some(n + k)
  {
  }

  /** Searching characters and searching bytes find the same: the first occurrence. */
  lemma {:induction false} FindIsByteSearch(s: string)
    requires Valid(s)
    ensures var r := FindReplacement(s);
            && (r.None? ==> forall k: nat :: !ReplacementAt(s, k))
            && (r.Some? ==> ReplacementAt(s, r.value) && forall k: nat :: k < r.value ==> !ReplacementAt(s, k))
    decreases |s|
  {
    hide ScalarLen, FindReplacement, Valid;
    FindUnfolds(s);
    if s != "" && !ReplacementAt(s, 0) {
      hide ReplacementAt;
      var n := ScalarLen(s);
      var tail := s[n..];
      FindIsByteSearch(tail);
      var q := FindReplacement(tail);
      forall k: nat | ReplacementAt(s, k)
        ensures q.Some? && n + q.value <= k
      {
        assert k > 0;
        ReplacementShift(s, k);
        assert ReplacementAt(tail, k - n);
      }
      if q.Some? {
        ReplacementShift(s, n + q.value);
      }
    }
  }

  // ----- The first fault -----

  /** `first_fault_byte`, over what `str::from_utf8` reports. */
  function FirstFaultByte(bytes: string): Option<nat> {
    if Valid(bytes) then FindReplacement(bytes)
    else
      var invalidAt := ValidUpTo(bytes);
      ValidUpToIsLongest(bytes);
      match FindReplacement(bytes[..invalidAt])
      case Some(k) => Some(k)
      case None => Some(invalidAt)
  }

  /** The bytes stop being valid UTF-8 at `k`: everything before is valid, nothing longer is. */
  predicate StopsAt(s: string, k: nat) {
    && k < |s| && Valid(s[..k])
    && forall j :: k < j <= |s| ==> !Valid(s[..j])
  }

  predicate Fault(s: string, k: nat) {
    ReplacementAt(s, k) || StopsAt(s, k)
  }

  lemma StopsOnlyThere(s: string)
    requires !Valid(s)
    ensures StopsAt(s, ValidUpTo(s))
    ensures forall k: nat :: StopsAt(s, k) ==> k == ValidUpTo(s)
  {
    ValidIffScansThrough(s);
    ValidUpToIsLongest(s);
    hide Valid, ValidUpTo;
  }

  lemma NeverStops(s: string)
    requires Valid(s)
    ensures forall k: nat :: !StopsAt(s, k)
  {
    assert s[..|s|] == s;
    hide Valid;
  }

  /** Before the scan stops, the bytes and the valid prefix hold the same U+FFFD. */
  lemma ReplacementInPrefix(s: string, k: nat)
    requires k < ValidUpTo(s)
    ensures ReplacementAt(s, k) <==> ReplacementAt(s[..ValidUpTo(s)], k)
  {
    if ReplacementAt(s, k) {
      ReplacementAligned(s, k);
    }
  }

  lemma FaultOfInvalid(s: string)
    requires !Valid(s)
    ensures var r := FirstFaultByte(s);
            r.Some? && Fault(s, r.value) && forall j: nat :: j < r.value ==> !Fault(s, j)
  {
    var n := ValidUpTo(s);
    StopsOnlyThere(s);
    ValidUpToIsLongest(s);
    FindIsByteSearch(s[..n]);
    hide ValidUpTo, FindReplacement;
    forall k: nat | k < n
      ensures ReplacementAt(s, k) <==> ReplacementAt(s[..n], k)
    {
      ReplacementInPrefix(s, k);
    }
    hide Valid, StopsAt, ReplacementAt;
  }

  /** The reported offset is the least at which a literal U+FFFD starts or the bytes stop being valid
      UTF-8; none is reported exactly when the bytes are valid and hold no U+FFFD. */
  lemma FirstFaultIsLeast(s: string)
    ensures var r := FirstFaultByte(s);
            && (r.Some? ==> Fault(s, r.value) && forall j: nat :: j < r.value ==> !Fault(s, j))
            && (r.None? <==> Valid(s) && forall k: nat :: !ReplacementAt(s, k))
            && (r.None? ==> forall k: nat :: !Fault(s, k))
  {
    if Valid(s) {
      FindIsByteSearch(s);
      NeverStops(s);
    } else {
      FaultOfInvalid(s);
    }
    hide StopsAt, ReplacementAt, FindReplacement;
  }

  /** On text, the text record's character search, the binary record's scan and a byte search for
      EF BF BD all report the same offset. */
  lemma RecordsAgreeOnText(text: string, k: nat)
    requires Valid(text)
    ensures FindReplacement(text) == FirstFaultByte(text)
    ensures FirstFaultByte(text) == Some(k)
            <==> ReplacementAt(text, k) && forall j: nat :: j < k ==> !ReplacementAt(text, j)
  {
    FindIsByteSearch(text);
    hide ReplacementAt, FindReplacement;
  }
}
