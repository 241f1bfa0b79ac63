/** Truncation respects the character boundaries of valid UTF-8 (section 3 and 4 of RFC 3629). */
module Utf8 {
  import opened Text
  import opened Truncation

  predicate InRange(text: string, i: nat, low: int, high: int) {
    i < |text| && low <= text[i] as int <= high
  }

  /** The length of the well-formed character in front, by the grammar of RFC 3629; 0 if there is none. */
  function CharLength(text: string): (n: nat)
    ensures n <= 4 && n <= |text|
    ensures n > 0 ==> !IsContinuation(text[0]) && forall i | 1 <= i < n :: IsContinuation(text[i])
  {
    if InRange(text, 0, 0x00, 0x7F) then 1
    else if InRange(text, 0, 0xC2, 0xDF) && InRange(text, 1, 0x80, 0xBF) then 2
    else if (|| (InRange(text, 0, 0xE0, 0xE0) && InRange(text, 1, 0xA0, 0xBF))
             || (InRange(text, 0, 0xE1, 0xEC) && InRange(text, 1, 0x80, 0xBF))
             || (InRange(text, 0, 0xED, 0xED) && InRange(text, 1, 0x80, 0x9F))
             || (InRange(text, 0, 0xEE, 0xEF) && InRange(text, 1, 0x80, 0xBF)))
            && InRange(text, 2, 0x80, 0xBF) then 3
    else if (|| (InRange(text, 0, 0xF0, 0xF0) && InRange(text, 1, 0x90, 0xBF))
             || (InRange(text, 0, 0xF1, 0xF3) && InRange(text, 1, 0x80, 0xBF))
             || (InRange(text, 0, 0xF4, 0xF4) && InRange(text, 1, 0x80, 0x8F)))
            && InRange(text, 2, 0x80, 0xBF) && InRange(text, 3, 0x80, 0xBF) then 4
    else 0
  }

  predicate Valid(text: string) {
    text == "" || (CharLength(text) > 0 && Valid(text[CharLength(text)..]))
  }

  /** Cutting at p splits no character. */
  predicate Boundary(text: string, p: nat) {
    p <= |text| && Valid(text[..p]) && Valid(text[p..])
  }

  /** The character in front is decided by its own bytes. */
  lemma CharLengthOfPrefix(text: string, p: nat)
    requires 0 < CharLength(text) <= p <= |text|
    ensures CharLength(text[..p]) == CharLength(text)
  {
  }

  /** In valid text the boundaries are exactly the positions that continue no character. */
  lemma {:induction false} BoundaryIsNoContinuation(text: string, p: nat)
    requires Valid(text) && p <= |text|
    ensures Boundary(text, p) <==> p == |text| || !IsContinuation(text[p])
    decreases |text|
  {
    var n := CharLength(text);
    if p == 0 {
      assert text[..0] == "" && text[0..] == text;
    } else if p < n {
      assert text[p..][0] == text[p];
    } else {
      var rest := text[n..];
      BoundaryIsNoContinuation(rest, p - n);
      CharLengthOfPrefix(text, p);
      assert text[..p][n..] == rest[..p - n];
      assert text[p..] == rest[p - n..];
    }
  }

  /** No character goes on at position b. */
  predicate Stops(text: string, b: int) {
    0 <= b <= |text| && (b == |text| || !IsContinuation(text[b]))
  }

  /** No position of valid text is more than three bytes from the boundary before and after it. */
  lemma {:induction false} BoundaryIsNear(text: string, p: nat)
    requires Valid(text) && p < |text|
    ensures exists b :: p <= b <= p + 3 && Stops(text, b)
    ensures exists b :: p - 3 <= b <= p && Stops(text, b)
    decreases |text|
  {
    var n := CharLength(text);
    if p < n {
      assert n < |text| ==> text[n..][0] == text[n];
      assert Stops(text, 0) && Stops(text, n);
    } else {
      var rest := text[n..];
      BoundaryIsNear(rest, p - n);
      var b :| p - n <= b <= p - n + 3 && Stops(rest, b);
      var c :| p - n - 3 <= c <= p - n && Stops(rest, c);
      assert Stops(text, n + b) && Stops(text, n + c);
    }
  }

  /**
   * The byte tail of valid text: a note of the omitted bytes and the longest valid suffix that cuts
   * at a boundary within the limit, at most three bytes shorter than the limit.
   */
  lemma BytesTailCutsAtBoundary(text: string, maxBytes: nat)
    requires Valid(text) && 0 < maxBytes < |text|
    ensures var start := SafeSuffixStart(text, |text| - maxBytes);
      && TruncateBytesTail(text, maxBytes) == OmittedBytesNote(start) + text[start..]
      && Boundary(text, start) && maxBytes - 3 <= |text| - start <= maxBytes
      && forall b | |text| - maxBytes <= b <= |text| && Boundary(text, b) :: start <= b
  {
    var limit := |text| - maxBytes;
    var start := SafeSuffixStart(text, limit);
    BoundaryIsNoContinuation(text, start);
    BoundaryIsNear(text, limit);
    forall b | limit <= b <= |text| && Boundary(text, b) ensures start <= b {
      BoundaryIsNoContinuation(text, b);
    }
  }

  lemma FirstIsNoContinuation(text: string)
    requires Valid(text) && text != ""
    ensures !IsContinuation(text[0])
  {
  }

  lemma KeptPrefixIsNear(text: string, maxBytes: nat)
    requires Valid(text) && 0 < maxBytes < |text|
    ensures var keep := SafePrefixLength(text, maxBytes);
      maxBytes - 3 <= keep <= maxBytes && !IsContinuation(text[keep])
  {
    hide Valid;
    BoundaryIsNear(text, maxBytes);
    FirstIsNoContinuation(text);
    var b :| maxBytes - 3 <= b <= maxBytes && Stops(text, b);
    NoLongerPrefix(text, maxBytes, b);
  }

  lemma NoLongerPrefix(text: string, maxBytes: nat, b: nat)
    requires b <= maxBytes < |text| && !IsContinuation(text[b])
    ensures b <= SafePrefixLength(text, maxBytes)
  {
  }

  lemma PrefixWithNote(text: string, maxBytes: nat)
    requires 0 < maxBytes < |text|
    ensures var keep := SafePrefixLength(text, maxBytes);
      TruncateBytes(text, maxBytes) ==
        EndLine(text[..keep]) + "[JJMCP truncated: omitted " + Decimal(|text| - keep) + " byte(s)]"
  {
    hide EndLine, Decimal, SafePrefixLength;
  }

  /** The byte prefix of valid text, likewise: the longest valid prefix within the limit. */
  lemma BytesPrefixCutsAtBoundary(text: string, maxBytes: nat)
    requires Valid(text) && 0 < maxBytes < |text|
    ensures var keep := SafePrefixLength(text, maxBytes);
      && TruncateBytes(text, maxBytes) ==
           EndLine(text[..keep]) + "[JJMCP truncated: omitted " + Decimal(|text| - keep) + " byte(s)]"
      && Boundary(text, keep) && maxBytes - 3 <= keep <= maxBytes
      && forall b: nat | b <= maxBytes && Boundary(text, b) :: b <= keep
  {
    hide Valid, EndLine, Decimal, Boundary, SafePrefixLength, IsContinuation, TruncateBytes;
    PrefixWithNote(text, maxBytes);
    var keep := SafePrefixLength(text, maxBytes);
    KeptPrefixIsNear(text, maxBytes);
    BoundaryIsNoContinuation(text, keep);
    forall b: nat | b <= maxBytes && Boundary(text, b) ensures b <= keep {
      BoundaryIsNoContinuation(text, b);
      NoLongerPrefix(text, maxBytes, b);
    }
  }
}
