/**
 * The Julia helper keeps the tail of a pipe while reading it in chunks of any size. What it
 * shows is what truncating the whole output at once would show, except for one kind of input.
 */
module TailBuffer {
  import opened Text
  import opened Truncation
  import opened Utf8

  // ----- The tail as a value -----

  datatype Tail = Tail(data: string, omitted: nat)

  const NO_TAIL := Tail("", 0)

  function Appended(t: Tail, chunk: string, maxBytes: int): Tail {
    if maxBytes <= 0 then Tail("", t.omitted + |chunk|)
    else
      var data := t.data + chunk;
      if |data| <= maxBytes then Tail(data, t.omitted)
      else
        var start := SafeSuffixStart(data, |data| - maxBytes);
        Tail(data[start..], t.omitted + start)
  }

  function Streamed(chunks: seq<string>, maxBytes: int): Tail {
    if chunks == [] then NO_TAIL
    else
      var n := |chunks| - 1;
      Appended(Streamed(chunks[..n], maxBytes), chunks[n], maxBytes)
  }

  function Concat(chunks: seq<string>): string {
    if chunks == [] then "" else Concat(chunks[..|chunks| - 1]) + chunks[|chunks| - 1]
  }

  /** `_tail_string`. */
  function Display(t: Tail, maxBytes: int): string {
    if maxBytes <= 0 then HIDDEN_BYTES
    else if t.omitted == 0 then t.data
    else OmittedBytesNote(t.omitted) + t.data
  }

  /** `_truncate_bytes_tail`: the C++ truncation, with negative limits hiding everything too. */
  function OneShot(text: string, maxBytes: int): string {
    TruncateBytesTail(text, if maxBytes <= 0 then 0 else maxBytes)
  }

  // ----- The operations -----

  lemma SuffixStartStep(text: string, start: nat)
    requires start <= |text|
    ensures SafeSuffixStart(text, start) ==
      if start < |text| && IsContinuation(text[start]) then SafeSuffixStart(text, start + 1) else start
  {
  }

  /** The helper's loop over positions counted from one, which both of its truncations run. */
  method SkipContinuations(text: string, from: nat) returns (start: nat)
    requires 1 <= from <= |text| + 1
    ensures from <= start <= |text| + 1 && start - 1 == SafeSuffixStart(text, from - 1)
  {
    hide SafeSuffixStart, IsContinuation;
    start := from;
    while start <= |text| && IsContinuation(text[start - 1])
      invariant from <= start <= |text| + 1
      invariant SafeSuffixStart(text, start - 1) == SafeSuffixStart(text, from - 1)
    {
      SuffixStartStep(text, start - 1);
      start := start + 1;
    }
    SuffixStartStep(text, start - 1);
  }

  /** The helper's own one-shot truncation. */
  method TruncateBytesTailJulia(text: string, maxBytes: int) returns (out: string)
    ensures out == OneShot(text, maxBytes)
  {
    if maxBytes <= 0 {
      return HIDDEN_BYTES;
    }
    var bytes := |text|;
    if bytes <= maxBytes {
      return text;
    }
    var start := SkipContinuations(text, bytes - maxBytes + 1);
    var suffix := if start > bytes then "" else text[start - 1..];
    out := OmittedBytesNote(start - 1) + suffix;
  }

  class TailByteBuffer {
    var data: string
    var omittedBytes: nat
    const maxBytes: int

    constructor (maxBytes: int)
      ensures this.maxBytes == maxBytes && Now() == NO_TAIL
    {
      this.maxBytes := maxBytes;
      data, omittedBytes := "", 0;
    }

    function Now(): Tail
      reads this
    {
      Tail(data, omittedBytes)
    }

    /** `_append_tail!`. */
    method Append(chunk: string)
      modifies this
      ensures Now() == Appended(old(Now()), chunk, maxBytes)
    {
      if maxBytes <= 0 {
        omittedBytes := omittedBytes + |chunk|;
        data := "";
        return;
      }
      data := data + chunk;
      if |data| <= maxBytes {
        return;
      }
      var start := SkipContinuations(data, |data| - maxBytes + 1);
      omittedBytes := omittedBytes + (start - 1);
      data := if start > |data| then "" else data[start - 1..];
    }

    /** `_tail_string`: making the text takes the bytes out of the buffer. */
    method TakeString() returns (text: string)
      modifies this
      ensures text == Display(old(Now()), maxBytes)
      ensures Now() == if maxBytes <= 0 then old(Now()) else Tail("", old(omittedBytes))
    {
      if maxBytes <= 0 {
        return HIDDEN_BYTES;
      }
      text := data;
      data := "";
      if omittedBytes != 0 {
        text := OmittedBytesNote(omittedBytes) + text;
      }
    }
  }

  lemma StreamedStep(chunks: seq<string>, n: nat, maxBytes: int)
    requires n < |chunks|
    ensures Streamed(chunks[..n + 1], maxBytes) == Appended(Streamed(chunks[..n], maxBytes), chunks[n], maxBytes)
    ensures chunks[n] == "" ==> Streamed(chunks[..n + 1], maxBytes) == Streamed(chunks[..n], maxBytes)
  {
    assert chunks[..n + 1][..n] == chunks[..n];
    var t := Streamed(chunks[..n], maxBytes);
    StreamKeepsSuffix(chunks[..n], maxBytes);
    assert t.data + "" == t.data;
  }

  lemma NothingStreamed(maxBytes: int)
    ensures Streamed([], maxBytes) == NO_TAIL
  {
  }

  /** `_drain_pipe_tail`: empty reads are passed over. */
  method DrainPipeTail(received: seq<string>, maxBytes: int) returns (text: string)
    ensures text == Display(Streamed(received, maxBytes), maxBytes)
  {
    hide Streamed, Appended;
    var tail := new TailByteBuffer(maxBytes);
    var n := 0;
    NothingStreamed(maxBytes);
    assert received[..0] == [];
    while n < |received|
      invariant n <= |received| && tail.maxBytes == maxBytes
      invariant tail.Now() == Streamed(received[..n], maxBytes)
    {
      StreamedStep(received, n, maxBytes);
      if received[n] != "" {
        tail.Append(received[n]);
      }
      n := n + 1;
    }
    assert received[..n] == received;
    text := tail.TakeString();
  }

  // ----- What the stream keeps -----

  /** Whatever the chunks: a suffix within the limit, and every byte is kept or counted. */
  lemma {:induction false} StreamKeepsSuffix(chunks: seq<string>, maxBytes: int)
    ensures var t, text := Streamed(chunks, maxBytes), Concat(chunks);
      && t.omitted + |t.data| == |text| && EndsWith(text, t.data)
      && |t.data| <= if maxBytes <= 0 then 0 else maxBytes
    decreases |chunks|
  {
    hide SafeSuffixStart, IsContinuation;
    if chunks != [] {
      var n := |chunks| - 1;
      StreamKeepsSuffix(chunks[..n], maxBytes);
      var t, text := Streamed(chunks[..n], maxBytes), Concat(chunks[..n]);
      assert (text + chunks[n])[t.omitted..] == t.data + chunks[n];
    }
  }

  /** The suffix starts where the continuation bytes stop. */
  lemma {:induction false} StartIsWhereRunStops(text: string, start: nat, stop: nat)
    requires start <= stop <= |text| && (stop < |text| ==> !IsContinuation(text[stop]))
    requires forall i | start <= i < stop :: IsContinuation(text[i])
    ensures SafeSuffixStart(text, start) == stop
    decreases stop - start
  {
    if start < stop {
      StartIsWhereRunStops(text, start + 1, stop);
    }
  }

  /** A run of continuation bytes made an earlier cut discard all there was up to `cut`. */
  predicate RanOff(text: string, cut: nat, maxBytes: nat) {
    && maxBytes < cut <= |text| <= cut + maxBytes
    && forall i | cut - maxBytes <= i < cut :: IsContinuation(text[i])
  }

  predicate CutProperly(text: string, cut: nat, maxBytes: nat) {
    cut == if |text| <= maxBytes then 0 else SafeSuffixStart(text, |text| - maxBytes)
  }

  lemma {:induction false} StreamCuts(chunks: seq<string>, maxBytes: nat)
    requires maxBytes > 0
    ensures var cut, text := Streamed(chunks, maxBytes).omitted, Concat(chunks);
      CutProperly(text, cut, maxBytes) || RanOff(text, cut, maxBytes)
    decreases |chunks|
  {
    hide CutProperly, RanOff, Appended;
    if chunks == [] {
      NothingCut(maxBytes);
    } else {
      var n := |chunks| - 1;
      StreamCuts(chunks[..n], maxBytes);
      StreamKeepsSuffix(chunks[..n], maxBytes);
      var t, text := Streamed(chunks[..n], maxBytes), Concat(chunks[..n]);
      ChunkCuts(text, t.omitted, chunks[n], maxBytes);
      assert t == Tail(text[t.omitted..], t.omitted);
    }
  }

  lemma NothingCut(maxBytes: nat)
    ensures CutProperly("", 0, maxBytes)
  {
  }

  lemma ChunkCuts(text: string, cut: nat, chunk: string, maxBytes: nat)
    requires maxBytes > 0 && cut <= |text| && |text| - cut <= maxBytes
    requires CutProperly(text, cut, maxBytes) || RanOff(text, cut, maxBytes)
    ensures var all, next := text + chunk, Appended(Tail(text[cut..], cut), chunk, maxBytes).omitted;
      CutProperly(all, next, maxBytes) || RanOff(all, next, maxBytes)
  {
    hide SafeSuffixStart, IsContinuation, CutProperly, RanOff;
    var all := text + chunk;
    assert text[cut..] + chunk == all[cut..];
    if |all| - cut > maxBytes {
      StartInSuffix(all, cut, |all| - cut - maxBytes);
      NewCutIsProper(all, maxBytes);
    } else {
      OldCutStands(text, cut, chunk, maxBytes);
    }
  }

  lemma NewCutIsProper(text: string, maxBytes: nat)
    requires |text| > maxBytes
    ensures CutProperly(text, SafeSuffixStart(text, |text| - maxBytes), maxBytes)
  {
  }

  lemma {:induction false} StartInSuffix(text: string, cut: nat, start: nat)
    requires cut + start <= |text|
    ensures SafeSuffixStart(text[cut..], start) + cut == SafeSuffixStart(text, cut + start)
    decreases |text| - start
  {
    if cut + start < |text| {
      assert text[cut..][start] == text[cut + start];
      StartInSuffix(text, cut, start + 1);
    }
  }

  lemma OldCutStands(text: string, cut: nat, chunk: string, maxBytes: nat)
    requires maxBytes > 0 && cut <= |text| && |text + chunk| - cut <= maxBytes
    requires CutProperly(text, cut, maxBytes) || RanOff(text, cut, maxBytes)
    ensures CutProperly(text + chunk, cut, maxBytes) || RanOff(text + chunk, cut, maxBytes)
  {
    hide SafeSuffixStart, IsContinuation;
    var all := text + chunk;
    assert forall i | 0 <= i < |text| :: all[i] == text[i];
    if |all| > maxBytes && !RanOff(text, cut, maxBytes) && cut < |text| {
      StartIsWhereRunStops(all, |all| - maxBytes, cut);
    }
  }

  // ----- When every chunking agrees with the one shot -----

  /** A cut after byte n that discards everything before it, inside a run that the next byte continues. */
  predicate SplitsRunAt(text: string, n: nat, maxBytes: nat) {
    && maxBytes < n < |text| <= n + maxBytes
    && forall i | n - maxBytes <= i <= n :: IsContinuation(text[i])
  }

  ghost predicate SplitsRun(text: string, maxBytes: nat) {
    exists n :: SplitsRunAt(text, n, maxBytes)
  }

  lemma ProperCutShowsOneShot(t: Tail, text: string, maxBytes: nat)
    requires maxBytes > 0 && CutProperly(text, t.omitted, maxBytes)
    requires t.omitted + |t.data| == |text| && EndsWith(text, t.data)
    ensures Display(t, maxBytes) == OneShot(text, maxBytes)
  {
    assert text[t.omitted..] == t.data;
  }

  lemma UnsplitAgrees(chunks: seq<string>, maxBytes: nat)
    requires maxBytes > 0 && !SplitsRun(Concat(chunks), maxBytes)
    ensures Display(Streamed(chunks, maxBytes), maxBytes) == OneShot(Concat(chunks), maxBytes)
  {
    var t, text := Streamed(chunks, maxBytes), Concat(chunks);
    StreamKeepsSuffix(chunks, maxBytes);
    StreamCuts(chunks, maxBytes);
    if RanOff(text, t.omitted, maxBytes) {
      assert !SplitsRunAt(text, t.omitted, maxBytes);
      StartIsWhereRunStops(text, |text| - maxBytes, t.omitted);
    }
    ProperCutShowsOneShot(t, text, maxBytes);
  }

  /** The number in a note can be read back. */
  lemma DecimalIsInjective(a: nat, b: nat)
    requires Decimal(a) == Decimal(b)
    ensures a == b
  {
    DecimalReadsBack(a);
    DecimalReadsBack(b);
  }

  lemma NotesDiffer(a: nat, b: nat, x: string, y: string)
    requires OmittedBytesNote(a) + x == OmittedBytesNote(b) + y
    ensures a == b
  {
    hide Decimal;
    var head, tail := "[JJMCP truncated: omitted ", " earlier byte(s)]\n";
    var s, t := Decimal(a), Decimal(b);
    assert OmittedBytesNote(a) + x == head + (s + (tail + x));
    assert OmittedBytesNote(b) + y == head + (t + (tail + y));
    DropHead(head, s + (tail + x), t + (tail + y));
    DigitsEndAlike(s, tail + x, t, tail + y);
    DecimalIsInjective(a, b);
  }

  lemma DropHead(head: string, x: string, y: string)
    requires head + x == head + y
    ensures x == y
  {
    assert x == (head + x)[|head|..];
    assert y == (head + y)[|head|..];
  }

  lemma DigitsEndAlike(s: string, x: string, t: string, y: string)
    requires s + x == t + y && x != "" && y != "" && x[0] == ' ' && y[0] == ' '
    requires ' ' !in s && ' ' !in t
    ensures s == t
  {
    assert (s + x)[|s|] == ' ' && (t + y)[|t|] == ' ';
    assert forall i | 0 <= i < |s| :: (s + x)[i] != ' ';
    assert forall i | 0 <= i < |t| :: (t + y)[i] != ' ';
    assert |s| == |t|;
    assert s == (s + x)[..|s|];
    assert t == (t + y)[..|t|];
  }

  lemma ChunksOfTwo(text: string, n: nat)
    requires n <= |text|
    ensures Concat([text[..n], text[n..]]) == text
  {
    var chunks := [text[..n], text[n..]];
    assert chunks[..1] == [text[..n]];
    assert Concat(chunks[..1]) == Concat([]) + text[..n];
  }

  /** Two chunks cut inside such a run show a tail that begins in the middle of the run. */
  lemma SplitRunDisagrees(text: string, n: nat, maxBytes: nat)
    requires maxBytes > 0 && SplitsRunAt(text, n, maxBytes)
    ensures Streamed([text[..n], text[n..]], maxBytes) == Tail(text[n..], n)
    ensures Display(Tail(text[n..], n), maxBytes) != OneShot(text, maxBytes)
  {
    hide Streamed, Appended, SafeSuffixStart, Display, OneShot;
    LateCutDiffers(text, n, maxBytes);
    TwoStreamed(text[..n], text[n..], maxBytes);
    RunIsDiscarded(text, n, maxBytes);
    ShortIsKept(n, text[n..], maxBytes);
  }

  lemma TwoStreamed(first: string, second: string, maxBytes: int)
    ensures Streamed([first, second], maxBytes) == Appended(Appended(NO_TAIL, first, maxBytes), second, maxBytes)
  {
    hide Appended;
    assert [first, second][..1] == [first] && [first][..0] == [];
    assert Streamed([first], maxBytes) == Appended(NO_TAIL, first, maxBytes);
  }

  lemma RunIsDiscarded(text: string, n: nat, maxBytes: nat)
    requires maxBytes > 0 && SplitsRunAt(text, n, maxBytes)
    ensures Appended(NO_TAIL, text[..n], maxBytes) == Tail("", n)
  {
    hide SafeSuffixStart;
    assert forall i | 0 <= i < n :: text[..n][i] == text[i];
    StartIsWhereRunStops(text[..n], n - maxBytes, n);
    assert "" + text[..n] == text[..n] && text[..n][n..] == "";
  }

  lemma ShortIsKept(omitted: nat, chunk: string, maxBytes: nat)
    requires maxBytes > 0 && |chunk| <= maxBytes
    ensures Appended(Tail("", omitted), chunk, maxBytes) == Tail(chunk, omitted)
  {
    assert "" + chunk == chunk;
  }

  /** The one shot cuts where the run ends. */
  lemma LateCutDiffers(text: string, n: nat, maxBytes: nat)
    requires maxBytes > 0 && SplitsRunAt(text, n, maxBytes)
    ensures Display(Tail(text[n..], n), maxBytes) != OneShot(text, maxBytes)
  {
    hide OmittedBytesNote, SafeSuffixStart;
    var start := SafeSuffixStart(text, |text| - maxBytes);
    if Display(Tail(text[n..], n), maxBytes) == OneShot(text, maxBytes) {
      NotesDiffer(n, start, text[n..], text[start..]);
    }
  }

  /** The streaming tail equals the one shot for every chunking if and only if no such run exists. */
  lemma StreamingEqualsOneShot(text: string, maxBytes: nat)
    requires maxBytes > 0
    ensures (forall chunks | Concat(chunks) == text ::
               Display(Streamed(chunks, maxBytes), maxBytes) == OneShot(text, maxBytes))
       <==> !SplitsRun(text, maxBytes)
  {
    if SplitsRun(text, maxBytes) {
      var n :| SplitsRunAt(text, n, maxBytes);
      ChunksOfTwo(text, n);
      SplitRunDisagrees(text, n, maxBytes);
    } else {
      forall chunks | Concat(chunks) == text
        ensures Display(Streamed(chunks, maxBytes), maxBytes) == OneShot(text, maxBytes)
      {
        UnsplitAgrees(chunks, maxBytes);
      }
    }
  }

  /** Without room nothing is shown, and both say so. */
  lemma NoRoomShowsNothing(chunks: seq<string>, maxBytes: int)
    requires maxBytes <= 0
    ensures Display(Streamed(chunks, maxBytes), maxBytes) == OneShot(Concat(chunks), maxBytes)
    ensures OneShot(Concat(chunks), maxBytes) == "[JJMCP truncated: output hidden because max byte count is 0]"
    ensures Streamed(chunks, maxBytes) == Tail("", |Concat(chunks)|)
  {
    StreamKeepsSuffix(chunks, maxBytes);
  }

  lemma NoLongRun(text: string, n: nat, maxBytes: nat)
    requires Valid(text) && 3 <= maxBytes <= n < |text|
    ensures exists i | n - maxBytes <= i <= n :: !IsContinuation(text[i])
  {
    hide Valid, CharLength;
    BoundaryIsNear(text, n - maxBytes);
    var b :| n - maxBytes <= b <= n - maxBytes + 3 && Stops(text, b);
    assert b <= n;
  }

  /** For valid UTF-8 and room for three bytes, every chunking gives the one shot, cut at a character boundary. */
  lemma ValidStreamsAgree(chunks: seq<string>, maxBytes: nat)
    requires Valid(Concat(chunks)) && maxBytes >= 3
    ensures Display(Streamed(chunks, maxBytes), maxBytes) == OneShot(Concat(chunks), maxBytes)
    ensures Boundary(Concat(chunks), Streamed(chunks, maxBytes).omitted)
  {
    hide Valid, CharLength;
    var text := Concat(chunks);
    forall n: nat ensures !SplitsRunAt(text, n, maxBytes) {
      if maxBytes < n < |text| {
        NoLongRun(text, n, maxBytes);
      }
    }
    UnsplitAgrees(chunks, maxBytes);
    StreamKeepsSuffix(chunks, maxBytes);
    StreamCuts(chunks, maxBytes);
    var cut := Streamed(chunks, maxBytes).omitted;
    assert cut <= |text|;
    assert !SplitsRunAt(text, cut, maxBytes);
    if CutProperly(text, cut, maxBytes) && cut == 0 && text != "" {
      FirstIsNoContinuation(text);
    }
    BoundaryIsNoContinuation(text, cut);
  }

  /** Room for two bytes is not enough: a four-byte character read in two chunks leaves a broken tail. */
  lemma TwoBytesAreNotEnough()
    ensures var text: string := [0xF0 as char, 0x9F as char, 0x98 as char, 0x80 as char];
      && Valid(text) && SplitsRun(text, 2)
      && Streamed([text[..3], text[3..]], 2).data == [0x80 as char]
  {
    var text: string := [0xF0 as char, 0x9F as char, 0x98 as char, 0x80 as char];
    assert CharLength(text) == 4 && text[4..] == "";
    assert SplitsRunAt(text, 3, 2);
    SplitRunDisagrees(text, 3, 2);
  }
}
