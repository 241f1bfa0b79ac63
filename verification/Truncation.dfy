/** Keeping the newest lines and bytes of an output, with a note of what was omitted. */
module Truncation {
  import opened Text

  // ----- Numbers in notes -----

  function Decimal(n: nat): (s: string)
    ensures s != "" && forall c | c in s :: '0' <= c <= '9'
  {
    var digit := '0' + (n % 10) as char;
    if n < 10 then [digit] else Decimal(n / 10) + [digit]
  }

  /** What a reader of decimal digits makes of them. */
  function NumberRead(digits: string): nat
    requires forall c | c in digits :: '0' <= c <= '9'
  {
    if digits == "" then 0
    else
      var n := |digits| - 1;
      assert digits[n] in digits && forall c | c in digits[..n] :: c in digits;
      10 * NumberRead(digits[..n]) + (digits[n] - '0') as nat
  }

  /** The decimal digits say the number, without leading zeros. */
  lemma {:induction false} DecimalReadsBack(n: nat)
    ensures NumberRead(Decimal(n)) == n && (n > 0 ==> Decimal(n)[0] != '0')
  {
    if n >= 10 {
      DecimalReadsBack(n / 10);
      assert Decimal(n)[..|Decimal(n)| - 1] == Decimal(n / 10);
    } else {
      assert Decimal(n)[..0] == "";
    }
  }

  function Pow10(k: nat): nat {
    if k == 0 then 1 else 10 * Pow10(k - 1)
  }

  lemma {:induction false} DecimalLength(n: nat, k: nat)
    requires 0 < k && n < Pow10(k)
    ensures |Decimal(n)| <= k
  {
    if n >= 10 {
      assert Pow10(1) == 10 * Pow10(0);
      DecimalLength(n / 10, k - 1);
    }
  }

  /** `std::size_t` is 64 bits wide; no text is longer than its maximum. */
  const SIZE_MAX := 0xFFFF_FFFF_FFFF_FFFF

  lemma SizeHasTwentyDigits(n: nat)
    requires n <= SIZE_MAX
    ensures |Decimal(n)| <= 20
  {
    assert Pow10(5) == 100_000 by { assert Pow10(3) == 1000; }
    assert Pow10(10) == 10_000_000_000 by { assert Pow10(7) == 10_000_000; assert Pow10(9) == 1_000_000_000; }
    assert Pow10(13) == 10_000_000_000_000 by { assert Pow10(12) == 1_000_000_000_000; }
    assert Pow10(16) == 10_000_000_000_000_000 by { assert Pow10(15) == 1_000_000_000_000_000; }
    assert Pow10(20) == 100_000_000_000_000_000_000 by {
      assert Pow10(18) == 1_000_000_000_000_000_000;
      assert Pow10(19) == 10_000_000_000_000_000_000;
    }
    DecimalLength(n, 20);
  }

  const HIDDEN_BYTES := "[JJMCP truncated: output hidden because max byte count is 0]"
  const HIDDEN_LINES := "[JJMCP truncated: output hidden because max line count is 0]"

  function OmittedBytesNote(n: nat): string {
    "[JJMCP truncated: omitted " + Decimal(n) + " earlier byte(s)]\n"
  }

  function OmittedLinesNote(n: nat): string {
    "[JJMCP truncated: omitted " + Decimal(n) + " earlier line(s)]\n"
  }

  /** A note begins no marker, so nothing new can be read across its end. */
  predicate IsNote(note: string) {
    '_' !in note && '\r' !in note
  }

  lemma NotesAreNotes(n: nat)
    ensures IsNote(OmittedBytesNote(n)) && IsNote(OmittedLinesNote(n))
    ensures |OmittedBytesNote(n)| == |Decimal(n)| + 44
  {
    var d := Decimal(n);
    assert '_' !in d && '\r' !in d;
    assert IsNote("[JJMCP truncated: omitted ");
    assert IsNote(" earlier byte(s)]\n");
    assert IsNote(" earlier line(s)]\n");
  }

  // ----- Lines -----

  /** The pieces between newlines: one more than there are newlines. */
  function Lines(text: string): (ls: seq<string>)
    ensures |ls| > 0 && forall l | l in ls :: '\n' !in l
    decreases |text|
  {
    var e := LineEnd(text, 0);
    assert text[..e] == text[0..e];
    if e == |text| then [text] else [text[..e]] + Lines(text[e + 1..])
  }

  function Unlines(ls: seq<string>): string {
    if ls == [] then "" else if |ls| == 1 then ls[0] else ls[0] + "\n" + Unlines(ls[1..])
  }

  lemma {:induction false} UnlinesInvertsLines(text: string)
    ensures Unlines(Lines(text)) == text
    decreases |text|
  {
    var e := LineEnd(text, 0);
    if e < |text| {
      UnlinesInvertsLines(text[e + 1..]);
      assert Lines(text)[1..] == Lines(text[e + 1..]);
      assert text == text[..e] + "\n" + text[e + 1..];
    }
  }

  lemma {:induction false} LinesInvertsUnlines(ls: seq<string>)
    requires |ls| > 0 && forall l | l in ls :: '\n' !in l
    ensures Lines(Unlines(ls)) == ls
    decreases |ls|
  {
    var text := Unlines(ls);
    if |ls| == 1 {
      assert text[0..|text|] == text;
      LineEndIs(text, 0, |text|);
    } else {
      LinesInvertsUnlines(ls[1..]);
      assert text[0..|ls[0]|] == ls[0];
      LineEndIs(text, 0, |ls[0]|);
      assert text[|ls[0]| + 1..] == Unlines(ls[1..]);
      assert ls == [ls[0]] + ls[1..];
    }
  }

  lemma LinesStep(text: string, e: nat)
    requires e <= |text| && '\n' !in text[0..e] && (e == |text| || text[e] == '\n')
    ensures Lines(text) == if e == |text| then [text] else [text[..e]] + Lines(text[e + 1..])
  {
    hide LineEnd;
    LineEndIs(text, 0, e);
  }

  function ExtendLast(ls: seq<string>, c: char): seq<string>
    requires ls != []
  {
    ls[..|ls| - 1] + [ls[|ls| - 1] + [c]]
  }

  /** Reading one more character extends the last line or opens a new one. */
  lemma {:induction false} LinesAppend(text: string, c: char)
    ensures Lines(text + [c]) == if c == '\n' then Lines(text) + [""] else ExtendLast(Lines(text), c)
    decreases |text|
  {
    hide LineEnd, Lines;
    var e, longer := LineEnd(text, 0), text + [c];
    LinesStep(text, e);
    if e < |text| {
      var rest := text[e + 1..];
      assert longer[0..e] == text[0..e];
      LinesStep(longer, e);
      LinesAppend(rest, c);
      assert longer[..e] == text[..e] && longer[e + 1..] == rest + [c];
      AppendBehind(text[..e], Lines(rest), c);
    } else {
      LineAppend(text, c);
    }
  }

  lemma AppendBehind(first: string, ls: seq<string>, c: char)
    requires ls != []
    ensures ExtendLast([first] + ls, c) == [first] + ExtendLast(ls, c)
    ensures [first] + (ls + [""]) == ([first] + ls) + [""]
  {
  }

  lemma LineAppend(line: string, c: char)
    requires '\n' !in line
    ensures Lines(line + [c]) == if c == '\n' then [line, ""] else [line + [c]]
  {
    hide LineEnd, Lines;
    var longer := line + [c];
    if c == '\n' {
      assert longer[0..|line|] == line;
      LinesStep(longer, |line|);
      LinesStep("", 0);
      assert longer[|line| + 1..] == "" && longer[..|line|] == line;
    } else {
      assert longer[0..|longer|] == longer;
      LinesStep(longer, |longer|);
    }
  }

  /** `split_lines`: a last empty line is kept only if the text itself ends in a newline. */
  function SplitLines(text: string): seq<string> {
    var ls := Lines(DropCr(text));
    if ls[|ls| - 1] == "" && (text == "" || text[|text| - 1] != '\n') then ls[..|ls| - 1] else ls
  }

  method SplitLinesLoop(text: string) returns (lines: seq<string>)
    ensures lines == SplitLines(text)
  {
    hide DropCr, Lines;
    var current := "";
    lines := [];
    LinesStep("", 0);
    DropCrEmpty();
    for i := 0 to |text|
      invariant lines + [current] == Lines(DropCr(text[..i]))
    {
      var c := text[i];
      assert text[..i + 1] == text[..i] + [c];
      DropCrAppend(text[..i], c);
      LinesAppend(DropCr(text[..i]), c);
      if c == '\r' {
        continue;
      }
      if c == '\n' {
        lines := lines + [current];
        current := "";
      } else {
        current := current + [c];
      }
    }
    assert text[..|text|] == text;
    if current != "" || (text != "" && text[|text| - 1] == '\n') {
      lines := lines + [current];
    }
  }

  /** `join_lines`: a separator is written only once something has been written. */
  function JoinLines(ls: seq<string>): string {
    if ls == [] then ""
    else
      var out := JoinLines(ls[..|ls| - 1]);
      (if out != "" then out + "\n" else out) + ls[|ls| - 1]
  }

  method JoinLinesLoop(lines: seq<string>, first: nat, last: nat) returns (out: string)
    requires first <= last <= |lines|
    ensures out == JoinLines(lines[first..last])
  {
    out := "";
    for i := first to last
      invariant out == JoinLines(lines[first..i])
    {
      assert lines[first..i + 1][..i - first] == lines[first..i];
      if out != "" {
        out := out + "\n";
      }
      out := out + lines[i];
    }
  }

  function SkipEmpty(ls: seq<string>): (r: seq<string>)
    ensures |r| <= |ls| && r == ls[|ls| - |r|..]
  {
    if ls != [] && ls[0] == "" then SkipEmpty(ls[1..]) else ls
  }

  lemma {:induction false} UnlinesAppend(ls: seq<string>, l: string)
    requires ls != []
    ensures Unlines(ls + [l]) == Unlines(ls) + "\n" + l
  {
    assert (ls + [l])[1..] == ls[1..] + [l];
    if |ls| > 1 {
      UnlinesAppend(ls[1..], l);
      assert Unlines(ls + [l]) == ls[0] + "\n" + (Unlines(ls[1..]) + "\n" + l);
    }
  }

  lemma {:induction false} SkipEmptyAppend(ls: seq<string>, l: string)
    ensures SkipEmpty(ls + [l]) == if SkipEmpty(ls) == [] then SkipEmpty([l]) else SkipEmpty(ls) + [l]
  {
    if ls == [] {
      assert ls + [l] == [l];
    } else if ls[0] == "" {
      assert (ls + [l])[1..] == ls[1..] + [l];
      SkipEmptyAppend(ls[1..], l);
    }
  }

  /** Joining restores the separators but loses the empty lines in front. */
  lemma {:induction false} JoinLosesLeadingBlanks(ls: seq<string>)
    ensures JoinLines(ls) == Unlines(SkipEmpty(ls))
    ensures JoinLines(ls) == "" <==> SkipEmpty(ls) == []
  {
    if ls != [] {
      var init, l := ls[..|ls| - 1], ls[|ls| - 1];
      assert ls == init + [l];
      JoinLosesLeadingBlanks(init);
      SkipEmptyAppend(init, l);
      if SkipEmpty(init) != [] {
        UnlinesAppend(SkipEmpty(init), l);
      }
    }
  }

  // ----- Bytes -----

  /** `(c & 0xc0) == 0x80`. */
  predicate IsContinuation(c: char) {
    0x80 <= c as int < 0xC0
  }

  function StepBack(text: string, keep: nat): (r: nat)
    requires keep < |text|
    ensures r <= keep && (r == 0 || !IsContinuation(text[r]))
    ensures forall i | r < i <= keep :: IsContinuation(text[i])
  {
    if keep > 0 && IsContinuation(text[keep]) then StepBack(text, keep - 1) else keep
  }

  /** `utf8_safe_prefix_length`. */
  function SafePrefixLength(text: string, maxBytes: nat): (r: nat)
    ensures r <= |text| && r <= maxBytes
  {
    if maxBytes >= |text| then |text| else StepBack(text, maxBytes)
  }

  /** `utf8_safe_suffix_start`: the first position at or after `start` that continues no character. */
  function SafeSuffixStart(text: string, start: nat): (r: nat)
    ensures r <= |text| && (start <= |text| ==> start <= r)
    ensures r < |text| ==> !IsContinuation(text[r])
    ensures forall i | start <= i < r :: IsContinuation(text[i])
    decreases |text| - start
  {
    if start >= |text| then |text|
    else if IsContinuation(text[start]) then SafeSuffixStart(text, start + 1)
    else start
  }

  method SafePrefixLengthLoop(text: string, maxBytes: nat) returns (keep: nat)
    ensures keep == SafePrefixLength(text, maxBytes)
  {
    if maxBytes >= |text| {
      return |text|;
    }
    keep := maxBytes;
    while keep > 0 && IsContinuation(text[keep])
      invariant keep < |text| && StepBack(text, keep) == StepBack(text, maxBytes)
    {
      keep := keep - 1;
    }
  }

  method SafeSuffixStartLoop(text: string, start: nat) returns (s: nat)
    ensures s == SafeSuffixStart(text, start)
  {
    if start >= |text| {
      return |text|;
    }
    s := start;
    while s < |text| && IsContinuation(text[s])
      invariant s <= |text| && SafeSuffixStart(text, s) == SafeSuffixStart(text, start)
    {
      s := s + 1;
    }
  }

  // ----- The truncations -----

  function WithoutEmptyLast(ls: seq<string>): seq<string> {
    if ls != [] && ls[|ls| - 1] == "" then ls[..|ls| - 1] else ls
  }

  function TruncateLines(text: string, maxLines: nat): string {
    var ls := WithoutEmptyLast(SplitLines(text));
    if maxLines == 0 then HIDDEN_LINES
    else if |ls| <= maxLines then text
    else
      var out := JoinLines(ls[..maxLines]);
      (if out != "" then out + "\n" else out)
      + "[JJMCP truncated: omitted " + Decimal(|ls| - maxLines) + " line(s)]"
  }

  function TruncateLinesTail(text: string, maxLines: nat): string {
    var ls := WithoutEmptyLast(SplitLines(text));
    if maxLines == 0 then HIDDEN_LINES
    else if |ls| <= maxLines then text
    else OmittedLinesNote(|ls| - maxLines) + JoinLines(ls[|ls| - maxLines..])
  }

  function TruncateBytes(text: string, maxBytes: nat): string {
    if maxBytes == 0 then HIDDEN_BYTES
    else if |text| <= maxBytes then text
    else
      var keep := SafePrefixLength(text, maxBytes);
      EndLine(text[..keep]) + "[JJMCP truncated: omitted " + Decimal(|text| - keep) + " byte(s)]"
  }

  function TruncateBytesTail(text: string, maxBytes: nat): string {
    if maxBytes == 0 then HIDDEN_BYTES
    else if |text| <= maxBytes then text
    else
      var start := SafeSuffixStart(text, |text| - maxBytes);
      OmittedBytesNote(start) + text[start..]
  }

  /** `truncate_tool_tail`: newest lines first, then newest bytes. */
  function ToolTail(text: string, maxLines: nat, maxBytes: nat): string {
    TruncateBytesTail(TruncateLinesTail(text, maxLines), maxBytes)
  }

  method TruncateLinesImpl(text: string, maxLines: nat) returns (out: string)
    ensures out == TruncateLines(text, maxLines)
  {
    hide SplitLines, JoinLines, Decimal, OmittedLinesNote;
    if maxLines == 0 {
      return HIDDEN_LINES;
    }
    var lines := SplitLinesLoop(text);
    if lines != [] && lines[|lines| - 1] == "" {
      lines := lines[..|lines| - 1];
    }
    if |lines| <= maxLines {
      return text;
    }
    out := JoinLinesLoop(lines, 0, maxLines);
    assert lines[0..maxLines] == lines[..maxLines];
    if out != "" {
      out := out + "\n";
    }
    out := out + "[JJMCP truncated: omitted " + Decimal(|lines| - maxLines) + " line(s)]";
  }

  method TruncateLinesTailImpl(text: string, maxLines: nat) returns (out: string)
    ensures out == TruncateLinesTail(text, maxLines)
  {
    hide SplitLines, JoinLines, Decimal, OmittedLinesNote;
    if maxLines == 0 {
      return HIDDEN_LINES;
    }
    var lines := SplitLinesLoop(text);
    if lines != [] && lines[|lines| - 1] == "" {
      lines := lines[..|lines| - 1];
    }
    if |lines| <= maxLines {
      return text;
    }
    var omitted := |lines| - maxLines;
    var kept := JoinLinesLoop(lines, omitted, |lines|);
    assert lines[omitted..|lines|] == lines[omitted..];
    out := OmittedLinesNote(omitted) + kept;
  }

  method TruncateBytesImpl(text: string, maxBytes: nat) returns (out: string)
    ensures out == TruncateBytes(text, maxBytes)
  {
    if maxBytes == 0 {
      return HIDDEN_BYTES;
    }
    if |text| <= maxBytes {
      return text;
    }
    var keep := SafePrefixLengthLoop(text, maxBytes);
    out := text[..keep];
    if out != "" && out[|out| - 1] != '\n' {
      out := out + "\n";
    }
    out := out + "[JJMCP truncated: omitted " + Decimal(|text| - keep) + " byte(s)]";
  }

  method TruncateBytesTailImpl(text: string, maxBytes: nat) returns (out: string)
    ensures out == TruncateBytesTail(text, maxBytes)
  {
    if maxBytes == 0 {
      return HIDDEN_BYTES;
    }
    if |text| <= maxBytes {
      return text;
    }
    var start := SafeSuffixStartLoop(text, |text| - maxBytes);
    out := OmittedBytesNote(start) + text[start..];
  }

  // ----- What the tails keep -----

  /** The byte bound holds for any text a 64-bit machine can hold, the digits of the note included. */
  lemma BytesTailBound(text: string, maxBytes: nat)
    requires |text| <= SIZE_MAX && 0 < maxBytes
    ensures |TruncateBytesTail(text, maxBytes)| <= maxBytes + 64
  {
    if |text| > maxBytes {
      var start := SafeSuffixStart(text, |text| - maxBytes);
      NotesAreNotes(start);
      SizeHasTwentyDigits(start);
    }
  }

  /** A tail is the text itself, or a note followed by a suffix of the text. */
  ghost predicate IsTailOf(out: string, text: string) {
    out == text || exists note, kept :: IsNotedSuffix(out, note, kept, text)
  }

  predicate IsNotedSuffix(out: string, note: string, kept: string, text: string) {
    IsNote(note) && out == note + kept && EndsWith(text, kept)
  }

  lemma BytesTailKeepsSuffix(text: string, maxBytes: nat)
    requires 0 < maxBytes
    ensures IsTailOf(TruncateBytesTail(text, maxBytes), text)
  {
    if |text| > maxBytes {
      var start := SafeSuffixStart(text, |text| - maxBytes);
      NotesAreNotes(start);
      assert IsNotedSuffix(TruncateBytesTail(text, maxBytes), OmittedBytesNote(start), text[start..], text);
    }
  }

  /** What a text begins with: its only line, or a terminated line and the rest. */
  lemma FirstLineOfText(text: string) returns (line: string, rest: string)
    ensures '\n' !in line && |rest| <= |text|
    ensures if text == line then Lines(text) == [line] && rest == ""
            else text == line + "\n" + rest && Lines(text) == [line] + Lines(rest) && |rest| < |text|
  {
    hide Lines;
    var e := LineEnd(text, 0);
    LinesStep(text, e);
    line := text[..e];
    assert line == text[0..e];
    rest := if e == |text| then "" else text[e + 1..];
  }

  /** Joining any number of the last lines gives a suffix of the text. */
  lemma {:induction false} LastLinesAreSuffix(text: string, k: nat)
    requires k <= |Lines(text)|
    ensures EndsWith(text, Unlines(Lines(text)[k..]))
    decreases |text|
  {
    hide Lines, Unlines, EndsWith;
    if k == |Lines(text)| {
      assert Lines(text)[k..] == [];
      NothingJoined(text);
    } else if k == 0 {
      assert Lines(text)[0..] == Lines(text);
      UnlinesInvertsLines(text);
      WholeIsSuffix(text);
    } else {
      var line, rest := FirstLineOfText(text);
      assert Lines(text)[k..] == Lines(rest)[k - 1..];
      LastLinesAreSuffix(rest, k - 1);
      SuffixBehind(line + "\n", rest, Unlines(Lines(text)[k..]));
    }
  }

  lemma NothingJoined(text: string)
    ensures Unlines([]) == "" && EndsWith(text, "")
  {
  }

  lemma WholeIsSuffix(text: string)
    ensures EndsWith(text, text)
  {
  }

  lemma SuffixBehind(front: string, text: string, tail: string)
    requires EndsWith(text, tail)
    ensures EndsWith(front + text, tail)
  {
    assert (front + text)[|front + text| - |tail|..] == text[|text| - |tail|..];
  }

  /** For text without carriage returns, the lines that are counted are those of its body. */
  lemma CountedLines(text: string)
    requires '\r' !in text && text != ""
    ensures WithoutEmptyLast(SplitLines(text)) == Lines(DropFinalNewline(text))
  {
    hide Lines;
    var last := |text| - 1;
    LinesAppend(text[..last], text[last]);
    assert text[..last] + [text[last]] == text;
    var ls := Lines(text[..last]);
    if text[last] == '\n' {
      assert (ls + [""])[..|ls|] == ls;
    }
  }

  /** Joining the last lines gives a suffix with no more lines than were joined. */
  lemma JoinedLastLines(text: string, k: nat)
    requires k < |Lines(text)|
    ensures var kept := JoinLines(Lines(text)[k..]);
      EndsWith(text, kept) && |Lines(kept)| <= |Lines(text)| - k
  {
    hide Lines, Unlines, JoinLines, EndsWith, SkipEmpty;
    var ls := Lines(text);
    JoinLosesLeadingBlanks(ls[k..]);
    var r := SkipEmpty(ls[k..]);
    EndOfEnd(ls, k, |r|);
    LastLinesAreSuffix(text, |ls| - |r|);
    UnlinedHasFewLines(ls[k..]);
  }

  lemma EndOfEnd(ls: seq<string>, k: nat, n: nat)
    requires k <= |ls| && n <= |ls| - k
    ensures ls[k..][|ls[k..]| - n..] == ls[|ls| - n..]
  {
  }

  lemma UnlinedHasFewLines(last: seq<string>)
    requires last != [] && forall l | l in last :: '\n' !in l
    ensures |Lines(Unlines(SkipEmpty(last)))| <= |last|
  {
    hide Lines, SkipEmpty;
    var r := SkipEmpty(last);
    if r != [] {
      LinesInvertsUnlines(r);
    } else {
      LinesStep("", 0);
    }
  }

  /** The line tail keeps the newest lines, at most as many as allowed, and drops blank ones in front. */
  lemma LinesTailKeepsNewest(text: string, maxLines: nat)
    requires '\r' !in text && text != "" && 0 < maxLines < |Lines(DropFinalNewline(text))|
    ensures var body := DropFinalNewline(text);
      var omitted := |Lines(body)| - maxLines;
      var kept := Unlines(SkipEmpty(Lines(body)[omitted..]));
      && TruncateLinesTail(text, maxLines) == OmittedLinesNote(omitted) + kept
      && EndsWith(body, kept) && |Lines(kept)| <= maxLines
  {
    hide SplitLines, DropFinalNewline, Lines, Unlines, JoinLines, SkipEmpty, OmittedLinesNote;
    CountedLines(text);
    var body := DropFinalNewline(text);
    var omitted := |Lines(body)| - maxLines;
    JoinedLastLines(body, omitted);
    JoinLosesLeadingBlanks(Lines(body)[omitted..]);
  }

  /** Joining any number of the first lines gives a prefix of the text. */
  lemma {:induction false} FirstLinesArePrefix(text: string, k: nat)
    requires 0 < k <= |Lines(text)|
    ensures Unlines(Lines(text)[..k]) <= text
    decreases |text|
  {
    hide Lines, Unlines;
    var line, rest := FirstLineOfText(text);
    UnlinesOfFirst(line, Lines(text)[..k][1..]);
    assert Lines(text)[..k] == [line] + Lines(text)[..k][1..];
    if k > 1 {
      FirstLinesArePrefix(rest, k - 1);
      assert Lines(text)[..k][1..] == Lines(rest)[..k - 1];
    }
  }

  lemma UnlinesOfFirst(line: string, ls: seq<string>)
    ensures Unlines([line] + ls) == if ls == [] then line else line + "\n" + Unlines(ls)
  {
    assert ([line] + ls)[1..] == ls;
  }

  /** The line prefix keeps the oldest lines, at most as many as allowed, but for blank ones in front. */
  lemma LinesPrefixKeepsOldest(text: string, maxLines: nat)
    requires '\r' !in text && text != "" && 0 < maxLines < |Lines(DropFinalNewline(text))|
    ensures var body := DropFinalNewline(text);
      var oldest := Lines(body)[..maxLines];
      var kept := Unlines(SkipEmpty(oldest));
      && TruncateLines(text, maxLines) == (if kept == "" then "" else kept + "\n")
           + "[JJMCP truncated: omitted " + Decimal(|Lines(body)| - maxLines) + " line(s)]"
      && Unlines(oldest) <= body && EndsWith(Unlines(oldest), kept) && |SkipEmpty(oldest)| <= maxLines
  {
    hide SplitLines, DropFinalNewline, Lines, Unlines, JoinLines, SkipEmpty, Decimal;
    CountedLines(text);
    var body := DropFinalNewline(text);
    var oldest := Lines(body)[..maxLines];
    JoinLosesLeadingBlanks(oldest);
    FirstLinesArePrefix(body, maxLines);
    LinesInvertsUnlines(oldest);
    LastLinesAreSuffix(Unlines(oldest), |oldest| - |SkipEmpty(oldest)|);
  }

  /** For text without carriage returns, the line tail keeps a suffix of the text or of its body. */
  lemma LinesTailKeepsSuffix(text: string, maxLines: nat)
    requires '\r' !in text && 0 < maxLines
    ensures var out := TruncateLinesTail(text, maxLines);
      IsTailOf(out, text) || IsTailOf(out, DropFinalNewline(text))
  {
    hide SplitLines, DropFinalNewline, Lines, JoinLines, Unlines, OmittedLinesNote, IsNote, SkipEmpty, EndsWith;
    if text == "" {
      NoLinesInNothing();
    } else {
      CountedLines(text);
      var ls := Lines(DropFinalNewline(text));
      if maxLines < |ls| {
        LinesTailKeepsNewest(text, maxLines);
        NotesAreNotes(|ls| - maxLines);
        assert IsNotedSuffix(TruncateLinesTail(text, maxLines), OmittedLinesNote(|ls| - maxLines),
                             Unlines(SkipEmpty(ls[|ls| - maxLines..])), DropFinalNewline(text));
      }
    }
  }

  lemma NoLinesInNothing()
    ensures SplitLines("") == []
  {
    DropCrEmpty();
    assert Lines("") == [""];
  }
}
