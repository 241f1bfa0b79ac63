/** Whole runs of the polling loop: the history behind the accumulator, its bound, and the verdict. */
module EvalRuns {
  import opened Text
  import opened Markers
  import opened Extraction
  import opened ExtractionLaws
  import opened Truncation
  import opened Compaction
  import opened CompactionLaws
  import opened Runtime
  import opened Splice
  import opened EvalLoop

  // ----- The working set is bounded -----

  /** Three 64-bit numbers and two separators. */
  const MAX_ID_LENGTH := 62
  const MAX_CAPTURE_BYTES := SIZE_MAX / 2

  lemma PollIsBounded(id: string, s: Screen, cap: string)
    requires |id| <= MAX_ID_LENGTH && |s.accumulator| <= MAX_ACCUMULATOR_BYTES && |cap| <= MAX_CAPTURE_BYTES
    ensures var after := PollScreen(MakeMarker(id), s, cap);
      !after.lastExtract.foundEnd ==> |after.accumulator| <= MAX_ACCUMULATOR_BYTES
  {
    hide Extract, Compact, TrimPoint, News, LineEnd;
    var m := MakeMarker(id);
    var spliced := Spliced(s.accumulator, s.lastCapture, cap);
    NewsIsPart(s.lastCapture, cap);
    ExtractIsSmall(m, cap);
    ExtractIsSmall(m, spliced);
    var located := Located(m, s, cap);
    SmallerIsSmall(located.lastExtract, |cap| + 1, SIZE_MAX - 128);
    SmallerIsSmall(located.lastExtract, |spliced| + 1, SIZE_MAX - 128);
    if located.lastExtract.foundBegin {
      CompactIsBounded(id, located.lastExtract, Sighted(m, located.accumulator));
    }
  }

  lemma NewsIsPart(prior: string, current: string)
    ensures |News(prior, current)| <= |current|
  {
  }

  lemma SmallerIsSmall(e: Extracted, small: nat, large: nat)
    ensures small <= large && SmallSlices(e, small) ==> SmallSlices(e, large)
  {
  }

  predicate LineThenRest(text: string, line: string, rest: string) {
    '\n' !in line && text == line + ("\n" + rest)
  }

  /** The first line is dropped if another one follows. */
  ghost predicate DropsLine(text: string, kept: string) {
    ('\n' !in text && kept == text) || exists line: string :: LineThenRest(text, line, kept)
  }

  /** What is kept is the last half mebibyte, less its first line. */
  ghost predicate KeepsHalf(accumulator: string, kept: string) {
    |accumulator| > 1048576 && DropsLine(accumulator[|accumulator| - 524288..], kept)
  }

  /** Up to one mebibyte nothing is settled; above it the accumulator is compacted and read again, or halved. */
  lemma SettleIsExact(m: Marker, s: Screen)
    ensures var after := Settle(m, s);
      if s.lastExtract.foundEnd || |s.accumulator| <= 1048576 then after == s
      else
        && after.lastCapture == s.lastCapture && after.beginTrimmed == s.beginTrimmed
        && if s.lastExtract.foundBegin
           then m.Word(Begin) + "\n" <= after.accumulator && after.lastExtract == Extract(m, after.accumulator)
           else KeepsHalf(s.accumulator, after.accumulator) && after.lastExtract == s.lastExtract
  {
    hide Extract, Print;
    if !s.lastExtract.foundEnd && |s.accumulator| > 1048576 {
      if s.lastExtract.foundBegin {
        BeginsCompact(m, Print(m, CompactPieces(s.lastExtract, Sighted(m, s.accumulator))));
      } else {
        DropKeepsHalf(s.accumulator);
      }
    }
  }

  lemma BeginsCompact(m: Marker, rest: string)
    ensures m.Word(Begin) + "\n" <= m.Word(Begin) + ("\n" + rest)
  {
    assert m.Word(Begin) + ("\n" + rest) == (m.Word(Begin) + "\n") + rest;
  }

  lemma DropKeepsHalf(accumulator: string)
    requires |accumulator| > 1048576
    ensures KeepsHalf(accumulator, accumulator[DropPoint(accumulator)..])
  {
    hide LineEnd, DropsLine;
    CutDropsLine(accumulator, |accumulator| - 524288);
  }

  lemma CutDropsLine(text: string, drop: nat)
    requires drop <= |text|
    ensures var e := LineEnd(text, drop);
      DropsLine(text[drop..], text[if e == |text| then drop else e + 1..])
  {
    hide LineEnd, Lines, LineThenRest;
    var half := text[drop..];
    var line, rest := FirstLineOfText(half);
    LineEndShift(text, drop, 0);
    if half == line {
      WholeIsLine(half);
    } else {
      LineIsFirst(half, line, rest);
      SuffixOfSuffix(text, drop, |line| + 1);
    }
  }

  lemma WholeIsLine(text: string)
    requires '\n' !in text
    ensures LineEnd(text, 0) == |text|
  {
    assert text[0..|text|] == text;
    LineEndIs(text, 0, |text|);
  }

  lemma LineIsFirst(text: string, line: string, rest: string)
    requires text == line + "\n" + rest && '\n' !in line
    ensures LineEnd(text, 0) == |line| < |text| && text[|line| + 1..] == rest && LineThenRest(text, line, rest)
  {
    assert text == line + ("\n" + rest);
    FirstLineIs(line, rest);
  }

  lemma SuffixOfSuffix(text: string, i: nat, j: nat)
    requires i + j <= |text|
    ensures text[i..][j..] == text[i + j..]
  {
  }

  /** However much the pane prints, the accumulator stays within its limit while the loop goes on. */
  lemma {:induction false} WorkingSetIsBounded(id: string, captures: seq<string>)
    requires |id| <= MAX_ID_LENGTH && forall cap | cap in captures :: |cap| <= MAX_CAPTURE_BYTES
    requires Pending(MakeMarker(id), captures)
    ensures |ScreenAfter(MakeMarker(id), captures).accumulator| <= MAX_ACCUMULATOR_BYTES
    decreases |captures|
  {
    hide PollScreen, MakeMarker;
    if captures != [] {
      var n := |captures| - 1;
      WorkingSetIsBounded(id, captures[..n]);
      PollIsBounded(id, ScreenAfter(MakeMarker(id), captures[..n]), captures[n]);
    }
  }

  // ----- The history behind the accumulator -----

  /** No poll so far has compacted. */
  predicate NeverCompacted(m: Marker, captures: seq<string>) {
    captures == [] ||
    (var n := |captures| - 1;
     var located := Located(m, ScreenAfter(m, captures[..n]), captures[n]);
     && NeverCompacted(m, captures[..n])
     && (located.lastExtract.foundBegin && !located.lastExtract.foundEnd ==>
           |located.accumulator| <= MAX_ACCUMULATOR_BYTES))
  }

  /** Until compaction, trimming and dropping only ever cut the front off one spliced history. */
  lemma {:induction false} AccumulatorIsSuffixOfHistory(m: Marker, captures: seq<string>)
    requires NeverCompacted(m, captures)
    ensures EndsWith(History(captures), ScreenAfter(m, captures).accumulator)
    ensures EndsWith(History(captures), ScreenAfter(m, captures).lastCapture)
    decreases |captures|
  {
    hide Extract, News, TrimPoint, DropPoint, EndsWith, PollScreen, Spliced, Located;
    if captures == [] {
      EndsWithItself("");
    } else {
      var n := |captures| - 1;
      var before, cap := captures[..n], captures[n];
      AccumulatorIsSuffixOfHistory(m, before);
      var s := ScreenAfter(m, before);
      LastCaptureIsLast(m, before);
      SplicedIsSuffix(History(before), s.accumulator, s.lastCapture, cap);
      PollCutsFront(m, s, cap, History(captures));
    }
  }

  /** A poll that does not compact leaves a suffix of what it has spliced. */
  lemma PollCutsFront(m: Marker, s: Screen, cap: string, history: string)
    requires EndsWith(history, Spliced(s.accumulator, s.lastCapture, cap))
    requires var located := Located(m, s, cap);
      located.lastExtract.foundBegin && !located.lastExtract.foundEnd ==>
        |located.accumulator| <= MAX_ACCUMULATOR_BYTES
    ensures EndsWith(history, PollScreen(m, s, cap).accumulator) && PollScreen(m, s, cap).lastCapture == cap
  {
    hide Extract, TrimPoint, DropPoint, EndsWith, Spliced, Compact, Sighted;
    var spliced, located := Spliced(s.accumulator, s.lastCapture, cap), Located(m, s, cap);
    EndsWithCut(history, spliced, |spliced| - |located.accumulator|);
    if |located.accumulator| > MAX_ACCUMULATOR_BYTES {
      EndsWithCut(history, located.accumulator, DropPoint(located.accumulator));
    }
  }

  lemma LastCaptureIsLast(m: Marker, captures: seq<string>)
    ensures ScreenAfter(m, captures).lastCapture == LastOf(captures)
  {
    hide Extract, Spliced, TrimPoint, DropPoint;
  }

  lemma EndsWithItself(text: string)
    ensures EndsWith(text, text)
  {
  }

  lemma EndsWithCut(whole: string, part: string, cut: nat)
    requires EndsWith(whole, part) && cut <= |part|
    ensures EndsWith(whole, part[cut..])
  {
  }

  /** Splicing keeps accumulator and capture suffixes of the history, also when it starts afresh. */
  lemma SplicedIsSuffix(history: string, accumulator: string, last: string, cap: string)
    requires EndsWith(history, accumulator) && EndsWith(history, last)
    ensures EndsWith(history + News(last, cap), Spliced(accumulator, last, cap))
    ensures EndsWith(history + News(last, cap), cap)
  {
    hide News;
    SpliceEndsWith(history, last, cap);
    NoNewsInTheSame(cap);
    assert accumulator + "" == accumulator;
    EndsWithMore(history, accumulator, News(last, cap));
  }

  lemma EndsWithMore(whole: string, part: string, more: string)
    requires EndsWith(whole, part)
    ensures EndsWith(whole + more, part + more)
  {
    assert whole == whole[..|whole| - |part|] + part;
  }
}
