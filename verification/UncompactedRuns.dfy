/** Runs that never compact read the whole spliced history exactly. */
module UncompactedRuns {
  import opened Text
  import opened Markers
  import opened Extraction
  import opened ExtractionLaws
  import opened LexLaws
  import opened Compaction
  import opened CompactionLaws
  import opened Splice
  import opened EvalLoop
  import opened EvalRuns
  import opened VerdictRuns
  import opened Runtime

  /** What a suffix must hold for extraction to see the history in it. */
  ghost predicate HoldsBegin(m: Marker, full: string, part: string) {
    EndsWith(full, part) && |full| - |part| <= TrimPoint(m, full)
  }

  ghost predicate BeginIsLine(m: Marker, full: string) {
    AtMostOnce(full, m.Word(Begin)) && (Occurs(full, m.Word(Begin)) ==> AfterBegin(m, full).Some?)
  }

  lemma HoldingPartReadsAlike(m: Marker, full: string, part: string)
    requires BeginIsLine(m, full) && HoldsBegin(m, full, part) && Occurs(full, m.Word(Begin))
    ensures Extract(m, part) == Extract(m, full)
    ensures HoldsBegin(m, full, part[TrimPoint(m, part)..])
  {
    hide OccursAt, TrimPoint, AfterBegin, Scan;
    SuffixTrimsAlike(m, full, |full| - |part|);
    var cut := TrimPoint(m, part);
    assert part[cut..] == full[TrimPoint(m, full)..];
  }

  /** More output does not move the BEGIN line that has been found. */
  lemma TrimPointStays(m: Marker, c: string, more: string)
    requires AtMostOnce(c + more, m.Word(Begin)) && Occurs(c, m.Word(Begin))
    ensures TrimPoint(m, c + more) == TrimPoint(m, c)
  {
    hide OccursAt, LineStart;
    var w := m.Word(Begin);
    FindMeansOccurs(c, w);
    var p := Find(c, w, 0).value;
    OccurrenceFits(c, w, p);
    OccursInPrefix(c, more, w, p);
    LineStartPrefix(c, more, p);
  }

  lemma {:induction false} LineStartPrefix(c: string, more: string, p: nat)
    requires p <= |c|
    ensures LineStart(c + more, p) == LineStart(c, p)
    decreases p
  {
    if !(p == 0 || c[p - 1] == '\n') {
      LineStartPrefix(c, more, p - 1);
    }
  }

  /** The state of a run that has never compacted. */
  ghost predicate Mirrors(m: Marker, full: string, s: Screen) {
    && EndsWith(full, s.accumulator) && EndsWith(full, s.lastCapture)
    && (Occurs(full, m.Word(Begin)) ==> HoldsBegin(m, full, s.accumulator))
    && s.lastExtract == Extract(m, full)
  }

  lemma BeginIsLinePrefix(m: Marker, c: string, more: string)
    requires EndsLine(c) && BeginIsLine(m, c + more)
    ensures BeginIsLine(m, c)
  {
    hide OccursAt, AfterBegin, EndsLine, AtMostOnce;
    AtMostOncePrefix(c, more, m.Word(Begin));
    if Occurs(c, m.Word(Begin)) {
      OccursInLonger(c, more, m.Word(Begin));
      BeginAlreadyLine(m, c, more);
    }
  }

  /** A capture without BEGIN leaves the decision to the accumulator; with it, both agree. */
  lemma ReadIsHistory(m: Marker, full: string, accumulator: string, cap: string)
    requires BeginIsLine(m, full) && EndsWith(full, cap) && EndsWith(full, accumulator)
    requires Occurs(full, m.Word(Begin)) ==> HoldsBegin(m, full, accumulator)
    ensures Read(m, accumulator, cap) == Extract(m, full)
  {
    hide OccursAt, AfterBegin, Lex, Interpret, TrimPoint, EndsWith;
    FoundBeginMeans(m, cap);
    if !Occurs(full, m.Word(Begin)) {
      NoBeginInSuffix(m, full, cap);
      NoBeginInSuffix(m, full, accumulator);
      EndsWithItself(full);
      NoBeginInSuffix(m, full, full);
    } else {
      HoldingPartReadsAlike(m, full, accumulator);
      if AfterBegin(m, cap).Some? {
        CaptureCutsAgree(m, full, cap);
      }
    }
  }

  lemma CaptureCutsAgree(m: Marker, full: string, cap: string)
    requires BeginIsLine(m, full) && EndsWith(full, cap)
    requires AfterBegin(m, cap).Some? && AfterBegin(m, full).Some?
    ensures Extract(m, cap) == Extract(m, full)
  {
    hide OccursAt, AfterBegin, Scan;
    assert full[0..] == full;
    CutsAgree(m, full, |full| - |cap|, 0);
  }

  /** Splicing keeps hold of a BEGIN line met before, and takes in one that arrives with the news. */
  lemma SplicedHoldsBegin(m: Marker, before: string, s: Screen, cap: string)
    requires m.Plain() && EndsLine(before) && Mirrors(m, before, s)
    requires BeginIsLine(m, before + News(s.lastCapture, cap))
    requires Occurs(before + News(s.lastCapture, cap), m.Word(Begin))
    ensures HoldsBegin(m, before + News(s.lastCapture, cap), Spliced(s.accumulator, s.lastCapture, cap))
  {
    hide OccursAt, AfterBegin, TrimPoint, News, EndsWith, EndsLine, AtMostOnce, Spliced, Extract;
    var news := News(s.lastCapture, cap);
    SplicedIsSuffix(before, s.accumulator, s.lastCapture, cap);
    if Occurs(before, m.Word(Begin)) {
      TrimPointStays(m, before, news);
      TrimPointIsInside(m, before);
      SplicedIsAppended(s.accumulator, s.lastCapture, cap);
    } else {
      NewBeginIsInNews(m, before, news);
      SplicedHasNews(s.accumulator, s.lastCapture, cap);
    }
  }

  lemma TrimPointIsInside(m: Marker, c: string)
    requires Occurs(c, m.Word(Begin))
    ensures TrimPoint(m, c) < |c|
  {
    hide OccursAt, LineStart;
    FindMeansOccurs(c, m.Word(Begin));
    OccurrenceFits(c, m.Word(Begin), Find(c, m.Word(Begin), 0).value);
    assert m.Word(Begin) != "";
  }

  lemma UncompactedStep(m: Marker, before: string, s: Screen, cap: string)
    requires m.Plain() && EndsLine(before) && Mirrors(m, before, s)
    requires BeginIsLine(m, before + News(s.lastCapture, cap))
    requires var located := Located(m, s, cap);
      located.lastExtract.foundBegin && !located.lastExtract.foundEnd ==>
        |located.accumulator| <= MAX_ACCUMULATOR_BYTES
    ensures Mirrors(m, before + News(s.lastCapture, cap), PollScreen(m, s, cap))
  {
    hide OccursAt, AfterBegin, TrimPoint, News, EndsWith, EndsLine, AtMostOnce, Spliced, Extract, Read, DropPoint;
    var full, spliced := before + News(s.lastCapture, cap), Spliced(s.accumulator, s.lastCapture, cap);
    SplicedIsSuffix(before, s.accumulator, s.lastCapture, cap);
    if Occurs(full, m.Word(Begin)) {
      SplicedHoldsBegin(m, before, s, cap);
      HoldingPartReadsAlike(m, full, spliced);
      FoundBeginMeans(m, full);
    }
    ReadIsHistory(m, full, spliced, cap);
    EndsWithCut(full, spliced, TrimPoint(m, spliced));
    var located := Located(m, s, cap);
    if |located.accumulator| > MAX_ACCUMULATOR_BYTES {
      EndsWithCut(full, located.accumulator, DropPoint(located.accumulator));
    }
  }

  /** Until compaction, the loop's last reading is exactly what the whole spliced history says. */
  lemma {:induction false} UncompactedRunReads(m: Marker, captures: seq<string>)
    requires m.Plain() && forall cap | cap in captures :: EndsLine(cap)
    requires BeginIsLine(m, History(captures)) && NeverCompacted(m, captures)
    ensures Mirrors(m, History(captures), ScreenAfter(m, captures))
    decreases |captures|
  {
    hide Mirrors, BeginIsLine, Located, Settle, EndsLine, News;
    if captures == [] {
      NothingMirrors(m);
    } else {
      var n := |captures| - 1;
      var earlier, cap := captures[..n], captures[n];
      HistoryEndsLine(earlier);
      BeginIsLinePrefix(m, History(earlier), News(LastOf(earlier), cap));
      UncompactedRunReads(m, earlier);
      LastCaptureIsLast(m, earlier);
      UncompactedStep(m, History(earlier), ScreenAfter(m, earlier), cap);
    }
  }

  lemma NothingMirrors(m: Marker)
    ensures Mirrors(m, "", FRESH)
  {
    hide AfterBegin;
    NothingBegins(m);
    assert m.Word(Begin) != "";
  }

  // ----- Runs in which too little is printed for a compaction -----

  /** What the accumulator holds once BEGIN has been met and nothing been compacted. */
  ghost predicate FromBegin(m: Marker, full: string, accumulator: string) {
    AfterBegin(m, full).Some? ==> accumulator == full[TrimPoint(m, full)..]
  }

  lemma BegunGrows(m: Marker, before: string, news: string)
    requires m.Plain() && RuntimeHistory(m, before) && RuntimeHistory(m, before + news) && AfterBegin(m, before).Some?
    ensures before[TrimPoint(m, before)..] + news == (before + news)[TrimPoint(m, before + news)..]
  {
    hide AfterBegin, WellMarked, EndsLine, TrimPoint, AtMostOnce, BodyKinds, InRuntimeOrder;
    TrimmedStartsWithBegin(m, before);
    TrimPointStays(m, before, news);
  }

  lemma LocatedFromBegin(m: Marker, before: string, s: Screen, cap: string)
    requires m.Apart() && m.Plain() && EndsLine(cap)
    requires RuntimeHistory(m, before) && RuntimeHistory(m, before + News(s.lastCapture, cap))
    requires Tracks(m, before, s) && FromBegin(m, before, s.accumulator)
    ensures FromBegin(m, before + News(s.lastCapture, cap), Located(m, s, cap).accumulator)
  {
    hide AfterBegin, WellMarked, AtMostOnce, EndsLine, Scan, Kinds, Lex, StartsWithBegin, SameTokens, Judge,
         InRuntimeOrder, News, TrimPoint, BodyKinds;
    var news := News(s.lastCapture, cap);
    var full := before + news;
    LocatedTracks(m, before, s, cap);
    SpliceEndsWith(before, s.lastCapture, cap);
    NewsIsSuffix(s.lastCapture, cap);
    if AfterBegin(m, before).Some? {
      StartIsNotEmpty(m, s.accumulator);
      SplicedIsAppended(s.accumulator, s.lastCapture, cap);
      if AfterBegin(m, full).Some? {
        BegunGrows(m, before, news);
      }
    } else if AfterBegin(m, full).Some? {
      SplicedIsSuffix(before, s.accumulator, s.lastCapture, cap);
      SplicedHasNews(s.accumulator, s.lastCapture, cap);
      BeginArrives(m, before, news, s, cap);
    }
  }

  /** From BEGIN on, the history has not outgrown the accumulator's limit, or has ended. */
  ghost predicate StaysSmall(m: Marker, full: string) {
    AfterBegin(m, full).Some? && !Extract(m, full).foundEnd ==> |full| - TrimPoint(m, full) <= MAX_ACCUMULATOR_BYTES
  }

  /** What the located accumulator of a small history holds, the loop keeps. */
  lemma SmallIsNotCompacted(m: Marker, full: string, located: Screen)
    requires Tracks(m, full, located) && FromBegin(m, full, located.accumulator) && StaysSmall(m, full)
    ensures located.lastExtract.foundBegin && !located.lastExtract.foundEnd ==>
      |located.accumulator| <= MAX_ACCUMULATOR_BYTES
    ensures FromBegin(m, full, Settle(m, located).accumulator)
  {
    hide AfterBegin, EndsLine, StandsFor, TrimPoint, Extract, DropPoint, Compact, Sighted;
    FoundBeginMeans(m, full);
  }

  lemma {:induction false} SmallRunsNeverCompact(m: Marker, captures: seq<string>)
    requires m.Apart() && m.Plain() && forall cap | cap in captures :: EndsLine(cap)
    requires RuntimeHistory(m, History(captures))
    requires forall n | 0 < n <= |captures| :: StaysSmall(m, History(captures[..n]))
    ensures NeverCompacted(m, captures) && FromBegin(m, History(captures), ScreenAfter(m, captures).accumulator)
    decreases |captures|
  {
    hide RuntimeHistory, Tracks, Located, Settle, EndsLine, News, FromBegin, StaysSmall;
    if captures == [] {
      NothingFromBegin(m);
    } else {
      var n := |captures| - 1;
      var earlier, cap := captures[..n], captures[n];
      HistoryEndsLine(earlier);
      HistoryPrefix(m, History(earlier), News(LastOf(earlier), cap));
      forall k | 0 < k <= n ensures StaysSmall(m, History(earlier[..k])) {
        assert earlier[..k] == captures[..k];
        assert StaysSmall(m, History(captures[..k]));
      }
      SmallRunsNeverCompact(m, earlier);
      RunTracks(m, earlier);
      LastCaptureIsLast(m, earlier);
      LocatedTracks(m, History(earlier), ScreenAfter(m, earlier), cap);
      LocatedFromBegin(m, History(earlier), ScreenAfter(m, earlier), cap);
      assert captures[..n + 1] == captures && StaysSmall(m, History(captures[..n + 1]));
      SmallIsNotCompacted(m, History(captures), Located(m, ScreenAfter(m, earlier), cap));
    }
  }

  lemma NothingFromBegin(m: Marker)
    ensures FromBegin(m, "", "")
  {
    hide AfterBegin;
    NothingBegins(m);
  }
}
