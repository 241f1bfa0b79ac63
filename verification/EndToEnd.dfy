/** From what the runtime prints, through sliding screen captures, to what the loop returns. */
module EndToEnd {
  import opened Text
  import opened Markers
  import opened Extraction
  import opened ExtractionLaws
  import opened CompactionLaws
  import opened Splice
  import opened EvalLoop
  import opened EvalRuns
  import opened VerdictRuns
  import opened Runtime
  import opened Joining
  import opened Repetition
  import opened Recency
  import opened SliceRuns
  import opened PrintedPane
  import opened UncompactedRuns
  import opened KeptHistory
  import opened Provenance

  // ----- What the loop has concluded -----

  lemma PrefixOfPane(id: string, pre: string, run: Run, post: string, to: nat)
    requires EndOf(id, pre, run) <= to <= |Pane(id, pre, run, post)|
    ensures var k := to - EndOf(id, pre, run);
      && k <= |post| && Pane(id, pre, run, post)[..to] == Pane(id, pre, run, post[..k])
      && Pane(id, pre, run, post) == Pane(id, pre, run, post[..k]) + post[k..]
  {
    hide Emission;
    var e, k := Emission(id, run), to - EndOf(id, pre, run);
    assert post == post[..k] + post[k..];
    assert pre + (e + post) == (pre + (e + post[..k])) + post[k..];
  }

  /** The captures are sliding windows of the pane that end at line ends, the first from before BEGIN. */
  ghost predicate Watches(id: string, pre: string, run: Run, post: string, windows: seq<Window>) {
    var stream := Pane(id, pre, run, post);
    && Slides(stream, windows) && windows != [] && windows[0].from == 0
    && forall cap | cap in Views(stream, windows) :: EndsLine(cap)
  }

  function LastTo(windows: seq<Window>): nat
    requires windows != []
  {
    windows[|windows| - 1].to
  }

  /** One evaluation, in a pane with unrelated lines around it. */
  ghost predicate Prints(id: string, pre: string, run: Run, post: string) {
    var m := MakeMarker(id);
    && Numeric(id) && run.CrFree() && AllSpotless(m, run.Pieces())
    && Unrelated(m, pre) && Unrelated(m, post)
  }

  /** What has been shown up to a line end has ended if and only if it goes past END; then it has the outcome. */
  lemma ShownOutcome(id: string, pre: string, run: Run, post: string, to: nat)
    requires Prints(id, pre, run, post) && to <= |Pane(id, pre, run, post)|
    requires EndsLine(Pane(id, pre, run, post)[..to])
    ensures var m := MakeMarker(id);
      var e := Extract(m, Pane(id, pre, run, post)[..to]);
      && (e.foundEnd <==> EndOf(id, pre, run) <= to)
      && (e.foundEnd ==> Recovers(run, e))
  {
    hide MakeMarker, Emission, AllSpotless, Extract, Run.CrFree, Run.Pieces, EndsLine, Clean, OccursAt, EndOf,
         JoinsInOrder;
    var m := MakeMarker(id);
    if EndOf(id, pre, run) <= to {
      PrefixOfPane(id, pre, run, post, to);
      AllSpotlessIsClean(m, run.Pieces());
      RoundTrip(id, pre, run, post[..to - EndOf(id, pre, run)]);
    } else {
      NotEndedBefore(id, pre, run, post, to);
    }
  }

  /** The history that the captures splice to echoes what they have shown. */
  lemma WatchedHistory(id: string, pre: string, run: Run, post: string, windows: seq<Window>)
    requires Prints(id, pre, run, post) && Watches(id, pre, run, post, windows)
    ensures var m := MakeMarker(id);
      var stream := Pane(id, pre, run, post);
      && m.Apart() && m.Plain() && RuntimeHistory(m, stream)
      && LastTo(windows) <= |stream| && EndsLine(stream[..LastTo(windows)])
      && Echoes(m, stream[..LastTo(windows)], History(Views(stream, windows)))
  {
    hide MakeMarker, AllSpotless, RuntimeHistory, Run.CrFree, Run.Pieces, EndsLine, Views, History, Echoes, WordsOnce,
         Pane, Unrelated;
    NumericIsPlain(id);
    PaneIsHistory(id, pre, run, post);
    PaneHasWordsOnce(id, pre, run, post);
    WindowsEcho(MakeMarker(id), Pane(id, pre, run, post), windows);
  }

  /**
   * However much the pane scrolls, whatever output splicing loses, and however often the loop trims,
   * drops or compacts: the loop has seen the evaluation end if and only if the captures have shown it
   * to its end. Then it has seen it begin too, and reports an error exactly when the evaluation failed.
   */
  lemma EvaluationVerdict(id: string, pre: string, run: Run, post: string, windows: seq<Window>)
    requires Prints(id, pre, run, post) && Watches(id, pre, run, post, windows)
    ensures var m := MakeMarker(id);
      var read := ScreenAfter(m, Views(Pane(id, pre, run, post), windows)).lastExtract;
      && (read.foundEnd <==> EndOf(id, pre, run) <= LastTo(windows))
      && (read.foundEnd ==> read.foundBegin && read.juliaError == run.Failed?)
  {
    hide MakeMarker, ScreenAfter, Extract, RuntimeHistory, EndsLine, History, Views, Pane, Prints, AfterBegin,
         BodyKinds, EndOf, Words.Apart, Words.Plain, JoinsInOrder;
    var m := MakeMarker(id);
    var stream := Pane(id, pre, run, post);
    WatchedHistory(id, pre, run, post, windows);
    ShownOutcome(id, pre, run, post, LastTo(windows));
    EchoesJudgeAlike(m, stream[..LastTo(windows)], History(Views(stream, windows)));
    RunVerdict(m, Views(stream, windows));
  }

  lemma EarlierWatch(id: string, pre: string, run: Run, post: string, windows: seq<Window>)
    requires Watches(id, pre, run, post, windows) && |windows| > 1
    ensures var n := |windows| - 1;
      var stream := Pane(id, pre, run, post);
      && Watches(id, pre, run, post, windows[..n]) && LastTo(windows[..n]) <= LastTo(windows)
      && Views(stream, windows)[..n] == Views(stream, windows[..n]) && windows[..n][n - 1] == windows[n - 1]
  {
    hide EndsLine, Pane, View;
    var n := |windows| - 1;
    EarlierViews(Pane(id, pre, run, post), windows);
    assert Follows(windows[n - 1], windows[n]);
  }

  /** The loop goes on exactly until a capture shows END. */
  lemma {:induction false} PendingUntilEnd(id: string, pre: string, run: Run, post: string, windows: seq<Window>)
    requires Prints(id, pre, run, post) && Watches(id, pre, run, post, windows)
    ensures var m := MakeMarker(id);
      Pending(m, Views(Pane(id, pre, run, post), windows)) <==> LastTo(windows) < EndOf(id, pre, run)
    decreases |windows|
  {
    hide MakeMarker, ScreenAfter, Prints, Watches, Views, Pane, EndOf;
    var m := MakeMarker(id);
    var stream, n := Pane(id, pre, run, post), |windows| - 1;
    WatchesSlides(id, pre, run, post, windows);
    EvaluationVerdict(id, pre, run, post, windows);
    if n > 0 {
      EarlierWatch(id, pre, run, post, windows);
      PendingUntilEnd(id, pre, run, post, windows[..n]);
    } else {
      assert Views(stream, windows)[..0] == [];
    }
  }

  lemma WatchesSlides(id: string, pre: string, run: Run, post: string, windows: seq<Window>)
    requires Watches(id, pre, run, post, windows)
    ensures Slides(Pane(id, pre, run, post), windows) && windows != []
  {
  }

  // ----- A capture that shows the whole evaluation -----

  /** A capture that shows BEGIN and END is read as it is, whatever has been captured and spliced before. */
  lemma LiveCaptureWins(m: Marker, earlier: seq<string>, cap: string)
    requires Extract(m, cap).foundEnd
    ensures ScreenAfter(m, earlier + [cap]).lastExtract == Extract(m, cap)
  {
    hide AfterBegin, Lex, TrimPoint, Spliced;
    assert (earlier + [cap])[..|earlier|] == earlier;
    var body := AfterBegin(m, cap);
    assert body.Some?;
    FoundBeginMeans(m, cap);
  }

  /** After any captures, one that shows an evaluation from BEGIN to END returns every slice of it. */
  lemma OneScreenSuffices(id: string, earlier: seq<string>, pre: string, run: Run, post: string)
    requires Numeric(id) && run.CrFree() && Clean(MakeMarker(id), run.Pieces())
    requires EndsLine(pre) && !Occurs(pre, WordOf(id, Begin))
    ensures var m := MakeMarker(id);
      Recovers(run, ScreenAfter(m, earlier + [Pane(id, pre, run, post)]).lastExtract)
  {
    hide MakeMarker, Emission, Run.CrFree, Run.Pieces, Clean, EndsLine, OccursAt, WordOf, Extract, ScreenAfter,
         JoinsInOrder;
    RoundTrip(id, pre, run, post);
    LiveCaptureWins(MakeMarker(id), earlier, Pane(id, pre, run, post));
  }

  /** So does a last window that reaches from before BEGIN to behind END. */
  lemma LastWindowSuffices(id: string, pre: string, run: Run, post: string, earlier: seq<string>, w: Window)
    requires Prints(id, pre, run, post) && Fits(Pane(id, pre, run, post), w)
    requires w.from <= |pre| && EndOf(id, pre, run) <= w.to
    ensures var m := MakeMarker(id);
      Recovers(run, ScreenAfter(m, earlier + [View(Pane(id, pre, run, post), w)]).lastExtract)
  {
    hide MakeMarker, Emission, Run.CrFree, Run.Pieces, EndsLine, OccursAt, WordOf, ScreenAfter, Recovers, AllSpotless,
         Clean, Occurs;
    var m := MakeMarker(id);
    var rest, k := pre[w.from..], w.to - EndOf(id, pre, run);
    PrefixOfPane(id, pre, run, post, w.to);
    assert Pane(id, pre, run, post[..k]) == pre + (Emission(id, run) + post[..k]);
    SliceOfPrefix(Pane(id, pre, run, post), w.to, w.from, w.to);
    PaneFrom(pre, Emission(id, run) + post[..k], w.from);
    AllSpotlessIsClean(m, run.Pieces());
    UnrelatedFrom(m, pre, w.from);
    OneScreenSuffices(id, earlier, rest, run, post[..k]);
  }

  lemma PaneFrom(pre: string, rest: string, from: nat)
    requires from <= |pre|
    ensures (pre + rest)[from..|pre + rest|] == pre[from..] + rest
  {
  }

  lemma UnrelatedFrom(m: Marker, pre: string, from: nat)
    requires Unrelated(m, pre) && from <= |pre|
    ensures EndsLine(pre[from..]) && !Occurs(pre[from..], m.Word(Begin))
  {
    hide Occurs;
    assert pre[from..|pre|] == pre[from..] && pre[..|pre|] == pre;
    SliceEndsLine(pre, from, |pre|);
    SliceLacksWord(pre, from, |pre|, m.Word(Begin));
  }

  // ----- What the loop returns otherwise -----

  /** Output that splicing has lost is older than BEGIN or newer than END. */
  ghost predicate LosesNoOutput(id: string, pre: string, run: Run, post: string, windows: seq<Window>)
    requires Watches(id, pre, run, post, windows)
  {
    ExactBetween(Pane(id, pre, run, post), windows, |pre|, EndOf(id, pre, run))
  }

  /** Then the history holds the evaluation as far as it was shown, with other lines around it. */
  lemma FramedHistory(id: string, pre: string, run: Run, post: string, windows: seq<Window>)
    returns (before: string, after: string)
    requires Prints(id, pre, run, post) && Watches(id, pre, run, post, windows)
    requires LosesNoOutput(id, pre, run, post, windows)
    ensures var m := MakeMarker(id);
      var stream, hi := Pane(id, pre, run, post), EndOf(id, pre, run);
      && |pre| <= hi <= |stream| && LastTo(windows) <= |stream|
      && Frames(stream, |pre|, hi, WordOf(id, Begin), LastTo(windows), History(Views(stream, windows)), before, after)
      && (hi <= LastTo(windows) ==> History(Views(stream, windows)) == before + (Emission(id, run) + after))
  {
    hide MakeMarker, AllSpotless, Run.CrFree, Run.Pieces, EndsLine, Views, History, Emission, OccursAt, WordOf,
         ExactBetween;
    var m := MakeMarker(id);
    var stream, hi := Pane(id, pre, run, post), EndOf(id, pre, run);
    NumericIsPlain(id);
    EndStands(id, pre, run, post);
    assert stream[..|pre|] == pre;
    assert stream[|pre|..hi] == Emission(id, run);
    assert '\n' !in m.Word(Begin) && m.Word(Begin) != "";
    before, after := HistoryFrames(stream, windows, |pre|, hi, m.Word(Begin));
  }

  /** Up to here the loop has had no reason to compact. */
  lemma FramedStaysSmall(id: string, pre: string, run: Run, post: string, windows: seq<Window>)
    requires Prints(id, pre, run, post) && Watches(id, pre, run, post, windows)
    requires LosesNoOutput(id, pre, run, post, windows)
    requires LastTo(windows) < EndOf(id, pre, run) ==> LastTo(windows) <= |pre| + MAX_ACCUMULATOR_BYTES
    ensures var m := MakeMarker(id);
      StaysSmall(m, History(Views(Pane(id, pre, run, post), windows)))
  {
    hide MakeMarker, Extract, RuntimeHistory, EndsLine, History, Views, Pane, Prints, AfterBegin, BodyKinds, EndOf,
         Words.Apart, OccursAt, TrimPoint, LosesNoOutput, WordOf, Recovers;
    var m := MakeMarker(id);
    var stream := Pane(id, pre, run, post);
    var history := History(Views(stream, windows));
    var before, after := FramedHistory(id, pre, run, post, windows);
    WatchedHistory(id, pre, run, post, windows);
    EchoesJudgeAlike(m, stream[..LastTo(windows)], history);
    ShownOutcome(id, pre, run, post, LastTo(windows));
    BeginIsFound(m, history);
    if Occurs(history, m.Word(Begin)) {
      var rest := history[|before|..];
      assert history == before + rest;
      NewBeginIsInNews(m, before, rest);
    }
  }

  /**
   * If splicing lost no output of the evaluation, and no more than a mebibyte of it had been shown by
   * the last capture before END, the loop returns every slice as printed.
   */
  lemma EvaluationResult(id: string, pre: string, run: Run, post: string, windows: seq<Window>)
    requires Prints(id, pre, run, post) && Watches(id, pre, run, post, windows)
    requires LosesNoOutput(id, pre, run, post, windows)
    requires forall w | w in windows :: w.to < EndOf(id, pre, run) ==> w.to <= |pre| + MAX_ACCUMULATOR_BYTES
    requires EndOf(id, pre, run) <= LastTo(windows)
    ensures var m := MakeMarker(id);
      Recovers(run, ScreenAfter(m, Views(Pane(id, pre, run, post), windows)).lastExtract)
  {
    hide MakeMarker, ScreenAfter, Extract, EndsLine, NeverCompacted, Views, History, Pane, Recovers, RuntimeHistory,
         Mirrors, AfterBegin, BodyKinds, Lex, Watches, LosesNoOutput, EndOf, StaysSmall, Frames, WordOf, Prints;
    var m := MakeMarker(id);
    WatchesSlides(id, pre, run, post, windows);
    var captures := Views(Pane(id, pre, run, post), windows);
    WatchesShowLines(id, pre, run, post, windows);
    PrintsPlainly(id, pre, run, post);
    WatchedHistory(id, pre, run, post, windows);
    EchoIsHistory(m, Pane(id, pre, run, post)[..LastTo(windows)], History(captures));
    forall n | 0 < n <= |captures| ensures StaysSmall(m, History(captures[..n])) {
      FirstWindowsStaySmall(id, pre, run, post, windows, n);
    }
    SmallRunsNeverCompact(m, captures);
    HistoryHasBeginLine(m, History(captures));
    UncompactedRunReads(m, captures);
    MirrorsReads(m, History(captures), ScreenAfter(m, captures));
    FramedIsRecovered(id, pre, run, post, windows);
  }

  lemma PrintsPlainly(id: string, pre: string, run: Run, post: string)
    requires Prints(id, pre, run, post)
    ensures MakeMarker(id).Apart() && MakeMarker(id).Plain()
  {
    NumericIsPlain(id);
  }

  lemma EchoIsHistory(m: Marker, shown: string, history: string)
    requires Echoes(m, shown, history)
    ensures RuntimeHistory(m, history)
  {
  }

  lemma FramedIsRecovered(id: string, pre: string, run: Run, post: string, windows: seq<Window>)
    requires Prints(id, pre, run, post) && Watches(id, pre, run, post, windows)
    requires LosesNoOutput(id, pre, run, post, windows)
    requires EndOf(id, pre, run) <= LastTo(windows)
    ensures var m := MakeMarker(id);
      var history := History(Views(Pane(id, pre, run, post), windows));
      && Recovers(run, Extract(m, history))
      && AfterBegin(m, history).Some? && Lex(m, AfterBegin(m, history).value) == run.Pieces()
  {
    hide MakeMarker, Emission, Extract, EndsLine, Views, History, Pane, Recovers, AfterBegin, Lex, Watches,
         LosesNoOutput, EndOf, WordOf, AllSpotless, Run.CrFree, Run.Pieces, OccursAt, Unrelated;
    var before, after := FramedHistory(id, pre, run, post, windows);
    AllSpotlessIsClean(MakeMarker(id), run.Pieces());
    RoundTrip(id, before, run, after);
    EmissionParses(id, before, run, after);
  }

  /** What holds of all windows holds of the first n. */
  lemma {:induction false} FirstWindows(id: string, pre: string, run: Run, post: string, windows: seq<Window>, n: nat)
    requires Watches(id, pre, run, post, windows) && 0 < n <= |windows|
    ensures var stream := Pane(id, pre, run, post);
      && Watches(id, pre, run, post, windows[..n]) && Views(stream, windows)[..n] == Views(stream, windows[..n])
      && (LosesNoOutput(id, pre, run, post, windows) ==> LosesNoOutput(id, pre, run, post, windows[..n]))
      && LastTo(windows[..n]) == windows[n - 1].to
    decreases |windows|
  {
    hide Watches, Pane, Views, EndOf, ExactBetween;
    WatchesSlides(id, pre, run, post, windows);
    if n == |windows| {
      assert windows[..n] == windows;
      assert Views(Pane(id, pre, run, post), windows)[..n] == Views(Pane(id, pre, run, post), windows);
    } else {
      var earlier := windows[..|windows| - 1];
      EarlierWatch(id, pre, run, post, windows);
      EarlierLosesNone(id, pre, run, post, windows);
      FirstWindows(id, pre, run, post, earlier, n);
      assert earlier[..n] == windows[..n];
      var views := Views(Pane(id, pre, run, post), windows);
      assert views[..|windows| - 1][..n] == views[..n];
    }
  }

  lemma EarlierLosesNone(id: string, pre: string, run: Run, post: string, windows: seq<Window>)
    requires |windows| > 1 && Watches(id, pre, run, post, windows)
    requires Watches(id, pre, run, post, windows[..|windows| - 1])
    ensures LosesNoOutput(id, pre, run, post, windows) ==> LosesNoOutput(id, pre, run, post, windows[..|windows| - 1])
  {
    hide EndsLine, Pane, EndOf, Views;
    if LosesNoOutput(id, pre, run, post, windows) {
      EarlierIsExact(Pane(id, pre, run, post), windows, |pre|, EndOf(id, pre, run));
    }
  }

  lemma FirstWindowsStaySmall(id: string, pre: string, run: Run, post: string, windows: seq<Window>, n: nat)
    requires Prints(id, pre, run, post) && Watches(id, pre, run, post, windows) && 0 < n <= |windows|
    requires LosesNoOutput(id, pre, run, post, windows)
    requires forall w | w in windows :: w.to < EndOf(id, pre, run) ==> w.to <= |pre| + MAX_ACCUMULATOR_BYTES
    ensures var m := MakeMarker(id);
      StaysSmall(m, History(Views(Pane(id, pre, run, post), windows)[..n]))
  {
    hide MakeMarker, Watches, Pane, Views, EndOf, LosesNoOutput, Prints, StaysSmall, History;
    WatchesSlides(id, pre, run, post, windows);
    FirstWindows(id, pre, run, post, windows, n);
    assert windows[n - 1] in windows;
    FramedStaysSmall(id, pre, run, post, windows[..n]);
  }

  /**
   * However often the loop compacted: if splicing lost no output of the evaluation, it returns of every
   * slice the newest rows that were printed, as far as they fit the limits of one compaction, blank rows
   * aside, and in front of them only notes and earlier rows in order, one of them perhaps cut. Only the
   * value of an evaluation that failed is given up.
   */
  lemma EvaluationKeepsNewest(id: string, pre: string, run: Run, post: string, windows: seq<Window>, slice: Phase)
    requires Prints(id, pre, run, post) && Watches(id, pre, run, post, windows)
    requires LosesNoOutput(id, pre, run, post, windows)
    requires EndOf(id, pre, run) <= LastTo(windows)
    ensures var m := MakeMarker(id);
      var rows := Rows(ScreenAfter(m, Views(Pane(id, pre, run, post), windows)).lastExtract.Slice(slice));
      && Drawn(PrintedRows(run, slice), rows)
      && (slice != InValue || run.Completed? ==>
            Keeps(PrintedRows(run, slice), rows, RowLimit(slice), ByteLimit(slice)))
  {
    hide MakeMarker, ScreenAfter, EndsLine, Views, History, Pane, Recovers, RuntimeHistory, AfterBegin, Lex, Extract,
         Spoken, PrintedRows, Keeps, Kinds, Carries, Rows, Watches, LosesNoOutput, EndOf, Prints, Drawn;
    var m := MakeMarker(id);
    WatchesSlides(id, pre, run, post, windows);
    var captures := Views(Pane(id, pre, run, post), windows);
    WatchesShowLines(id, pre, run, post, windows);
    PrintsPlainly(id, pre, run, post);
    WatchedHistory(id, pre, run, post, windows);
    EchoIsHistory(m, Pane(id, pre, run, post)[..LastTo(windows)], History(captures));
    FramedIsRecovered(id, pre, run, post, windows);
    RunKeepsNewest(m, captures);
    RunSpeaks(run, slice);
    OnlyFailuresError(run);
    assert KeepsSlice(m, History(captures), slice, Rows(ScreenAfter(m, captures).lastExtract.Slice(slice)));
  }

  lemma WatchesShowLines(id: string, pre: string, run: Run, post: string, windows: seq<Window>)
    requires Watches(id, pre, run, post, windows)
    ensures Slides(Pane(id, pre, run, post), windows)
    ensures forall cap | cap in Views(Pane(id, pre, run, post), windows) :: EndsLine(cap)
  {
    hide EndsLine, Pane, Views;
  }

  function LateText(run: Run): string {
    match run
    case Completed(_, _, late) => late
    case Failed(_, AfterValue(_, late), _) => late
    case _ => ""
  }

  /** What an evaluation prints of each slice. */
  function PrintedRows(run: Run, slice: Phase): seq<string> {
    match slice
    case InStdout => Rows(run.output) + Rows(LateText(run))
    case InValue =>
      (match run
       case Completed(_, value, _) => Rows(ValueText(value))
       case Failed(_, Evaluating, _) => []
       case Failed(_, Showing(partialValue), _) => Rows(partialValue)
       case Failed(_, AfterValue(value, _), _) => Rows(ValueText(value)))
    case InError =>
      if run.Completed? then []
      else if run.report.MessageThrew? then Rows(run.report.partialError) else Rows(run.report.error + "\n")
    case InBacktrace =>
      if run.Completed? || run.report.MessageThrew? then []
      else if run.report.TraceThrew? then Rows(run.report.partialTrace) else Rows(run.report.trace + "\n")
  }

  lemma RunSpeaks(run: Run, slice: Phase)
    ensures Spoken(run.Pieces(), InStdout, slice) == PrintedRows(run, slice)
  {
    hide Rows, Spoken, ValueText;
    NoRows();
    var pieces := run.Pieces();
    var phase := PhaseAfter(pieces.kind, InStdout);
    PieceSpeaks(pieces.segment, pieces.kind, pieces.next, InStdout, slice);
    match run
    case Completed(_, value, late) =>
      PieceSpeaks(ValueText(value), ValEnd, Closing(late), phase, slice);
      EndingSpeaks(late, InStdout, slice);
    case Failed(_, Evaluating, report) =>
      ReportSpeaks(report, slice);
    case Failed(_, Showing(partialValue), report) =>
      PieceSpeaks(partialValue, Error, ReportPieces(report), phase, slice);
      ReportSpeaks(report, slice);
    case Failed(_, AfterValue(value, late), report) =>
      PieceSpeaks(ValueText(value), ValEnd, pieces.next.next, phase, slice);
      PieceSpeaks(late, Error, ReportPieces(report), InStdout, slice);
      ReportSpeaks(report, slice);
  }

  lemma ReportSpeaks(report: Report, slice: Phase)
    ensures Spoken(ReportPieces(report), InError, slice) == match slice
      case InError => Rows(if report.MessageThrew? then report.partialError else report.error + "\n")
      case InBacktrace =>
        if report.MessageThrew? then []
        else Rows(if report.TraceThrew? then report.partialTrace else report.trace + "\n")
      case _ => []
  {
    hide Rows, Spoken;
    match report
    case Reported(error, trace) =>
      EndingSpeaks(trace + "\n", InBacktrace, slice);
      PieceSpeaks(error + "\n", Backtrace, Closing(trace + "\n"), InError, slice);
    case MessageThrew(partialError) =>
      EndingSpeaks(partialError, InError, slice);
    case TraceThrew(error, partialTrace) =>
      EndingSpeaks(partialTrace, InBacktrace, slice);
      PieceSpeaks(error + "\n", Backtrace, Closing(partialTrace), InError, slice);
  }

  lemma EndingSpeaks(segment: string, phase: Phase, slice: Phase)
    ensures Spoken(Closing(segment), phase, slice) == if phase == slice then Rows(segment) else []
  {
    hide Rows;
    EndSpeaks(segment, Last(""), phase, slice);
    assert (if phase == slice then Rows(segment) else []) + [] == if phase == slice then Rows(segment) else [];
  }

  lemma OnlyFailuresError(run: Run)
    ensures Error in Kinds(run.Pieces()) <==> run.Failed?
  {
    hide Run.Pieces, Kinds;
    RunKinds(run);
    assert run.Failed? ==> ReportKinds(run.report)[0] == Error;
  }

  lemma HistoryHasBeginLine(m: Marker, full: string)
    requires RuntimeHistory(m, full)
    ensures BeginIsLine(m, full)
  {
    hide OccursAt, AfterBegin, WellMarked, Lex;
  }

  lemma MirrorsReads(m: Marker, full: string, s: Screen)
    requires Mirrors(m, full, s)
    ensures s.lastExtract == Extract(m, full)
  {
  }
}
