/** The loop itself on the pane of one evaluation, and a run whose slice comes back wrong. */
module Evaluation {
  import opened Text
  import opened Markers
  import opened Extraction
  import opened ExtractionLaws
  import opened Splice
  import opened EvalLoop
  import opened EvalRuns
  import opened VerdictRuns
  import opened Runtime
  import opened Joining
  import opened Repetition
  import opened PrintedPane
  import opened UncompactedRuns
  import opened Kmp
  import opened Truncation
  import opened EndToEnd

  // ----- The loop on a pane -----

  lemma {:induction false} ShownPrefix(events: seq<Event>, k: nat)
    requires k <= |events|
    ensures Shown(events[..k]) <= Shown(events)
    decreases |events|
  {
    if k == |events| {
      assert events[..k] == events;
    } else {
      var n := |events| - 1;
      assert events[..n][..k] == events[..k];
      ShownPrefix(events[..n], k);
    }
  }

  /** Nothing keeps the loop from going on: time is left, the pane is not lost, no rejection is seen. */
  ghost predicate Untroubled(deadline: int, events: seq<Event>) {
    && (forall event | event in events :: event.now < deadline && !(event.Captured? && event.runtimeMissing))
    && (forall i | MAX_CAPTURE_FAILURES < i <= |events| :: SomeCapture(events, i))
  }

  /** Not all of the last captures before event i have failed. */
  predicate SomeCapture(events: seq<Event>, i: nat)
    requires MAX_CAPTURE_FAILURES < i <= |events|
  {
    exists j | i - MAX_CAPTURE_FAILURES - 1 <= j < i :: events[j].Captured?
  }

  lemma ToIsMonotone(id: string, pre: string, run: Run, post: string, windows: seq<Window>, n: nat)
    requires Watches(id, pre, run, post, windows) && n < |windows|
    ensures windows[n].to <= LastTo(windows)
    decreases |windows|
  {
    hide Pane, Views, Watches;
    if n < |windows| - 1 {
      EarlierWatch(id, pre, run, post, windows);
      ToIsMonotone(id, pre, run, post, windows[..|windows| - 1], n);
    }
  }

  /** The windows behind the captures that succeeded among the first k events. */
  lemma ShownWindows(id: string, pre: string, run: Run, post: string, windows: seq<Window>, events: seq<Event>, k: nat)
    requires Watches(id, pre, run, post, windows) && k <= |events|
    requires Shown(events) == Views(Pane(id, pre, run, post), windows)
    ensures var n := |Shown(events[..k])|;
      && n <= |windows|
      && (n > 0 ==>
            && Watches(id, pre, run, post, windows[..n]) && LastTo(windows[..n]) == windows[n - 1].to
            && Shown(events[..k]) == Views(Pane(id, pre, run, post), windows[..n]))
  {
    hide Pane, Shown, Watches, Views, Slides, View;
    WatchesSlides(id, pre, run, post, windows);
    ViewsOf(Pane(id, pre, run, post), windows);
    ShownPrefix(events, k);
    var n := |Shown(events[..k])|;
    PrefixIsSlice(Shown(events[..k]), Shown(events));
    if n > 0 {
      FirstWindows(id, pre, run, post, windows, n);
    }
  }

  lemma ViewsOf(stream: string, windows: seq<Window>)
    requires Slides(stream, windows)
    ensures |Views(stream, windows)| == |windows|
  {
  }

  lemma PrefixIsSlice<T>(short: seq<T>, long: seq<T>)
    requires short <= long
    ensures |short| <= |long| && long[..|short|] == short
  {
  }

  /**
   * The polling loop on a pane in which an evaluation is printed. It finishes at the first capture that
   * shows END and at no other, with the right verdict, and with every slice if that capture shows BEGIN.
   */
  method RunMarkerEval(session: Session, events: seq<Event>,
                       ghost id: string, ghost pre: string, ghost run: Run, ghost post: string,
                       ghost windows: seq<Window>)
    returns (step: Step, polled: nat)
    requires session.Valid() && session.Now() == FRESH && session.captureFailures == 0
    requires session.m == MakeMarker(id) && Prints(id, pre, run, post)
    requires Watches(id, pre, run, post, windows)
    requires Shown(events) == Views(Pane(id, pre, run, post), windows)
    modifies session
    ensures polled <= |events|
    ensures step.Finished? ==>
      var n := |Shown(events[..polled])|;
      && 0 < n <= |windows| && EndOf(id, pre, run) <= windows[n - 1].to
      && (n > 1 ==> windows[n - 2].to < EndOf(id, pre, run))
      && session.lastExtract.juliaError == run.Failed?
      && (windows[n - 1].from <= |pre| ==> Recovers(run, session.lastExtract))
    ensures step.Continue? ==> LastTo(windows) < EndOf(id, pre, run)
    ensures Untroubled(session.deadline, events) ==> (step.Finished? <==> EndOf(id, pre, run) <= LastTo(windows))
  {
    hide MakeMarker, ScreenAfter, Prints, Watches, Pane, EndOf, Recovers, Shown, Views;
    ghost var m := session.m;
    step, polled := session.Run(events);
    if step.Finished? {
      ghost var n := FinishedAtEnd(id, pre, run, post, windows, events, polled);
      ToIsMonotone(id, pre, run, post, windows, n - 1);
    } else if step.Continue? {
      assert events[..polled] == events;
      PendingUntilEnd(id, pre, run, post, windows);
    } else {
      TroubleIsSeen(session.deadline, events, step, polled);
    }
  }

  lemma TroubleIsSeen(deadline: int, events: seq<Event>, step: Step, polled: nat)
    requires 0 < polled <= |events| && !step.Finished? && !step.Continue?
    requires step.TimedOut? ==> events[polled - 1].now >= deadline
    requires step.RuntimeMissing? ==> events[polled - 1].Captured? && events[polled - 1].runtimeMissing
    requires step.CaptureLost? ==>
      polled > MAX_CAPTURE_FAILURES && forall i | polled - MAX_CAPTURE_FAILURES - 1 <= i < polled :: events[i].Failed?
    ensures !Untroubled(deadline, events)
  {
    assert events[polled - 1] in events;
    assert step.CaptureLost? ==> !SomeCapture(events, polled);
  }

  lemma FinishedAtEnd(id: string, pre: string, run: Run, post: string, windows: seq<Window>,
                      events: seq<Event>, polled: nat) returns (n: nat)
    requires Prints(id, pre, run, post) && Watches(id, pre, run, post, windows)
    requires 0 < polled <= |events| && Shown(events) == Views(Pane(id, pre, run, post), windows)
    requires ScreenAfter(MakeMarker(id), Shown(events[..polled])).lastExtract.foundEnd
    requires Pending(MakeMarker(id), Shown(events[..polled - 1]))
    ensures var m := MakeMarker(id);
      var read := ScreenAfter(m, Shown(events[..polled])).lastExtract;
      && n == |Shown(events[..polled])| && 0 < n <= |windows|
      && EndOf(id, pre, run) <= windows[n - 1].to && (n > 1 ==> windows[n - 2].to < EndOf(id, pre, run))
      && read.juliaError == run.Failed?
      && (windows[n - 1].from <= |pre| ==> Recovers(run, read))
  {
    hide MakeMarker, ScreenAfter, Prints, Watches, Pane, EndOf, Recovers, Shown, Pending, Views;
    var m := MakeMarker(id);
    n := |Shown(events[..polled])|;
    var k := |Shown(events[..polled - 1])|;
    NothingShown(m);
    ShownStep(m, events, polled - 1);
    ShownWindows(id, pre, run, post, windows, events, polled);
    ShownWindows(id, pre, run, post, windows, events, polled - 1);
    EvaluationVerdict(id, pre, run, post, windows[..n]);
    if k > 0 {
      PendingUntilEnd(id, pre, run, post, windows[..k]);
    }
    if windows[n - 1].from <= |pre| {
      LastShownSuffices(id, pre, run, post, windows, n);
    }
  }

  lemma LastShownSuffices(id: string, pre: string, run: Run, post: string, windows: seq<Window>, n: nat)
    requires Prints(id, pre, run, post) && Watches(id, pre, run, post, windows) && 0 < n <= |windows|
    requires Watches(id, pre, run, post, windows[..n])
    requires windows[n - 1].from <= |pre| && EndOf(id, pre, run) <= windows[n - 1].to
    ensures var m := MakeMarker(id);
      Recovers(run, ScreenAfter(m, Views(Pane(id, pre, run, post), windows[..n])).lastExtract)
  {
    hide MakeMarker, ScreenAfter, Prints, Pane, EndOf, Recovers, View, EndsLine;
    var m := MakeMarker(id);
    var views := Views(Pane(id, pre, run, post), windows[..n]);
    assert windows[n - 1] in windows;
    assert views == views[..n - 1] + [views[n - 1]];
    LastWindowSuffices(id, pre, run, post, views[..n - 1], windows[n - 1]);
  }

  // ----- A slice that comes back wrong -----

  /** Three screens of an evaluation that prints a text three times: BEGIN and two copies, two copies, the rest. */
  function ThreeScreens(id: string, text: string): seq<Window> {
    var b, n, all := |MarkerLine("BEGIN", id)|, |text|, |Emission(id, Completed(text + text + text, None, ""))|;
    [Window(0, b + 2 * n), Window(b + n, b + 3 * n), Window(b + 3 * n, all)]
  }

  /** What follows the output of an evaluation without a value. */
  function Ending(id: string): string {
    MarkerLine("OUT_END", id) + (MarkerLine("VAL_END", id) + MarkerLine("END", id))
  }

  lemma EmissionOfOutput(id: string, output: string)
    ensures Emission(id, Completed(output, None, "")) == MarkerLine("BEGIN", id) + output + Ending(id)
  {
    hide MarkerLine;
    var a, b := MarkerLine("BEGIN", id), MarkerLine("OUT_END", id);
    var c, d := MarkerLine("VAL_END", id), MarkerLine("END", id);
    assert (b + ("" + (c + ""))) + ("" + d) == b + (c + d);
    assert a + (output + (b + (c + d))) == a + output + (b + (c + d));
  }

  lemma ThreeViews(id: string, text: string)
    ensures var stream, windows := Emission(id, Completed(text + text + text, None, "")), ThreeScreens(id, text);
      && Slides(stream, windows)
      && Views(stream, windows) == [MarkerLine("BEGIN", id) + text + text, text + text, Ending(id)]
  {
    hide Emission, Ending, MarkerLine;
    var stream, windows := Emission(id, Completed(text + text + text, None, "")), ThreeScreens(id, text);
    var head, b, n := MarkerLine("BEGIN", id), |MarkerLine("BEGIN", id)|, |text|;
    EmissionOfOutput(id, text + text + text);
    assert stream == head + text + text + text + Ending(id);
    assert forall w | w in windows :: w == windows[0] || w == windows[1] || w == windows[2];
    assert stream[0..b + 2 * n] == head + text + text;
    assert stream[b + n..b + 3 * n] == text + text;
    assert stream[b + 3 * n..|stream|] == Ending(id);
    var views := Views(stream, windows);
    assert views[0] == head + text + text && views[1] == text + text && views[2] == Ending(id);
  }

  lemma NoNewsFromSuffix(prior: string, current: string)
    requires EndsWith(prior, current)
    ensures News(prior, current) == ""
  {
    assert IsOverlap(prior, current, |current|);
  }

  lemma AllNewsWithoutHead(prior: string, current: string)
    requires current != "" && current[0] !in prior
    ensures News(prior, current) == current
  {
    var k := LongestOverlap(prior, current);
    if k > 0 {
      HeadOfOverlap(prior, current, k);
    }
  }

  lemma HeadOfOverlap(prior: string, current: string, k: nat)
    requires 0 < k && IsOverlap(prior, current, k)
    ensures current[0] in prior
  {
    assert prior[|prior| - k..][0] == current[..k][0];
  }

  lemma HistoryOfThree(a: string, b: string, c: string)
    requires EndsWith(a, b) && c != "" && c[0] !in b
    ensures History([a, b, c]) == a + c
  {
    hide News, EndsWith;
    assert [a, b, c][..2] == [a, b] && [a, b][..1] == [a] && [a][..0] == [];
    NewsOfNothing(a);
    NoNewsFromSuffix(a, b);
    AllNewsWithoutHead(b, c);
    assert History([a]) == "" + News("", a);
    assert History([a, b]) == a + "";
    assert History([a, b, c]) == History([a, b]) + c;
  }

  /** The history of the three screens is what an evaluation that prints the text twice would show. */
  lemma ThreeScreensLoseOne(id: string, text: string)
    requires Numeric(id) && '_' !in text
    ensures History(Views(Emission(id, Completed(text + text + text, None, "")), ThreeScreens(id, text)))
      == Emission(id, Completed(text + text, None, ""))
  {
    hide MakeMarker, Emission, Views, History, ThreeScreens, EndsWith;
    ThreeViews(id, text);
    WholeIsSuffix(text + text);
    SuffixBehind(MarkerLine("BEGIN", id), text + text, text + text);
    assert MarkerLine("BEGIN", id) + (text + text) == MarkerLine("BEGIN", id) + text + text;
    assert Ending(id)[0] == '_';
    HistoryOfThree(MarkerLine("BEGIN", id) + text + text, text + text, Ending(id));
    EmissionOfOutput(id, text + text);
  }

  lemma PlainRun(id: string, output: string)
    requires Numeric(id) && '_' !in output && '\r' !in output
    ensures Prints(id, "", Completed(output, None, ""), "")
  {
    hide MakeMarker, OccursAt;
    var m := MakeMarker(id);
    assert UnderscoreFree(Piece("", ValEnd, Closing("")));
    UnderscoreFreeIsAllSpotless(id, Completed(output, None, "").Pieces());
    assert forall kind :: m.Word(kind) != "";
    NothingOccursInNothing(m);
  }

  lemma NothingOccursInNothing(m: Marker)
    ensures Unrelated(m, "")
  {
    assert forall kind :: m.Word(kind) != "";
  }

  /**
   * Splicing that loses output of the evaluation itself gives a wrong slice: whatever lines are printed
   * three times in a row, there are screens for which the loop returns them twice.
   */
  lemma LossReachesSlice(id: string, text: string)
    requires Numeric(id) && text != "" && EndsLine(text) && '_' !in text && '\r' !in text
    requires |Emission(id, Completed(text + text + text, None, ""))| <= MAX_ACCUMULATOR_BYTES
    ensures var m, run := MakeMarker(id), Completed(text + text + text, None, "");
      var windows := ThreeScreens(id, text);
      && Prints(id, "", run, "") && Watches(id, "", run, "", windows) && EndOf(id, "", run) == LastTo(windows)
      && var read := ScreenAfter(m, Views(Pane(id, "", run, ""), windows)).lastExtract;
         read.foundEnd && read.stdoutText == DropFinalNewline(text + text) != DropFinalNewline(run.output)
  {
    hide MakeMarker, Emission, ScreenAfter, Extract, RuntimeHistory, Prints, EndsLine, Views, History, ThreeScreens,
         AfterBegin, Mirrors, NeverCompacted, JoinsInOrder, Words.Apart, Words.Plain;
    var m, run, seen := MakeMarker(id), Completed(text + text + text, None, ""), Completed(text + text, None, "");
    var stream, windows := Emission(id, run), ThreeScreens(id, text);
    assert Pane(id, "", run, "") == stream && Pane(id, "", seen, "") == Emission(id, seen);
    PlainRun(id, run.output);
    PlainRun(id, seen.output);
    PrintsPlainly(id, "", run, "");
    ThreeViews(id, text);
    ThreeViewsEndLines(id, text);
    ThreeScreensFrame(id, text);
    ThreeScreensLoseOne(id, text);
    SeenIsHistory(id, seen);
    var captures := Views(stream, windows);
    SmallHistories(m, stream, windows);
    SmallRunsNeverCompact(m, captures);
    HistoryHasBeginLine(m, History(captures));
    UncompactedRunReads(m, captures);
    MirrorsReads(m, History(captures), ScreenAfter(m, captures));
    OutputAlone(seen, Extract(m, Emission(id, seen)));
    LinesDropped(text);
  }

  lemma LinesDropped(text: string)
    requires text != "" && EndsLine(text)
    ensures DropFinalNewline(text + text) != DropFinalNewline(text + text + text)
  {
    assert |DropFinalNewline(text + text)| == 2 * |text| - 1;
  }

  lemma ThreeScreensFrame(id: string, text: string)
    ensures var windows := ThreeScreens(id, text);
      && windows != [] && windows[0].from == 0
      && LastTo(windows) == |Emission(id, Completed(text + text + text, None, ""))|
  {
    hide Emission;
  }

  lemma ThreeViewsEndLines(id: string, text: string)
    requires EndsLine(text)
    ensures EndsLine(MarkerLine("BEGIN", id) + text + text) && EndsLine(text + text) && EndsLine(Ending(id))
    ensures forall cap | cap in [MarkerLine("BEGIN", id) + text + text, text + text, Ending(id)] :: EndsLine(cap)
  {
    hide EndsLine;
    EndsLineMeans(MarkerLine("BEGIN", id));
    LinesJoin(MarkerLine("BEGIN", id), text);
    LinesJoin(MarkerLine("BEGIN", id) + text, text);
    LinesJoin(text, text);
    EndsLineMeans(Ending(id));
  }

  lemma SeenIsHistory(id: string, run: Run)
    requires Prints(id, "", run, "")
    ensures var m := MakeMarker(id);
      && RuntimeHistory(m, Emission(id, run)) && Recovers(run, Extract(m, Emission(id, run)))
  {
    hide MakeMarker, Emission, RuntimeHistory, Extract, AllSpotless, Run.CrFree, Run.Pieces, Clean, OccursAt,
         JoinsInOrder;
    var m := MakeMarker(id);
    assert Pane(id, "", run, "") == Emission(id, run);
    PaneIsHistory(id, "", run, "");
    AllSpotlessIsClean(m, run.Pieces());
    RoundTrip(id, "", run, "");
  }

  /** No history of a small stream is too large. */
  lemma SmallHistories(m: Marker, stream: string, windows: seq<Window>)
    requires Slides(stream, windows) && windows != [] && |stream| <= MAX_ACCUMULATOR_BYTES
    ensures forall n | 0 < n <= |Views(stream, windows)| :: StaysSmall(m, History(Views(stream, windows)[..n]))
    decreases |windows|
  {
    hide AfterBegin, Extract, TrimPoint, History, View, Exact, Recurs;
    var views := Views(stream, windows);
    HistoryOfWindows(stream, windows);
    assert windows[|windows| - 1] in windows;
    assert views[..|views|] == views;
    if |windows| > 1 {
      CoveredStep(stream, windows);
      var earlier := windows[..|windows| - 1];
      SmallHistories(m, stream, earlier);
      forall n | 0 < n <= |views| ensures StaysSmall(m, History(views[..n])) {
        if n < |views| {
          assert views[..n] == Views(stream, earlier)[..n];
          assert StaysSmall(m, History(Views(stream, earlier)[..n]));
        }
      }
    }
  }
}
