/** The polling loop of one evaluation: splice, extract, trim, compact or drop, until END or the deadline. */
module EvalLoop {
  import opened Text
  import opened Markers
  import opened Extraction
  import opened ExtractionLaws
  import opened Compaction
  import opened Kmp
  import opened Splice

  const MAX_ACCUMULATOR_BYTES := 1024 * 1024
  const MAX_CAPTURE_FAILURES := 5
  const BACKOFF_MIN := 50
  const BACKOFF_MAX := 1000

  // ----- One poll, as a function of the screen state -----

  datatype Screen = Screen(accumulator: string, lastCapture: string, lastExtract: Extracted, beginTrimmed: bool)

  const FRESH := Screen("", "", NOTHING, false)

  /** The accumulator after the new capture has been spliced on. */
  function Spliced(accumulator: string, lastCapture: string, cap: string): string {
    if accumulator == "" then cap
    else if cap != lastCapture then accumulator + News(lastCapture, cap)
    else accumulator
  }

  /** The live capture if it holds BEGIN, otherwise what has been accumulated. */
  function Read(m: Marker, accumulator: string, cap: string): Extracted {
    var live := Extract(m, cap);
    if live.foundBegin then live else Extract(m, accumulator)
  }

  /** Where the head is dropped when no capture has shown BEGIN. */
  function DropPoint(accumulator: string): (cut: nat)
    requires |accumulator| > MAX_ACCUMULATOR_BYTES
    ensures |accumulator| - MAX_ACCUMULATOR_BYTES / 2 <= cut <= |accumulator|
  {
    var drop := |accumulator| - MAX_ACCUMULATOR_BYTES / 2;
    var lineEnd := LineEnd(accumulator, drop);
    if lineEnd == |accumulator| then drop else lineEnd + 1
  }

  /** Bring an oversized accumulator back below the limit. */
  function Settle(m: Marker, s: Screen): Screen {
    if s.lastExtract.foundEnd || |s.accumulator| <= MAX_ACCUMULATOR_BYTES then s
    else if s.lastExtract.foundBegin then
      var compact := Compact(m, s.lastExtract, Sighted(m, s.accumulator));
      s.(accumulator := compact, lastExtract := Extract(m, compact))
    else s.(accumulator := s.accumulator[DropPoint(s.accumulator)..])
  }

  /** Splice and read; trim once BEGIN has been located. */
  function Located(m: Marker, s: Screen, cap: string): Screen {
    var spliced := Spliced(s.accumulator, s.lastCapture, cap);
    var read := Read(m, spliced, cap);
    var cuts := !s.beginTrimmed && read.foundBegin;
    Screen(if cuts then spliced[TrimPoint(m, spliced)..] else spliced, cap, read, s.beginTrimmed || cuts)
  }

  function PollScreen(m: Marker, s: Screen, cap: string): Screen {
    Settle(m, Located(m, s, cap))
  }

  // ----- The loop itself -----

  /** One attempt to look at the pane: a capture with the missing-runtime heuristic's answer, or a failure. */
  datatype Event = Captured(text: string, runtimeMissing: bool, now: int) | Failed(now: int)

  datatype Step = Continue | Finished | TimedOut | RuntimeMissing | CaptureLost

  class Session {
    const m: Marker
    const deadline: int
    const detectMissingRuntime: bool
    var accumulator: string
    var lastCapture: string
    var lastExtract: Extracted
    var beginTrimmed: bool
    var captureFailures: nat
    var backoff: nat

    constructor (m: Marker, deadline: int, detectMissingRuntime: bool)
      requires m.Apart()
      ensures Now() == FRESH && captureFailures == 0 && backoff == 50
      ensures this.m == m && this.deadline == deadline && this.detectMissingRuntime == detectMissingRuntime
    {
      this.m, this.deadline, this.detectMissingRuntime := m, deadline, detectMissingRuntime;
      accumulator, lastCapture, lastExtract, beginTrimmed := "", "", NOTHING, false;
      captureFailures, backoff := 0, BACKOFF_MIN;
    }

    function Now(): Screen
      reads this
    {
      Screen(accumulator, lastCapture, lastExtract, beginTrimmed)
    }

    ghost predicate Valid()
      reads this
    {
      m.Apart() && captureFailures <= 5 && 50 <= backoff <= 1000
    }

    /** The spliced accumulator; reports whether it grew. */
    method SpliceCapture(cap: string) returns (grew: bool)
      modifies `accumulator, `lastCapture
      ensures accumulator == Spliced(old(accumulator), old(lastCapture), cap) && lastCapture == cap
      ensures grew <==> |accumulator| > |old(accumulator)|
    {
      grew := false;
      if accumulator == "" {
        if cap != "" {
          accumulator := cap;
          grew := true;
        }
      } else if cap != lastCapture {
        var overlap, _ := ComputeCaptureOverlap(lastCapture, cap);
        if overlap < |cap| {
          accumulator := accumulator + cap[overlap..];
          grew := true;
        } else {
          assert accumulator + cap[overlap..] == accumulator;
        }
      }
      lastCapture := cap;
    }

    method ReadCapture(cap: string)
      requires Valid()
      modifies `lastExtract
      ensures lastExtract == Read(m, accumulator, cap)
    {
      lastExtract := ExtractBetweenMarkers(m, cap);
      if !lastExtract.foundBegin {
        lastExtract := ExtractBetweenMarkers(m, accumulator);
      }
    }

    method TrimBeforeBegin()
      modifies `accumulator, `beginTrimmed
      ensures var cuts := !old(beginTrimmed) && lastExtract.foundBegin;
        && accumulator == (if cuts then old(accumulator)[TrimPoint(m, old(accumulator))..] else old(accumulator))
        && beginTrimmed == (old(beginTrimmed) || cuts)
    {
      if !beginTrimmed && lastExtract.foundBegin {
        var beginPos := Find(accumulator, m.Word(Begin), 0);
        if beginPos.Some? {
          var trimTo := LineStart(accumulator, beginPos.value);
          if trimTo > 0 {
            accumulator := accumulator[trimTo..];
          }
        }
        beginTrimmed := true;
      }
    }

    method SettleAccumulator()
      requires Valid()
      modifies `accumulator, `lastExtract
      ensures Now() == Settle(m, old(Now()))
    {
      hide Extract, Compact, LineEnd, OccursAt;
      if !lastExtract.foundEnd && |accumulator| > MAX_ACCUMULATOR_BYTES {
        if lastExtract.foundBegin {
          var outEnd := Find(accumulator, m.Word(OutEnd), 0);
          var valEnd := Find(accumulator, m.Word(ValEnd), 0);
          var error := Find(accumulator, m.Word(Error), 0);
          var backtrace := Find(accumulator, m.Word(Backtrace), 0);
          var end := Find(accumulator, m.Word(End), 0);
          accumulator := CompactMarkerAccumulator(m, lastExtract,
            Seen(outEnd.Some?, valEnd.Some?, error.Some?, backtrace.Some?, end.Some?));
          lastExtract := ExtractBetweenMarkers(m, accumulator);
        } else {
          var drop := |accumulator| - MAX_ACCUMULATOR_BYTES / 2;
          var lineEnd := LineEnd(accumulator, drop);
          accumulator := accumulator[if lineEnd == |accumulator| then drop else lineEnd + 1..];
        }
      }
    }

    /** The pane rejected the wrapper: no BEGIN anywhere, and the error text is on the screen. */
    predicate Missed(before: Screen, event: Event)
      requires event.Captured?
    {
      detectMissingRuntime && event.runtimeMissing
      && !Located(m, before, event.text).lastExtract.foundBegin
    }

    /** One iteration of the loop, up to and including the decision how to go on. */
    method Poll(event: Event) returns (step: Step)
      requires Valid()
      modifies this
      ensures step.Continue? ==> Valid()
      ensures event.Failed? ==>
        (Now() == old(Now()) && captureFailures == old(captureFailures) + 1
         && step == (if old(captureFailures) == 5 then CaptureLost
                     else if event.now >= deadline then TimedOut else Continue))
      ensures event.Captured? ==> captureFailures == 0
      ensures event.Captured? && Missed(old(Now()), event) <==> step == RuntimeMissing
      ensures event.Captured? && !Missed(old(Now()), event) ==>
        (Now() == PollScreen(m, old(Now()), event.text)
         && step == (if lastExtract.foundEnd then Finished
                     else if event.now >= deadline then TimedOut else Continue))
      ensures step.Continue? && event.Captured? ==>
        backoff == (if |Spliced(old(accumulator), old(lastCapture), event.text)| > |old(accumulator)| then 50
                    else if 2 * old(backoff) < 1000 then 2 * old(backoff) else 1000)
      ensures event.Failed? ==> backoff == old(backoff)
    {
      hide Extract, Spliced, TrimPoint, Settle;
      match event
      case Failed(now) =>
        captureFailures := captureFailures + 1;
        if captureFailures > MAX_CAPTURE_FAILURES {
          return CaptureLost;
        }
        return if now >= deadline then TimedOut else Continue;
      case Captured(cap, runtimeMissing, now) =>
        captureFailures := 0;
        var grew := SpliceCapture(cap);
        ReadCapture(cap);
        if detectMissingRuntime && !lastExtract.foundBegin && runtimeMissing {
          return RuntimeMissing;
        }
        TrimBeforeBegin();
        SettleAccumulator();
        if lastExtract.foundEnd {
          return Finished;
        }
        if now >= deadline {
          return TimedOut;
        }
        backoff := if grew then BACKOFF_MIN
                   else if 2 * backoff < BACKOFF_MAX then 2 * backoff else BACKOFF_MAX;
        return Continue;
    }

    /** The whole loop over what the pane shows; `polled` events are consumed. */
    method Run(events: seq<Event>) returns (step: Step, polled: nat)
      requires Valid() && Now() == FRESH && captureFailures == 0
      modifies this
      ensures polled <= |events| && (step.Continue? ==> polled == |events|)
      ensures !step.RuntimeMissing? ==> Now() == ScreenAfter(m, Shown(events[..polled]))
      ensures !step.Continue? ==> polled > 0
      ensures step.Finished? <==> !step.Continue? && !step.RuntimeMissing? && lastExtract.foundEnd
      ensures step.Continue? || step.RuntimeMissing? || step.Finished? || step.TimedOut? ==>
        Pending(m, Shown(events[..if step.Continue? then polled else polled - 1]))
      ensures step.TimedOut? ==> events[polled - 1].now >= deadline
      ensures step.RuntimeMissing? ==>
        detectMissingRuntime && events[polled - 1].Captured? && events[polled - 1].runtimeMissing
      ensures step.CaptureLost? ==>
        polled > MAX_CAPTURE_FAILURES && forall i | polled - MAX_CAPTURE_FAILURES - 1 <= i < polled :: events[i].Failed?
    {
      hide ScreenAfter, Shown, PollScreen, Located;
      step, polled := Continue, 0;
      assert events[..0] == [];
      NothingShown(m);
      while step.Continue? && polled < |events|
        invariant polled <= |events|
        invariant step.Continue? ==> Valid() && !lastExtract.foundEnd && Pending(m, Shown(events[..polled]))
        invariant !step.RuntimeMissing? ==> Now() == ScreenAfter(m, Shown(events[..polled]))
        invariant !step.Continue? ==> polled > 0
        invariant step.Finished? <==> !step.Continue? && !step.RuntimeMissing? && lastExtract.foundEnd
        invariant !step.Continue? ==> Pending(m, Shown(events[..polled - 1]))
        invariant step.TimedOut? ==> events[polled - 1].now >= deadline
        invariant step.RuntimeMissing? ==>
          detectMissingRuntime && events[polled - 1].Captured? && events[polled - 1].runtimeMissing
        invariant captureFailures <= polled && (step.CaptureLost? ==> captureFailures > MAX_CAPTURE_FAILURES)
        invariant forall i | polled - captureFailures <= i < polled :: events[i].Failed?
        decreases |events| - polled
      {
        ShownStep(m, events, polled);
        step := Poll(events[polled]);
        polled := polled + 1;
      }
    }
  }

  // ----- Runs of captures -----

  /** The texts of the captures that succeeded. */
  function Shown(events: seq<Event>): seq<string> {
    if events == [] then []
    else
      var n := |events| - 1;
      Shown(events[..n]) + if events[n].Captured? then [events[n].text] else []
  }

  function ScreenAfter(m: Marker, captures: seq<string>): Screen {
    if captures == [] then FRESH
    else
      var n := |captures| - 1;
      PollScreen(m, ScreenAfter(m, captures[..n]), captures[n])
  }

  /** No poll so far has ended the loop. */
  predicate Pending(m: Marker, captures: seq<string>) {
    captures == [] ||
    (var n := |captures| - 1;
     Pending(m, captures[..n]) && !ScreenAfter(m, captures).lastExtract.foundEnd)
  }

  lemma NothingShown(m: Marker)
    ensures Shown([]) == [] && ScreenAfter(m, []) == FRESH && Pending(m, [])
  {
  }

  lemma ShownStep(m: Marker, events: seq<Event>, n: nat)
    requires n < |events|
    ensures var shown := Shown(events[..n]);
      && Shown(events[..n + 1]) == (if events[n].Captured? then shown + [events[n].text] else shown)
      && (events[n].Captured? ==>
            && ScreenAfter(m, shown + [events[n].text]) == PollScreen(m, ScreenAfter(m, shown), events[n].text)
            && (Pending(m, shown + [events[n].text]) <==>
                  Pending(m, shown) && !ScreenAfter(m, shown + [events[n].text]).lastExtract.foundEnd))
  {
    hide PollScreen;
    var shown := Shown(events[..n]);
    assert events[..n + 1][..n] == events[..n];
    if events[n].Captured? {
      assert (shown + [events[n].text])[..|shown|] == shown;
    }
  }
}
