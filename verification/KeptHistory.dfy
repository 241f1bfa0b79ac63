/** Splices that lose output only before or after an evaluation leave its print whole in the history. */
module KeptHistory {
  import opened Text
  import opened Splice
  import opened Runtime
  import opened VerdictRuns
  import opened Repetition

  /** Wherever the stream repeats itself around the overlap, the repeated block lies outside these positions. */
  ghost predicate LosesOutside(stream: string, a: Window, b: Window, from: nat, to: nat)
    requires Fits(stream, a) && Fits(stream, b) && Follows(a, b)
  {
    forall d: nat | Recurs(stream, a, b, d) :: a.to + d <= from || to <= a.to
  }

  ghost predicate ExactBetween(stream: string, windows: seq<Window>, from: nat, to: nat)
    requires Slides(stream, windows)
  {
    forall i | 1 <= i < |windows| :: LosesOutside(stream, windows[i - 1], windows[i], from, to)
  }

  function Min(a: nat, b: nat): nat {
    if a < b then a else b
  }

  /** A history that consists of some lines without the word, the print as far as it was shown, and the rest. */
  ghost predicate Frames(stream: string, from: nat, to: nat, word: string, shown: nat,
                         history: string, before: string, after: string)
    requires from <= to <= |stream| && shown <= |stream|
  {
    && history == before + (stream[Min(from, shown)..Min(to, shown)] + after)
    && EndsLine(before) && !Occurs(before, word)
    && (shown < to ==> after == "")
  }

  lemma JoinedLinesLackWord(a: string, b: string, word: string)
    requires '\n' !in word && EndsLine(a) && !Occurs(a, word) && !Occurs(b, word)
    ensures !Occurs(a + b, word)
  {
    hide OccursAt, EndsLine;
    forall p: nat ensures !OccursAt(a + b, word, p) {
      NotOccurring(a, word, p);
      if p >= |a| {
        NotOccurring(b, word, p - |a|);
      }
      if OccursAt(a + b, word, p) {
        OccursInEither(a, b, word, p);
      }
    }
  }

  lemma SliceLacksWord(text: string, i: nat, j: nat, word: string)
    requires i <= j <= |text| && !Occurs(text, word)
    ensures !Occurs(text[i..j], word)
  {
    hide OccursAt;
    forall p: nat ensures !OccursAt(text[i..j], word, p) {
      NotOccurring(text, word, i + p);
      if OccursAt(text[i..j], word, p) {
        OccursInSlice(text, i, j, word, p);
      }
    }
  }

  lemma SliceEndsLine(text: string, i: nat, j: nat)
    requires i <= j <= |text| && EndsLine(text[..j])
    ensures EndsLine(text[i..j])
  {
    if i < j {
      assert text[i..j][j - i - 1] == text[..j][j - 1];
    }
  }

  /** One splice that loses nothing in between. */
  lemma SpliceFrames(stream: string, from: nat, to: nat, word: string, a: nat, lost: nat, b: nat,
                     history: string, before: string, after: string) returns (ahead: string, behind: string)
    requires from <= to <= |stream| && a + lost <= b <= |stream| && '\n' !in word
    requires lost == 0 || a + lost <= from || to <= a
    requires Frames(stream, from, to, word, a, history, before, after)
    requires EndsLine(stream[..from]) && !Occurs(stream[..from], word) && EndsLine(stream[..b])
    ensures Frames(stream, from, to, word, b, history + stream[a + lost..b], ahead, behind)
  {
    hide Occurs, EndsLine;
    if to <= a {
      ahead, behind := before, after + stream[a + lost..b];
      Regroup(before, stream[from..to], after, stream[a + lost..b]);
    } else if a > from {
      ahead, behind := before, stream[Min(to, b)..b];
      SpliceWithin(stream, from, to, a, b, before);
    } else {
      ahead, behind := before + stream[a + lost..Min(from, b)], stream[Min(to, b)..b];
      NothingFramed(stream, a, before);
      SpliceAhead(stream, from, to, word, a + lost, b, before);
    }
  }

  lemma SpliceWithin(stream: string, from: nat, to: nat, a: nat, b: nat, before: string)
    requires from < a < to <= |stream| && a <= b <= |stream|
    ensures before + (stream[from..a] + "") + stream[a..b]
         == before + (stream[from..Min(to, b)] + stream[Min(to, b)..b])
  {
    SliceJoins(stream, from, a, b);
    SliceJoins(stream, from, Min(to, b), b);
    Regroup(before, stream[from..a], "", stream[a..b]);
    assert stream[from..a] + "" == stream[from..a];
  }

  lemma SpliceAhead(stream: string, from: nat, to: nat, word: string, start: nat, b: nat, before: string)
    requires start <= from <= to <= |stream| && start <= b <= |stream| && '\n' !in word
    requires EndsLine(stream[..from]) && !Occurs(stream[..from], word) && EndsLine(stream[..b])
    requires EndsLine(before) && !Occurs(before, word)
    ensures var stop := Min(from, b);
      var ahead := before + stream[start..stop];
      && before + stream[start..b] == ahead + (stream[stop..Min(to, b)] + stream[Min(to, b)..b])
      && EndsLine(ahead) && !Occurs(ahead, word)
  {
    hide Occurs, EndsLine;
    var stop := Min(from, b);
    var lines := stream[start..stop];
    SliceJoins(stream, start, stop, b);
    SliceJoins(stream, stop, Min(to, b), b);
    Regroup(before, "", lines, stream[stop..b]);
    assert before + (lines + stream[stop..b]) == (before + lines) + stream[stop..b];
    LinesStillLack(stream, from, word, start, stop, before);
    SliceOfPrefix(stream, b, start, stop);
    EndsLineUpTo(stream, from, b);
    SliceEndsLine(stream, start, stop);
    LinesJoin(before, lines);
  }

  lemma Regroup(a: string, b: string, c: string, d: string)
    ensures (a + (b + c)) + d == a + (b + (c + d)) == (a + b) + (c + d)
    ensures a + (b + (c + d)) == a + ((b + c) + d)
  {
  }

  lemma SliceJoins(text: string, i: nat, j: nat, k: nat)
    requires i <= j <= k <= |text|
    ensures text[i..j] + text[j..k] == text[i..k]
  {
  }

  lemma NothingFramed(stream: string, a: nat, before: string)
    requires a <= |stream|
    ensures before + (stream[a..a] + "") == before
  {
    assert stream[a..a] == "";
  }

  lemma SliceOfPrefix(text: string, n: nat, i: nat, j: nat)
    requires i <= j <= n <= |text|
    ensures text[..n][i..j] == text[i..j]
  {
  }

  lemma EndsLineUpTo(stream: string, from: nat, b: nat)
    requires from <= |stream| && b <= |stream| && EndsLine(stream[..from]) && EndsLine(stream[..b])
    ensures EndsLine(stream[..Min(from, b)])
  {
  }

  lemma LinesStillLack(stream: string, from: nat, word: string, i: nat, j: nat, before: string)
    requires i <= j <= from <= |stream| && '\n' !in word && EndsLine(before) && !Occurs(before, word)
    requires !Occurs(stream[..from], word)
    ensures !Occurs(before + stream[i..j], word)
  {
    hide Occurs, EndsLine;
    SliceOfPrefix(stream, from, i, j);
    SliceLacksWord(stream[..from], i, j, word);
    JoinedLinesLackWord(before, stream[i..j], word);
  }

  /** If nothing is lost in between, the history is the print with other lines around it. */
  lemma {:induction false} HistoryFrames(stream: string, windows: seq<Window>, from: nat, to: nat, word: string)
    returns (before: string, after: string)
    requires Slides(stream, windows) && windows != [] && windows[0].from == 0
    requires forall cap | cap in Views(stream, windows) :: EndsLine(cap)
    requires from <= to <= |stream| && ExactBetween(stream, windows, from, to)
    requires '\n' !in word && word != "" && EndsLine(stream[..from]) && !Occurs(stream[..from], word)
    ensures windows[|windows| - 1].to <= |stream| && EndsLine(stream[..windows[|windows| - 1].to])
    ensures Frames(stream, from, to, word, windows[|windows| - 1].to, History(Views(stream, windows)), before, after)
    decreases |windows|
  {
    hide Occurs, EndsLine, Exact, Recurs, News, View, History, Frames, Lost, Views, Follows, ExactBetween,
         LosesOutside;
    var n := |windows| - 1;
    var b := windows[n];
    WindowFits(stream, windows, n);
    LastViewEndsLine(stream, windows);
    if n == 0 {
      assert windows == [b];
      HistoryOfOne(stream, b);
      WholeView(stream, b);
      before, after := FirstFrames(stream, from, to, word, b.to);
    } else {
      var earlier, a := windows[..n], windows[n - 1];
      EarlierViews(stream, windows);
      EarlierIsExact(stream, windows, from, to);
      assert earlier[n - 1] == a && earlier[0] == windows[0];
      before, after := HistoryFrames(stream, earlier, from, to, word);
      LaterViewEndsLine(stream, a, b);
      HistoryStep(stream, windows);
      before, after := WindowFrames(stream, from, to, word, a, b, History(Views(stream, earlier)), before, after);
    }
  }

  lemma WindowFrames(stream: string, from: nat, to: nat, word: string, a: Window, b: Window,
                     history: string, before: string, after: string) returns (ahead: string, behind: string)
    requires from <= to <= |stream| && '\n' !in word
    requires Fits(stream, a) && Fits(stream, b) && Follows(a, b) && LosesOutside(stream, a, b, from, to)
    requires Frames(stream, from, to, word, a.to, history, before, after)
    requires EndsLine(stream[..from]) && !Occurs(stream[..from], word) && EndsLine(stream[..b.to])
    ensures Frames(stream, from, to, word, b.to, history + News(View(stream, a), View(stream, b)), ahead, behind)
  {
    hide Occurs, EndsLine, Exact, Recurs, News, View, Frames, Lost;
    LossRepeats(stream, a, b);
    ahead, behind := SpliceFrames(stream, from, to, word, a.to, Lost(stream, a, b), b.to, history, before, after);
  }

  lemma EarlierIsExact(stream: string, windows: seq<Window>, from: nat, to: nat)
    requires Slides(stream, windows) && |windows| > 1 && ExactBetween(stream, windows, from, to)
    ensures var n := |windows| - 1;
      && Slides(stream, windows[..n]) && ExactBetween(stream, windows[..n], from, to)
      && Fits(stream, windows[n - 1]) && Fits(stream, windows[n]) && Follows(windows[n - 1], windows[n])
      && LosesOutside(stream, windows[n - 1], windows[n], from, to)
  {
    hide LosesOutside;
    CoveredStep(stream, windows);
    var n := |windows| - 1;
    WindowFits(stream, windows, n - 1);
    forall i | 1 <= i < n ensures LosesOutside(stream, windows[..n][i - 1], windows[..n][i], from, to) {
      assert LosesOutside(stream, windows[i - 1], windows[i], from, to);
    }
  }

  lemma LastViewEndsLine(stream: string, windows: seq<Window>)
    requires Slides(stream, windows) && windows != []
    requires forall cap | cap in Views(stream, windows) :: EndsLine(cap)
    ensures var b := windows[|windows| - 1]; Fits(stream, b) && EndsLine(View(stream, b))
  {
    hide EndsLine, View;
    WindowFits(stream, windows, |windows| - 1);
    assert Views(stream, windows)[|windows| - 1] in Views(stream, windows);
  }

  lemma WholeView(stream: string, w: Window)
    requires Fits(stream, w) && w.from == 0
    ensures View(stream, w) == stream[..w.to]
  {
  }

  lemma FirstFrames(stream: string, from: nat, to: nat, word: string, shown: nat)
    returns (before: string, after: string)
    requires from <= to <= |stream| && shown <= |stream| && EndsLine(stream[..shown])
    requires EndsLine(stream[..from]) && !Occurs(stream[..from], word)
    ensures Frames(stream, from, to, word, shown, stream[..shown], before, after)
  {
    hide Occurs;
    var stop := Min(from, shown);
    before, after := stream[..stop], stream[Min(to, shown)..shown];
    assert stream[..shown] == before + (stream[stop..Min(to, shown)] + after);
    assert stream[..from][0..stop] == before;
    SliceLacksWord(stream[..from], 0, stop, word);
  }
}
