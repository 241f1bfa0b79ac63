/** Splicing overlapping screen captures into one history, and when the history is exact. */
module Splice {
  import opened Kmp
  import opened Text

  /** What a new capture adds to the previous one. */
  function News(prior: string, current: string): string {
    current[LongestOverlap(prior, current)..]
  }

  /** The history of a run of captures, never trimmed. */
  function History(captures: seq<string>): string {
    if captures == [] then ""
    else
      var n := |captures| - 1;
      History(captures[..n]) + News(LastOf(captures[..n]), captures[n])
  }

  function LastOf(captures: seq<string>): string {
    if captures == [] then "" else captures[|captures| - 1]
  }

  predicate Contains(whole: string, first: string, last: string) {
    first <= whole && EndsWith(whole, last)
  }

  /** Each step extends the old capture to the shortest text that begins with it and ends with the new one. */
  lemma SpliceIsShortest(prior: string, current: string)
    ensures var joined := prior + News(prior, current);
      && Contains(joined, prior, current)
      && forall whole | Contains(whole, prior, current) :: |joined| <= |whole|
  {
    var k := LongestOverlap(prior, current);
    var joined := prior + News(prior, current);
    assert prior == prior[..|prior| - k] + prior[|prior| - k..];
    assert joined == prior[..|prior| - k] + current;
    forall whole | Contains(whole, prior, current) ensures |joined| <= |whole| {
      if |whole| < |prior| + |current| {
        var shared := |prior| + |current| - |whole|;
        SharedPartOverlaps(whole, prior, current, shared);
      }
    }
  }

  lemma SharedPartOverlaps(whole: string, prior: string, current: string, shared: nat)
    requires Contains(whole, prior, current) && shared == |prior| + |current| - |whole|
    ensures IsOverlap(prior, current, shared)
  {
    var start := |whole| - |current|;
    assert start + shared == |prior|;
    assert prior[start..] == whole[start..|prior|] == whole[start..][..shared] == current[..shared];
  }

  /** Every run of captures: the history ends with the last capture and only ever grows. */
  lemma {:induction false} HistoryEndsWithLast(captures: seq<string>)
    ensures EndsWith(History(captures), LastOf(captures))
    decreases |captures|
  {
    if captures != [] {
      var n := |captures| - 1;
      var before, prior, current := History(captures[..n]), LastOf(captures[..n]), captures[n];
      HistoryEndsWithLast(captures[..n]);
      SpliceEndsWith(before, prior, current);
    }
  }

  lemma SpliceEndsWith(before: string, prior: string, current: string)
    requires EndsWith(before, prior)
    ensures EndsWith(before + News(prior, current), current)
  {
    hide LongestOverlap;
    var k, all := LongestOverlap(prior, current), before + News(prior, current);
    assert before[|before| - k..] == prior[|prior| - k..] == current[..k];
    assert all[|all| - |current|..] == before[|before| - k..] + current[k..] == current;
  }

  // ----- Windows of an append-only stream -----

  datatype Window = Window(from: nat, to: nat)

  predicate Fits(stream: string, w: Window) {
    w.from <= w.to <= |stream|
  }

  function View(stream: string, w: Window): string
    requires Fits(stream, w)
  {
    stream[w.from..w.to]
  }

  /** The later window overlaps or touches the earlier one, and neither end has moved back. */
  predicate Follows(a: Window, b: Window) {
    a.from <= b.from <= a.to <= b.to
  }

  predicate Slides(stream: string, windows: seq<Window>) {
    && (forall w | w in windows :: Fits(stream, w))
    && (forall i | 1 <= i < |windows| :: Follows(windows[i - 1], windows[i]))
    && (forall w | w in windows :: windows[0].from <= w.from)
  }

  function Views(stream: string, windows: seq<Window>): (r: seq<string>)
    requires forall w | w in windows :: Fits(stream, w)
    ensures |r| == |windows| && forall i | 0 <= i < |r| :: r[i] == View(stream, windows[i])
  {
    if windows == [] then []
    else Views(stream, windows[..|windows| - 1]) + [View(stream, windows[|windows| - 1])]
  }

  /** How much of the new window the previous one already showed. */
  function TrueOverlap(a: Window, b: Window): nat
    requires Follows(a, b)
  {
    a.to - b.from
  }

  /** What both windows show, widened by d at either end, repeats itself after d. */
  predicate Recurs(stream: string, a: Window, b: Window, d: nat)
    requires Fits(stream, a) && Fits(stream, b) && Follows(a, b)
  {
    && 0 < d <= b.from - a.from && d <= b.to - a.to
    && stream[b.from - d..a.to] == stream[b.from..a.to + d]
  }

  /** Nothing on the two screens looks like an overlap longer than the true one. */
  ghost predicate Exact(stream: string, a: Window, b: Window)
    requires Fits(stream, a) && Fits(stream, b) && Follows(a, b)
  {
    forall d: nat :: !Recurs(stream, a, b, d)
  }

  /** The true overlap is an overlap of the two views, so the computed one is never shorter. */
  lemma TrueOverlapOverlaps(stream: string, a: Window, b: Window)
    requires Fits(stream, a) && Fits(stream, b) && Follows(a, b)
    ensures IsOverlap(View(stream, a), View(stream, b), TrueOverlap(a, b))
    ensures TrueOverlap(a, b) <= LongestOverlap(View(stream, a), View(stream, b))
  {
    var k := TrueOverlap(a, b);
    assert stream[a.from..a.to][b.from - a.from..] == stream[b.from..a.to];
    assert stream[b.from..b.to][..k] == stream[b.from..b.from + k];
    assert IsOverlap(View(stream, a), View(stream, b), k);
  }

  /** The overlaps longer than the true one are exactly the repetitions. */
  lemma LongerOverlapsRecur(stream: string, a: Window, b: Window, d: nat)
    requires Fits(stream, a) && Fits(stream, b) && Follows(a, b) && d > 0
    ensures IsOverlap(View(stream, a), View(stream, b), TrueOverlap(a, b) + d) <==> Recurs(stream, a, b, d)
  {
    var k := TrueOverlap(a, b) + d;
    if d <= b.from - a.from && d <= b.to - a.to {
      assert stream[a.from..a.to][a.to - a.from - k..] == stream[b.from - d..a.to];
      assert stream[b.from..b.to][..k] == stream[b.from..a.to + d];
    }
  }

  /** A splice uses the true overlap if and only if the stream does not repeat itself around it. */
  lemma ExactUsesTrueOverlap(stream: string, a: Window, b: Window)
    requires Fits(stream, a) && Fits(stream, b) && Follows(a, b)
    ensures Exact(stream, a, b) <==> LongestOverlap(View(stream, a), View(stream, b)) == TrueOverlap(a, b)
  {
    hide IsOverlap, Recurs, LongestOverlap, View;
    var t, k := TrueOverlap(a, b), LongestOverlap(View(stream, a), View(stream, b));
    TrueOverlapOverlaps(stream, a, b);
    if k != t {
      LongerOverlapsRecur(stream, a, b, k - t);
    } else {
      forall d: nat ensures !Recurs(stream, a, b, d) {
        if d > 0 {
          LongerOverlapsRecur(stream, a, b, d);
        } else {
          NothingRecursAtOnce(stream, a, b);
        }
      }
    }
  }

  lemma NothingRecursAtOnce(stream: string, a: Window, b: Window)
    requires Fits(stream, a) && Fits(stream, b) && Follows(a, b)
    ensures !Recurs(stream, a, b, 0)
  {
  }

  /**
   * One step never appends more than the new output. It appends just that if and only if the stream
   * does not repeat itself around the overlap; else it loses the first part, which the old screen ends with.
   */
  lemma NewsOfWindow(stream: string, a: Window, b: Window)
    requires Fits(stream, a) && Fits(stream, b) && Follows(a, b)
    ensures var news := News(View(stream, a), View(stream, b));
      && |news| <= b.to - a.to
      && (Exact(stream, a, b) <==> |news| == b.to - a.to)
      && (Exact(stream, a, b) ==> news == stream[a.to..b.to])
      && (!Exact(stream, a, b) ==>
            var lost := b.to - a.to - |news|;
            Recurs(stream, a, b, lost) && news == stream[a.to + lost..b.to])
  {
    hide Exact, Recurs;
    TrueOverlapOverlaps(stream, a, b);
    ExactUsesTrueOverlap(stream, a, b);
    var k := LongestOverlap(View(stream, a), View(stream, b));
    assert News(View(stream, a), View(stream, b)) == stream[b.from + k..b.to];
    if k > TrueOverlap(a, b) {
      LongerOverlapsRecur(stream, a, b, k - TrueOverlap(a, b));
    }
  }

  /** The lost output stands on the stream twice in a row. */
  lemma LostRepeats(stream: string, a: Window, b: Window, d: nat)
    requires Fits(stream, a) && Fits(stream, b) && Follows(a, b) && Recurs(stream, a, b, d)
    ensures d <= a.to && a.to + d <= b.to && stream[a.to - d..a.to] == stream[a.to..a.to + d]
  {
    var n := a.to - b.from;
    assert stream[b.from - d..a.to][n..] == stream[a.to - d..a.to];
    assert stream[b.from..a.to + d][n..] == stream[a.to..a.to + d];
  }

  /** How much of the new output a splice loses. */
  function Lost(stream: string, a: Window, b: Window): (lost: nat)
    requires Fits(stream, a) && Fits(stream, b) && Follows(a, b)
    ensures lost <= b.to - a.to
  {
    hide Exact;
    NewsOfWindow(stream, a, b);
    b.to - a.to - |News(View(stream, a), View(stream, b))|
  }

  /** The covered stream without the blocks that the splices lose. */
  function Surviving(stream: string, windows: seq<Window>): string
    requires Slides(stream, windows) && windows != []
    decreases |windows|
  {
    var n := |windows| - 1;
    if n == 0 then View(stream, windows[0])
    else
      CoveredStep(stream, windows);
      var a, b := windows[n - 1], windows[n];
      Surviving(stream, windows[..n]) + stream[a.to + Lost(stream, a, b)..b.to]
  }

  /** What the windows have shown altogether. */
  function Covered(stream: string, windows: seq<Window>): string
    requires Slides(stream, windows) && windows != []
  {
    var last := windows[|windows| - 1];
    assert last in windows;
    stream[windows[0].from..last.to]
  }

  ghost predicate AllExact(stream: string, windows: seq<Window>)
    requires Slides(stream, windows)
  {
    forall i | 1 <= i < |windows| :: Exact(stream, windows[i - 1], windows[i])
  }

  /**
   * The history of windows is never longer than what they covered, and it is just that if and only
   * if the stream repeats itself around none of the overlaps.
   */
  lemma {:induction false} HistoryOfWindows(stream: string, windows: seq<Window>)
    requires Slides(stream, windows) && windows != []
    ensures |History(Views(stream, windows))| <= |Covered(stream, windows)|
    ensures History(Views(stream, windows)) == Covered(stream, windows) <==> AllExact(stream, windows)
    decreases |windows|
  {
    hide LongestOverlap, News, Exact, Views, Follows, AllExact, View;
    var n := |windows| - 1;
    var earlier, b := windows[..n], windows[n];
    assert b in windows;
    if n == 0 {
      NewsOfNothing(View(stream, b));
      SingleView(stream, b);
      assert windows == [b];
    } else {
      var a := earlier[n - 1];
      assert a in windows && Follows(windows[n - 1], windows[n]);
      AllExactGrows(stream, windows, n);
      HistoryOfWindows(stream, earlier);
      NewsOfWindow(stream, a, b);
      HistoryStep(stream, windows);
      CoveredStep(stream, windows);
      SumOfParts(History(Views(stream, earlier)), News(View(stream, a), View(stream, b)),
                 Covered(stream, earlier), stream[a.to..b.to]);
    }
  }

  /**
   * Splicing invents nothing: the history is the covered stream with some blocks left out, each at
   * the start of the new output of a window. What each block is, `LossRepeats` says.
   */
  lemma {:induction false} HistoryLeavesOutLosses(stream: string, windows: seq<Window>)
    requires Slides(stream, windows) && windows != []
    ensures History(Views(stream, windows)) == Surviving(stream, windows)
    decreases |windows|
  {
    hide News, View, History, Exact, Recurs, Lost, Slides, Follows, Views;
    var n := |windows| - 1;
    if n == 0 {
      assert windows == [windows[0]];
      WindowFits(stream, windows, 0);
      HistoryOfOne(stream, windows[0]);
    } else {
      CoveredStep(stream, windows);
      WindowFits(stream, windows, n - 1);
      HistoryStep(stream, windows);
      HistoryLeavesOutLosses(stream, windows[..n]);
      LossRepeats(stream, windows[n - 1], windows[n]);
    }
  }

  lemma WindowFits(stream: string, windows: seq<Window>, i: nat)
    requires Slides(stream, windows) && i < |windows|
    ensures Fits(stream, windows[i]) && Slides(stream, [windows[i]])
  {
    assert windows[i] in windows;
  }

  lemma HistoryOfOne(stream: string, w: Window)
    requires Fits(stream, w) && Slides(stream, [w])
    ensures History(Views(stream, [w])) == View(stream, w)
  {
    hide News, View, History;
    SingleView(stream, w);
    NewsOfNothing(View(stream, w));
  }

  /** What one splice loses repeats what precedes it, and what it adds is the rest of the new output. */
  lemma LossRepeats(stream: string, a: Window, b: Window)
    requires Fits(stream, a) && Fits(stream, b) && Follows(a, b)
    ensures var lost := Lost(stream, a, b);
      && (lost == 0 <==> Exact(stream, a, b)) && (lost > 0 ==> Recurs(stream, a, b, lost))
      && lost <= a.to && stream[a.to - lost..a.to] == stream[a.to..a.to + lost]
      && News(View(stream, a), View(stream, b)) == stream[a.to + lost..b.to]
  {
    hide Exact, Recurs, News, View;
    NewsOfWindow(stream, a, b);
    if !Exact(stream, a, b) {
      LostRepeats(stream, a, b, Lost(stream, a, b));
    }
  }

  lemma SingleView(stream: string, w: Window)
    requires Fits(stream, w)
    ensures Slides(stream, [w]) && AllExact(stream, [w])
    ensures History(Views(stream, [w])) == "" + News("", View(stream, w)) && Covered(stream, [w]) == View(stream, w)
  {
    assert Views(stream, [w])[..0] == [];
    assert Views(stream, [w])[0] == View(stream, w);
  }

  lemma HistoryStep(stream: string, windows: seq<Window>)
    requires Slides(stream, windows) && |windows| > 1
    ensures var n := |windows| - 1;
      History(Views(stream, windows)) ==
        History(Views(stream, windows[..n])) + News(View(stream, windows[n - 1]), View(stream, windows[n]))
  {
    hide News, View;
    var n, views := |windows| - 1, Views(stream, windows);
    assert views[..n] == Views(stream, windows[..n]);
    assert windows[..n][n - 1] == windows[n - 1];
  }

  lemma CoveredStep(stream: string, windows: seq<Window>)
    requires Slides(stream, windows) && |windows| > 1
    ensures var n := |windows| - 1;
      && Slides(stream, windows[..n]) && Follows(windows[n - 1], windows[n]) && Fits(stream, windows[n])
      && Covered(stream, windows) == Covered(stream, windows[..n]) + stream[windows[n - 1].to..windows[n].to]
  {
    var n := |windows| - 1;
    assert windows[n] in windows && windows[n - 1] in windows;
    assert windows[..n][n - 1] == windows[n - 1] && windows[..n][0] == windows[0];
    assert forall i | 1 <= i < n ::
      Follows(windows[..n][i - 1], windows[..n][i]) <==> Follows(windows[i - 1], windows[i]);
  }

  lemma NewsOfNothing(text: string)
    ensures "" + News("", text) == text
  {
  }

  lemma SumOfParts(a: string, b: string, c: string, d: string)
    requires |a| <= |c| && |b| <= |d|
    ensures a + b == c + d <==> a == c && b == d
  {
    if a + b == c + d {
      assert |a| == |c|;
      assert (a + b)[..|a|] == a && (c + d)[..|c|] == c && (a + b)[|a|..] == b && (c + d)[|c|..] == d;
    }
  }

  lemma AllExactGrows(stream: string, windows: seq<Window>, n: nat)
    requires Slides(stream, windows) && n == |windows| - 1 && n > 0
    ensures Slides(stream, windows[..n])
    ensures AllExact(stream, windows) <==> AllExact(stream, windows[..n]) && Exact(stream, windows[n - 1], windows[n])
  {
    hide Exact;
    var earlier := windows[..n];
    if AllExact(stream, windows) {
      forall i | 1 <= i < n ensures Exact(stream, earlier[i - 1], earlier[i]) {
        assert Exact(stream, windows[i - 1], windows[i]);
      }
    }
    if AllExact(stream, earlier) && Exact(stream, windows[n - 1], windows[n]) {
      forall i | 1 <= i < |windows| ensures Exact(stream, windows[i - 1], windows[i]) {
        if i < n { assert Exact(stream, earlier[i - 1], earlier[i]); }
      }
    }
  }

  /** A mark that stands once in the old view pins the overlap of every new view that begins with it. */
  lemma MarkPinsOverlap(prior: string, current: string, mark: string, k: nat)
    requires |mark| <= k && mark <= current && IsOverlap(prior, current, k)
    requires forall p: nat, q: nat | OccursAt(prior, mark, p) && OccursAt(prior, mark, q) :: p == q
    ensures LongestOverlap(prior, current) == k
  {
    OverlapShowsMark(prior, current, mark, k);
    OverlapShowsMark(prior, current, mark, LongestOverlap(prior, current));
  }

  lemma OverlapShowsMark(prior: string, current: string, mark: string, k: nat)
    requires IsOverlap(prior, current, k) && |mark| <= k && mark <= current
    ensures OccursAt(prior, mark, |prior| - k)
  {
    assert prior[|prior| - k..][..|mark|] == current[..k][..|mark|] == mark;
    assert prior[|prior| - k..|prior| - k + |mark|] == prior[|prior| - k..][..|mark|];
  }

  function FirstLine(text: string): (line: string)
    ensures line <= text
  {
    var e := LineEnd(text, 0);
    text[..if e < |text| then e + 1 else e]
  }

  /** The first line of the new view was on the old screen, exactly once. */
  ghost predicate FirstLinePins(stream: string, a: Window, b: Window)
    requires Fits(stream, a) && Fits(stream, b) && Follows(a, b)
  {
    var prior, line := View(stream, a), FirstLine(View(stream, b));
    && |line| <= TrueOverlap(a, b)
    && forall p: nat, q: nat | OccursAt(prior, line, p) && OccursAt(prior, line, q) :: p == q
  }

  /** The history is exact whenever every new screen begins with a line that was unique on the old one. */
  lemma UniqueFirstLinesMakeExact(stream: string, windows: seq<Window>)
    requires Slides(stream, windows) && windows != []
    requires forall i | 1 <= i < |windows| :: FirstLinePins(stream, windows[i - 1], windows[i])
    ensures History(Views(stream, windows)) == Covered(stream, windows)
  {
    hide LongestOverlap, History, FirstLine, Exact;
    forall i | 1 <= i < |windows| ensures Exact(stream, windows[i - 1], windows[i]) {
      var a, b := windows[i - 1], windows[i];
      assert a in windows && b in windows && FirstLinePins(stream, a, b);
      TrueOverlapOverlaps(stream, a, b);
      MarkPinsOverlap(View(stream, a), View(stream, b), FirstLine(View(stream, b)), TrueOverlap(a, b));
      ExactUsesTrueOverlap(stream, a, b);
    }
    HistoryOfWindows(stream, windows);
  }

  /** On periodic output the overlap is taken too long: a screenful printed again is lost. */
  lemma RepeatedOutputIsLost(text: string)
    requires text != ""
    ensures var stream, n := text + text + text, |text|;
      var a, b := Window(0, 2 * n), Window(n, 3 * n);
      && Fits(stream, a) && Fits(stream, b) && Follows(a, b)
      && View(stream, a) == View(stream, b) == text + text && News(View(stream, a), View(stream, b)) == ""
  {
    var stream, n := text + text + text, |text|;
    assert stream[0..2 * n] == text + text == stream[n..3 * n];
    NoNewsInTheSame(text + text);
  }

  lemma NoNewsInTheSame(text: string)
    ensures News(text, text) == ""
  {
    assert IsOverlap(text, text, |text|);
  }
}
