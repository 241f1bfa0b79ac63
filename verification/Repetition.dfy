/**
 * When a splice takes too long an overlap, the output it loses repeats what the pane has just shown.
 * Whole lines that repeat hold no marker word that is printed once, so the verdict survives the loss.
 */
module Repetition {
  import opened Text
  import opened Markers
  import opened Extraction
  import opened ExtractionLaws
  import opened LexLaws
  import opened CompactionLaws
  import opened Splice
  import opened Runtime
  import opened VerdictRuns

  /** Whole lines that mention no marker: older scrollback, or what the REPL prints afterwards. */
  ghost predicate Unrelated(m: Marker, text: string) {
    EndsLine(text) && '\r' !in text && forall kind :: !Occurs(text, m.Word(kind))
  }

  ghost predicate WordsOnce(m: Marker, text: string) {
    forall kind :: AtMostOnce(text, m.Word(kind))
  }

  // ----- What a splice loses -----

  /** Two neighbouring copies of whole lines hold no word that occurs only once. */
  lemma RepeatedIsUnrelated(m: Marker, stream: string, at: nat, d: nat)
    requires '\r' !in stream && WordsOnce(m, stream)
    requires 0 < d <= at && at + d <= |stream| && stream[at - d..at] == stream[at..at + d]
    requires EndsLine(stream[..at])
    ensures Unrelated(m, stream[at..at + d])
  {
    hide OccursAt, WordsOnce;
    var lost := stream[at..at + d];
    assert lost[d - 1] == stream[at - d..at][d - 1] == stream[..at][at - 1];
    forall kind ensures !Occurs(lost, m.Word(kind)) {
      if p: nat :| OccursAt(lost, m.Word(kind), p) {
        OccursInSlice(stream, at - d, at, m.Word(kind), p);
        OccursInSlice(stream, at, at + d, m.Word(kind), p);
        WordIsOnce(m, stream, kind, at - d + p, at + p);
      }
    }
  }

  lemma WordIsOnce(m: Marker, text: string, kind: Kind, p: nat, q: nat)
    requires WordsOnce(m, text) && OccursAt(text, m.Word(kind), p) && OccursAt(text, m.Word(kind), q)
    ensures p == q
  {
    hide OccursAt;
    assert AtMostOnce(text, m.Word(kind));
  }

  lemma OccursInSlice(text: string, from: nat, to: nat, word: string, p: nat)
    requires from <= to <= |text| && OccursAt(text[from..to], word, p)
    ensures OccursAt(text, word, from + p)
  {
    assert text[from..] == text[from..to] + text[to..];
    OccursInPrefix(text[from..to], text[to..], word, p);
    OccursShift(text, from, word, p);
  }

  // ----- A history that says as much as what was shown -----

  ghost predicate Echoes(m: Marker, shown: string, history: string) {
    && RuntimeHistory(m, shown) && RuntimeHistory(m, history)
    && AfterBegin(m, history).Some? == AfterBegin(m, shown).Some?
    && (AfterBegin(m, shown).Some? ==> BodyKinds(m, history) == BodyKinds(m, shown))
  }

  lemma BeginIsFound(m: Marker, c: string)
    requires RuntimeHistory(m, c)
    ensures Occurs(c, m.Word(Begin)) <==> AfterBegin(m, c).Some?
  {
    hide OccursAt, AfterBegin, WellMarked, EndsLine;
    if AfterBegin(m, c).Some? {
      var p := BeginFound(m, c);
    }
  }

  lemma EchoesJudgeAlike(m: Marker, shown: string, history: string)
    requires Echoes(m, shown, history)
    ensures SameOutcome(Extract(m, shown), Extract(m, history))
  {
    hide AfterBegin, RuntimeHistory, BodyKinds, JudgeKinds, Judge, Interpret, Lex;
    if AfterBegin(m, shown).Some? {
      VerdictByKinds(m, shown);
      VerdictByKinds(m, history);
      OutcomeFromVerdict(m, shown, history);
    }
  }

  /** Unrelated lines change neither what has begun nor the tokens read. */
  lemma UnrelatedAddsNothing(m: Marker, c: string, lost: string)
    requires m.Apart() && m.Plain() && EndsLine(c) && Unrelated(m, lost)
    ensures AfterBegin(m, c + lost).Some? == AfterBegin(m, c).Some?
    ensures AfterBegin(m, c).Some? ==> BodyKinds(m, c + lost) == BodyKinds(m, c)
  {
    hide OccursAt, AfterBegin, EndsLine, Extract;
    if AfterBegin(m, c).Some? {
      BodyKindsContinue(m, c, lost);
      UnrelatedIsTokenFree(m, lost);
      LexTokenFree(m, lost);
      assert BodyKinds(m, c) + [] == BodyKinds(m, c);
    } else {
      AfterBeginSkips(m, c, lost);
      if AfterBegin(m, lost).Some? {
        var p := BeginFound(m, lost);
        NotOccurring(lost, m.Word(Begin), p);
      }
    }
  }

  lemma UnrelatedIsTokenFree(m: Marker, text: string)
    requires Unrelated(m, text)
    ensures TokenFree(m, text)
  {
    hide OccursAt;
    forall p: nat, kind ensures !TokenAt(m, text, p, kind) {
      NotOccurring(text, m.Word(kind), p);
    }
  }

  /** An occurrence in lines and their continuation lies in one or the other. */
  lemma OccursInEither(lines: string, more: string, word: string, p: nat)
    requires '\n' !in word && EndsLine(lines) && OccursAt(lines + more, word, p)
    ensures if p < |lines| then OccursAt(lines, word, p) else OccursAt(more, word, p - |lines|)
  {
    hide OccursAt;
    if p < |lines| {
      NoWordAcrossNewline(lines, more, word, p);
    } else {
      OccursInSuffix(lines, more, word, p - |lines|);
    }
  }

  /** BEGIN stays unique when the history takes in the same news as the stream. */
  lemma BeginStaysOnce(m: Marker, shown: string, history: string, news: string)
    requires m.Plain() && Echoes(m, shown, history) && AtMostOnce(shown + news, m.Word(Begin))
    ensures AtMostOnce(history + news, m.Word(Begin))
  {
    hide OccursAt, AfterBegin, EndsLine, WellMarked, BodyKinds, InRuntimeOrder;
    var w := m.Word(Begin);
    BeginIsFound(m, shown);
    BeginIsFound(m, history);
    forall p: nat, q: nat | OccursAt(history + news, w, p) && OccursAt(history + news, w, q) && p <= q ensures p == q {
      OccursInEither(history, news, w, p);
      OccursInEither(history, news, w, q);
      if q >= |history| {
        OccursInSuffix(shown, news, w, q - |history|);
        var r: nat := if p < |history| then FirstOccurrence(shown, w) else |shown| + (p - |history|);
        if p < |history| {
          OccurrenceFits(shown, w, r);
          OccursInPrefix(shown, news, w, r);
        } else {
          OccursInSuffix(shown, news, w, p - |history|);
        }
        assert r == |shown| + (q - |history|);
      }
    }
  }

  ghost function FirstOccurrence(text: string, word: string): (p: nat)
    requires Occurs(text, word)
    ensures OccursAt(text, word, p)
  {
    var p: nat :| OccursAt(text, word, p);
    p
  }

  /** What begins and which tokens are read, after the same news, depend only on what did before. */
  lemma NewsReadAlike(m: Marker, shown: string, history: string, news: string)
    requires m.Apart() && m.Plain() && Echoes(m, shown, history)
    ensures AfterBegin(m, history + news).Some? == AfterBegin(m, shown + news).Some?
    ensures AfterBegin(m, shown + news).Some? ==> BodyKinds(m, history + news) == BodyKinds(m, shown + news)
  {
    hide AfterBegin, EndsLine, WellMarked, AtMostOnce, Extract, InRuntimeOrder, OccursAt, Lex;
    if AfterBegin(m, shown).Some? {
      BodyKindsContinue(m, shown, news);
      BodyKindsContinue(m, history, news);
      EchoesJudgeAlike(m, shown, history);
    } else {
      AfterBeginSkips(m, shown, news);
      AfterBeginSkips(m, history, news);
    }
  }

  lemma NewsKeepEcho(m: Marker, shown: string, history: string, news: string)
    requires m.Apart() && m.Plain() && Echoes(m, shown, history)
    requires RuntimeHistory(m, shown + news) && EndsLine(history + news)
    ensures Echoes(m, shown + news, history + news)
  {
    hide OccursAt, AfterBegin, EndsLine, WellMarked, BodyKinds, InRuntimeOrder, AtMostOnce;
    NewsReadAlike(m, shown, history, news);
    BeginStaysOnce(m, shown, history, news);
    NewsWellMarked(m, shown, news);
    LinesAreWellMarked(m, history, news);
    BeginIsFound(m, shown + news);
    BeginArrivesInBoth(m, shown, history, news);
  }

  lemma BeginArrivesInBoth(m: Marker, shown: string, history: string, news: string)
    requires m.Plain() && Echoes(m, shown, history)
    ensures Occurs(history + news, m.Word(Begin)) ==> Occurs(shown + news, m.Word(Begin))
  {
    hide OccursAt, AfterBegin, EndsLine, WellMarked, BodyKinds, InRuntimeOrder;
    var w := m.Word(Begin);
    if p: nat :| OccursAt(history + news, w, p) {
      OccursInEither(history, news, w, p);
      if p < |history| {
        BeginIsFound(m, shown);
        BeginIsFound(m, history);
        OccursInLonger(shown, news, w);
      } else {
        OccursInSuffix(shown, news, w, p - |history|);
      }
    }
  }

  /** Losing unrelated lines keeps the echo. */
  lemma LossKeepsEcho(m: Marker, shown: string, lost: string, history: string)
    requires m.Apart() && m.Plain() && Echoes(m, shown, history)
    requires Unrelated(m, lost) && RuntimeHistory(m, shown + lost)
    ensures Echoes(m, shown + lost, history)
  {
    hide AfterBegin, EndsLine, WellMarked, BodyKinds, InRuntimeOrder, AtMostOnce, Unrelated, OccursAt;
    UnrelatedAddsNothing(m, shown, lost);
  }

  // ----- Runs of sliding windows -----

  /** One splice, exact or not. */
  lemma SpliceKeepsEcho(m: Marker, stream: string, a: Window, b: Window, history: string)
    requires m.Apart() && m.Plain() && WordsOnce(m, stream) && RuntimeHistory(m, stream)
    requires Fits(stream, a) && Fits(stream, b) && Follows(a, b)
    requires EndsLine(stream[..a.to]) && EndsLine(stream[..b.to]) && Echoes(m, stream[..a.to], history)
    requires EndsLine(history + News(View(stream, a), View(stream, b)))
    ensures Echoes(m, stream[..b.to], history + News(View(stream, a), View(stream, b)))
  {
    hide RuntimeHistory, WordsOnce, Echoes, Exact, Recurs, News, View, EndsLine, Lost;
    LossRepeats(stream, a, b);
    var news := News(View(stream, a), View(stream, b));
    var lost := Lost(stream, a, b);
    var at := a.to + lost;
    PrefixIsHistory(m, stream, b.to);
    PrefixSplits(stream, at, b.to);
    if lost > 0 {
      HistoryHasNoCr(m, stream);
      RepeatedIsUnrelated(m, stream, a.to, lost);
      PrefixSplits(stream, a.to, at);
      UnrelatedEndsLine(m, stream[..a.to], stream[a.to..at]);
      PrefixIsHistory(m, stream, at);
      LossKeepsEcho(m, stream[..a.to], stream[a.to..at], history);
    }
    NewsKeepEcho(m, stream[..at], history, news);
  }

  lemma PrefixSplits(text: string, i: nat, j: nat)
    requires i <= j <= |text|
    ensures text[..j] == text[..i] + text[i..j]
  {
  }

  lemma HistoryHasNoCr(m: Marker, full: string)
    requires RuntimeHistory(m, full)
    ensures '\r' !in full
  {
  }

  lemma UnrelatedEndsLine(m: Marker, lines: string, text: string)
    requires EndsLine(lines) && Unrelated(m, text)
    ensures EndsLine(lines + text)
  {
    LinesJoin(lines, text);
  }

  lemma PrefixIsHistory(m: Marker, stream: string, n: nat)
    requires m.Apart() && m.Plain() && RuntimeHistory(m, stream) && n <= |stream| && EndsLine(stream[..n])
    ensures RuntimeHistory(m, stream[..n])
  {
    hide RuntimeHistory;
    assert stream == stream[..n] + stream[n..];
    HistoryPrefix(m, stream[..n], stream[n..]);
  }

  /** A view that ends a line ends where a line of the stream ends. */
  lemma ViewEndsStreamLine(stream: string, w: Window)
    requires Fits(stream, w) && w.from < w.to && EndsLine(View(stream, w))
    ensures EndsLine(stream[..w.to])
  {
    assert View(stream, w)[w.to - w.from - 1] == stream[w.to - 1];
  }

  /**
   * Sliding windows of whole lines, of a stream that prints every marker word at most once, splice to
   * a history that begins, ends and fails as what they have shown, exact or not.
   */
  lemma {:induction false} WindowsEcho(m: Marker, stream: string, windows: seq<Window>)
    requires m.Apart() && m.Plain() && WordsOnce(m, stream) && RuntimeHistory(m, stream)
    requires Slides(stream, windows) && windows != [] && windows[0].from == 0
    requires forall cap | cap in Views(stream, windows) :: EndsLine(cap)
    ensures var to := windows[|windows| - 1].to;
      && to <= |stream| && EndsLine(stream[..to])
      && Echoes(m, stream[..to], History(Views(stream, windows)))
    decreases |windows|
  {
    hide RuntimeHistory, WordsOnce, Echoes, EndsLine, News, View, History, Views;
    var n := |windows| - 1;
    var b, views := windows[n], Views(stream, windows);
    assert b in windows && views[n] in views;
    HistoryEndsLine(views);
    if n == 0 {
      assert windows == [b];
      OneWindowEchoes(m, stream, b);
    } else {
      var earlier, a := windows[..n], windows[n - 1];
      CoveredStep(stream, windows);
      HistoryStep(stream, windows);
      EarlierViews(stream, windows);
      WindowsEcho(m, stream, earlier);
      assert earlier[n - 1] == a;
      LaterViewEndsLine(stream, a, b);
      SpliceKeepsEcho(m, stream, a, b, History(Views(stream, earlier)));
    }
  }

  lemma EarlierViews(stream: string, windows: seq<Window>)
    requires Slides(stream, windows) && |windows| > 1
    ensures Slides(stream, windows[..|windows| - 1])
    ensures forall cap | cap in Views(stream, windows[..|windows| - 1]) :: cap in Views(stream, windows)
  {
    hide View;
    CoveredStep(stream, windows);
  }

  lemma OneWindowEchoes(m: Marker, stream: string, w: Window)
    requires m.Apart() && m.Plain() && RuntimeHistory(m, stream) && Fits(stream, w) && w.from == 0
    requires EndsLine(View(stream, w))
    ensures EndsLine(stream[..w.to]) && Echoes(m, stream[..w.to], History(Views(stream, [w])))
  {
    hide RuntimeHistory, EndsLine, News, History, Echoes, AllExact;
    assert View(stream, w) == stream[..w.to];
    PrefixIsHistory(m, stream, w.to);
    SingleView(stream, w);
    NewsOfNothing(View(stream, w));
    HistoryEchoesItself(m, stream[..w.to]);
  }

  lemma HistoryEchoesItself(m: Marker, c: string)
    requires RuntimeHistory(m, c)
    ensures Echoes(m, c, c)
  {
  }

  lemma LaterViewEndsLine(stream: string, a: Window, b: Window)
    requires Fits(stream, a) && Fits(stream, b) && Follows(a, b)
    requires EndsLine(stream[..a.to]) && EndsLine(View(stream, b))
    ensures EndsLine(stream[..b.to])
  {
    if b.from < b.to {
      ViewEndsStreamLine(stream, b);
    } else {
      assert b.to == a.to;
    }
  }
}
