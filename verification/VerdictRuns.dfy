/** Over every run of the polling loop, trimming and compacting never change the verdict. */
module VerdictRuns {
  import opened Text
  import opened Markers
  import opened Extraction
  import opened ExtractionLaws
  import opened LexLaws
  import opened Compaction
  import opened CompactionLaws
  import opened Splice
  import opened EvalLoop
  import opened EvalRuns
  import opened Runtime

  // ----- Histories the runtime can leave in a pane -----

  /**
   * One evaluation of one identifier, as far as it has been printed: whole lines, BEGIN at most once
   * and then on a line of its own, every marker at the end of a line, tokens in runtime order.
   */
  ghost predicate RuntimeHistory(m: Marker, full: string) {
    && EndsLine(full) && '\r' !in full && WellMarked(m, full)
    && AtMostOnce(full, m.Word(Begin))
    && (Occurs(full, m.Word(Begin)) ==> AfterBegin(m, full).Some?)
    && (AfterBegin(m, full).Some? ==> InRuntimeOrder(BodyKinds(m, full)))
  }

  lemma {:induction false} KindsGraft(first: Pieces, second: Pieces)
    ensures Kinds(Graft(first, second)) == if Ends(first) then Kinds(first) else Kinds(first) + Kinds(second)
    decreases first
  {
    if first.Last? {
      AddFrontKinds(first.segment, second);
      assert [] + Kinds(second) == Kinds(second);
    } else if first.kind != End {
      KindsGraft(first.next, second);
      assert [first.kind] + (Kinds(first.next) + Kinds(second)) == [first.kind] + Kinds(first.next) + Kinds(second);
    }
  }

  lemma AddFrontKinds(front: string, pieces: Pieces)
    ensures Kinds(AddFront(front, pieces)) == Kinds(pieces)
  {
  }

  /** The tokens of a continuation come after those read so far, unless END was among them. */
  lemma BodyKindsContinue(m: Marker, c: string, rest: string)
    requires m.Apart() && m.Plain() && EndsLine(c) && AfterBegin(m, c).Some?
    ensures AfterBegin(m, c + rest).Some?
    ensures BodyKinds(m, c + rest) ==
      if Extract(m, c).foundEnd then BodyKinds(m, c) else BodyKinds(m, c) + Kinds(Lex(m, rest))
  {
    hide AfterBegin, Lex, Graft, Kinds, EndsLine, Interpret;
    var body := AfterBegin(m, c).value;
    AfterBeginExtendsLines(m, c, rest);
    SuffixEndsLine(c, body);
    LexConcat(m, body, rest);
    KindsGraft(Lex(m, body), Lex(m, rest));
    FoundEndMeansEnds(Lex(m, body), BEGUN);
  }

  /** Where no BEGIN line has been found in whole lines, the search goes on in what follows. */
  lemma {:induction false} AfterBeginSkips(m: Marker, c: string, more: string)
    requires EndsLine(c) && AfterBegin(m, c).None?
    ensures AfterBegin(m, c + more) == AfterBegin(m, more)
    decreases |c|
  {
    hide Trim, LineEnd, AfterBegin, EndsLine;
    EndsLineMeans(c);
    if c == "" {
      assert c + more == more;
    } else {
      LineIsTerminated(c, 0);
      AfterBeginFirstLine(m, c);
      AfterBeginLine(m, c, more);
      var rest := c[LineEnd(c, 0) + 1..];
      SuffixEndsLine(c, rest);
      AfterBeginSkips(m, rest, more);
    }
  }

  lemma PrefixIsWellMarked(m: Marker, c: string, more: string)
    requires m.Plain() && EndsLine(c) && WellMarked(m, c + more)
    ensures WellMarked(m, c)
  {
    hide OccursAt;
    forall p: nat, kind | TokenAt(m, c, p, kind)
      ensures p + |m.Word(kind)| < |c| && c[p + |m.Word(kind)|] == '\n'
    {
      TokenLeavesLineEnd(m, c, p, kind, more);
      OccursInPrefix(c, more, m.Word(kind), p);
      assert TokenAt(m, c + more, p, kind);
    }
  }

  lemma LinesAreWellMarked(m: Marker, a: string, b: string)
    requires m.Plain() && EndsLine(a) && WellMarked(m, a) && WellMarked(m, b)
    ensures WellMarked(m, a + b)
  {
    hide OccursAt, EndsLine;
    forall p: nat, kind | TokenAt(m, a + b, p, kind)
      ensures p + |m.Word(kind)| < |a + b| && (a + b)[p + |m.Word(kind)|] == '\n'
    {
      if p < |a| {
        NoWordAcrossNewline(a, b, m.Word(kind), p);
        assert TokenAt(m, a, p, kind);
      } else {
        OccursInSuffix(a, b, m.Word(kind), p - |a|);
        assert TokenAt(m, b, p - |a|, kind);
      }
    }
  }

  lemma AtMostOncePrefix(c: string, more: string, word: string)
    requires AtMostOnce(c + more, word)
    ensures AtMostOnce(c, word)
  {
    hide OccursAt;
    forall p: nat, q: nat | OccursAt(c, word, p) && OccursAt(c, word, q) ensures p == q {
      OccurrenceFits(c, word, p);
      OccurrenceFits(c, word, q);
      OccursInPrefix(c, more, word, p);
      OccursInPrefix(c, more, word, q);
    }
  }

  /** If BEGIN stands in whole lines of a history that shows it as a line, it is a line there too. */
  lemma BeginAlreadyLine(m: Marker, c: string, more: string)
    requires EndsLine(c) && AtMostOnce(c + more, m.Word(Begin)) && AfterBegin(m, c + more).Some?
    requires Occurs(c, m.Word(Begin))
    ensures AfterBegin(m, c).Some?
  {
    hide OccursAt, AfterBegin, EndsLine;
    if AfterBegin(m, c).None? {
      AfterBeginSkips(m, c, more);
      var q := BeginFound(m, more);
      OccursInSuffix(c, more, m.Word(Begin), q);
      var p: nat :| OccursAt(c, m.Word(Begin), p);
      OccurrenceFits(c, m.Word(Begin), p);
      OccursInPrefix(c, more, m.Word(Begin), p);
    }
  }

  /** What has been printed up to some line end is again such a history. */
  lemma HistoryPrefix(m: Marker, c: string, more: string)
    requires m.Apart() && m.Plain() && EndsLine(c) && RuntimeHistory(m, c + more)
    ensures RuntimeHistory(m, c)
  {
    hide OccursAt, AfterBegin, EndsLine, WellMarked, AtMostOnce, Extract;
    PrefixIsWellMarked(m, c, more);
    AtMostOncePrefix(c, more, m.Word(Begin));
    if Occurs(c, m.Word(Begin)) {
      OccursInLonger(c, more, m.Word(Begin));
      BeginAlreadyLine(m, c, more);
    }
    if AfterBegin(m, c).Some? {
      BodyKindsContinue(m, c, more);
      OrderIsPrefixClosed(BodyKinds(m, c), BodyKinds(m, c + more));
    }
    assert forall x | x in c :: x in c + more;
  }

  lemma OccursInLonger(c: string, more: string, word: string)
    requires Occurs(c, word)
    ensures Occurs(c + more, word)
  {
    hide OccursAt;
    var p: nat :| OccursAt(c, word, p);
    OccurrenceFits(c, word, p);
    OccursInPrefix(c, more, word, p);
  }

  lemma OrderIsPrefixClosed(short: seq<Kind>, long: seq<Kind>)
    requires short <= long && InRuntimeOrder(long)
    ensures InRuntimeOrder(short)
  {
  }

  // ----- Where BEGIN starts -----

  /** Trimming a suffix that still holds the BEGIN line gives what trimming the whole gives. */
  lemma SuffixTrimsAlike(m: Marker, full: string, i: nat)
    requires AtMostOnce(full, m.Word(Begin)) && Occurs(full, m.Word(Begin)) && i <= TrimPoint(m, full)
    ensures full[i..][TrimPoint(m, full[i..])..] == full[TrimPoint(m, full)..]
    ensures Scan(m, full[i..]) == Scan(m, full)
  {
    hide OccursAt, LineStart, Scan;
    var w := m.Word(Begin);
    var p := Find(full, w, 0).value;
    OccurrenceFits(full, w, p);
    OccursShift(full, i, w, p - i);
    var q := Find(full[i..], w, 0).value;
    OccursShift(full, i, w, q);
    assert q == p - i;
    LineStartShift(full, i, p);
    TrimKeepsExtraction(m, full);
    TrimKeepsExtraction(m, full[i..]);
  }

  /** If the only BEGIN word stands on a BEGIN line, trimming leaves that line in front. */
  lemma TrimmedStartsWithBegin(m: Marker, full: string)
    requires AtMostOnce(full, m.Word(Begin)) && AfterBegin(m, full).Some?
    ensures Occurs(full, m.Word(Begin))
    ensures StartsWithBegin(m, full[TrimPoint(m, full)..])
  {
    hide OccursAt, LineEnd, Trim, LineStart, AfterBegin, StartsWithBegin;
    var w := m.Word(Begin);
    var p := BeginFound(m, full);
    FindMeansOccurs(full, w);
    var cut := TrimPoint(m, full);
    var c := full[cut..];
    SkipLines(m, full, cut);
    if !StartsWithBegin(m, c) {
      var q := BeginBelowFirstLine(m, c);
      OccursShift(full, cut, w, q);
      OccurrenceFits(full, w, p);
      FirstLineEndsBefore(full, p, q);
    }
  }

  /** A BEGIN line that is not the first line holds a BEGIN word below it. */
  lemma BeginBelowFirstLine(m: Marker, c: string) returns (q: nat)
    requires AfterBegin(m, c).Some? && !StartsWithBegin(m, c)
    ensures OccursAt(c, m.Word(Begin), q) && LineEnd(c, 0) < q
  {
    hide OccursAt, LineEnd, Trim, AfterBegin;
    AfterBeginStep(m, c, 0);
    assert c[0..] == c && c[0..LineEnd(c, 0)] == c[..LineEnd(c, 0)];
    var next := NextLine(c, 0);
    q := BeginFound(m, c[next..]);
    OccursShift(c, next, m.Word(Begin), q);
    q := next + q;
  }

  /** A line start is on the line it starts. */
  lemma FirstLineEndsBefore(text: string, p: nat, d: nat)
    requires p <= |text| && d == p - LineStart(text, p)
    ensures d <= LineEnd(text[LineStart(text, p)..], 0)
  {
    hide LineStart, LineEnd;
    var c := text[LineStart(text, p)..];
    assert forall i | 0 <= i < d :: c[i] == text[LineStart(text, p)..p][i];
  }

  /** BEGIN arriving after whole lines without it starts after them, and so does its line. */
  lemma NewBeginIsInNews(m: Marker, c: string, more: string)
    requires m.Plain() && EndsLine(c) && !Occurs(c, m.Word(Begin)) && Occurs(c + more, m.Word(Begin))
    ensures |c| <= TrimPoint(m, c + more)
  {
    hide OccursAt, LineStart;
    var w, full := m.Word(Begin), c + more;
    FindMeansOccurs(full, w);
    var p := Find(full, w, 0).value;
    if p < |c| {
      NotOccurring(c, w, p);
      NoWordAcrossNewline(c, more, w, p);
    }
    OccurrenceFits(full, w, p);
    LineStartAfter(full, p, |c|);
  }

  lemma {:induction false} LineStartAfter(text: string, p: nat, n: nat)
    requires n <= p <= |text| && (n == 0 || text[n - 1] == '\n')
    ensures n <= LineStart(text, p)
    decreases p
  {
    if n < p && text[p - 1] != '\n' {
      LineStartAfter(text, p - 1, n);
    }
  }

  // ----- The invariant of a run -----

  /** The kinds from the first ERROR on. */
  function FromError(kinds: seq<Kind>): (rest: seq<Kind>)
    ensures |rest| <= |kinds| && rest == kinds[|kinds| - |rest|..]
    ensures rest != [] ==> rest[0] == Error
    ensures Error in kinds ==> rest != []
  {
    if kinds == [] || kinds[0] == Error then kinds else FromError(kinds[1..])
  }

  /** Compaction may forget what came before an error. */
  predicate SameTokens(history: seq<Kind>, kept: seq<Kind>) {
    kept == history || (Error in history && kept == FromError(history))
  }

  predicate SameOutcome(a: Extracted, b: Extracted) {
    a.foundBegin == b.foundBegin && a.foundEnd == b.foundEnd && a.juliaError == b.juliaError
  }

  /** A re-printable stand-in for a history that has begun. */
  ghost predicate StandsFor(m: Marker, full: string, accumulator: string) {
    && AfterBegin(m, full).Some? && AfterBegin(m, accumulator).Some?
    && StartsWithBegin(m, accumulator) && WellMarked(m, accumulator)
    && Judge(Scan(m, accumulator)) == Judge(Scan(m, full))
    && SameTokens(BodyKinds(m, full), BodyKinds(m, accumulator))
  }

  /** How the state of the loop relates to everything the pane has printed so far. */
  ghost predicate Tracks(m: Marker, full: string, s: Screen) {
    && EndsLine(s.accumulator) && '\r' !in s.accumulator
    && EndsWith(full, s.lastCapture)
    && s.beginTrimmed == AfterBegin(m, full).Some?
    && SameOutcome(s.lastExtract, Extract(m, full))
    && (if AfterBegin(m, full).None? then EndsWith(full, s.accumulator) else StandsFor(m, full, s.accumulator))
  }

  lemma OutcomeFromVerdict(m: Marker, a: string, b: string)
    requires Judge(Scan(m, a)) == Judge(Scan(m, b))
    ensures SameOutcome(Extract(m, a), Extract(m, b))
  {
    hide Scan;
  }

  lemma {:induction false} FromErrorGrows(kinds: seq<Kind>, more: seq<Kind>)
    requires Error in kinds
    ensures FromError(kinds + more) == FromError(kinds) + more
  {
    if kinds[0] != Error {
      assert (kinds + more)[1..] == kinds[1..] + more;
      FromErrorGrows(kinds[1..], more);
    }
  }

  lemma FromErrorInOrder(kinds: seq<Kind>)
    requires InRuntimeOrder(kinds)
    ensures InRuntimeOrder(FromError(kinds)) && FromError(FromError(kinds)) == FromError(kinds)
  {
    var rest := FromError(kinds);
    var skipped := |kinds| - |rest|;
    forall i | 0 <= i < |rest| ensures MayFollow(KindBefore(rest, i), rest[i]) {
      assert rest[i] == kinds[skipped + i];
      assert i > 0 ==> rest[i - 1] == kinds[skipped + i - 1];
      assert MayFollow(KindBefore(kinds, skipped + i), kinds[skipped + i]);
    }
  }

  lemma SameOrder(history: seq<Kind>, kept: seq<Kind>, more: seq<Kind>)
    requires SameTokens(history, kept)
    ensures SameTokens(history + more, kept + more)
    ensures InRuntimeOrder(history) ==> InRuntimeOrder(kept)
  {
    if kept != history {
      FromErrorGrows(history, more);
    }
    if InRuntimeOrder(history) {
      FromErrorInOrder(history);
    }
  }

  /** New output extends the history and its stand-in alike. */
  lemma StandInGrows(m: Marker, full: string, accumulator: string, news: string)
    requires m.Apart() && m.Plain() && EndsLine(full) && EndsLine(accumulator)
    requires StandsFor(m, full, accumulator) && WellMarked(m, news)
    ensures StandsFor(m, full + news, accumulator + news)
  {
    hide AfterBegin, Scan, Lex, Kinds, EndsLine, WellMarked, Judge, JudgePieces, BodyKinds, SameTokens, StartsWithBegin;
    VerdictContinues(m, full, news);
    VerdictContinues(m, accumulator, news);
    BodyKindsContinue(m, full, news);
    BodyKindsContinue(m, accumulator, news);
    OutcomeFromVerdict(m, full, accumulator);
    SameOrder(BodyKinds(m, full), BodyKinds(m, accumulator), Kinds(Lex(m, news)));
    LinesAreWellMarked(m, accumulator, news);
    StartStays(m, accumulator, news);
  }

  lemma StartStays(m: Marker, c: string, more: string)
    requires StartsWithBegin(m, c) && EndsLine(c)
    ensures StartsWithBegin(m, c + more)
  {
    hide Trim, LineEnd;
    if c == "" {
      TrimOfTrimmed("");
    } else {
      LineIsTerminated(c, 0);
      LineEndFrozen(c, more, 0);
      assert (c + more)[..LineEnd(c, 0)] == c[..LineEnd(c, 0)];
    }
  }

  /** Trimming at the BEGIN line turns the history into its own first stand-in. */
  lemma TrimmedStandsFor(m: Marker, full: string)
    requires RuntimeHistory(m, full) && AfterBegin(m, full).Some?
    ensures var kept := full[TrimPoint(m, full)..];
      && StandsFor(m, full, kept) && Scan(m, kept) == Scan(m, full)
      && EndsLine(kept) && '\r' !in kept
  {
    hide AfterBegin, Scan, WellMarked, AtMostOnce, Kinds, Lex, EndsLine, StartsWithBegin, TrimPoint, InRuntimeOrder;
    var cut := TrimPoint(m, full);
    TrimKeepsExtraction(m, full);
    TrimmedStartsWithBegin(m, full);
    SkipLines(m, full, cut);
    SuffixIsWellMarked(m, full, cut);
    SuffixEndsLine(full, full[cut..]);
  }

  // ----- Compaction keeps the stand-in -----

  lemma {:induction false} PrintIsWellMarked(m: Marker, pieces: Pieces)
    requires m.Apart() && m.Plain() && LinePieces(m, pieces)
    ensures WellMarked(m, Print(m, pieces))
    decreases pieces
  {
    hide WellMarked, EndsLine, CleanText;
    TokenFreeIsWellMarked(m, pieces.segment);
    if pieces.Piece? {
      var word, rest := m.Word(pieces.kind) + "\n", Print(m, pieces.next);
      if pieces.kind == End {
        EmptyIsClean(m);
        TokenFreeIsWellMarked(m, "");
      } else {
        PrintIsWellMarked(m, pieces.next);
      }
      WordLineIsWellMarked(m, pieces.kind);
      EndsLineMeans(word);
      LinesAreWellMarked(m, word, rest);
      LinesAreWellMarked(m, pieces.segment, word + rest);
      assert word + rest == m.Word(pieces.kind) + ("\n" + rest);
    }
  }

  lemma TokenFreeIsWellMarked(m: Marker, text: string)
    requires CleanText(m, text)
    ensures WellMarked(m, text)
  {
  }

  lemma WordLineIsWellMarked(m: Marker, kind: Kind)
    requires m.Apart() && m.Plain()
    ensures WellMarked(m, m.Word(kind) + "\n")
  {
    hide OccursAt;
    var w := m.Word(kind);
    forall p: nat, other | TokenAt(m, w + "\n", p, other)
      ensures p + |m.Word(other)| < |w + "\n"| && (w + "\n")[p + |m.Word(other)|] == '\n'
    {
      OccurrenceFits(w + "\n", m.Word(other), p);
      if p + |m.Word(other)| <= |w| {
        OccursInPrefix(w, "\n", m.Word(other), p);
        assert OccursAt(m.Word(kind), m.Word(other), p);
      } else {
        WordHasNoLineBreak(w + "\n", m.Word(other), p, |w|);
      }
    }
  }

  lemma {:induction false} PrintHasNoCr(m: Marker, pieces: Pieces)
    requires m.Plain() && LinePieces(m, pieces)
    ensures '\r' !in Print(m, pieces)
    decreases pieces
  {
    hide EndsLine, TokenFree;
    if pieces.Piece? {
      assert '\r' !in m.Word(pieces.kind);
      if pieces.kind == End {
        PrintLast(m, "");
      } else {
        PrintHasNoCr(m, pieces.next);
      }
    }
  }

  /** Re-printing in runtime order keeps the tokens, except what came before an error. */
  lemma CompactKinds(e: Extracted, kinds: seq<Kind>)
    requires InRuntimeOrder(kinds) && End !in kinds
    ensures Kinds(CompactPieces(e, KindsSeen(kinds))) == if Error in kinds then FromError(kinds) else kinds
  {
    hide TextBlock, TraceBlock, FromError, InRuntimeOrder;
    var pieces := CompactPieces(e, KindsSeen(kinds));
    if pieces.Piece? {
      assert Kinds(pieces) == [pieces.kind] + Kinds(pieces.next);
      if pieces.next.Piece? {
        assert Kinds(pieces.next) == [pieces.next.kind] + Kinds(pieces.next.next);
      }
    }
    if Error in kinds {
      FromErrorIsShort(kinds);
    } else {
      BeforeErrorIsShort(kinds);
    }
  }

  lemma FromErrorIsShort(kinds: seq<Kind>)
    requires InRuntimeOrder(kinds) && End !in kinds && Error in kinds
    ensures FromError(kinds) == if Backtrace in kinds then [Error, Backtrace] else [Error]
  {
    hide FromError, InRuntimeOrder;
    FromErrorInOrder(kinds);
    var rest := FromError(kinds);
    FromErrorIsPart(kinds);
    AfterErrorOnlyBacktrace(rest);
    if rest == [Error] {
      BacktraceAfterError(kinds);
    }
  }

  lemma {:induction false} FromErrorIsPart(kinds: seq<Kind>)
    ensures forall kind | kind in FromError(kinds) :: kind in kinds
  {
    if kinds != [] && kinds[0] != Error {
      FromErrorIsPart(kinds[1..]);
    }
  }

  lemma AfterErrorOnlyBacktrace(kinds: seq<Kind>)
    requires InRuntimeOrder(kinds) && End !in kinds && kinds != [] && kinds[0] == Error
    ensures kinds == [Error] || kinds == [Error, Backtrace]
  {
    forall i | 0 <= i < |kinds| ensures i <= 1 && kinds[i] == if i == 0 then Error else Backtrace {
      assert kinds[i] in kinds && MayFollow(KindBefore(kinds, i), kinds[i]);
      if i > 0 {
        RanksIncrease(kinds, 0, i);
      }
    }
    assert kinds[|kinds| - 1] in kinds;
  }

  lemma BacktraceAfterError(kinds: seq<Kind>)
    requires InRuntimeOrder(kinds) && FromError(kinds) == [Error]
    ensures Backtrace !in kinds
  {
    hide FromError;
    var last := |kinds| - 1;
    assert kinds[last] == Error;
    forall i | 0 <= i < last ensures kinds[i] != Backtrace {
      RanksIncrease(kinds, i, last);
    }
  }

  lemma BeforeErrorIsShort(kinds: seq<Kind>)
    requires InRuntimeOrder(kinds) && End !in kinds && Error !in kinds
    ensures kinds == if ValEnd in kinds then [OutEnd, ValEnd] else if OutEnd in kinds then [OutEnd] else []
    ensures Backtrace !in kinds
  {
    forall i | 0 <= i < |kinds| ensures i <= 1 && kinds[i] == if i == 0 then OutEnd else ValEnd {
      assert kinds[i] in kinds && MayFollow(KindBefore(kinds, i), kinds[i]);
      if i > 0 {
        RanksIncrease(kinds, 0, i);
      }
      if i > 1 {
        RanksIncrease(kinds, 1, i);
      }
    }
    assert kinds != [] ==> kinds[|kinds| - 1] in kinds;
    assert kinds != [] ==> kinds[0] == OutEnd && kinds[0] in kinds;
  }

  lemma SameTokensCompacted(history: seq<Kind>, kept: seq<Kind>, e: Extracted)
    requires InRuntimeOrder(history) && SameTokens(history, kept) && End !in kept
    ensures SameTokens(history, Kinds(CompactPieces(e, KindsSeen(kept))))
  {
    hide CompactPieces, KindsSeen, Kinds, FromError, InRuntimeOrder;
    SameOrder(history, kept, []);
    CompactKinds(e, kept);
    FromErrorInOrder(history);
    ErrorStaysIn(history);
  }

  lemma ErrorStaysIn(kinds: seq<Kind>)
    ensures Error in FromError(kinds) <==> Error in kinds
  {
    var rest := FromError(kinds);
    if Error in kinds {
      assert rest[0] in rest;
    }
  }

  lemma EndAmongKinds(pieces: Pieces)
    ensures Ends(pieces) <==> End in Kinds(pieces)
  {
  }

  lemma CompactStartsWithBegin(m: Marker, e: Extracted, seen: Seen)
    requires m.Plain()
    ensures StartsWithBegin(m, Compact(m, e, seen))
  {
    hide Print, CompactPieces, Trim, LineEnd;
    FirstLineIs(m.Word(Begin), Print(m, CompactPieces(e, seen)));
    TrimOfTrimmed(m.Word(Begin));
  }

  lemma CompactIsWellMarked(m: Marker, e: Extracted, seen: Seen)
    requires m.Apart() && m.Plain() && CleanSlices(m, e)
    ensures WellMarked(m, Compact(m, e, seen)) && '\r' !in Compact(m, e, seen)
  {
    hide Print, CompactPieces, WellMarked, EndsLine, LinePieces, CleanSlices, Words.Apart;
    var pieces := CompactPieces(e, seen);
    CompactPiecesAreLines(m, e, seen);
    PrintIsWellMarked(m, pieces);
    PrintHasNoCr(m, pieces);
    var first := m.Word(Begin) + "\n";
    WordLineIsWellMarked(m, Begin);
    EndsLineMeans(first);
    LinesAreWellMarked(m, first, Print(m, pieces));
    assert '\r' !in m.Word(Begin);
    CompactIsLines(m, e, seen);
  }

  lemma CompactIsLines(m: Marker, e: Extracted, seen: Seen)
    ensures Compact(m, e, seen) == (m.Word(Begin) + "\n") + Print(m, CompactPieces(e, seen))
  {
    hide Print, CompactPieces;
  }

  /** What compaction prints is well-marked text without carriage returns and shows its own kinds. */
  lemma CompactIsMarked(m: Marker, e: Extracted, seen: Seen)
    requires m.Apart() && m.Plain() && CleanSlices(m, e)
    ensures WellMarked(m, Compact(m, e, seen)) && '\r' !in Compact(m, e, seen)
    ensures AfterBegin(m, Compact(m, e, seen)).Some?
    ensures BodyKinds(m, Compact(m, e, seen)) == Kinds(CompactPieces(e, seen))
  {
    hide Print, CompactPieces, WellMarked, AfterBegin, Lex, Kinds, LinePieces, CleanSlices, Words.Apart, Words.Plain;
    CompactIsWellMarked(m, e, seen);
    CompactPiecesAreLines(m, e, seen);
    LinePiecesParse(m, CompactPieces(e, seen));
    BeginLineFirst(m, Print(m, CompactPieces(e, seen)));
  }

  lemma CompactStandsFor(m: Marker, full: string, accumulator: string, e: Extracted)
    requires m.Apart() && m.Plain() && EndsLine(accumulator)
    requires RuntimeHistory(m, full) && StandsFor(m, full, accumulator) && !Extract(m, full).foundEnd
    requires CleanSlices(m, e)
    ensures var compact := Compact(m, e, Sighted(m, accumulator));
      StandsFor(m, full, compact) && EndsLine(compact) && '\r' !in compact
  {
    hide AfterBegin, Scan, WellMarked, AtMostOnce, Kinds, Lex, EndsLine, StartsWithBegin, InRuntimeOrder,
         Compact, CompactPieces, CleanSlices, SameTokens, JudgePieces, Judge, Sighted, KindsSeen, SeenPhase;
    var seen := Sighted(m, accumulator);
    var history, kept := BodyKinds(m, full), BodyKinds(m, accumulator);
    OutcomeFromVerdict(m, full, accumulator);
    SameOrder(history, kept, []);
    SightedIsParsed(m, accumulator);
    RuntimeOrderAgrees(m, accumulator);
    CompactVerdict(m, e, seen);
    CompactParses(m, e, seen);
    CompactIsMarked(m, e, seen);
    CompactStartsWithBegin(m, e, seen);
    NotEndedMeansNoEnd(m, accumulator);
    SameTokensCompacted(history, kept, e);
  }

  lemma NotEndedMeansNoEnd(m: Marker, c: string)
    requires AfterBegin(m, c).Some?
    ensures Extract(m, c).foundEnd <==> End in BodyKinds(m, c)
  {
    hide AfterBegin, Lex, Interpret;
    var pieces := Lex(m, AfterBegin(m, c).value);
    FoundEndMeansEnds(pieces, BEGUN);
    EndAmongKinds(pieces);
  }

  // ----- One poll keeps the invariant -----

  /** What one poll has read is clean and says what the whole history says. */
  ghost predicate ReadsRight(m: Marker, full: string, e: Extracted) {
    CleanSlices(m, e) && SameOutcome(e, Extract(m, full))
  }

  /** Before BEGIN has been printed, nothing is found and nothing is trimmed. */
  lemma NothingYet(m: Marker, full: string, s: Screen, cap: string)
    requires m.Plain() && RuntimeHistory(m, full) && AfterBegin(m, full).None? && !s.beginTrimmed
    requires EndsWith(full, cap) && EndsWith(full, Spliced(s.accumulator, s.lastCapture, cap))
    ensures Located(m, s, cap) == Screen(Spliced(s.accumulator, s.lastCapture, cap), cap, NOTHING, false)
    ensures ReadsRight(m, full, NOTHING)
  {
    hide Spliced, AfterBegin, WellMarked, AtMostOnce, EndsLine, TrimPoint;
    var spliced := Spliced(s.accumulator, s.lastCapture, cap);
    NoBeginInSuffix(m, full, cap);
    NoBeginInSuffix(m, full, spliced);
    NothingIsClean(m);
  }

  lemma NothingIsClean(m: Marker)
    ensures CleanSlices(m, NOTHING)
  {
    EmptyIsClean(m);
  }

  lemma NoBeginInSuffix(m: Marker, full: string, part: string)
    requires EndsWith(full, part) && !Occurs(full, m.Word(Begin))
    ensures AfterBegin(m, part).None?
  {
    hide OccursAt, AfterBegin;
    if AfterBegin(m, part).Some? {
      var p := BeginFound(m, part);
      OccursShift(full, |full| - |part|, m.Word(Begin), p);
    }
  }

  /** Any suffix that holds all the news holds the BEGIN line that has arrived with it. */
  lemma SuffixHoldsNewBegin(m: Marker, before: string, news: string, part: string)
    requires m.Plain() && EndsLine(before) && AfterBegin(m, before).None?
    requires RuntimeHistory(m, before) && RuntimeHistory(m, before + news) && AfterBegin(m, before + news).Some?
    requires |news| <= |part| && EndsWith(before + news, part)
    ensures var full := before + news;
      part[TrimPoint(m, part)..] == full[TrimPoint(m, full)..] && Scan(m, part) == Scan(m, full)
  {
    hide AfterBegin, WellMarked, AtMostOnce, EndsLine, TrimPoint, OccursAt, Scan;
    TrimmedStartsWithBegin(m, before + news);
    NewBeginIsInNews(m, before, news);
    SuffixTrimsAlike(m, before + news, |before + news| - |part|);
  }

  /** The poll that first meets BEGIN reads the history and cuts the accumulator at the BEGIN line. */
  lemma BeginArrives(m: Marker, before: string, news: string, s: Screen, cap: string)
    requires m.Plain() && EndsLine(before) && AfterBegin(m, before).None? && !s.beginTrimmed
    requires RuntimeHistory(m, before) && RuntimeHistory(m, before + news) && AfterBegin(m, before + news).Some?
    requires |news| <= |cap| && EndsWith(before + news, cap)
    requires |news| <= |Spliced(s.accumulator, s.lastCapture, cap)|
    requires EndsWith(before + news, Spliced(s.accumulator, s.lastCapture, cap))
    ensures var full := before + news;
      && Located(m, s, cap) == Screen(full[TrimPoint(m, full)..], cap, Extract(m, full), true)
      && ReadsRight(m, full, Extract(m, full))
  {
    hide Spliced, AfterBegin, WellMarked, AtMostOnce, EndsLine, TrimPoint, Scan, CleanSlices, InRuntimeOrder;
    var full := before + news;
    SuffixHoldsNewBegin(m, before, news, cap);
    SuffixHoldsNewBegin(m, before, news, Spliced(s.accumulator, s.lastCapture, cap));
    FoundBeginMeans(m, full);
    ExtractedSlicesAreClean(m, full);
  }

  /** Once BEGIN has been met, live capture and stand-in both tell what the history tells. */
  lemma StillReadsRight(m: Marker, full: string, accumulator: string, cap: string)
    requires m.Plain() && RuntimeHistory(m, full) && EndsWith(full, cap)
    requires StandsFor(m, full, accumulator) && '\r' !in accumulator
    ensures ReadsRight(m, full, Read(m, accumulator, cap))
  {
    hide AfterBegin, WellMarked, AtMostOnce, EndsLine, Lex, Interpret, Scan, Kinds, StartsWithBegin, SameTokens, Judge;
    ExtractedSlicesAreClean(m, full);
    ExtractedSlicesAreClean(m, accumulator);
    OutcomeFromVerdict(m, full, accumulator);
    FoundBeginMeans(m, cap);
    if AfterBegin(m, cap).Some? {
      assert full[0..] == full;
      CutsAgree(m, full, |full| - |cap|, 0);
    }
  }

  lemma FoundBeginMeans(m: Marker, c: string)
    ensures Extract(m, c).foundBegin <==> AfterBegin(m, c).Some?
  {
    hide Scan, AfterBegin;
    BegunMeans(m, c);
  }

  /** Bringing an oversized accumulator below the limit keeps the invariant. */
  lemma SettleTracks(m: Marker, full: string, s: Screen)
    requires m.Apart() && m.Plain() && RuntimeHistory(m, full) && Tracks(m, full, s) && CleanSlices(m, s.lastExtract)
    ensures Tracks(m, full, Settle(m, s))
  {
    hide AfterBegin, WellMarked, AtMostOnce, EndsLine, Scan, Kinds, Lex, StartsWithBegin, SameTokens, Judge,
         Compact, Sighted, CleanSlices, InRuntimeOrder, DropPoint;
    FoundBeginMeans(m, full);
    if !s.lastExtract.foundEnd && |s.accumulator| > MAX_ACCUMULATOR_BYTES {
      if s.lastExtract.foundBegin {
        CompactStandsFor(m, full, s.accumulator, s.lastExtract);
        OutcomeFromVerdict(m, full, Compact(m, s.lastExtract, Sighted(m, s.accumulator)));
      } else {
        var kept := s.accumulator[DropPoint(s.accumulator)..];
        EndsWithCut(full, s.accumulator, DropPoint(s.accumulator));
        SuffixEndsLine(s.accumulator, kept);
      }
    }
  }

  lemma LocatedTracks(m: Marker, before: string, s: Screen, cap: string)
    requires m.Apart() && m.Plain() && EndsLine(cap)
    requires RuntimeHistory(m, before) && RuntimeHistory(m, before + News(s.lastCapture, cap))
    requires Tracks(m, before, s)
    ensures Tracks(m, before + News(s.lastCapture, cap), Located(m, s, cap))
    ensures CleanSlices(m, Located(m, s, cap).lastExtract)
  {
    hide AfterBegin, WellMarked, AtMostOnce, EndsLine, Scan, Kinds, Lex, StartsWithBegin, SameTokens, Judge,
         CleanSlices, InRuntimeOrder, News;
    var news := News(s.lastCapture, cap);
    var full, spliced := before + news, Spliced(s.accumulator, s.lastCapture, cap);
    SpliceEndsWith(before, s.lastCapture, cap);
    NewsIsSuffix(s.lastCapture, cap);
    SuffixEndsLine(cap, news);
    SuffixHasNoCr(full, cap);
    SplicedEndsLine(s.accumulator, s.lastCapture, cap);
    if AfterBegin(m, before).None? {
      SplicedIsSuffix(before, s.accumulator, s.lastCapture, cap);
      SuffixHasNoCr(full, spliced);
      SplicedHasNews(s.accumulator, s.lastCapture, cap);
      if AfterBegin(m, full).None? {
        NothingYet(m, full, s, cap);
      } else {
        BeginArrives(m, before, news, s, cap);
        TrimmedStandsFor(m, full);
      }
    } else {
      BodyKindsContinue(m, before, news);
      StartIsNotEmpty(m, s.accumulator);
      NewsWellMarked(m, before, news);
      StandInGrows(m, before, s.accumulator, news);
      SplicedIsAppended(s.accumulator, s.lastCapture, cap);
      SuffixHasNoCr(full, news);
      StillReadsRight(m, full, spliced, cap);
    }
  }

  lemma NewsIsSuffix(prior: string, current: string)
    ensures EndsWith(current, News(prior, current)) && |News(prior, current)| <= |current|
  {
  }

  lemma SuffixHasNoCr(text: string, suffix: string)
    requires '\r' !in text && EndsWith(text, suffix)
    ensures '\r' !in suffix
  {
  }

  lemma SplicedEndsLine(accumulator: string, last: string, cap: string)
    requires EndsLine(accumulator) && EndsLine(cap)
    ensures EndsLine(Spliced(accumulator, last, cap))
  {
    hide News, EndsLine, EndsWith;
    NewsIsSuffix(last, cap);
    SuffixEndsLine(cap, News(last, cap));
    LinesJoin(accumulator, News(last, cap));
  }

  lemma SplicedHasNews(accumulator: string, last: string, cap: string)
    ensures |News(last, cap)| <= |Spliced(accumulator, last, cap)|
  {
    hide News;
    NewsIsSuffix(last, cap);
    NoNewsInTheSame(cap);
  }

  lemma SplicedIsAppended(accumulator: string, last: string, cap: string)
    requires accumulator != ""
    ensures Spliced(accumulator, last, cap) == accumulator + News(last, cap)
  {
    hide News;
    NoNewsInTheSame(cap);
    assert accumulator + "" == accumulator;
  }

  lemma StartIsNotEmpty(m: Marker, accumulator: string)
    requires StartsWithBegin(m, accumulator)
    ensures accumulator != ""
  {
    TrimOfTrimmed("");
  }

  lemma NewsWellMarked(m: Marker, before: string, news: string)
    requires WellMarked(m, before + news)
    ensures WellMarked(m, news)
  {
    hide WellMarked;
    SuffixIsWellMarked(m, before + news, |before|);
    assert (before + news)[|before|..] == news;
  }

  // ----- Whole runs -----

  lemma StartTracks(m: Marker)
    ensures Tracks(m, "", FRESH)
  {
    hide AfterBegin;
    NothingBegins(m);
  }

  lemma {:induction false} RunTracks(m: Marker, captures: seq<string>)
    requires m.Apart() && m.Plain() && forall cap | cap in captures :: EndsLine(cap)
    requires RuntimeHistory(m, History(captures))
    ensures Tracks(m, History(captures), ScreenAfter(m, captures))
    decreases |captures|
  {
    hide RuntimeHistory, Tracks, Located, Settle, EndsLine, News, CleanSlices;
    if captures == [] {
      StartTracks(m);
    } else {
      var n := |captures| - 1;
      var earlier, cap := captures[..n], captures[n];
      HistoryEndsLine(earlier);
      HistoryPrefix(m, History(earlier), News(LastOf(earlier), cap));
      RunTracks(m, earlier);
      LastCaptureIsLast(m, earlier);
      LocatedTracks(m, History(earlier), ScreenAfter(m, earlier), cap);
      SettleTracks(m, History(captures), Located(m, ScreenAfter(m, earlier), cap));
    }
  }

  lemma {:induction false} HistoryEndsLine(captures: seq<string>)
    requires forall cap | cap in captures :: EndsLine(cap)
    ensures EndsLine(History(captures))
    decreases |captures|
  {
    hide News, EndsLine;
    if captures == [] {
      EndsLineMeans("");
    } else {
      var n := |captures| - 1;
      var news := News(LastOf(captures[..n]), captures[n]);
      HistoryEndsLine(captures[..n]);
      NewsIsSuffix(LastOf(captures[..n]), captures[n]);
      SuffixEndsLine(captures[n], news);
      LinesJoin(History(captures[..n]), news);
    }
  }

  lemma LinesJoin(a: string, b: string)
    requires EndsLine(a) && EndsLine(b)
    ensures EndsLine(a + b)
  {
  }

  /**
   * However often a run trims, drops or compacts, its last reading finds BEGIN, END and an error
   * exactly when the spliced history of everything the pane has shown does.
   */
  lemma RunVerdict(m: Marker, captures: seq<string>)
    requires m.Apart() && m.Plain() && forall cap | cap in captures :: EndsLine(cap)
    requires RuntimeHistory(m, History(captures))
    ensures SameOutcome(ScreenAfter(m, captures).lastExtract, Extract(m, History(captures)))
  {
    hide RuntimeHistory, ScreenAfter, EndsLine, History;
    RunTracks(m, captures);
  }
}
