/** What a pane shows in which one evaluation has been printed. */
module PrintedPane {
  import opened Text
  import opened Markers
  import opened Extraction
  import opened ExtractionLaws
  import opened CompactionLaws
  import opened VerdictRuns
  import opened Truncation
  import opened Runtime
  import opened Repetition

  // ----- A pane in which one evaluation has been printed -----

  /** No marker word at all, and no cut one of any kind at the end. */
  ghost predicate Spotless(m: Marker, segment: string) {
    && (forall kind :: !Occurs(segment, m.Word(kind)))
    && (forall kind, cut | 1 <= cut <= 2 :: !EndsInMarkerCutBy(m, segment, kind, cut))
  }

  ghost predicate AllSpotless(m: Marker, pieces: Pieces) {
    Spotless(m, pieces.segment) && (pieces.Piece? ==> AllSpotless(m, pieces.next))
  }

  function Pane(id: string, pre: string, run: Run, post: string): string {
    pre + (Emission(id, run) + post)
  }

  lemma SpotlessIsClean(m: Marker, segment: string)
    requires Spotless(m, segment)
    ensures CleanSegment(m, segment)
  {
    hide OccursAt, EndsInMarkerCutBy;
    forall p: nat, kind ensures !TokenAt(m, segment, p, kind) {
      NotOccurring(segment, m.Word(kind), p);
    }
  }

  lemma {:induction false} AllSpotlessIsClean(m: Marker, pieces: Pieces)
    requires AllSpotless(m, pieces)
    ensures Clean(m, pieces)
    decreases pieces
  {
    hide Spotless, CleanSegment;
    if pieces.Piece? {
      SpotlessIsClean(m, pieces.segment);
      AllSpotlessIsClean(m, pieces.next);
    }
  }

  /** Around a printed marker, spotless segments hide no marker word of any kind. */
  lemma NoWordBeforePrinted(id: string, segment: string, kind: Kind, more: string, p: nat, other: Kind)
    requires Numeric(id) && Spotless(MakeMarker(id), segment) && p < |segment|
    ensures !OccursAt(segment + (WordOf(id, kind) + more), WordOf(id, other), p)
  {
    hide OccursAt, WordOf, EndsInMarkerCutBy, MakeMarker;
    var m, w, v := MakeMarker(id), WordOf(id, kind), WordOf(id, other);
    var all := segment + (w + more);
    NotOccurring(segment, m.Word(other), p);
    if OccursAt(all, v, p) {
      if p + |v| <= |segment| {
        OccursInPrefix(segment, w + more, v, p);
      } else if p + |v| <= |segment| + |w| {
        StraddleIsCutMarker(id, id, segment, kind, more, p, other);
      } else {
        MadeMarkersAreApart(id);
        WordAtStart(w, more);
        OccursInSuffix(segment, w + more, w, 0);
        OccurrencesNeverNest(m, all, p, other, |segment|, kind);
      }
    }
  }

  /** The printed pieces, with unrelated lines after them, are well marked. */
  lemma {:induction false} PrintedIsWellMarked(id: string, pieces: Pieces, post: string)
    requires Numeric(id) && Complete(pieces) && Clean(MakeMarker(id), pieces) && Unrelated(MakeMarker(id), post)
    ensures WellMarked(MakeMarker(id), Print(MakeMarker(id), pieces) + post)
    decreases pieces
  {
    hide WellMarked, MakeMarker, Unrelated, CleanSegment, OccursAt, Print, EndsLine;
    var m, segment, kind := MakeMarker(id), pieces.segment, pieces.kind;
    var rest := Print(m, pieces.next) + post;
    NumericIsPlain(id);
    PrintedPiece(m, pieces, post);
    if kind == End {
      UnrelatedIsWellMarked(m, post);
    } else {
      PrintedIsWellMarked(id, pieces.next, post);
    }
    WordLinesAreWellMarked(m, kind, rest);
    GluedIsWellMarked(id, segment, kind, "\n" + rest);
  }

  lemma WordLinesAreWellMarked(m: Marker, kind: Kind, rest: string)
    requires m.Apart() && m.Plain() && WellMarked(m, rest)
    ensures WellMarked(m, m.Word(kind) + ("\n" + rest))
  {
    hide WellMarked, EndsLine;
    var line := m.Word(kind) + "\n";
    WordLineIsWellMarked(m, kind);
    EndsLineMeans(line);
    LinesAreWellMarked(m, line, rest);
    assert line + rest == m.Word(kind) + ("\n" + rest);
  }

  lemma NumericIsPlain(id: string)
    requires Numeric(id)
    ensures MakeMarker(id).Plain() && MakeMarker(id).Apart()
  {
    MadeMarkersArePlain(id);
    MadeMarkersAreApart(id);
  }

  lemma UnrelatedIsWellMarked(m: Marker, text: string)
    requires Unrelated(m, text)
    ensures WellMarked(m, text)
  {
    hide TokenAt;
    UnrelatedIsTokenFree(m, text);
  }

  lemma GluedIsWellMarked(id: string, segment: string, kind: Kind, more: string)
    requires Numeric(id) && kind != Begin && CleanSegment(MakeMarker(id), segment)
    requires WellMarked(MakeMarker(id), WordOf(id, kind) + more)
    ensures WellMarked(MakeMarker(id), segment + (WordOf(id, kind) + more))
  {
    hide OccursAt, WordOf, MakeMarker, CleanSegment;
    var m, tail := MakeMarker(id), WordOf(id, kind) + more;
    forall p: nat, other | TokenAt(m, segment + tail, p, other)
      ensures p + |m.Word(other)| < |segment + tail| && (segment + tail)[p + |m.Word(other)|] == '\n'
    {
      if p < |segment| {
        NoTokenBeforePrinted(id, segment, kind, more, p, other);
      } else {
        OccursInSuffix(segment, tail, m.Word(other), p - |segment|);
        assert TokenAt(m, tail, p - |segment|, other);
      }
    }
  }

  // ----- Every marker word is printed at most once -----

  /** Behind a spotless segment, a word is the one printed there, or stands in what is printed later. */
  lemma OccurrenceInPrinted(id: string, segment: string, kind: Kind, rest: string, other: Kind, p: nat)
    requires Numeric(id) && Spotless(MakeMarker(id), segment)
    requires OccursAt(segment + (WordOf(id, kind) + ("\n" + rest)), WordOf(id, other), p)
    ensures var before := |segment| + |WordOf(id, kind)| + 1;
      (p == |segment| && other == kind) || (p >= before && OccursAt(rest, WordOf(id, other), p - before))
  {
    hide MakeMarker, Spotless, OccursAt, WordOf;
    var tail := WordOf(id, kind) + ("\n" + rest);
    if p < |segment| {
      NoWordBeforePrinted(id, segment, kind, "\n" + rest, p, other);
    } else {
      OccursInSuffix(segment, tail, WordOf(id, other), p - |segment|);
      NumericIsPlain(id);
      OccurrenceInWordLine(MakeMarker(id), kind, rest, other, p - |segment|);
    }
  }

  lemma OccurrenceInWordLine(m: Marker, kind: Kind, rest: string, other: Kind, p: nat)
    requires m.Apart() && m.Plain() && OccursAt(m.Word(kind) + ("\n" + rest), m.Word(other), p)
    ensures var before := |m.Word(kind)| + 1;
      (p == 0 && other == kind) || (p >= before && OccursAt(rest, m.Word(other), p - before))
  {
    hide OccursAt;
    var word, w := m.Word(kind), m.Word(other);
    var line := word + "\n";
    assert line + rest == word + ("\n" + rest);
    EndsLineMeans(line);
    OccursInEither(line, rest, w, p);
    if p < |line| {
      OccurrenceFits(line, w, p);
      if p + |w| <= |word| {
        OccursInPrefix(word, "\n", w, p);
      } else {
        WordHasNoLineBreak(line, w, p, |word|);
      }
    }
  }

  /** One more printed piece keeps a word unique, unless it is printed again. */
  lemma PrintedOnceMore(id: string, segment: string, kind: Kind, rest: string, other: Kind)
    requires Numeric(id) && Spotless(MakeMarker(id), segment) && AtMostOnce(rest, WordOf(id, other))
    requires kind == other ==> !Occurs(rest, WordOf(id, other))
    ensures var all := segment + (WordOf(id, kind) + ("\n" + rest));
      && AtMostOnce(all, WordOf(id, other))
      && (kind != other && !Occurs(rest, WordOf(id, other)) ==> !Occurs(all, WordOf(id, other)))
  {
    hide MakeMarker, Spotless, OccursAt, WordOf;
    var w, before := WordOf(id, other), |segment| + |WordOf(id, kind)| + 1;
    var all := segment + (WordOf(id, kind) + ("\n" + rest));
    forall p: nat | OccursAt(all, w, p)
      ensures (p == |segment| && other == kind) || (p >= before && OccursAt(rest, w, p - before))
    {
      OccurrenceInPrinted(id, segment, kind, rest, other, p);
    }
  }

  predicate Distinct(kinds: seq<Kind>) {
    forall i, j | 0 <= i < j < |kinds| :: kinds[i] != kinds[j]
  }

  lemma {:induction false} PrintedOnce(id: string, pieces: Pieces, post: string, other: Kind)
    requires Numeric(id) && Complete(pieces) && AllSpotless(MakeMarker(id), pieces)
    requires Distinct(Kinds(pieces)) && !Occurs(post, WordOf(id, other))
    ensures AtMostOnce(Print(MakeMarker(id), pieces) + post, WordOf(id, other))
    ensures other !in Kinds(pieces) ==> !Occurs(Print(MakeMarker(id), pieces) + post, WordOf(id, other))
    decreases pieces
  {
    hide MakeMarker, Spotless, Occurs, AtMostOnce, Distinct, WordOf, Kinds, Print;
    var m, kind := MakeMarker(id), pieces.kind;
    var rest := Print(m, pieces.next) + post;
    KindsAhead(pieces);
    PrintedPiece(m, pieces, post);
    if kind == End {
      NotOccurringIsOnce(post, WordOf(id, other));
    } else {
      PrintedOnce(id, pieces.next, post, other);
    }
    PrintedOnceMore(id, pieces.segment, kind, rest, other);
  }

  lemma KindsAhead(pieces: Pieces)
    requires Complete(pieces) && Distinct(Kinds(pieces))
    ensures pieces.kind in Kinds(pieces)
    ensures pieces.kind != End ==>
      && Distinct(Kinds(pieces.next)) && pieces.kind !in Kinds(pieces.next)
      && forall other | other !in Kinds(pieces) :: other !in Kinds(pieces.next)
  {
    hide Distinct;
    if pieces.kind != End {
      assert Kinds(pieces) == [pieces.kind] + Kinds(pieces.next);
      TailIsDistinct(pieces.kind, Kinds(pieces.next));
    }
  }

  lemma NotOccurringIsOnce(text: string, word: string)
    requires !Occurs(text, word)
    ensures AtMostOnce(text, word)
  {
    hide OccursAt;
    forall p: nat ensures !OccursAt(text, word, p) {
      NotOccurring(text, word, p);
    }
  }

  lemma TailIsDistinct(kind: Kind, kinds: seq<Kind>)
    requires Distinct([kind] + kinds)
    ensures Distinct(kinds) && kind !in kinds
  {
    var all := [kind] + kinds;
    forall i, j | 0 <= i < j < |kinds| ensures kinds[i] != kinds[j] {
      assert all[i + 1] != all[j + 1];
    }
    forall i | 0 <= i < |kinds| ensures kinds[i] != kind {
      assert all[0] != all[i + 1];
    }
  }

  lemma OrderIsDistinct(kinds: seq<Kind>)
    requires InRuntimeOrder(kinds)
    ensures Distinct(kinds) && Begin !in kinds
  {
    forall i, j | 0 <= i < j < |kinds| ensures kinds[i] != kinds[j] {
      RanksIncrease(kinds, i, j);
    }
    assert forall i | 0 <= i < |kinds| :: MayFollow(KindBefore(kinds, i), kinds[i]);
  }

  lemma UnrelatedIsSpotless(id: string, text: string)
    requires Numeric(id) && Unrelated(MakeMarker(id), text)
    ensures Spotless(MakeMarker(id), text)
  {
    hide OccursAt, EndsInMarkerCutBy;
    var m := MakeMarker(id);
    NumericIsPlain(id);
    forall kind, cut | 1 <= cut <= 2 ensures !EndsInMarkerCutBy(m, text, kind, cut) {
      if EndsInMarkerCutBy(m, text, kind, cut) {
        CutMarkerEndsNoLine(m, text, kind, cut);
      }
    }
  }

  lemma CutMarkerEndsNoLine(m: Marker, text: string, kind: Kind, cut: nat)
    requires m.Plain() && 0 < cut < |m.Word(kind)| && EndsInMarkerCutBy(m, text, kind, cut)
    ensures !EndsLine(text)
  {
    var short := m.Word(kind)[..|m.Word(kind)| - cut];
    assert text[|text| - |short|..][|short| - 1] == text[|text| - 1];
    assert short[|short| - 1] in m.Word(kind);
  }

  /** In the pane of one evaluation every marker word stands at most once. */
  lemma PaneHasWordsOnce(id: string, pre: string, run: Run, post: string)
    requires Numeric(id) && AllSpotless(MakeMarker(id), run.Pieces())
    requires Unrelated(MakeMarker(id), pre) && Unrelated(MakeMarker(id), post)
    ensures WordsOnce(MakeMarker(id), Pane(id, pre, run, post))
  {
    hide MakeMarker, Print, OccursAt, Kinds, Run.Pieces, AllSpotless, WordOf, Spotless, Emission;
    var m, pieces := MakeMarker(id), run.Pieces();
    NumericIsPlain(id);
    RunPiecesComplete(run);
    RunKindsInOrder(run);
    OrderIsDistinct(Kinds(pieces));
    UnrelatedIsSpotless(id, pre);
    var rest := Print(m, pieces) + post;
    EmissionSplits(id, run, post);
    forall kind ensures AtMostOnce(Pane(id, pre, run, post), m.Word(kind)) {
      PrintedOnce(id, pieces, post, kind);
      PrintedOnceMore(id, pre, Begin, rest, kind);
    }
  }

  /** The pane of one evaluation is a history for which every run keeps its verdict. */
  lemma PaneIsHistory(id: string, pre: string, run: Run, post: string)
    requires Numeric(id) && run.CrFree() && AllSpotless(MakeMarker(id), run.Pieces())
    requires Unrelated(MakeMarker(id), pre) && Unrelated(MakeMarker(id), post)
    ensures RuntimeHistory(MakeMarker(id), Pane(id, pre, run, post))
  {
    hide MakeMarker, Print, WellMarked, OccursAt, EndsLine, AfterBegin, Lex, Kinds, Run.Pieces, Run.CrFree,
         AllSpotless, Clean, Emission;
    var m, pieces := MakeMarker(id), run.Pieces();
    NumericIsPlain(id);
    RunPiecesComplete(run);
    AllSpotlessIsClean(m, pieces);
    var rest := Print(m, pieces) + post;
    var line := m.Word(Begin) + "\n";
    var full := pre + (line + rest);
    EmissionSplits(id, run, post);
    assert Pane(id, pre, run, post) == full by { assert line + rest == m.Word(Begin) + ("\n" + rest); }
    PrintedIsWellMarked(id, pieces, post);
    WordLineIsWellMarked(m, Begin);
    EndsLineMeans(line);
    LinesAreWellMarked(m, line, rest);
    UnrelatedIsWellMarked(m, pre);
    LinesAreWellMarked(m, pre, line + rest);
    PaneHasWordsOnce(id, pre, run, post);
    assert line + rest == m.Word(Begin) + ("\n" + rest);
    assert AtMostOnce(full, m.Word(Begin));
    BeginLineFound(m, pre, rest);
    PrintParse(id, pieces, post);
    RunKindsInOrder(run);
    RunHasNoCr(m, run);
    PrintEndsLine(m, pieces);
    LinesJoin(Print(m, pieces), post);
    LinesJoin(line, rest);
    LinesJoin(pre, line + rest);
  }

  function ProgressKinds(progress: Progress): seq<Kind> {
    match progress
    case Evaluating => []
    case Showing(_) => [OutEnd]
    case AfterValue(_, _) => [OutEnd, ValEnd]
  }

  function ReportKinds(report: Report): seq<Kind> {
    if report.MessageThrew? then [Error, End] else [Error, Backtrace, End]
  }

  /** The seven sequences of markers that an evaluation can print. */
  lemma RunKinds(run: Run)
    ensures Kinds(run.Pieces()) ==
      if run.Completed? then [OutEnd, ValEnd, End] else ProgressKinds(run.progress) + ReportKinds(run.report)
  {
    hide ValueText;
    var pieces := run.Pieces();
    assert Kinds(pieces) == [pieces.kind] + Kinds(pieces.next);
    if run.Failed? {
      ReportHasKinds(run.report);
      if run.progress.AfterValue? {
        assert Kinds(pieces.next) == [ValEnd] + Kinds(pieces.next.next);
        assert Kinds(pieces.next.next) == [Error] + Kinds(ReportPieces(run.report));
      } else if run.progress.Showing? {
        assert Kinds(pieces.next) == [Error] + Kinds(ReportPieces(run.report));
      }
    }
  }

  lemma ReportHasKinds(report: Report)
    ensures [Error] + Kinds(ReportPieces(report)) == ReportKinds(report)
  {
  }

  lemma RunKindsInOrder(run: Run)
    ensures InRuntimeOrder(Kinds(run.Pieces()))
  {
    hide Run.Pieces, Kinds;
    RunKinds(run);
  }

  lemma {:induction false} PrintEndsLine(m: Marker, pieces: Pieces)
    requires Complete(pieces)
    ensures EndsLine(Print(m, pieces))
    decreases pieces
  {
    hide EndsLine;
    if pieces.kind == End {
      EndsLineMeans("");
    } else {
      PrintEndsLine(m, pieces.next);
    }
    ClosingLine(pieces.segment, m.Word(pieces.kind), Print(m, pieces.next));
  }

  lemma RunHasNoCr(m: Marker, run: Run)
    requires m.Plain() && run.CrFree()
    ensures '\r' !in Print(m, run.Pieces())
  {
    RunPiecesComplete(run);
    var pieces := run.Pieces();
    assert NoCarriageReturn(Last(""));
    assert run.Failed? ==> NoCarriageReturn(ReportPieces(run.report));
    assert NoCarriageReturn(pieces.next);
    PiecesHaveNoCr(m, pieces);
  }

  lemma {:induction false} PiecesHaveNoCr(m: Marker, pieces: Pieces)
    requires m.Plain() && NoCarriageReturn(pieces)
    ensures '\r' !in Print(m, pieces)
    decreases pieces
  {
    if pieces.Piece? {
      assert '\r' !in m.Word(pieces.kind);
      PiecesHaveNoCr(m, pieces.next);
    }
  }

  // ----- Where END stands -----

  /** The position behind the newline of END. */
  function EndOf(id: string, pre: string, run: Run): nat {
    |pre| + |Emission(id, run)|
  }

  lemma EmissionEndsInEnd(id: string, run: Run)
    ensures EndsWith(Emission(id, run), WordOf(id, End) + "\n")
  {
    hide MarkerLine, TryText, CatchText, RuntimeMarker, WordOf, EndsWith;
    SameWords(id);
    var begin, tried, end := MarkerLine("BEGIN", id), TryText(id, run), MarkerLine("END", id);
    var caught := if run.Failed? then CatchText(id, run.report) else "";
    Nested(begin, run.output, tried, caught, end);
    WholeIsSuffix(end);
    SuffixBehind(begin + run.output + tried + caught, end, end);
    assert end == WordOf(id, End) + "\n" by { LineOfMarker(id); }
  }

  lemma LineOfMarker(id: string)
    ensures MarkerLine("END", id) == RuntimeMarker(id, "END") + "\n"
  {
  }

  lemma EndStands(id: string, pre: string, run: Run, post: string)
    ensures var at := EndOf(id, pre, run) - 1 - |WordOf(id, End)|;
      && 0 <= at && OccursAt(Pane(id, pre, run, post), WordOf(id, End), at)
      && EndOf(id, pre, run) <= |Pane(id, pre, run, post)|
  {
    hide Emission;
    EmissionEndsInEnd(id, run);
    var shown := Emission(id, run);
    SuffixBehind(pre, shown, WordOf(id, End) + "\n");
    WordOfTail(pre + shown, post, WordOf(id, End));
    assert (pre + shown) + post == Pane(id, pre, run, post);
  }

  lemma WordOfTail(text: string, more: string, word: string)
    requires EndsWith(text, word + "\n")
    ensures OccursAt(text + more, word, |text| - 1 - |word|)
  {
    var at := |text| - 1 - |word|;
    assert text[at..] == word + "\n";
    assert (text + more)[at..at + |word|] == text[at..][..|word|] == word;
  }

  /** A parse that ends has met the END word. */
  lemma {:induction false} EndedMeansOccurs(m: Marker, text: string)
    requires Ends(Lex(m, text))
    ensures Occurs(text, m.Word(End))
    decreases |text|
  {
    hide OccursAt, FirstToken, SkipLineEnding;
    var token := FirstToken(m, text, 0).value;
    if token.kind == End {
      assert OccursAt(text, m.Word(End), token.pos);
    } else {
      var after := SkipLineEnding(text, token.pos + |m.Word(token.kind)|);
      EndedMeansOccurs(m, text[after..]);
      SuffixOccurs(text, after, m.Word(End));
    }
  }

  lemma SuffixOccurs(text: string, cut: nat, word: string)
    requires cut <= |text| && Occurs(text[cut..], word)
    ensures Occurs(text, word)
  {
    hide OccursAt;
    var p: nat :| OccursAt(text[cut..], word, p);
    OccursShift(text, cut, word, p);
  }

  /** Up to any line end before the one of END, nothing has ended. */
  lemma NotEndedBefore(id: string, pre: string, run: Run, post: string, to: nat)
    requires Numeric(id) && AllSpotless(MakeMarker(id), run.Pieces())
    requires Unrelated(MakeMarker(id), pre) && Unrelated(MakeMarker(id), post)
    requires to < EndOf(id, pre, run) && to <= |Pane(id, pre, run, post)|
    requires EndsLine(Pane(id, pre, run, post)[..to])
    ensures !Extract(MakeMarker(id), Pane(id, pre, run, post)[..to]).foundEnd
  {
    hide MakeMarker, AfterBegin, Lex, Interpret, Emission, AllSpotless, Run.Pieces, OccursAt, EndsLine, Pane, Unrelated;
    var m := MakeMarker(id);
    var stream := Pane(id, pre, run, post);
    var shown, word := stream[..to], m.Word(End);
    NumericIsPlain(id);
    if Extract(m, shown).foundEnd {
      var body := AfterBegin(m, shown).value;
      FoundEndMeansEnds(Lex(m, body), BEGUN);
      EndedMeansOccurs(m, body);
      SuffixOccurs(shown, |shown| - |body|, word);
      var p: nat :| OccursAt(shown, word, p);
      OccurrenceFits(shown, word, p);
      assert shown + stream[to..] == stream;
      OccursInPrefix(shown, stream[to..], word, p);
      PaneHasWordsOnce(id, pre, run, post);
      EndStands(id, pre, run, post);
      WordIsOnce(m, stream, End, p, EndOf(id, pre, run) - 1 - |word|);
      WordEndsNoLine(m, shown, End, p);
    }
  }

  lemma WordEndsNoLine(m: Marker, text: string, kind: Kind, p: nat)
    requires m.Plain() && OccursAt(text, m.Word(kind), p) && p + |m.Word(kind)| == |text|
    ensures !EndsLine(text)
  {
    var word := m.Word(kind);
    assert word != "";
    assert text[p..p + |word|][|word| - 1] == text[|text| - 1];
    assert word[|word| - 1] in word;
  }

  // ----- A plain case -----

  predicate UnderscoreFree(pieces: Pieces) {
    '_' !in pieces.segment && (pieces.Piece? ==> UnderscoreFree(pieces.next))
  }

  lemma WordLendsItsHead(text: string, word: string, p: nat)
    requires OccursAt(text, word, p) && word != ""
    ensures word[0] in text
  {
    OccurrenceFits(text, word, p);
    assert text[p..p + |word|][0] == text[p];
  }

  lemma TailLendsItsHead(text: string, tail: string)
    requires EndsWith(text, tail) && tail != ""
    ensures tail[0] in text
  {
    assert text[|text| - |tail|] == text[|text| - |tail|..][0];
  }

  lemma UnderscoreFreeIsSpotless(id: string, segment: string)
    requires Numeric(id) && '_' !in segment
    ensures Spotless(MakeMarker(id), segment)
  {
    var m := MakeMarker(id);
    NumericIsPlain(id);
    forall kind ensures !Occurs(segment, m.Word(kind)) {
      if p: nat :| OccursAt(segment, m.Word(kind), p) {
        WordLendsItsHead(segment, m.Word(kind), p);
      }
    }
    forall kind, cut | 1 <= cut <= 2 ensures !EndsInMarkerCutBy(m, segment, kind, cut) {
      var short := m.Word(kind)[..|m.Word(kind)| - cut];
      assert short[0] == '_';
      if EndsWith(segment, short) {
        TailLendsItsHead(segment, short);
      }
    }
  }

  /** Output without underscores meets what is asked of an evaluation's segments. */
  lemma {:induction false} UnderscoreFreeIsAllSpotless(id: string, pieces: Pieces)
    requires Numeric(id) && UnderscoreFree(pieces)
    ensures AllSpotless(MakeMarker(id), pieces)
    decreases pieces
  {
    hide Spotless, MakeMarker;
    UnderscoreFreeIsSpotless(id, pieces.segment);
    if pieces.Piece? {
      UnderscoreFreeIsAllSpotless(id, pieces.next);
    }
  }
}
