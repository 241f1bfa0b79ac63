/** The order in which the Julia runtime prints markers, and the round trip through the parser. */
module Runtime {
  import opened Text
  import opened Markers
  import opened Extraction
  import opened ExtractionLaws
  import opened Joining

  /** Text whose parse is meant to be the given pieces: every marker is printed on a line end. */
  function Print(m: Marker, pieces: Pieces): string {
    match pieces
    case Last(segment) => segment
    case Piece(segment, kind, next) => segment + (m.Word(kind) + ("\n" + Print(m, next)))
  }

  predicate NoCarriageReturn(pieces: Pieces) {
    '\r' !in pieces.segment && (pieces.Piece? ==> NoCarriageReturn(pieces.next))
  }

  /** Pieces of a finished evaluation: END comes last and only there. */
  predicate Complete(pieces: Pieces) {
    && pieces.Piece? && pieces.kind != Begin
    && if pieces.kind == End then pieces.next == Last("") else Complete(pieces.next)
  }

  /** The segment ends in a marker that lacks its last `cut` characters. */
  predicate EndsInMarkerCutBy(m: Marker, segment: string, kind: Kind, cut: nat) {
    cut <= |m.Word(kind)| && EndsWith(segment, m.Word(kind)[..|m.Word(kind)| - cut])
  }

  /** The segment ends in a marker that lacks only its last one or two underscores. */
  ghost predicate EndsInCutMarker(m: Marker, segment: string) {
    exists kind, cut | kind != Begin && 1 <= cut <= 2 :: EndsInMarkerCutBy(m, segment, kind, cut)
  }

  ghost predicate CleanSegment(m: Marker, segment: string) {
    TokenFree(m, segment) && !EndsInCutMarker(m, segment)
  }

  ghost predicate Clean(m: Marker, pieces: Pieces) {
    pieces.Piece? ==> CleanSegment(m, pieces.segment) && Clean(m, pieces.next)
  }

  // ----- Glueing a segment to the marker printed after it -----

  /** A token that starts before the printed marker and ends inside it exposes a cut marker. */
  lemma StraddleIsCutMarker(printed: string, id: string, segment: string, kind: Kind, more: string,
                            p: nat, other: Kind)
    requires Numeric(id) && p < |segment|
    requires OccursAt(segment + (WordOf(printed, kind) + more), WordOf(id, other), p)
    requires |segment| < p + |WordOf(id, other)| <= |segment| + |WordOf(printed, kind)|
    ensures var cut := |WordOf(id, other)| - (|segment| - p);
      1 <= cut <= 2 && EndsInMarkerCutBy(MakeMarker(id), segment, other, cut)
  {
    hide WordOf, OccursAt;
    var w, v := WordOf(printed, kind), WordOf(id, other);
    var keep := |segment| - p;
    OccursAcross(segment, w + more, v, p);
    assert (w + more)[..|v| - keep] == w[..|v| - keep];
    NumericWordsOverlapByUnderscores(id, printed, other, kind, |v| - keep);
  }

  lemma CompletedAcross(left: string, word: string, keep: nat, next: string, more: string)
    requires 0 < keep <= |word| && EndsWith(left, word[..keep])
    requires |word| - keep <= |next| && next[..|word| - keep] == word[keep..]
    ensures keep <= |left| && OccursAt(left + (next + more), word, |left| - keep)
  {
    hide OccursAt;
    assert (next + more)[..|word| - keep] == next[..|word| - keep];
    OccursAcross(left, next + more, word, |left| - keep);
  }

  /** A cut marker is completed by the underscores with which the next marker begins. */
  lemma CutMarkerIsCompleted(id: string, segment: string, kind: Kind, more: string, other: Kind, cut: nat)
    requires other != Begin && 1 <= cut <= 2 && EndsInMarkerCutBy(MakeMarker(id), segment, other, cut)
    ensures var p := |segment| - (|WordOf(id, other)| - cut);
      0 <= p < |segment| && TokenAt(MakeMarker(id), segment + (WordOf(id, kind) + more), p, other)
  {
    hide WordOf, OccursAt, EndsWith;
    var w, v := WordOf(id, kind), WordOf(id, other);
    var keep := |v| - cut;
    WordsShareUnderscores(id, other, kind, cut);
    CompletedAcross(segment, v, keep, w, more);
  }

  /** The parser stops exactly at the printed marker if and only if the segment before it is clean. */
  lemma PrintedMarkerIsFirst(id: string, segment: string, kind: Kind, more: string)
    requires Numeric(id) && kind != Begin
    ensures FirstToken(MakeMarker(id), segment + (WordOf(id, kind) + more), 0) == Some(Token(|segment|, kind))
       <==> CleanSegment(MakeMarker(id), segment)
  {
    hide OccursAt, WordOf, EndsInMarkerCutBy, FirstToken, MakeMarker;
    var m, w := MakeMarker(id), WordOf(id, kind);
    var all := segment + (w + more);
    MadeMarkersAreApart(id);
    WordAtStart(w, more);
    OccursInSuffix(segment, w + more, w, 0);
    if CleanSegment(m, segment) {
      forall p: nat, other | TokenAt(m, all, p, other) ensures |segment| <= p {
        if p < |segment| {
          NoTokenBeforePrinted(id, segment, kind, more, p, other);
        }
      }
      FirstTokenIs(m, all, 0, Token(|segment|, kind));
    } else if EndsInCutMarker(m, segment) {
      var other, cut :| other != Begin && 1 <= cut <= 2 && EndsInMarkerCutBy(m, segment, other, cut);
      CutMarkerIsCompleted(id, segment, kind, more, other, cut);
    } else {
      var p: nat, other :| TokenAt(m, segment, p, other);
      OccurrenceFits(segment, m.Word(other), p);
      OccursInPrefix(segment, w + more, m.Word(other), p);
      assert TokenAt(m, all, p, other);
    }
  }

  /** Before a printed marker, a clean segment lets no token start. */
  lemma NoTokenBeforePrinted(id: string, segment: string, kind: Kind, more: string, p: nat, other: Kind)
    requires Numeric(id) && kind != Begin && CleanSegment(MakeMarker(id), segment) && p < |segment|
    ensures !TokenAt(MakeMarker(id), segment + (WordOf(id, kind) + more), p, other)
  {
    hide OccursAt, WordOf, EndsInMarkerCutBy, MakeMarker;
    var m, w := MakeMarker(id), WordOf(id, kind);
    var all := segment + (w + more);
    if other != Begin && OccursAt(all, m.Word(other), p) {
      assert !TokenAt(m, segment, p, other);
      if p + |m.Word(other)| <= |segment| {
        OccursInPrefix(segment, w + more, m.Word(other), p);
      } else if p + |m.Word(other)| <= |segment| + |w| {
        StraddleIsCutMarker(id, id, segment, kind, more, p, other);
      } else {
        MadeMarkersAreApart(id);
        WordAtStart(w, more);
        OccursInSuffix(segment, w + more, w, 0);
        OccurrencesNeverNest(m, all, p, other, |segment|, kind);
      }
    }
  }

  lemma WordAtStart(word: string, more: string)
    ensures OccursAt(word + more, word, 0)
  {
  }

  lemma OccurrenceFits(text: string, word: string, p: nat)
    requires OccursAt(text, word, p)
    ensures p + |word| <= |text|
  {
  }

  lemma PrintedPiece(m: Marker, pieces: Pieces, post: string)
    requires Complete(pieces)
    ensures Print(m, pieces) + post == pieces.segment + (m.Word(pieces.kind) + ("\n" + (Print(m, pieces.next) + post)))
    ensures pieces.kind == End ==> Print(m, pieces.next) + post == post
  {
    var a, b, c := pieces.segment, m.Word(pieces.kind), Print(m, pieces.next);
    assert (a + (b + ("\n" + c))) + post == a + (b + ("\n" + (c + post)));
    if pieces.kind == End {
      PrintEmpty(m);
    }
  }

  /**
   * Print and parse: whatever follows, parsing what was printed gives the pieces back if and only if
   * every segment is free of markers and of the cut markers that the next one would complete.
   */
  lemma {:induction false} PrintParse(id: string, pieces: Pieces, post: string)
    requires Numeric(id) && Complete(pieces)
    ensures Lex(MakeMarker(id), Print(MakeMarker(id), pieces) + post) == pieces
       <==> Clean(MakeMarker(id), pieces)
    decreases pieces
  {
    hide OccursAt, MakeMarker, FirstToken, CleanSegment, Print, Lex, WordOf, Words.Word;
    var m, segment, kind := MakeMarker(id), pieces.segment, pieces.kind;
    var rest := Print(m, pieces.next) + post;
    PrintedPiece(m, pieces, post);
    PrintedMarkerIsFirst(id, segment, kind, "\n" + rest);
    LexAroundMarker(m, segment, kind, rest);
    if kind != End {
      PrintParse(id, pieces.next, post);
    }
  }

  /** A parse begins with a segment and a marker if and only if that marker is the first token. */
  lemma LexAroundMarker(m: Marker, segment: string, kind: Kind, rest: string)
    ensures var all := segment + (m.Word(kind) + ("\n" + rest));
      var first := FirstToken(m, all, 0) == Some(Token(|segment|, kind));
      && (first ==> Lex(m, all) == Piece(segment, kind, if kind == End then Last("") else Lex(m, rest)))
      && (Lex(m, all).Piece? && Lex(m, all).segment == segment && Lex(m, all).kind == kind ==> first)
  {
    hide OccursAt, FirstToken, SkipLineEnding;
    AroundPrinted(segment, m.Word(kind), rest);
  }

  lemma AroundPrinted(segment: string, word: string, rest: string)
    ensures var all := segment + (word + ("\n" + rest));
      all[..|segment|] == segment && all[SkipLineEnding(all, |segment| + |word|)..] == rest
  {
    var all := segment + (word + ("\n" + rest));
    assert all[|segment| + |word|] == '\n';
  }

  // ----- How an evaluation can go -----

  /** How far the `try` block got before it threw. */
  datatype Progress =
    | Evaluating
    | Showing(partialValue: string)
    | AfterValue(value: Option<string>, late: string)

  /** What the `catch` block printed; it can throw in turn, while it prints the message or the trace. */
  datatype Report =
    | Reported(error: string, trace: string)
    | MessageThrew(partialError: string)
    | TraceThrew(error: string, partialTrace: string)

  /**
   * How one evaluation can go, with the texts the pane shows on the way; `late` is what tasks that
   * the evaluation has started still print once the value has been shown.
   */
  datatype Run =
    | Completed(output: string, value: Option<string>, late: string)
    | Failed(output: string, progress: Progress, report: Report)
  {
    /** The segments between the markers, in the order of the `try`, `catch` and `finally` blocks. */
    function Pieces(): Pieces {
      match this
      case Completed(output, value, late) =>
        Piece(output, OutEnd, Piece(ValueText(value), ValEnd, Closing(late)))
      case Failed(output, Evaluating, report) =>
        Piece(output, Error, ReportPieces(report))
      case Failed(output, Showing(partialValue), report) =>
        Piece(output, OutEnd, Piece(partialValue, Error, ReportPieces(report)))
      case Failed(output, AfterValue(value, late), report) =>
        Piece(output, OutEnd, Piece(ValueText(value), ValEnd, Piece(late, Error, ReportPieces(report))))
    }

    predicate CrFree() {
      '\r' !in output
      && if Completed? then CrFreeValue(value) && '\r' !in late else CrFreeProgress(progress) && CrFreeReport(report)
    }
  }

  predicate CrFreeValue(value: Option<string>) {
    value.Some? ==> '\r' !in value.value
  }

  predicate CrFreeProgress(progress: Progress) {
    match progress
    case Evaluating => true
    case Showing(partialValue) => '\r' !in partialValue
    case AfterValue(value, late) => CrFreeValue(value) && '\r' !in late
  }

  predicate CrFreeReport(report: Report) {
    match report
    case Reported(error, trace) => '\r' !in error && '\r' !in trace
    case MessageThrew(partialError) => '\r' !in partialError
    case TraceThrew(error, partialTrace) => '\r' !in error && '\r' !in partialTrace
  }

  /** A value is shown with a newline, except `nothing`. */
  function ValueText(value: Option<string>): string {
    if value.Some? then value.value + "\n" else ""
  }

  function Closing(segment: string): Pieces {
    Piece(segment, End, Last(""))
  }

  function ReportPieces(report: Report): Pieces {
    match report
    case Reported(error, trace) => Piece(error + "\n", Backtrace, Closing(trace + "\n"))
    case MessageThrew(partialError) => Closing(partialError)
    case TraceThrew(error, partialTrace) => Piece(error + "\n", Backtrace, Closing(partialTrace))
  }

  // ----- What the runtime prints -----

  /** `_marker` of the Julia runtime, which knows nothing of the parser's words. */
  function RuntimeMarker(id: string, kind: string): string {
    "__JJMCP_" + kind + "_" + id + "__"
  }

  /** `_emit_marker`. */
  function MarkerLine(kind: string, id: string): string {
    RuntimeMarker(id, kind) + "\n"
  }

  /** What the `try` block prints behind the output of the evaluation. */
  function TryText(id: string, run: Run): string {
    match run
    case Completed(_, value, late) =>
      MarkerLine("OUT_END", id) + (ValueText(value) + (MarkerLine("VAL_END", id) + late))
    case Failed(_, Evaluating, _) => ""
    case Failed(_, Showing(partialValue), _) => MarkerLine("OUT_END", id) + partialValue
    case Failed(_, AfterValue(value, late), _) =>
      MarkerLine("OUT_END", id) + (ValueText(value) + (MarkerLine("VAL_END", id) + late))
  }

  function CatchText(id: string, report: Report): string {
    MarkerLine("ERROR", id) +
      match report
      case Reported(error, trace) => error + "\n" + (MarkerLine("BT", id) + (trace + "\n"))
      case MessageThrew(partialError) => partialError
      case TraceThrew(error, partialTrace) => error + "\n" + (MarkerLine("BT", id) + partialTrace)
  }

  /** Everything that one `run_command` prints: `finally` prints END whatever happens. */
  function Emission(id: string, run: Run): string {
    MarkerLine("BEGIN", id) + (run.output + (TryText(id, run)
      + ((if run.Failed? then CatchText(id, run.report) else "") + MarkerLine("END", id))))
  }

  /** `run_command`, one print at a time. */
  method RunCommand(id: string, run: Run) returns (pane: string)
    ensures pane == Emission(id, run)
  {
    hide MarkerLine, TryText, CatchText;
    pane := MarkerLine("BEGIN", id);
    pane := pane + run.output;
    pane := TryBlock(id, run, pane);
    if run.Failed? {
      pane := CatchBlock(id, run.report, pane);
    }
    pane := pane + MarkerLine("END", id);
    ghost var caught := if run.Failed? then CatchText(id, run.report) else "";
    Nested(MarkerLine("BEGIN", id), run.output, TryText(id, run), caught, MarkerLine("END", id));
  }

  /** The `try` block, behind the output of the evaluation. */
  method TryBlock(id: string, run: Run, before: string) returns (pane: string)
    ensures pane == before + TryText(id, run)
  {
    hide MarkerLine;
    pane := before;
    if run.Completed? || !run.progress.Evaluating? {
      pane := pane + MarkerLine("OUT_END", id);
      if run.Failed? && run.progress.Showing? {
        pane := pane + run.progress.partialValue;
      } else {
        var value := if run.Completed? then run.value else run.progress.value;
        var late := if run.Completed? then run.late else run.progress.late;
        if value.Some? {
          pane := pane + (value.value + "\n");
        }
        assert pane == before + MarkerLine("OUT_END", id) + ValueText(value);
        pane := pane + MarkerLine("VAL_END", id);
        pane := pane + late;
        Nested(before, MarkerLine("OUT_END", id), ValueText(value), MarkerLine("VAL_END", id), late);
      }
    }
  }

  /** The `catch` block. */
  method CatchBlock(id: string, report: Report, before: string) returns (pane: string)
    ensures pane == before + CatchText(id, report)
  {
    hide MarkerLine;
    pane := before + MarkerLine("ERROR", id);
    if report.MessageThrew? {
      pane := pane + report.partialError;
    } else {
      pane := pane + (report.error + "\n");
      pane := pane + MarkerLine("BT", id);
      var trace := if report.Reported? then report.trace + "\n" else report.partialTrace;
      pane := pane + trace;
      Nested(before, MarkerLine("ERROR", id), report.error + "\n", MarkerLine("BT", id), trace);
    }
  }

  lemma Nested(a: string, b: string, c: string, d: string, e: string)
    ensures a + b + c + d + e == a + (b + (c + (d + e)))
    ensures (a + (b + (c + d))) + e == a + (b + (c + (d + e)))
    ensures (a + b) + c == a + (b + c)
  {
  }

  /** The runtime and the parser agree on the words. */
  lemma SameWords(id: string)
    ensures RuntimeMarker(id, "BEGIN") == WordOf(id, Begin) && RuntimeMarker(id, "END") == WordOf(id, End)
    ensures RuntimeMarker(id, "ERROR") == WordOf(id, Error) && RuntimeMarker(id, "BT") == WordOf(id, Backtrace)
    ensures RuntimeMarker(id, "OUT_END") == WordOf(id, OutEnd) && RuntimeMarker(id, "VAL_END") == WordOf(id, ValEnd)
  {
  }

  /** What the runtime prints is the BEGIN line and the segments between the words that the parser knows. */
  lemma EmissionIsPrint(id: string, run: Run)
    ensures Emission(id, run) == (WordOf(id, Begin) + "\n") + Print(MakeMarker(id), run.Pieces())
  {
    hide MakeMarker, RuntimeMarker, WordOf, Print, TryText, CatchText;
    SameWords(id);
    if run.Failed? {
      ReportIsPrint(id, run.report);
    }
    TryIsPrint(id, run, (if run.Failed? then CatchText(id, run.report) else "") + MarkerLine("END", id));
  }

  /** What follows the output, up to the rest of the emission. */
  lemma TryIsPrint(id: string, run: Run, rest: string)
    requires rest == if run.Failed? then MarkerLine("ERROR", id) + Print(MakeMarker(id), ReportPieces(run.report))
                     else "" + MarkerLine("END", id)
    ensures run.output + (TryText(id, run) + rest) == Print(MakeMarker(id), run.Pieces())
  {
    hide MakeMarker, RuntimeMarker, WordOf, Print, ReportPieces;
    SameWords(id);
    var m, pieces := MakeMarker(id), run.Pieces();
    PiecePrinted(m, pieces);
    match run
    case Completed(output, value, late) =>
      PrintEmpty(m);
      assert rest + "" == rest;
      ValueIsPrint(id, output, value, Closing(late), rest);
    case Failed(_, Evaluating, _) =>
      assert "" + rest == rest;
    case Failed(_, Showing(partialValue), _) =>
      PiecePrinted(m, pieces.next);
      Nested(MarkerLine("OUT_END", id), partialValue, rest, "", "");
    case Failed(output, AfterValue(value, late), _) =>
      ValueIsPrint(id, output, value, pieces.next.next, rest);
  }

  lemma ValueIsPrint(id: string, output: string, value: Option<string>, last: Pieces, rest: string)
    requires last.Piece? && rest == (WordOf(id, last.kind) + "\n") + Print(MakeMarker(id), last.next)
    ensures var text := MarkerLine("OUT_END", id) + (ValueText(value) + (MarkerLine("VAL_END", id) + last.segment));
      output + (text + rest)
      == Print(MakeMarker(id), Piece(output, OutEnd, Piece(ValueText(value), ValEnd, last)))
  {
    hide MakeMarker, RuntimeMarker, WordOf, Print, ValueText;
    SameWords(id);
    var m := MakeMarker(id);
    var shown := Piece(ValueText(value), ValEnd, last);
    PiecePrinted(m, Piece(output, OutEnd, shown));
    PiecePrinted(m, shown);
    PiecePrinted(m, last);
    Nested(MarkerLine("OUT_END", id), ValueText(value), MarkerLine("VAL_END", id), last.segment, rest);
  }

  lemma ReportIsPrint(id: string, report: Report)
    ensures CatchText(id, report) + MarkerLine("END", id)
         == MarkerLine("ERROR", id) + Print(MakeMarker(id), ReportPieces(report))
  {
    hide MakeMarker, RuntimeMarker, WordOf, Print;
    SameWords(id);
    var m, end := MakeMarker(id), MarkerLine("END", id);
    if report.MessageThrew? {
      EndPrinted(m, report.partialError);
      Nested(MarkerLine("ERROR", id), report.partialError, end, "", "");
    } else {
      var trace := if report.Reported? then report.trace + "\n" else report.partialTrace;
      PiecePrinted(m, ReportPieces(report));
      EndPrinted(m, trace);
      Nested(MarkerLine("ERROR", id), report.error + "\n", MarkerLine("BT", id), trace, end);
    }
  }

  lemma PiecePrinted(m: Marker, pieces: Pieces)
    requires pieces.Piece?
    ensures Print(m, pieces) == pieces.segment + ((m.Word(pieces.kind) + "\n") + Print(m, pieces.next))
  {
    var word, next := m.Word(pieces.kind), Print(m, pieces.next);
    assert word + ("\n" + next) == (word + "\n") + next;
  }

  lemma EndPrinted(m: Marker, segment: string)
    ensures Print(m, Closing(segment)) == segment + (m.Word(End) + "\n")
  {
    PrintEmpty(m);
    PiecePrinted(m, Closing(segment));
    assert m.Word(End) + "\n" + "" == m.Word(End) + "\n";
  }

  /** Printing appends segment, marker and newline, one piece at a time. */
  lemma PrintStep(m: Marker, pane: string, pieces: Pieces)
    requires pieces.Piece?
    ensures pane + Print(m, pieces)
         == (pane + pieces.segment + m.Word(pieces.kind) + "\n") + Print(m, pieces.next)
  {
    var a, b, c, d := pieces.segment, m.Word(pieces.kind), "\n", Print(m, pieces.next);
    assert pane + (a + (b + (c + d))) == (pane + a + b + c) + d;
  }

  lemma PrintEmpty(m: Marker)
    ensures Print(m, Last("")) == ""
  {
  }

  /** Reading a single clean segment back drops nothing but its final newline. */
  lemma SegmentOfLine(text: string)
    requires '\r' !in text
    ensures SegmentText(text) == DropFinalNewline(text)
    ensures SegmentText(text + "\n") == text
  {
    DropCrConcat(text, "\n");
  }

  /** What is shown of the value, up to a final newline if it was not shown to the end. */
  function ShownValue(run: Run): string {
    match run
    case Completed(_, value, _) => if value.Some? then value.value else ""
    case Failed(_, Evaluating, _) => ""
    case Failed(_, Showing(partialValue), _) => DropFinalNewline(partialValue)
    case Failed(_, AfterValue(value, _), _) => if value.Some? then value.value else ""
  }

  function ShownLate(run: Run): string {
    match run
    case Completed(_, _, late) => DropFinalNewline(late)
    case Failed(_, AfterValue(_, late), _) => DropFinalNewline(late)
    case _ => ""
  }

  function ShownError(report: Report): string {
    match report
    case Reported(error, _) => error
    case MessageThrew(partialError) => DropFinalNewline(partialError)
    case TraceThrew(error, _) => error
  }

  function ShownTrace(report: Report): string {
    match report
    case Reported(_, trace) => trace
    case MessageThrew(_) => ""
    case TraceThrew(_, partialTrace) => DropFinalNewline(partialTrace)
  }

  /** The parts of an evaluation, as they were printed. */
  function ShownParts(run: Run): seq<string> {
    [DropFinalNewline(run.output), ShownValue(run), ShownLate(run)]
    + if run.Completed? then [] else [ShownError(run.report), ShownTrace(run.report)]
  }

  /**
   * The flags and every slice are those of the run. The text that the tool returns holds all parts in
   * the order of printing, each on a line of its own.
   */
  ghost predicate Recovers(run: Run, e: Extracted) {
    && e.foundBegin && e.foundEnd && e.juliaError == run.Failed?
    && JoinsInOrder(ShownParts(run), e.text)
    && JoinsInOrder([DropFinalNewline(run.output), ShownLate(run)], e.stdoutText)
    && e.valueRepr == ShownValue(run)
    && e.errorMessage == (if run.Failed? then ShownError(run.report) else "")
    && e.backtrace == (if run.Failed? then ShownTrace(run.report) else "")
  }

  lemma TwoJoin(a: string, b: string)
    ensures JoinsInOrder([a, b], Beside(a, b))
  {
    hide Beside;
    BesideNothing(a);
    JoinNext([], "", a);
    JoinNext([a], a, b);
    assert [] + [a] == [a] && [a] + [b] == [a, b];
  }

  lemma ThreeJoin(a: string, b: string, c: string)
    ensures JoinsInOrder([a, b, c], Beside(Beside(a, b), c))
  {
    hide Beside;
    TwoJoin(a, b);
    JoinNext([a, b], Beside(a, b), c);
    assert [a, b] + [c] == [a, b, c];
  }

  /** Without late output, the slice is the output. */
  lemma OutputAlone(run: Run, e: Extracted)
    requires Recovers(run, e) && ShownLate(run) == ""
    ensures e.stdoutText == DropFinalNewline(run.output)
  {
    hide DropFinalNewline, JoinsInOrder;
    var output := DropFinalNewline(run.output);
    TwoJoin(output, "");
    BesideNothing(output);
    OrderIsUnique([output, ""], e.stdoutText, output);
  }

  lemma PartsJoin(run: Run, text: string)
    requires var tried := Beside(Beside(DropFinalNewline(run.output), ShownValue(run)), ShownLate(run));
      text == if run.Completed? then tried else Beside(Beside(tried, ShownError(run.report)), ShownTrace(run.report))
    ensures JoinsInOrder(ShownParts(run), text)
  {
    hide Beside, DropFinalNewline, JoinsInOrder, ShownValue, ShownLate, ShownError, ShownTrace;
    var parts := [DropFinalNewline(run.output), ShownValue(run), ShownLate(run)];
    ThreeJoin(parts[0], parts[1], parts[2]);
    if run.Failed? {
      var error, trace := ShownError(run.report), ShownTrace(run.report);
      var tried := Beside(Beside(parts[0], parts[1]), parts[2]);
      JoinNext(parts, tried, error);
      JoinNext(parts + [error], Beside(tried, error), trace);
      assert parts + [error] + [trace] == ShownParts(run);
    } else {
      assert ShownParts(run) == parts;
    }
  }

  lemma InterpretReport(s: ScanState, report: Report)
    requires CrFreeReport(report) && s.phase.InError? && s.result.errorMessage == s.result.backtrace == ""
    ensures var r := Interpret(ReportPieces(report), s).result;
      && r.errorMessage == ShownError(report) && r.backtrace == ShownTrace(report) && r.foundEnd
      && r.foundBegin == s.result.foundBegin && r.juliaError == s.result.juliaError
      && r.stdoutText == s.result.stdoutText && r.valueRepr == s.result.valueRepr
      && r.text == Beside(Beside(s.result.text, ShownError(report)), ShownTrace(report))
  {
    hide SegmentText, Beside, DropFinalNewline;
    BesideNothing(ShownError(report));
    BesideNothing(ShownTrace(report));
    BesideNothing(Beside(s.result.text, ShownError(report)));
    match report {
      case Reported(error, trace) =>
        SegmentOfLine(error);
        SegmentOfLine(trace);
        InterpretTwo(error + "\n", trace + "\n", s);
      case MessageThrew(partialError) =>
        SegmentOfLine(partialError);
      case TraceThrew(error, partialTrace) =>
        SegmentOfLine(error);
        SegmentOfLine(partialTrace);
        InterpretTwo(error + "\n", partialTrace, s);
    }
  }

  lemma InterpretTwo(message: string, trace: string, s: ScanState)
    ensures Interpret(Piece(message, Backtrace, Closing(trace)), s)
         == Interpret(Closing(trace), Consume(s, message, Backtrace))
  {
  }

  lemma InterpretRecovers(run: Run)
    requires run.CrFree()
    ensures Recovers(run, Interpret(run.Pieces(), BEGUN).result)
  {
    hide SegmentText, ReportPieces, ShownError, ShownTrace, CrFreeReport, Beside, DropFinalNewline, JoinsInOrder,
         ShownParts;
    var output, late := DropFinalNewline(run.output), ShownLate(run);
    SegmentOfLine(run.output);
    BesideNothing(output);
    BesideNothing(ShownValue(run));
    BesideNothing(late);
    BesideNothing(Beside(output, ShownValue(run)));
    NothingDropped();
    SegmentOfLine("");
    TwoJoin(output, late);
    var pieces := run.Pieces();
    var s := Consume(BEGUN, run.output, pieces.kind);
    var result := Interpret(pieces, BEGUN).result;
    assert Interpret(pieces, BEGUN) == Interpret(pieces.next, s);
    match run {
      case Completed(_, value, last) =>
        if value.Some? { SegmentOfLine(value.value); }
        SegmentOfLine(last);
        var t := Consume(s, pieces.next.segment, ValEnd);
        assert Interpret(pieces.next, s) == Interpret(Closing(last), t);
      case Failed(_, Evaluating, report) =>
        InterpretReport(s, report);
      case Failed(_, Showing(partialValue), report) =>
        SegmentOfLine(partialValue);
        var t := Consume(s, partialValue, Error);
        assert Interpret(pieces.next, s) == Interpret(ReportPieces(report), t);
        InterpretReport(t, report);
      case Failed(_, AfterValue(value, last), report) =>
        if value.Some? { SegmentOfLine(value.value); }
        SegmentOfLine(last);
        var t := Consume(s, ValueText(value), ValEnd);
        assert Interpret(pieces.next, s) == Interpret(pieces.next.next, t);
        var u := Consume(t, last, Error);
        assert Interpret(pieces.next.next, t) == Interpret(ReportPieces(report), u);
        InterpretReport(u, report);
    }
    PartsJoin(run, result.text);
  }

  lemma NothingDropped()
    ensures DropFinalNewline("") == ""
  {
  }

  /** The BEGIN line of an emission is found, whatever whole lines without BEGIN precede it. */
  lemma BeginLineFound(m: Marker, pre: string, rest: string)
    requires m.Plain() && EndsLine(pre) && !Occurs(pre, m.Word(Begin))
    ensures AfterBegin(m, pre + (m.Word(Begin) + ("\n" + rest))) == Some(rest)
  {
    hide *;
    var w := m.Word(Begin);
    var tail := w + ("\n" + rest);
    var all := pre + tail;
    forall p: nat | OccursAt(all, w, p) ensures |pre| <= p {
      if p < |pre| {
        PlainMeans(m);
        NoWordAcrossNewline(pre, tail, w, p);
        NotOccurring(pre, w, p);
      }
    }
    assert pre != "" ==> all[|pre| - 1] == pre[|pre| - 1];
    EndsLineMeans(pre);
    SkipLines(m, all, |pre|);
    assert all[|pre|..] == tail;
    BeginLineFirst(m, rest);
  }

  lemma NotOccurring(text: string, word: string, p: nat)
    requires !Occurs(text, word)
    ensures !OccursAt(text, word, p)
  {
  }

  lemma PlainMeans(m: Marker)
    requires m.Plain()
    ensures '\n' !in m.Word(Begin)
  {
  }

  /** In a pane, with history before it and anything after it, a clean evaluation parses to its pieces. */
  lemma EmissionParses(id: string, pre: string, run: Run, post: string)
    requires Numeric(id) && Clean(MakeMarker(id), run.Pieces())
    requires EndsLine(pre) && !Occurs(pre, WordOf(id, Begin))
    ensures var m := MakeMarker(id);
      var body := AfterBegin(m, pre + (Emission(id, run) + post));
      body.Some? && Lex(m, body.value) == run.Pieces()
  {
    hide AfterBegin, Lex, Print, Run.Pieces, Clean, OccursAt, EndsLine, Emission, MakeMarker, WordOf;
    var m, pieces := MakeMarker(id), run.Pieces();
    RunPiecesComplete(run);
    PrintParse(id, pieces, post);
    MadeMarkersArePlain(id);
    EmissionSplits(id, run, post);
    BeginLineFound(m, pre, Print(m, pieces) + post);
  }

  lemma EmissionSplits(id: string, run: Run, post: string)
    ensures Emission(id, run) + post
         == WordOf(id, Begin) + ("\n" + (Print(MakeMarker(id), run.Pieces()) + post))
  {
    hide Print, Run.Pieces, MakeMarker, WordOf, Emission;
    EmissionIsPrint(id, run);
    var word, text := WordOf(id, Begin), Print(MakeMarker(id), run.Pieces());
    assert ((word + "\n") + text) + post == word + ("\n" + (text + post));
  }

  /**
   * Print/parse round trip of a whole evaluation: a clean run is recovered slice by slice, up to one
   * final newline of the glued segments.
   */
  lemma RoundTrip(id: string, pre: string, run: Run, post: string)
    requires Numeric(id) && run.CrFree() && Clean(MakeMarker(id), run.Pieces())
    requires EndsLine(pre) && !Occurs(pre, WordOf(id, Begin))
    ensures Recovers(run, Extract(MakeMarker(id), pre + (Emission(id, run) + post)))
  {
    hide AfterBegin, Lex, Interpret, Emission, Recovers, Run.Pieces, Clean, OccursAt, EndsLine, Run.CrFree;
    EmissionParses(id, pre, run, post);
    InterpretRecovers(run);
  }

  lemma RunPiecesComplete(run: Run)
    ensures Complete(run.Pieces())
  {
    assert run.Failed? ==> Complete(ReportPieces(run.report));
    assert Complete(run.Pieces().next);
  }
}
