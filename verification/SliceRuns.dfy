/** Over every run of the polling loop, however often it compacts, the newest rows of each slice survive. */
module SliceRuns {
  import opened Text
  import opened Markers
  import opened Extraction
  import opened ExtractionLaws
  import opened LexLaws
  import opened Truncation
  import opened Compaction
  import opened CompactionLaws
  import opened Splice
  import opened Runtime
  import opened EvalLoop
  import opened EvalRuns
  import opened VerdictRuns
  import opened Recency
  import opened Joining
  import opened Provenance

  // ----- What is printed in a phase -----

  /** The rows of the segments that belong to one slice, in order. */
  function Spoken(pieces: Pieces, phase: Phase, slice: Phase): seq<string> {
    (if phase == slice then Rows(pieces.segment) else [])
    + match pieces
      case Last(_) => []
      case Piece(_, kind, next) => if kind == End then [] else Spoken(next, PhaseAfter(kind, phase), slice)
  }

  /** A slice holds the rows of its segments, without some blank ones. */
  lemma AppendThins(out: string, segment: string)
    requires '\r' !in segment
    ensures Thinned(Rows(out) + Rows(segment), Rows(AppendSegment(out, segment)))
  {
    hide Rows, Thinned, EndsLine, DropFinalNewline, Beside;
    var text := DropFinalNewline(segment);
    RowsOfDropped(segment);
    ThinnedItself(Rows(out));
    ThinnedConcat(Rows(out), Rows(out), Rows(segment), Rows(text));
    JoinThins(out, text);
    ThinnedTwice(Rows(out) + Rows(segment), Rows(out) + Rows(text), Rows(AppendSegment(out, segment)));
  }

  lemma JoinThins(out: string, text: string)
    ensures Thinned(Rows(out) + Rows(text), Rows(Beside(out, text)))
  {
    hide Rows, Thinned, EndsLine, EndsWith, Beside;
    BesideJoins(out, text);
    ThinnedItself(Rows(out) + Rows(text));
    if !EndsLine(out) && "\n" <= text {
      var rest := text[1..];
      assert "" + "\n" + rest == text;
      RowsOfRow("", rest);
      BlankFirstThins(Rows(rest));
      ThinnedItself(Rows(out));
      ThinnedConcat(Rows(out), Rows(out), Rows(text), Rows(rest));
    }
  }

  lemma BlankFirstThins(rows: seq<string>)
    ensures Thinned([""] + rows, rows)
  {
    BlankLastThins([]);
    ThinnedItself(rows);
    assert [] + [""] == [""] && [] + rows == rows;
    ThinnedConcat([""], [], rows, rows);
  }

  lemma {:induction false} SlicesThin(pieces: Pieces, s: ScanState, slice: Phase)
    requires NoCarriageReturn(pieces)
    ensures Thinned(Rows(s.result.Slice(slice)) + Spoken(pieces, s.phase, slice),
                    Rows(Interpret(pieces, s).result.Slice(slice)))
    decreases pieces
  {
    hide Rows, Thinned, AppendSegment;
    var before, here := Rows(s.result.Slice(slice)), if s.phase == slice then Rows(pieces.segment) else [];
    var after := s.result.Record(s.phase, pieces.segment);
    RecordThins(s, pieces.segment, slice);
    hide Extracted.Record;
    if pieces.Piece? && pieces.kind != End {
      var t := Consume(s, pieces.segment, pieces.kind);
      var later := Spoken(pieces.next, t.phase, slice);
      SlicesThin(pieces.next, t, slice);
      ThinnedItself(later);
      ThinnedConcat(before + here, Rows(after.Slice(slice)), later, later);
      assert before + (here + later) == (before + here) + later;
      ThinnedTwice(before + (here + later), Rows(after.Slice(slice)) + later,
                   Rows(Interpret(pieces, s).result.Slice(slice)));
    } else {
      assert here + [] == here;
    }
  }

  lemma RecordThins(s: ScanState, segment: string, slice: Phase)
    requires '\r' !in segment
    ensures Thinned(Rows(s.result.Slice(slice)) + (if s.phase == slice then Rows(segment) else []),
                    Rows(s.result.Record(s.phase, segment).Slice(slice)))
  {
    hide Rows, Thinned, AppendSegment;
    var out := s.result.Slice(slice);
    if s.phase == slice {
      AppendThins(out, segment);
    } else {
      ThinnedItself(Rows(out));
      assert Rows(out) + [] == Rows(out);
    }
  }

  // ----- More output -----

  lemma {:induction false} SpokenGraft(first: Pieces, second: Pieces, v: Verdict, slice: Phase)
    requires LastEndsLine(first)
    ensures Spoken(Graft(first, second), v.phase, slice) == Spoken(first, v.phase, slice)
      + if Ends(first) then [] else Spoken(second, JudgePieces(first, v).phase, slice)
    decreases first
  {
    hide Rows, EndsLine, Pass, Spoken;
    match first
    case Last(segment) =>
      AddFrontSpeaks(segment, second, v.phase, slice);
      LastSpeaks(segment, v.phase, slice);
    case Piece(segment, kind, next) =>
      if kind == End {
        EndSpeaks(segment, next, v.phase, slice);
      } else {
        PassPhase(v, kind);
        SpokenGraft(next, second, Pass(v, kind), slice);
        PieceSpeaks(segment, kind, next, v.phase, slice);
        PieceSpeaks(segment, kind, Graft(next, second), v.phase, slice);
      }
  }

  lemma PassPhase(v: Verdict, kind: Kind)
    requires kind != End
    ensures Pass(v, kind).phase == PhaseAfter(kind, v.phase)
  {
  }

  lemma EndSpeaks(segment: string, next: Pieces, phase: Phase, slice: Phase)
    ensures var spoken := Spoken(Piece(segment, End, next), phase, slice); spoken + [] == spoken
  {
  }

  lemma LastSpeaks(segment: string, phase: Phase, slice: Phase)
    ensures Spoken(Last(segment), phase, slice) == if phase == slice then Rows(segment) else []
  {
    hide Rows;
    assert (if phase == slice then Rows(segment) else []) + [] == if phase == slice then Rows(segment) else [];
  }

  lemma AddFrontSpeaks(front: string, pieces: Pieces, phase: Phase, slice: Phase)
    requires EndsLine(front)
    ensures Spoken(AddFront(front, pieces), phase, slice) ==
      (if phase == slice then Rows(front) else []) + Spoken(pieces, phase, slice)
  {
    hide Rows, EndsLine;
    RowsConcat(front, pieces.segment);
  }

  /** The open segment of a parse consists of whole lines. */
  predicate LastEndsLine(pieces: Pieces) {
    match pieces
    case Last(segment) => EndsLine(segment)
    case Piece(_, kind, next) => kind == End || LastEndsLine(next)
  }

  lemma {:induction false} LexLastEndsLine(m: Marker, text: string)
    requires m.Apart() && m.Plain() && EndsLine(text)
    ensures LastEndsLine(Lex(m, text))
    decreases |text|
  {
    hide OccursAt, FirstToken, EndsLine, SkipLineEnding;
    var token := FirstToken(m, text, 0);
    if token.Some? && token.value.kind != End {
      var t := token.value;
      TokenLeavesLineEnd(m, text, t.pos, t.kind, "");
      LexLastEndsLine(m, text[SkipLineEnding(text, t.pos + |m.Word(t.kind)|)..]);
    }
  }

  /** The rows that a capture or a history shows of a slice. */
  function Printed(m: Marker, c: string, slice: Phase): seq<string> {
    var body := AfterBegin(m, c);
    if body.None? then [] else Spoken(Lex(m, body.value), InStdout, slice)
  }

  lemma PrintedContinues(m: Marker, c: string, rest: string, slice: Phase)
    requires m.Apart() && m.Plain() && EndsLine(c) && AfterBegin(m, c).Some?
    ensures var v := Judge(Scan(m, c));
      Printed(m, c + rest, slice) ==
        Printed(m, c, slice) + if v.ended then [] else Spoken(Lex(m, rest), v.phase, slice)
  {
    hide AfterBegin, Lex, Interpret, Spoken, Graft, EndsLine, LastEndsLine, JudgePieces;
    var body := AfterBegin(m, c).value;
    AfterBeginExtendsLines(m, c, rest);
    SuffixEndsLine(c, body);
    LexConcat(m, body, rest);
    LexLastEndsLine(m, body);
    SpokenGraft(Lex(m, body), Lex(m, rest), OPEN, slice);
    JudgeScan(m, c);
    FoundEndMeansEnds(Lex(m, body), BEGUN);
  }

  lemma {:induction false} LexHasNoCr(m: Marker, text: string)
    requires '\r' !in text
    ensures NoCarriageReturn(Lex(m, text))
    decreases |text|
  {
    hide FirstToken, SkipLineEnding;
    var token := FirstToken(m, text, 0);
    if token.Some? && token.value.kind != End {
      LexHasNoCr(m, text[SkipLineEnding(text, token.value.pos + |m.Word(token.value.kind)|)..]);
    }
  }

  /** What extraction returns of a slice is what is printed of it, without some blank rows. */
  lemma ExtractedThins(m: Marker, c: string, slice: Phase)
    requires '\r' !in c
    ensures Thinned(Printed(m, c, slice), Rows(Extract(m, c).Slice(slice)))
  {
    hide AfterBegin, Lex, Interpret, Spoken, Rows, Thinned;
    NoRows();
    var body := AfterBegin(m, c);
    if body.None? {
      ThinnedItself([]);
    } else {
      LexHasNoCr(m, body.value);
      SlicesThin(Lex(m, body.value), BEGUN, slice);
      assert [] + Printed(m, c, slice) == Printed(m, c, slice);
    }
  }

  // ----- What a stand-in carries -----

  function RowLimit(slice: Phase): nat {
    if slice == InBacktrace then BACKTRACE_LINES else TAIL_LINES
  }

  /** One byte less than the byte tail's limit. */
  function ByteLimit(slice: Phase): nat {
    (if slice == InBacktrace then MAX_BACKTRACE_BYTES else MAX_TEXT_BYTES) - 1
  }

  /** Compaction gives up the value once an error has been printed. */
  predicate GivenUp(m: Marker, full: string, slice: Phase) {
    slice == InValue && AfterBegin(m, full).Some? && Error in BodyKinds(m, full)
  }

  /** These rows keep the newest of what the history has printed of the slice, and have nothing else but notes. */
  ghost predicate KeepsSlice(m: Marker, full: string, slice: Phase, rows: seq<string>) {
    && (GivenUp(m, full, slice) || Keeps(Printed(m, full, slice), rows, RowLimit(slice), ByteLimit(slice)))
    && Drawn(Printed(m, full, slice), rows)
  }

  ghost predicate Carries(m: Marker, full: string, accumulator: string) {
    forall slice :: KeepsSlice(m, full, slice, Printed(m, accumulator, slice))
  }

  ghost predicate Returns(m: Marker, full: string, e: Extracted) {
    forall slice :: KeepsSlice(m, full, slice, Rows(e.Slice(slice)))
  }

  lemma SameIsKept(m: Marker, full: string, accumulator: string)
    requires AfterBegin(m, full) == AfterBegin(m, accumulator)
    ensures Carries(m, full, accumulator)
  {
    hide AfterBegin, Lex, Spoken, Keeps, GivenUp, Picked, Drawn, Thinned;
    forall slice ensures KeepsSlice(m, full, slice, Printed(m, accumulator, slice)) {
      ThinnedItself(Printed(m, full, slice));
      PickedItself(Printed(m, full, slice));
      PickedIsDrawn(Printed(m, full, slice), Printed(m, full, slice));
      ThinnedKeeps(Printed(m, full, slice), Printed(m, full, slice), RowLimit(slice), ByteLimit(slice));
    }
  }

  lemma CarriedIsReturned(m: Marker, full: string, accumulator: string)
    requires Carries(m, full, accumulator) && '\r' !in accumulator
    ensures Returns(m, full, Extract(m, accumulator))
  {
    hide Printed, Keeps, GivenUp, Extract, Thinned, Rows, Picked, Drawn;
    forall slice ensures KeepsSlice(m, full, slice, Rows(Extract(m, accumulator).Slice(slice))) {
      assert KeepsSlice(m, full, slice, Printed(m, accumulator, slice));
      var rows := Rows(Extract(m, accumulator).Slice(slice));
      ExtractedThins(m, accumulator, slice);
      ThinnedKeeps(Printed(m, accumulator, slice), rows, RowLimit(slice), ByteLimit(slice));
      ThinnedIsPicked(Printed(m, accumulator, slice), rows);
      DrawnPicked(Printed(m, full, slice), Printed(m, accumulator, slice), rows);
      if !GivenUp(m, full, slice) {
        KeepsTwice(Printed(m, full, slice), Printed(m, accumulator, slice), rows, RowLimit(slice), ByteLimit(slice));
      }
    }
  }

  lemma CarriedGrows(m: Marker, full: string, accumulator: string, news: string)
    requires m.Apart() && m.Plain() && EndsLine(full) && EndsLine(accumulator)
    requires StandsFor(m, full, accumulator) && Carries(m, full, accumulator)
    ensures Carries(m, full + news, accumulator + news)
  {
    hide AfterBegin, Printed, Keeps, Scan, Lex, Spoken, BodyKinds, WellMarked, StartsWithBegin, SameTokens, EndsLine,
         Drawn;
    BodyKindsContinue(m, full, news);
    var v := Judge(Scan(m, full));
    forall slice ensures KeepsSlice(m, full + news, slice, Printed(m, accumulator + news, slice)) {
      assert KeepsSlice(m, full, slice, Printed(m, accumulator, slice));
      PrintedContinues(m, full, news, slice);
      PrintedContinues(m, accumulator, news, slice);
      var more := if v.ended then [] else Spoken(Lex(m, news), v.phase, slice);
      DrawnGrows(Printed(m, full, slice), Printed(m, accumulator, slice), more);
      if !GivenUp(m, full, slice) {
        KeepsGrows(Printed(m, full, slice), Printed(m, accumulator, slice), more, RowLimit(slice), ByteLimit(slice));
      }
    }
  }

  // ----- Compaction -----

  /** A slice whose marker has not been printed has nothing in it. */
  function Opening(slice: Phase): Kind {
    match slice
    case InStdout => Begin
    case InValue => OutEnd
    case InError => Error
    case InBacktrace => Backtrace
  }

  lemma {:induction false} UnopenedIsEmpty(pieces: Pieces, phase: Phase, slice: Phase)
    requires slice != InStdout && phase != slice && Opening(slice) !in Kinds(pieces)
    ensures Spoken(pieces, phase, slice) == []
    decreases pieces
  {
    if pieces.Piece? && pieces.kind != End {
      assert Kinds(pieces) == [pieces.kind] + Kinds(pieces.next);
      UnopenedIsEmpty(pieces.next, PhaseAfter(pieces.kind, phase), slice);
    }
  }

  function Block(e: Extracted, slice: Phase): string {
    if slice == InBacktrace then TraceBlock(e.Slice(slice)) else TextBlock(e.Slice(slice))
  }

  /** The slices that compaction prints. */
  predicate Reprints(seen: Seen, slice: Phase) {
    match slice
    case InStdout => true
    case InValue => seen.outEnd && !seen.error
    case InError => seen.error
    case InBacktrace => seen.error && seen.backtrace
  }

  lemma CompactSpeaks(e: Extracted, seen: Seen, slice: Phase)
    ensures Spoken(CompactPieces(e, seen), InStdout, slice)
         == if Reprints(seen, slice) then Rows(Block(e, slice)) else []
  {
    hide Rows, TextBlock, TraceBlock, Spoken;
    NoRows();
    var output, value := TextBlock(e.stdoutText), TextBlock(e.valueRepr);
    var error, trace := TextBlock(e.errorMessage), TraceBlock(e.backtrace);
    if seen.error {
      if seen.backtrace {
        CloseSpeaks(trace, seen, InBacktrace, slice);
        PieceSpeaks(error, Backtrace, Close(trace, seen), InError, slice);
        PieceSpeaks(output, Error, Piece(error, Backtrace, Close(trace, seen)), InStdout, slice);
      } else {
        CloseSpeaks(error, seen, InError, slice);
        PieceSpeaks(output, Error, Close(error, seen), InStdout, slice);
      }
    } else if seen.outEnd {
      if seen.valEnd {
        CloseSpeaks("", seen, InStdout, slice);
        PieceSpeaks(value, ValEnd, Close("", seen), InValue, slice);
        PieceSpeaks(output, OutEnd, Piece(value, ValEnd, Close("", seen)), InStdout, slice);
      } else {
        CloseSpeaks(value, seen, InValue, slice);
        PieceSpeaks(output, OutEnd, Close(value, seen), InStdout, slice);
      }
    } else {
      CloseSpeaks(output, seen, InStdout, slice);
    }
  }

  lemma PieceSpeaks(segment: string, kind: Kind, next: Pieces, phase: Phase, slice: Phase)
    requires kind != End
    ensures var later := Spoken(next, PhaseAfter(kind, phase), slice);
      && Spoken(Piece(segment, kind, next), phase, slice) == (if phase == slice then Rows(segment) else []) + later
      && [] + later == later && (later == [] ==> Rows(segment) + later == Rows(segment))
  {
    hide Rows;
  }

  lemma CloseSpeaks(segment: string, seen: Seen, phase: Phase, slice: Phase)
    ensures Spoken(Close(segment, seen), phase, slice) == if phase == slice then Rows(segment) else []
  {
    hide Rows;
    assert Spoken(Close(segment, seen), phase, slice) == (if phase == slice then Rows(segment) else []) + [];
  }

  lemma BlockKeeps(e: Extracted, slice: Phase)
    requires '\r' !in e.Slice(slice)
    ensures Keeps(Rows(e.Slice(slice)), Rows(Block(e, slice)), RowLimit(slice), ByteLimit(slice))
  {
    hide Rows, Keeps, ToolTail, EndLine;
    var text := e.Slice(slice);
    if slice == InBacktrace {
      ToolTailKeeps(text, BACKTRACE_LINES, MAX_BACKTRACE_BYTES);
      RowsOfEndLine(ToolTail(text, BACKTRACE_LINES, MAX_BACKTRACE_BYTES));
    } else {
      ToolTailKeeps(text, TAIL_LINES, MAX_TEXT_BYTES);
      RowsOfEndLine(ToolTail(text, TAIL_LINES, MAX_TEXT_BYTES));
    }
  }

  lemma BlockDraws(all: seq<string>, e: Extracted, slice: Phase)
    requires '\r' !in e.Slice(slice) && Drawn(all, Rows(e.Slice(slice)))
    ensures Drawn(all, Rows(Block(e, slice)))
  {
    hide Rows, Drawn, ToolTail, EndLine;
    var text := e.Slice(slice);
    if slice == InBacktrace {
      ToolTailDraws(all, text, BACKTRACE_LINES, MAX_BACKTRACE_BYTES);
      RowsOfEndLine(ToolTail(text, BACKTRACE_LINES, MAX_BACKTRACE_BYTES));
    } else {
      ToolTailDraws(all, text, TAIL_LINES, MAX_TEXT_BYTES);
      RowsOfEndLine(ToolTail(text, TAIL_LINES, MAX_TEXT_BYTES));
    }
  }

  lemma NothingIsDrawn(all: seq<string>)
    ensures Drawn(all, [])
  {
  }

  /** Compaction reprints every slice that the history has opened, except a value that an error follows. */
  lemma OpenedIsReprinted(m: Marker, full: string, kept: seq<Kind>, slice: Phase)
    requires AfterBegin(m, full).Some? && InRuntimeOrder(BodyKinds(m, full)) && End !in BodyKinds(m, full)
    requires SameTokens(BodyKinds(m, full), kept) && !GivenUp(m, full, slice)
    requires slice != InStdout && Opening(slice) in BodyKinds(m, full)
    ensures Reprints(KindsSeen(kept), slice)
  {
    hide AfterBegin, Lex, Kinds, FromError, BodyKinds;
    var history := BodyKinds(m, full);
    if slice != InValue {
      ErrorComesFirst(history, Opening(slice));
      FromErrorIsShort(history);
      ErrorStaysIn(history);
    }
  }

  lemma ErrorComesFirst(kinds: seq<Kind>, kind: Kind)
    requires InRuntimeOrder(kinds) && kind in kinds && (kind == Error || kind == Backtrace)
    ensures Error in kinds
  {
    var i :| 0 <= i < |kinds| && kinds[i] == kind;
    assert MayFollow(KindBefore(kinds, i), kinds[i]);
    if kind == Backtrace {
      assert kinds[i - 1] in kinds;
    }
  }

  lemma PrintedCompact(m: Marker, e: Extracted, seen: Seen, slice: Phase)
    requires m.Apart() && m.Plain() && CleanSlices(m, e)
    ensures Printed(m, Compact(m, e, seen), slice) == if Reprints(seen, slice) then Rows(Block(e, slice)) else []
  {
    hide AfterBegin, Lex, Spoken, CompactPieces, Print, LinePieces, CleanSlices, Rows, Words.Apart, Words.Plain, Block;
    CompactPiecesAreLines(m, e, seen);
    LinePiecesParse(m, CompactPieces(e, seen));
    BeginLineFirst(m, Print(m, CompactPieces(e, seen)));
    CompactSpeaks(e, seen, slice);
  }

  lemma CompactCarries(m: Marker, full: string, accumulator: string, e: Extracted)
    requires m.Apart() && m.Plain() && RuntimeHistory(m, full) && StandsFor(m, full, accumulator)
    requires !Extract(m, full).foundEnd && CleanSlices(m, e) && Returns(m, full, e)
    ensures Carries(m, full, Compact(m, e, Sighted(m, accumulator)))
  {
    hide AfterBegin, Printed, Keeps, Scan, Lex, Rows, BodyKinds, WellMarked, StartsWithBegin, SameTokens, EndsLine,
         InRuntimeOrder, Compact, Block, GivenUp, Reprints, AtMostOnce, Judge, KindsSeen, Sighted, Drawn;
    var seen := Sighted(m, accumulator);
    OutcomeFromVerdict(m, full, accumulator);
    NotEndedMeansNoEnd(m, full);
    SightedIsParsed(m, accumulator);
    forall slice ensures KeepsSlice(m, full, slice, Printed(m, Compact(m, e, seen), slice)) {
      assert KeepsSlice(m, full, slice, Rows(e.Slice(slice)));
      PrintedCompact(m, e, seen, slice);
      NothingIsDrawn(Printed(m, full, slice));
      if Reprints(seen, slice) {
        CleanHasNoCr(m, e.Slice(slice));
        BlockDraws(Printed(m, full, slice), e, slice);
        BlockKeeps(e, slice);
        if !GivenUp(m, full, slice) {
          KeepsTwice(Printed(m, full, slice), Rows(e.Slice(slice)), Rows(Block(e, slice)),
                     RowLimit(slice), ByteLimit(slice));
        }
      } else if !GivenUp(m, full, slice) {
        NotReprintedIsEmpty(m, full, BodyKinds(m, accumulator), slice);
        NothingIsKept(Printed(m, Compact(m, e, seen), slice), RowLimit(slice), ByteLimit(slice));
      }
    }
  }

  lemma NotReprintedIsEmpty(m: Marker, full: string, kept: seq<Kind>, slice: Phase)
    requires AfterBegin(m, full).Some? && InRuntimeOrder(BodyKinds(m, full)) && End !in BodyKinds(m, full)
    requires SameTokens(BodyKinds(m, full), kept) && !GivenUp(m, full, slice) && !Reprints(KindsSeen(kept), slice)
    ensures Printed(m, full, slice) == []
  {
    hide AfterBegin, Lex, Spoken, Kinds, SameTokens, InRuntimeOrder, GivenUp, KindsSeen;
    if Opening(slice) in BodyKinds(m, full) {
      OpenedIsReprinted(m, full, kept, slice);
    } else {
      UnopenedIsEmpty(Lex(m, AfterBegin(m, full).value), InStdout, slice);
    }
  }

  lemma NothingIsKept(rows: seq<string>, maxRows: nat, maxBytes: nat)
    ensures Keeps([], rows, maxRows, maxBytes)
  {
    forall i: nat | i <= 0 ensures exists j: nat :: EndsWithRows(rows, [][i..], j) {
      assert EndsWithRows(rows, [][i..], |rows|);
    }
  }

  // ----- Whole runs -----

  /** What the loop holds and has read keeps the newest rows of the history's slices. */
  ghost predicate HoldsNewest(m: Marker, full: string, s: Screen) {
    (AfterBegin(m, full).Some? ==> Carries(m, full, s.accumulator)) && Returns(m, full, s.lastExtract)
  }

  lemma NothingPrinted(m: Marker, full: string)
    requires AfterBegin(m, full).None?
    ensures Returns(m, full, NOTHING)
  {
    hide Rows;
    NoRows();
    forall slice ensures KeepsSlice(m, full, slice, Rows(NOTHING.Slice(slice))) {
      NothingIsKept(Rows(NOTHING.Slice(slice)), RowLimit(slice), ByteLimit(slice));
    }
  }

  lemma FullReturns(m: Marker, full: string)
    requires '\r' !in full
    ensures Returns(m, full, Extract(m, full))
  {
    SameIsKept(m, full, full);
    CarriedIsReturned(m, full, full);
  }

  lemma TrimmedCarries(m: Marker, full: string)
    ensures Carries(m, full, full[TrimPoint(m, full)..])
  {
    hide TrimPoint, Carries;
    SkipLines(m, full, TrimPoint(m, full));
    SameIsKept(m, full, full[TrimPoint(m, full)..]);
  }

  lemma SettleHoldsNewest(m: Marker, full: string, s: Screen)
    requires m.Apart() && m.Plain() && RuntimeHistory(m, full) && Tracks(m, full, s)
    requires CleanSlices(m, s.lastExtract) && HoldsNewest(m, full, s)
    ensures HoldsNewest(m, full, Settle(m, s))
  {
    hide AfterBegin, WellMarked, AtMostOnce, EndsLine, Scan, Kinds, Lex, StartsWithBegin, SameTokens, Judge,
         Compact, Sighted, CleanSlices, InRuntimeOrder, DropPoint, Carries, Returns;
    FoundBeginMeans(m, full);
    if !s.lastExtract.foundEnd && |s.accumulator| > MAX_ACCUMULATOR_BYTES && s.lastExtract.foundBegin {
      CompactCarries(m, full, s.accumulator, s.lastExtract);
      CompactStandsFor(m, full, s.accumulator, s.lastExtract);
      CarriedIsReturned(m, full, Compact(m, s.lastExtract, Sighted(m, s.accumulator)));
    }
  }

  lemma LocatedHoldsNewest(m: Marker, before: string, s: Screen, cap: string)
    requires m.Apart() && m.Plain() && EndsLine(cap)
    requires RuntimeHistory(m, before) && RuntimeHistory(m, before + News(s.lastCapture, cap))
    requires Tracks(m, before, s) && HoldsNewest(m, before, s)
    ensures HoldsNewest(m, before + News(s.lastCapture, cap), Located(m, s, cap))
  {
    hide AfterBegin, WellMarked, AtMostOnce, EndsLine, Scan, Kinds, Lex, StartsWithBegin, SameTokens, Judge,
         InRuntimeOrder, News, Carries, Returns, TrimPoint;
    var news := News(s.lastCapture, cap);
    var full, spliced := before + news, Spliced(s.accumulator, s.lastCapture, cap);
    LocatedTracks(m, before, s, cap);
    SpliceEndsWith(before, s.lastCapture, cap);
    NewsIsSuffix(s.lastCapture, cap);
    if AfterBegin(m, full).None? {
      NothingBegun(m, before, news);
      SplicedIsSuffix(before, s.accumulator, s.lastCapture, cap);
      NothingYet(m, full, s, cap);
      NothingPrinted(m, full);
    } else if AfterBegin(m, before).None? {
      SplicedIsSuffix(before, s.accumulator, s.lastCapture, cap);
      SplicedHasNews(s.accumulator, s.lastCapture, cap);
      BeginArrives(m, before, news, s, cap);
      TrimmedCarries(m, full);
      FullReturns(m, full);
    } else {
      StartIsNotEmpty(m, s.accumulator);
      SplicedIsAppended(s.accumulator, s.lastCapture, cap);
      CarriedGrows(m, before, s.accumulator, news);
      FullReturns(m, full);
      CarriedIsReturned(m, full, spliced);
      CaptureReadsFull(m, full, cap);
    }
  }

  lemma NothingBegun(m: Marker, before: string, news: string)
    requires m.Apart() && m.Plain() && EndsLine(before) && AfterBegin(m, before + news).None?
    ensures AfterBegin(m, before).None?
  {
    hide AfterBegin, EndsLine, Extract, BodyKinds;
    if AfterBegin(m, before).Some? {
      BodyKindsContinue(m, before, news);
    }
  }

  lemma CaptureReadsFull(m: Marker, full: string, cap: string)
    requires RuntimeHistory(m, full) && EndsWith(full, cap) && AfterBegin(m, full).Some?
    ensures Extract(m, cap).foundBegin ==> Extract(m, cap) == Extract(m, full)
  {
    hide AfterBegin, Scan, WellMarked, EndsLine, AtMostOnce;
    FoundBeginMeans(m, cap);
    if AfterBegin(m, cap).Some? {
      assert full[0..] == full;
      CutsAgree(m, full, |full| - |cap|, 0);
    }
  }

  /**
   * However often a run compacts: of every slice the loop returns the newest rows, as far as they fit
   * the limits of one compaction, blank rows aside, and in front of them only notes and earlier rows in
   * order, one of them perhaps cut. Only a value that an error follows is given up.
   */
  lemma {:induction false} RunKeepsNewest(m: Marker, captures: seq<string>)
    requires m.Apart() && m.Plain() && forall cap | cap in captures :: EndsLine(cap)
    requires RuntimeHistory(m, History(captures))
    ensures HoldsNewest(m, History(captures), ScreenAfter(m, captures))
    decreases |captures|
  {
    hide RuntimeHistory, Tracks, Located, Settle, EndsLine, News, CleanSlices, HoldsNewest;
    if captures == [] {
      FreshHoldsNewest(m);
    } else {
      var n := |captures| - 1;
      var earlier, cap := captures[..n], captures[n];
      HistoryEndsLine(earlier);
      HistoryPrefix(m, History(earlier), News(LastOf(earlier), cap));
      RunTracks(m, earlier);
      RunKeepsNewest(m, earlier);
      LastCaptureIsLast(m, earlier);
      LocatedTracks(m, History(earlier), ScreenAfter(m, earlier), cap);
      LocatedHoldsNewest(m, History(earlier), ScreenAfter(m, earlier), cap);
      SettleHoldsNewest(m, History(captures), Located(m, ScreenAfter(m, earlier), cap));
    }
  }

  lemma FreshHoldsNewest(m: Marker)
    ensures HoldsNewest(m, "", FRESH)
  {
    hide Returns, Carries, AfterBegin;
    NothingBegins(m);
    NothingPrinted(m, "");
  }
}
