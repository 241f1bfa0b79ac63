/** Compaction keeps the verdict of every continuation, truncates each slice, and bounds the size. */
module CompactionLaws {
  import opened Text
  import opened Markers
  import opened Extraction
  import opened ExtractionLaws
  import opened LexLaws
  import opened Truncation
  import opened Runtime
  import opened Compaction

  // ----- Texts that cannot disturb the markers -----

  ghost predicate CleanText(m: Marker, text: string) {
    '\r' !in text && TokenFree(m, text)
  }

  ghost predicate CleanSlices(m: Marker, e: Extracted) {
    forall phase :: CleanText(m, e.Slice(phase))
  }

  /** A part of a clean text is clean. */
  lemma PartIsClean(m: Marker, before: string, part: string, after: string)
    requires CleanText(m, before + part + after)
    ensures CleanText(m, part)
  {
    hide OccursAt;
    var all := before + part + after;
    forall p: nat, kind ensures !TokenAt(m, part, p, kind) {
      assert !TokenAt(m, all, |before| + p, kind);
      if kind != Begin && OccursAt(part, m.Word(kind), p) {
        OccursInSuffix(before, part, m.Word(kind), p);
        OccurrenceFits(part, m.Word(kind), p);
        OccursInPrefix(before + part, after, m.Word(kind), |before| + p);
      }
    }
    forall c | c in part ensures c != '\r' {
      assert c in all;
    }
  }

  lemma SuffixIsClean(m: Marker, text: string, suffix: string)
    requires CleanText(m, text) && EndsWith(text, suffix)
    ensures CleanText(m, suffix)
  {
    hide CleanText;
    assert text[..|text| - |suffix|] + suffix + "" == text;
    PartIsClean(m, text[..|text| - |suffix|], suffix, "");
  }

  lemma PrefixIsClean(m: Marker, text: string, n: nat)
    requires CleanText(m, text) && n <= |text|
    ensures CleanText(m, text[..n])
  {
    hide CleanText;
    assert "" + text[..n] + text[n..] == text;
    PartIsClean(m, "", text[..n], text[n..]);
  }

  /** Whole clean lines can be put before anything clean. */
  lemma LinesJoinClean(m: Marker, lines: string, text: string)
    requires m.Plain() && EndsLine(lines) && CleanText(m, lines) && CleanText(m, text)
    ensures CleanText(m, lines + text)
  {
    hide OccursAt, EndsLine;
    NoTokenInLines(m, lines, text);
    forall p: nat, kind ensures !TokenAt(m, lines + text, p, kind) {
      if |lines| <= p {
        assert !TokenAt(m, text, p - |lines|, kind);
        OccursInSuffix(lines, text, m.Word(kind), p - |lines|);
      }
    }
  }

  /** Text without underscores, such as a note, can be put before anything clean. */
  lemma NoteJoinsClean(m: Marker, note: string, text: string)
    requires m.Plain() && IsNote(note) && CleanText(m, text)
    ensures CleanText(m, note + text)
  {
    hide OccursAt;
    forall p: nat, kind ensures !TokenAt(m, note + text, p, kind) {
      if |note| <= p {
        assert !TokenAt(m, text, p - |note|, kind);
        OccursInSuffix(note, text, m.Word(kind), p - |note|);
      } else {
        assert (note + text)[p] == note[p] != '_';
        WordBegins(note + text, m.Word(kind), p);
      }
    }
  }

  lemma WordBegins(text: string, word: string, p: nat)
    requires "_" <= word
    ensures OccursAt(text, word, p) ==> p < |text| && text[p] == '_'
  {
    if p + |word| <= |text| {
      assert text[p..p + |word|][0] == text[p];
    }
  }

  // ----- Extraction only ever yields clean slices -----

  /** What a segment contributes to a slice is clean, and so is the slice it is appended to. */
  lemma AppendKeepsClean(m: Marker, out: string, segment: string)
    requires m.Plain() && CleanText(m, out) && CleanText(m, segment)
    ensures CleanText(m, AppendSegment(out, segment))
  {
    hide OccursAt, TokenFree, DropCr;
    var text := SegmentText(segment);
    assert DropCr(segment) == segment;
    PrefixIsClean(m, segment, |text|);
    assert segment[..|text|] == text;
    if text != "" {
      if out != "" && out[|out| - 1] != '\n' {
        if text[0] == '\n' {
          LineBreakJoins(m, out, text);
        } else {
          NewlineIsClean(m);
          LineBreakJoins(m, out, "\n");
          LinesJoinClean(m, out + "\n", text);
        }
      } else {
        LinesJoinClean(m, out, text);
      }
    }
  }

  lemma NewlineIsClean(m: Marker)
    requires m.Plain()
    ensures CleanText(m, "\n")
  {
    hide OccursAt;
    forall p: nat, kind ensures !TokenAt(m, "\n", p, kind) {
      WordBegins("\n", m.Word(kind), p);
    }
  }

  /** A text that begins with a line break can follow any clean text. */
  lemma LineBreakJoins(m: Marker, text: string, next: string)
    requires m.Plain() && CleanText(m, text) && CleanText(m, next) && next != "" && next[0] == '\n'
    ensures CleanText(m, text + next)
  {
    hide OccursAt;
    forall p: nat, kind ensures !TokenAt(m, text + next, p, kind) {
      if |text| <= p {
        assert !TokenAt(m, next, p - |text|, kind);
        OccursInSuffix(text, next, m.Word(kind), p - |text|);
      } else {
        assert !TokenAt(m, text, p, kind);
        NoWordOverLineBreak(text, next, m.Word(kind), p);
      }
    }
  }

  lemma NoWordOverLineBreak(text: string, next: string, word: string, p: nat)
    requires '\n' !in word && p < |text| && next != "" && next[0] == '\n'
    ensures OccursAt(text + next, word, p) ==> OccursAt(text, word, p)
  {
    if p + |word| <= |text| {
      OccursInPrefix(text, next, word, p);
    } else if p + |word| <= |text| + |next| {
      assert (text + next)[p..p + |word|][|text| - p] == '\n';
    }
  }

  /** The segment before the first token, and a text without tokens, are clean. */
  lemma SegmentBeforeTokenIsClean(m: Marker, text: string)
    requires '\r' !in text
    ensures var t := FirstToken(m, text, 0);
      CleanText(m, if t.None? then text else text[..t.value.pos])
  {
    hide OccursAt, FirstToken;
    var t := FirstToken(m, text, 0);
    if t.Some? {
      var n := t.value.pos;
      forall p: nat, kind ensures !TokenAt(m, text[..n], p, kind) {
        assert text[..n] + text[n..] == text;
        if kind != Begin && OccursAt(text[..n], m.Word(kind), p) {
          OccurrenceFits(text[..n], m.Word(kind), p);
          assert m.Word(kind) != "" && (TokenAt(m, text, p, kind) ==> n <= p);
          OccursInPrefix(text[..n], text[n..], m.Word(kind), p);
        }
      }
    }
  }

  lemma RecordKeepsClean(m: Marker, e: Extracted, phase: Phase, segment: string)
    requires m.Plain() && CleanSlices(m, e) && CleanText(m, segment)
    ensures CleanSlices(m, e.Record(phase, segment))
  {
    hide CleanText, AppendSegment;
    AppendKeepsClean(m, e.Slice(phase), segment);
    var r := e.Record(phase, segment);
    forall other ensures CleanText(m, r.Slice(other)) {
      assert r.Slice(other) == if other == phase then AppendSegment(e.Slice(phase), segment) else e.Slice(other);
      assert CleanText(m, e.Slice(other));
    }
  }

  lemma {:induction false} InterpretKeepsClean(m: Marker, text: string, s: ScanState)
    requires m.Plain() && '\r' !in text && CleanSlices(m, s.result)
    ensures CleanSlices(m, Interpret(Lex(m, text), s).result)
    decreases |text|
  {
    hide OccursAt, FirstToken, CleanText, AppendSegment, SkipLineEnding, Extracted.Record;
    SegmentBeforeTokenIsClean(m, text);
    var t := FirstToken(m, text, 0);
    var segment := if t.None? then text else text[..t.value.pos];
    RecordKeepsClean(m, s.result, s.phase, segment);
    if t.Some? {
      var kind := t.value.kind;
      var next := Consume(s, segment, kind);
      assert forall phase :: next.result.Slice(phase) == s.result.Record(s.phase, segment).Slice(phase);
      if kind != End {
        InterpretKeepsClean(m, text[SkipLineEnding(text, t.value.pos + |m.Word(kind)|)..], next);
      }
    }
  }

  lemma ExtractedSlicesAreClean(m: Marker, c: string)
    requires m.Plain() && '\r' !in c
    ensures CleanSlices(m, Extract(m, c))
  {
    hide OccursAt, AfterBegin, Lex, Interpret;
    EmptyIsClean(m);
    if AfterBegin(m, c).Some? {
      InterpretKeepsClean(m, AfterBegin(m, c).value, BEGUN);
    }
  }

  lemma EmptyIsClean(m: Marker)
    ensures CleanText(m, "")
  {
  }

  // ----- Truncation keeps slices clean -----

  lemma TailIsClean(m: Marker, out: string, text: string)
    requires m.Plain() && CleanText(m, text) && IsTailOf(out, text)
    ensures CleanText(m, out)
  {
    hide CleanText;
    if out != text {
      var note, kept :| IsNotedSuffix(out, note, kept, text);
      SuffixIsClean(m, text, kept);
      NoteJoinsClean(m, note, kept);
    }
  }

  lemma ToolTailIsClean(m: Marker, text: string, maxLines: nat, maxBytes: nat)
    requires m.Plain() && CleanText(m, text) && 0 < maxLines && 0 < maxBytes
    ensures CleanText(m, ToolTail(text, maxLines, maxBytes))
    ensures CleanText(m, EndLine(ToolTail(text, maxLines, maxBytes)))
  {
    hide TokenFree, IsTailOf, TruncateLinesTail, TruncateBytesTail, DropFinalNewline;
    var lines := TruncateLinesTail(text, maxLines);
    BodyIsClean(m, text);
    LinesTailKeepsSuffix(text, maxLines);
    TailIsClean(m, lines, if IsTailOf(lines, text) then text else DropFinalNewline(text));
    BytesTailKeepsSuffix(lines, maxBytes);
    var tail := TruncateBytesTail(lines, maxBytes);
    TailIsClean(m, tail, lines);
    NewlineIsClean(m);
    LineBreakJoins(m, tail, "\n");
  }

  lemma BodyIsClean(m: Marker, text: string)
    requires CleanText(m, text)
    ensures CleanText(m, DropFinalNewline(text))
  {
    hide TokenFree;
    PrefixIsClean(m, text, |DropFinalNewline(text)|);
    assert text[..|DropFinalNewline(text)|] == DropFinalNewline(text);
  }

  // ----- Printing whole clean lines and parsing them back -----

  /** Every segment consists of whole clean lines; END only closes. */
  ghost predicate LinePieces(m: Marker, pieces: Pieces) {
    && EndsLine(pieces.segment) && CleanText(m, pieces.segment)
    && (pieces.Piece? ==>
          && pieces.kind != Begin
          && if pieces.kind == End then pieces.next == Last("") else LinePieces(m, pieces.next))
  }

  lemma LexAtToken(m: Marker, kind: Kind, rest: string)
    requires m.Apart() && kind != Begin
    ensures Lex(m, m.Word(kind) + ("\n" + rest)) == Piece("", kind, if kind == End then Last("") else Lex(m, rest))
  {
    hide OccursAt, FirstToken, SkipLineEnding;
    var text := m.Word(kind) + ("\n" + rest);
    WordAtStart(m.Word(kind), "\n" + rest);
    FirstTokenIs(m, text, 0, Token(0, kind));
    AroundPrinted("", m.Word(kind), rest);
    assert "" + text == text && text[..0] == "";
  }

  lemma {:induction false} LinePiecesParse(m: Marker, pieces: Pieces)
    requires m.Apart() && m.Plain() && LinePieces(m, pieces)
    ensures Lex(m, Print(m, pieces)) == pieces && EndsLine(Print(m, pieces))
    decreases pieces
  {
    hide OccursAt, Lex, FirstToken, EndsLine, TokenFree;
    match pieces {
      case Last(segment) =>
        LexTokenFree(m, segment);
      case Piece(segment, kind, next) =>
        var rest := Print(m, next);
        LexAfterLines(m, segment, m.Word(kind) + ("\n" + rest));
        LexAtToken(m, kind, rest);
        assert segment + "" == segment;
        if kind == End {
          PrintLast(m, "");
          ClosingLine(segment, m.Word(kind), "");
        } else {
          LinePiecesParse(m, next);
          ClosingLine(segment, m.Word(kind), rest);
        }
    }
  }

  lemma LexTokenFree(m: Marker, text: string)
    requires TokenFree(m, text)
    ensures Lex(m, text) == Last(text)
  {
  }

  lemma ClosingLine(a: string, b: string, rest: string)
    requires EndsLine(rest)
    ensures EndsLine(a + (b + ("\n" + rest)))
  {
  }

  lemma CompactPiecesAreLines(m: Marker, e: Extracted, seen: Seen)
    requires m.Plain() && CleanSlices(m, e)
    ensures LinePieces(m, CompactPieces(e, seen))
  {
    hide CleanText, EndsLine, ToolTail, EndLine;
    forall phase ensures CleanText(m, TextBlock(e.Slice(phase))) && CleanText(m, TraceBlock(e.Slice(phase))) {
      assert CleanText(m, e.Slice(phase));
      ToolTailIsClean(m, e.Slice(phase), TAIL_LINES, MAX_TEXT_BYTES);
      ToolTailIsClean(m, e.Slice(phase), BACKTRACE_LINES, MAX_BACKTRACE_BYTES);
    }
    assert CleanText(m, TextBlock(e.Slice(InStdout))) && CleanText(m, TextBlock(e.Slice(InValue)));
    assert CleanText(m, TextBlock(e.Slice(InError))) && CleanText(m, TraceBlock(e.Slice(InBacktrace)));
    assert CleanText(m, "") by { EmptyIsClean(m); }
    assert EndsLine("") by { EndsLineMeans(""); }
    assert LinePieces(m, Last(""));
    forall segment | CleanText(m, segment) && EndsLine(segment) ensures LinePieces(m, Close(segment, seen)) {
    }
  }

  /** What compaction prints is parsed into exactly the pieces it was printed from. */
  lemma CompactParses(m: Marker, e: Extracted, seen: Seen)
    requires m.Apart() && m.Plain() && CleanSlices(m, e)
    ensures Scan(m, Compact(m, e, seen)) == Interpret(CompactPieces(e, seen), BEGUN)
    ensures Extract(m, Compact(m, e, seen)) == Interpret(CompactPieces(e, seen), BEGUN).result
    ensures AfterBegin(m, Compact(m, e, seen)).Some? && EndsLine(Compact(m, e, seen))
  {
    hide AfterBegin, Lex, Interpret, Print, CompactPieces, LinePieces, EndsLine, CleanSlices;
    var pieces := CompactPieces(e, seen);
    CompactPiecesAreLines(m, e, seen);
    LinePiecesParse(m, pieces);
    BeginLineFirst(m, Print(m, pieces));
    ClosingLine("", m.Word(Begin), Print(m, pieces));
    assert "" + (m.Word(Begin) + ("\n" + Print(m, pieces))) == Compact(m, e, seen);
  }

  // ----- The verdict -----

  function SeenPhase(seen: Seen): Phase {
    if seen.error then (if seen.backtrace then InBacktrace else InError)
    else if seen.outEnd && !seen.valEnd then InValue
    else InStdout
  }

  /** The markers sighted anywhere in the accumulator tell what parsing it has concluded. */
  predicate FlagsAgree(seen: Seen, v: Verdict) {
    v.begun && seen.end == v.ended && seen.error == v.error && SeenPhase(seen) == v.phase
  }

  lemma CompactVerdict(m: Marker, e: Extracted, seen: Seen)
    requires m.Apart() && m.Plain() && CleanSlices(m, e)
    ensures Judge(Scan(m, Compact(m, e, seen))) == Verdict(true, seen.end, seen.error, SeenPhase(seen))
  {
    hide AfterBegin, Lex, Interpret, TextBlock, TraceBlock, CleanSlices, Scan, Compact, JudgePieces;
    CompactParses(m, e, seen);
    var pieces := CompactPieces(e, seen);
    JudgeInterpret(pieces, BEGUN);
    CompactPiecesVerdict(e, seen);
  }

  lemma CompactPiecesVerdict(e: Extracted, seen: Seen)
    ensures JudgePieces(CompactPieces(e, seen), OPEN) == Verdict(true, seen.end, seen.error, SeenPhase(seen))
  {
    hide TextBlock, TraceBlock;
    var pieces := CompactPieces(e, seen);
    if pieces.Piece? && pieces.kind != End {
      var v := Pass(OPEN, pieces.kind);
      assert JudgePieces(pieces, OPEN) == JudgePieces(pieces.next, v);
      if pieces.next.Piece? && pieces.next.kind != End {
        assert JudgePieces(pieces.next, v) == JudgePieces(pieces.next.next, Pass(v, pieces.next.kind));
      }
    }
  }

  /**
   * Compaction keeps the verdict of every continuation of an accumulator that ends a line, if and
   * only if the markers sighted in the accumulator agree with what parsing it has concluded.
   */
  lemma CompactionKeepsVerdict(m: Marker, acc: string, e: Extracted, seen: Seen)
    requires m.Apart() && m.Plain() && EndsLine(acc) && AfterBegin(m, acc).Some? && CleanSlices(m, e)
    ensures FlagsAgree(seen, Judge(Scan(m, acc)))
       <==> forall rest :: Judge(Scan(m, Compact(m, e, seen) + rest)) == Judge(Scan(m, acc + rest))
  {
    hide AfterBegin, Scan, Compact, Judge, CleanSlices, Lex, JudgePieces, EndsLine;
    var compact := Compact(m, e, seen);
    CompactParses(m, e, seen);
    CompactVerdict(m, e, seen);
    JudgeScan(m, acc);
    BegunMeans(m, acc);
    forall rest
      ensures var w, v := Judge(Scan(m, acc)), Judge(Scan(m, compact));
        && Judge(Scan(m, acc + rest)) == (if w.ended then w else JudgePieces(Lex(m, rest), w))
        && Judge(Scan(m, compact + rest)) == (if v.ended then v else JudgePieces(Lex(m, rest), v))
    {
      VerdictContinues(m, acc, rest);
      VerdictContinues(m, compact, rest);
    }
    if forall rest :: Judge(Scan(m, compact + rest)) == Judge(Scan(m, acc + rest)) {
      assert Judge(Scan(m, compact + "")) == Judge(Scan(m, acc + ""));
      assert compact + "" == compact && acc + "" == acc;
    }
  }

  lemma BegunMeans(m: Marker, c: string)
    ensures Judge(Scan(m, c)).begun <==> AfterBegin(m, c).Some?
  {
    hide AfterBegin, Lex;
    if AfterBegin(m, c).Some? {
      JudgeInterpret(Lex(m, AfterBegin(m, c).value), BEGUN);
      BegunStays(Lex(m, AfterBegin(m, c).value), OPEN);
    }
  }

  lemma {:induction false} BegunStays(pieces: Pieces, v: Verdict)
    ensures JudgePieces(pieces, v).begun == v.begun
    decreases pieces
  {
    if pieces.Piece? && pieces.kind != End {
      BegunStays(pieces.next, Pass(v, pieces.kind));
    }
  }

  // ----- Runtime order -----

  /** The kinds of the tokens a parse has met. */
  function Kinds(pieces: Pieces): seq<Kind> {
    match pieces
    case Last(_) => []
    case Piece(_, kind, next) => [kind] + if kind == End then [] else Kinds(next)
  }

  /** Which marker the runtime can print next. The `catch` block can be entered late and left early. */
  predicate MayFollow(before: Kind, kind: Kind) {
    match before
    case Begin => kind == OutEnd || kind == Error
    case OutEnd => kind == ValEnd || kind == Error
    case ValEnd => kind == Error || kind == End
    case Error => kind == Backtrace || kind == End
    case Backtrace => kind == End
    case End => false
  }

  function KindBefore(kinds: seq<Kind>, i: nat): Kind
    requires i <= |kinds|
  {
    if i == 0 then Begin else kinds[i - 1]
  }

  /** Markers in an order in which the runtime can have printed them so far. */
  predicate InRuntimeOrder(kinds: seq<Kind>) {
    forall i | 0 <= i < |kinds| :: MayFollow(KindBefore(kinds, i), kinds[i])
  }

  function Rank(kind: Kind): nat {
    match kind
    case Begin => 0
    case OutEnd => 1
    case ValEnd => 2
    case Error => 3
    case Backtrace => 4
    case End => 5
  }

  /** The runtime prints no kind twice and none after a later one. */
  lemma {:induction false} RanksIncrease(kinds: seq<Kind>, i: nat, j: nat)
    requires InRuntimeOrder(kinds) && i < j < |kinds|
    ensures Rank(kinds[i]) < Rank(kinds[j])
    decreases j
  {
    assert MayFollow(KindBefore(kinds, j), kinds[j]);
    if i < j - 1 {
      RanksIncrease(kinds, i, j - 1);
    }
  }

  /** Every marker is printed at the end of a line, so no two of them overlap. */
  ghost predicate WellMarked(m: Marker, text: string) {
    forall p: nat, kind | TokenAt(m, text, p, kind) ::
      p + |m.Word(kind)| < |text| && text[p + |m.Word(kind)|] == '\n'
  }

  function KindsSeen(kinds: seq<Kind>): Seen {
    Seen(OutEnd in kinds, ValEnd in kinds, Error in kinds, Backtrace in kinds, End in kinds)
  }

  lemma {:induction false} JudgeByKinds(pieces: Pieces, v: Verdict)
    ensures JudgePieces(pieces, v) == JudgeKinds(Kinds(pieces), v)
    decreases pieces
  {
    if pieces.Piece? {
      assert Kinds(pieces)[1..] == if pieces.kind == End then [] else Kinds(pieces.next);
      if pieces.kind != End {
        JudgeByKinds(pieces.next, Pass(v, pieces.kind));
      }
    }
  }

  function JudgeKinds(kinds: seq<Kind>, v: Verdict): Verdict {
    if kinds == [] then v
    else if kinds[0] == End then v.(ended := true)
    else JudgeKinds(kinds[1..], Pass(v, kinds[0]))
  }

  lemma {:induction false} JudgeOneMore(kinds: seq<Kind>, kind: Kind, v: Verdict)
    requires End !in kinds
    ensures var w := JudgeKinds(kinds, v);
      JudgeKinds(kinds + [kind], v) == if kind == End then w.(ended := true) else Pass(w, kind)
    decreases |kinds|
  {
    if kinds == [] {
      assert kinds + [kind] == [kind];
    } else {
      assert (kinds + [kind])[1..] == kinds[1..] + [kind];
      JudgeOneMore(kinds[1..], kind, Pass(v, kinds[0]));
    }
  }

  lemma SeenOneMore(kinds: seq<Kind>, kind: Kind)
    ensures var seen := KindsSeen(kinds);
      KindsSeen(kinds + [kind]) == match kind
        case OutEnd => seen.(outEnd := true)
        case ValEnd => seen.(valEnd := true)
        case Error => seen.(error := true)
        case Backtrace => seen.(backtrace := true)
        case End => seen.(end := true)
        case Begin => seen
  {
  }

  /** In runtime order, which markers were met determines the verdict. */
  lemma {:induction false} OrderDeterminesVerdict(kinds: seq<Kind>)
    requires InRuntimeOrder(kinds)
    ensures FlagsAgree(KindsSeen(kinds), JudgeKinds(kinds, OPEN))
    decreases |kinds|
  {
    if kinds != [] {
      var n := |kinds| - 1;
      var earlier, kind := kinds[..n], kinds[n];
      assert kinds == earlier + [kind];
      forall i | 0 <= i < n ensures Rank(earlier[i]) < Rank(kind) {
        RanksIncrease(kinds, i, n);
      }
      assert forall i | 0 <= i < n :: KindBefore(earlier, i) == KindBefore(kinds, i);
      assert MayFollow(KindBefore(kinds, n), kind);
      OrderDeterminesVerdict(earlier);
      JudgeOneMore(earlier, kind, OPEN);
      SeenOneMore(earlier, kind);
    }
  }

  lemma SuffixIsWellMarked(m: Marker, text: string, cut: nat)
    requires WellMarked(m, text) && cut <= |text|
    ensures WellMarked(m, text[cut..])
  {
    hide OccursAt;
    var rest := text[cut..];
    forall p: nat, kind | TokenAt(m, rest, p, kind)
      ensures p + |m.Word(kind)| < |rest| && rest[p + |m.Word(kind)|] == '\n'
    {
      OccursShift(text, cut, m.Word(kind), p);
      assert TokenAt(m, text, cut + p, kind);
      assert rest[p + |m.Word(kind)|] == text[cut + p + |m.Word(kind)|];
    }
  }

  /** In a well-marked text no token starts inside another token or its line end. */
  lemma TokensAreApart(m: Marker, text: string, p: nat, kind: Kind, q: nat, other: Kind)
    requires m.Apart() && m.Plain() && WellMarked(m, text)
    requires TokenAt(m, text, p, kind) && TokenAt(m, text, q, other) && p <= q
    ensures (p == q && kind == other) || p + |m.Word(kind)| < q
  {
    hide OccursAt;
    var stop := p + |m.Word(kind)|;
    if q <= stop {
      if q + |m.Word(other)| <= stop {
        OccurrencesNeverNest(m, text, p, kind, q, other);
      } else {
        WordHasNoLineBreak(text, m.Word(other), q, stop);
      }
    }
  }

  lemma WordHasNoLineBreak(text: string, word: string, p: nat, i: nat)
    requires '\n' !in word && OccursAt(text, word, p) && p <= i < p + |word|
    ensures text[i] != '\n'
  {
    assert text[p..p + |word|][i - p] == text[i];
  }

  /** Parsing a well-marked text without END meets exactly the markers a search would sight. */
  lemma {:induction false} TokensAreLexed(m: Marker, text: string, kind: Kind)
    requires m.Apart() && m.Plain() && WellMarked(m, text) && !Ends(Lex(m, text)) && kind != Begin
    ensures Occurs(text, m.Word(kind)) <==> kind in Kinds(Lex(m, text))
    decreases |text|
  {
    hide OccursAt, FirstToken, WellMarked, SkipLineEnding;
    var t := FirstToken(m, text, 0);
    if t.None? {
      NoTokenNoOccurrence(m, text, kind);
    } else {
      var first := t.value;
      var stop := first.pos + |m.Word(first.kind)|;
      WellMarkedAt(m, text, first);
      var rest := text[stop + 1..];
      SkipNewline(text, stop);
      SuffixIsWellMarked(m, text, stop + 1);
      TokensAreLexed(m, rest, kind);
      if Occurs(text, m.Word(kind)) {
        var p: nat :| OccursAt(text, m.Word(kind), p);
        assert TokenAt(m, text, p, kind);
        TokensAreApart(m, text, first.pos, first.kind, p, kind);
        if stop < p {
          OccursShift(text, stop + 1, m.Word(kind), p - (stop + 1));
        }
      }
      if Occurs(rest, m.Word(kind)) {
        var p: nat :| OccursAt(rest, m.Word(kind), p);
        OccursShift(text, stop + 1, m.Word(kind), p);
      }
    }
  }

  lemma NoTokenNoOccurrence(m: Marker, text: string, kind: Kind)
    requires FirstToken(m, text, 0).None? && kind != Begin
    ensures !Occurs(text, m.Word(kind))
  {
    hide OccursAt, FirstToken;
    forall p: nat ensures !OccursAt(text, m.Word(kind), p) {
      assert !TokenAt(m, text, p, kind);
    }
  }

  lemma SkipNewline(text: string, p: nat)
    requires p < |text| && text[p] == '\n'
    ensures SkipLineEnding(text, p) == p + 1
  {
  }

  lemma WellMarkedAt(m: Marker, text: string, t: Token)
    requires WellMarked(m, text) && TokenAt(m, text, t.pos, t.kind)
    ensures t.pos + |m.Word(t.kind)| < |text| && text[t.pos + |m.Word(t.kind)|] == '\n'
  {
  }

  // ----- An accumulator that starts with its BEGIN line -----

  /** The state that trimming establishes. */
  predicate StartsWithBegin(m: Marker, acc: string) {
    Trim(acc[..LineEnd(acc, 0)]) == m.Word(Begin)
  }

  /** No other marker word stands in the BEGIN line. */
  lemma BeginLineHasNoToken(m: Marker, line: string, p: nat, kind: Kind)
    requires m.Apart() && m.Plain() && Trim(line) == m.Word(Begin) && OccursAt(line, m.Word(kind), p)
    ensures kind == Begin
  {
    hide Trim, OccursAt;
    var left, right := TrimSplits(line);
    var w, begin := m.Word(kind), m.Word(Begin);
    assert Trimmed(w) && w != "";
    CoreOccurrence(left, begin, right, w, p);
    OccursNested(line, begin, |left|, w, p);
    assert OccursAt(begin, m.Word(kind), p - |left|);
  }

  /** A trimmed word inside a text with blank margins stands in its core. */
  lemma CoreOccurrence(left: string, core: string, right: string, word: string, p: nat)
    requires AllBlank(left) && AllBlank(right) && Trimmed(word) && word != ""
    requires OccursAt(left + core + right, word, p)
    ensures OccursAt(left + core + right, core, |left|)
    ensures |left| <= p && p + |word| <= |left| + |core|
  {
    var text := left + core + right;
    assert text[|left|..|left| + |core|] == core;
    assert word[0] == text[p..p + |word|][0] == text[p];
    assert word[|word| - 1] == text[p..p + |word|][|word| - 1] == text[p + |word| - 1];
  }

  lemma TokensAreInBody(m: Marker, acc: string, kind: Kind)
    requires m.Apart() && m.Plain() && StartsWithBegin(m, acc) && kind != Begin
    ensures AfterBegin(m, acc).Some?
    ensures Occurs(acc, m.Word(kind)) <==> Occurs(AfterBegin(m, acc).value, m.Word(kind))
  {
    hide OccursAt, LineEnd, Trim;
    var e, w := LineEnd(acc, 0), m.Word(kind);
    var cut := if e == |acc| then e else e + 1;
    var body := acc[cut..];
    assert AfterBegin(m, acc) == Some(body);
    if Occurs(body, w) {
      var p: nat :| OccursAt(body, w, p);
      OccursShift(acc, cut, w, p);
    }
    if Occurs(acc, w) {
      var p: nat :| OccursAt(acc, w, p);
      OccurrenceFits(acc, w, p);
      assert w != "";
      if p + |w| <= e {
        OccursInPrefix(acc[..e], acc[e..], w, p);
        assert acc[..e] + acc[e..] == acc;
        BeginLineHasNoToken(m, acc[..e], p, kind);
      } else {
        if p <= e { WordHasNoLineBreak(acc, w, p, e); }
        OccursShift(acc, cut, w, p - cut);
      }
    }
  }

  /** The kinds of the tokens read after the BEGIN line. */
  function BodyKinds(m: Marker, c: string): seq<Kind>
    requires AfterBegin(m, c).Some?
  {
    Kinds(Lex(m, AfterBegin(m, c).value))
  }

  /** Searching a well-marked accumulator for the markers sights exactly those its parse has met. */
  lemma SightedIsParsed(m: Marker, acc: string)
    requires m.Apart() && m.Plain() && StartsWithBegin(m, acc) && WellMarked(m, acc)
    requires AfterBegin(m, acc).Some? && !Extract(m, acc).foundEnd
    ensures Sighted(m, acc) == KindsSeen(BodyKinds(m, acc))
  {
    hide OccursAt, LineEnd, Trim, AfterBegin, Lex, Interpret, WellMarked, StartsWithBegin;
    var body := AfterBegin(m, acc).value;
    var pieces := Lex(m, body);
    SuffixIsWellMarked(m, acc, |acc| - |body|);
    FoundEndMeansEnds(pieces, BEGUN);
    forall kind | kind != Begin ensures Find(acc, m.Word(kind), 0).Some? <==> kind in Kinds(pieces) {
      TokensAreInBody(m, acc, kind);
      TokensAreLexed(m, body, kind);
      FindMeansOccurs(acc, m.Word(kind));
    }
  }

  /** The flags the poll loop computes agree with the parse of every accumulator in runtime order. */
  lemma RuntimeOrderAgrees(m: Marker, acc: string)
    requires m.Apart() && m.Plain() && StartsWithBegin(m, acc) && WellMarked(m, acc)
    requires AfterBegin(m, acc).Some? && !Extract(m, acc).foundEnd && InRuntimeOrder(BodyKinds(m, acc))
    ensures FlagsAgree(Sighted(m, acc), Judge(Scan(m, acc)))
  {
    hide *;
    SightedIsParsed(m, acc);
    OrderDeterminesVerdict(BodyKinds(m, acc));
    VerdictByKinds(m, acc);
  }

  lemma VerdictByKinds(m: Marker, c: string)
    requires AfterBegin(m, c).Some?
    ensures Judge(Scan(m, c)) == JudgeKinds(BodyKinds(m, c), OPEN)
  {
    hide AfterBegin, Lex, Scan, Judge, JudgePieces, Kinds;
    JudgeByKinds(Lex(m, AfterBegin(m, c).value), OPEN);
    JudgeScan(m, c);
  }

  lemma FindMeansOccurs(text: string, word: string)
    ensures Find(text, word, 0).Some? <==> Occurs(text, word)
  {
  }

  // ----- Slices and size -----

  lemma SegmentOfBlock(text: string)
    requires '\r' !in EndLine(text)
    ensures SegmentText(EndLine(text)) == DropFinalNewline(text)
  {
    assert DropCr(EndLine(text)) == EndLine(text);
  }

  /** The tail of a slice, without its final newline. */
  function KeptText(text: string): string {
    DropFinalNewline(ToolTail(text, TAIL_LINES, MAX_TEXT_BYTES))
  }

  function KeptTrace(text: string): string {
    DropFinalNewline(ToolTail(text, BACKTRACE_LINES, MAX_BACKTRACE_BYTES))
  }

  /**
   * Reading a compacted accumulator back gives each slice as its truncated tail, up to one final
   * newline. After an error the value slice is not printed and is lost.
   */
  lemma CompactionTruncatesSlices(m: Marker, e: Extracted, seen: Seen)
    requires m.Apart() && m.Plain() && CleanSlices(m, e)
    ensures var r := Extract(m, Compact(m, e, seen));
      && r.stdoutText == KeptText(e.stdoutText)
      && r.valueRepr == (if seen.outEnd && !seen.error then KeptText(e.valueRepr) else "")
      && r.errorMessage == (if seen.error then KeptText(e.errorMessage) else "")
      && r.backtrace == (if seen.error && seen.backtrace then KeptTrace(e.backtrace) else "")
  {
    hide *;
    CompactParses(m, e, seen);
    CleanSlicesMean(m, e);
    SegmentOfCleanBlock(m, e.stdoutText);
    SegmentOfCleanBlock(m, e.valueRepr);
    SegmentOfCleanBlock(m, e.errorMessage);
    SegmentOfCleanBlock(m, e.backtrace);
    CompactSlices(e, seen);
  }

  lemma CleanSlicesMean(m: Marker, e: Extracted)
    requires CleanSlices(m, e)
    ensures CleanText(m, e.stdoutText) && CleanText(m, e.valueRepr)
    ensures CleanText(m, e.errorMessage) && CleanText(m, e.backtrace)
  {
    hide CleanText;
    assert CleanText(m, e.Slice(InStdout)) && CleanText(m, e.Slice(InValue));
    assert CleanText(m, e.Slice(InError)) && CleanText(m, e.Slice(InBacktrace));
  }

  lemma SegmentOfCleanBlock(m: Marker, text: string)
    requires m.Plain() && CleanText(m, text)
    ensures SegmentText(TextBlock(text)) == KeptText(text)
    ensures SegmentText(TraceBlock(text)) == KeptTrace(text)
  {
    hide ToolTail, CleanText, EndLine, DropFinalNewline, SegmentText;
    ToolTailIsClean(m, text, TAIL_LINES, MAX_TEXT_BYTES);
    ToolTailIsClean(m, text, BACKTRACE_LINES, MAX_BACKTRACE_BYTES);
    CleanHasNoCr(m, TextBlock(text));
    CleanHasNoCr(m, TraceBlock(text));
    SegmentOfBlock(ToolTail(text, TAIL_LINES, MAX_TEXT_BYTES));
    SegmentOfBlock(ToolTail(text, BACKTRACE_LINES, MAX_BACKTRACE_BYTES));
  }

  lemma CleanHasNoCr(m: Marker, text: string)
    requires CleanText(m, text)
    ensures '\r' !in text
  {
  }

  /** Which block ends up in which slice. */
  lemma CompactSlices(e: Extracted, seen: Seen)
    ensures var r := Interpret(CompactPieces(e, seen), BEGUN).result;
      && r.stdoutText == SegmentText(TextBlock(e.stdoutText))
      && r.valueRepr == (if seen.outEnd && !seen.error then SegmentText(TextBlock(e.valueRepr)) else "")
      && r.errorMessage == (if seen.error then SegmentText(TextBlock(e.errorMessage)) else "")
      && r.backtrace == (if seen.error && seen.backtrace then SegmentText(TraceBlock(e.backtrace)) else "")
  {
    hide AppendSegment, TextBlock, TraceBlock, SegmentText;
    AppendToEmpty(TextBlock(e.stdoutText));
    AppendToEmpty(TextBlock(e.valueRepr));
    AppendToEmpty(TextBlock(e.errorMessage));
    AppendToEmpty(TraceBlock(e.backtrace));
    AppendNothing(SegmentText(TextBlock(e.stdoutText)));
    var pieces := CompactPieces(e, seen);
    if pieces.Piece? && pieces.kind != End {
      var s := Consume(BEGUN, pieces.segment, pieces.kind);
      assert Interpret(pieces, BEGUN) == Interpret(pieces.next, s);
      if pieces.next.Piece? && pieces.next.kind != End {
        var t := Consume(s, pieces.next.segment, pieces.next.kind);
        assert Interpret(pieces.next, s) == Interpret(pieces.next.next, t);
      }
    }
  }

  // ----- Slices of a compacted accumulator that grows -----

  /** The segment still open at the end of the pieces. */
  function OpenSegment(pieces: Pieces): string {
    if pieces.Last? then pieces.segment else OpenSegment(pieces.next)
  }

  /** What the closed segments of the pieces come to. */
  function Closed(pieces: Pieces, s: ScanState): ScanState {
    if pieces.Last? then s else Closed(pieces.next, Consume(s, pieces.segment, pieces.kind))
  }

  lemma {:induction false} InterpretGraft(first: Pieces, second: Pieces, s: ScanState)
    ensures Interpret(Graft(first, second), s) ==
      if Ends(first) then Interpret(first, s) else Interpret(AddFront(OpenSegment(first), second), Closed(first, s))
    decreases first
  {
    if first.Piece? && first.kind != End {
      InterpretGraft(first.next, second, Consume(s, first.segment, first.kind));
    }
  }

  /** The block of the slice that is still open. */
  function OpenBlock(e: Extracted, seen: Seen): string {
    if seen.error then (if seen.backtrace then TraceBlock(e.backtrace) else TextBlock(e.errorMessage))
    else if !seen.outEnd then TextBlock(e.stdoutText)
    else if seen.valEnd then ""
    else TextBlock(e.valueRepr)
  }

  /** The slices already closed: kept tails. The open one begins anew, with its block in front of what follows. */
  predicate ClosedSlices(e: Extracted, seen: Seen, r: Extracted) {
    && r.foundBegin && !r.foundEnd && r.juliaError == seen.error
    && r.stdoutText == (if seen.error || seen.outEnd then KeptText(e.stdoutText) else "")
    && r.valueRepr == (if seen.outEnd && seen.valEnd && !seen.error then KeptText(e.valueRepr) else "")
    && r.errorMessage == (if seen.error && seen.backtrace then KeptText(e.errorMessage) else "")
    && r.backtrace == ""
  }

  /**
   * With any further output, reading a compacted accumulator that has not ended goes on from the
   * kept tails of the closed slices, and the open slice takes up the output behind its own kept block.
   */
  lemma CompactionContinues(m: Marker, e: Extracted, seen: Seen, rest: string)
    requires m.Apart() && m.Plain() && CleanSlices(m, e)
    ensures var s := Closed(CompactPieces(e, seen), BEGUN);
      && (seen.end ==> Scan(m, Compact(m, e, seen) + rest) == Scan(m, Compact(m, e, seen)))
      && (!seen.end ==>
            && Scan(m, Compact(m, e, seen) + rest) == Interpret(AddFront(OpenBlock(e, seen), Lex(m, rest)), s)
            && ClosedSlices(e, seen, s.result) && s.phase == SeenPhase(seen))
  {
    hide AfterBegin, Lex, Interpret, Graft, Closed, OpenBlock, CompactPieces, Print, LinePieces, CleanSlices, Ends,
         ClosedSlices, EndsLine, AddFront, SeenPhase, OpenSegment, Words.Apart, Words.Plain;
    var pieces := CompactPieces(e, seen);
    CompactPiecesAreLines(m, e, seen);
    LinePiecesParse(m, pieces);
    BeginLineFirst(m, Print(m, pieces));
    BeginLineFirst(m, Print(m, pieces) + rest);
    assert Compact(m, e, seen) + rest == m.Word(Begin) + ("\n" + (Print(m, pieces) + rest));
    LexConcat(m, Print(m, pieces), rest);
    InterpretGraft(pieces, Lex(m, rest), BEGUN);
    CompactEnds(e, seen);
    if !seen.end {
      ClosedIsKept(m, e, seen);
    }
  }

  lemma CompactEnds(e: Extracted, seen: Seen)
    ensures Ends(CompactPieces(e, seen)) <==> seen.end
    ensures !seen.end ==> OpenSegment(CompactPieces(e, seen)) == OpenBlock(e, seen)
  {
    hide TextBlock, TraceBlock;
    var pieces := CompactPieces(e, seen);
    assert pieces.Piece? && pieces.next.Piece? ==>
      Ends(pieces.next) == (pieces.next.kind == End || Ends(pieces.next.next));
    assert pieces.Piece? && pieces.next.Piece? ==> OpenSegment(pieces.next) == OpenSegment(pieces.next.next);
  }

  lemma ClosedOne(s: ScanState, a: string, kind: Kind, open: string)
    ensures Closed(Piece(a, kind, Last(open)), s) == Consume(s, a, kind)
  {
    hide Consume;
    assert Closed(Last(open), Consume(s, a, kind)) == Consume(s, a, kind);
  }

  /** Consuming a block fills an empty slice with the kept tail and leaves the others. */
  lemma BlockFills(m: Marker, s: ScanState, text: string, kind: Kind)
    requires m.Plain() && CleanText(m, text) && kind != End && s.phase != InBacktrace && s.result.Slice(s.phase) == ""
    ensures var t := Consume(s, TextBlock(text), kind);
      && t.phase == PhaseAfter(kind, s.phase) && t.result.juliaError == (s.result.juliaError || kind == Error)
      && t.result.foundBegin == s.result.foundBegin && t.result.foundEnd == s.result.foundEnd
      && forall slice :: t.result.Slice(slice) == if slice == s.phase then KeptText(text) else s.result.Slice(slice)
  {
    hide AppendSegment, TextBlock, SegmentText, KeptText, CleanText, Words.Plain;
    SegmentOfCleanBlock(m, text);
    AppendToEmpty(TextBlock(text));
  }

  lemma ClosedIsKept(m: Marker, e: Extracted, seen: Seen)
    requires m.Plain() && CleanSlices(m, e) && !seen.end
    ensures var s := Closed(CompactPieces(e, seen), BEGUN);
      ClosedSlices(e, seen, s.result) && s.phase == SeenPhase(seen)
  {
    hide Consume, TextBlock, TraceBlock, CleanText, CleanSlices, KeptText, Words.Plain, Closed;
    CleanSlicesMean(m, e);
    var kind := if seen.error then Error else OutEnd;
    BlockFills(m, BEGUN, e.stdoutText, kind);
    var s := Consume(BEGUN, TextBlock(e.stdoutText), kind);
    SlicesOf(BEGUN.result);
    SlicesOf(s.result);
    if seen.error && seen.backtrace {
      BlockFills(m, s, e.errorMessage, Backtrace);
      SlicesOf(Consume(s, TextBlock(e.errorMessage), Backtrace).result);
      ClosedTwo(TextBlock(e.stdoutText), Error, TextBlock(e.errorMessage), Backtrace, TraceBlock(e.backtrace));
    } else if seen.error {
      ClosedOne(BEGUN, TextBlock(e.stdoutText), Error, TextBlock(e.errorMessage));
    } else if seen.outEnd && seen.valEnd {
      BlockFills(m, s, e.valueRepr, ValEnd);
      SlicesOf(Consume(s, TextBlock(e.valueRepr), ValEnd).result);
      ClosedTwo(TextBlock(e.stdoutText), OutEnd, TextBlock(e.valueRepr), ValEnd, "");
    } else if seen.outEnd {
      ClosedOne(BEGUN, TextBlock(e.stdoutText), OutEnd, TextBlock(e.valueRepr));
    } else {
      ClosedNone(TextBlock(e.stdoutText));
    }
  }

  lemma ClosedNone(open: string)
    ensures Closed(Last(open), BEGUN) == BEGUN
  {
  }

  lemma ClosedTwo(a: string, first: Kind, b: string, second: Kind, open: string)
    ensures Closed(Piece(a, first, Piece(b, second, Last(open))), BEGUN) == Consume(Consume(BEGUN, a, first), b, second)
  {
    hide Consume;
    ClosedOne(Consume(BEGUN, a, first), b, second, open);
  }

  lemma SlicesOf(r: Extracted)
    ensures r.Slice(InStdout) == r.stdoutText && r.Slice(InValue) == r.valueRepr
    ensures r.Slice(InError) == r.errorMessage && r.Slice(InBacktrace) == r.backtrace
  {
  }

  /** The slices of any extraction contain no carriage return and are hardly longer than the capture. */
  ghost predicate SmallSlices(e: Extracted, size: nat) {
    forall phase :: '\r' !in e.Slice(phase) && |e.Slice(phase)| <= size
  }

  lemma AppendIsSmall(out: string, segment: string)
    ensures |AppendSegment(out, segment)| <= |out| + 1 + |segment|
    ensures '\r' !in out ==> '\r' !in AppendSegment(out, segment)
  {
    DropCrShortens(segment);
  }

  lemma {:induction false} DropCrShortens(text: string)
    ensures |DropCr(text)| <= |text|
  {
    if text != "" { DropCrShortens(text[1..]); }
  }

  lemma RecordIsSmall(e: Extracted, phase: Phase, segment: string, size: nat)
    requires SmallSlices(e, size)
    ensures SmallSlices(e.Record(phase, segment), size + 1 + |segment|)
  {
    hide AppendSegment;
    var r := e.Record(phase, segment);
    AppendIsSmall(e.Slice(phase), segment);
    forall other ensures '\r' !in r.Slice(other) && |r.Slice(other)| <= size + 1 + |segment| {
      assert '\r' !in e.Slice(other) && |e.Slice(other)| <= size;
      assert r.Slice(other) == if other == phase then AppendSegment(e.Slice(phase), segment) else e.Slice(other);
    }
  }

  lemma {:induction false} InterpretIsSmall(m: Marker, text: string, s: ScanState, size: nat)
    requires SmallSlices(s.result, size)
    ensures SmallSlices(Interpret(Lex(m, text), s).result, size + 1 + |text|)
    decreases |text|
  {
    hide OccursAt, AppendSegment, FirstToken, SkipLineEnding, Extracted.Record;
    var t := FirstToken(m, text, 0);
    if t.None? {
      RecordIsSmall(s.result, s.phase, text, size);
    } else {
      var n, kind := t.value.pos, t.value.kind;
      var stop := n + |m.Word(kind)|;
      assert m.Word(kind) != "";
      RecordIsSmall(s.result, s.phase, text[..n], size);
      var next := Consume(s, text[..n], kind);
      assert forall phase :: next.result.Slice(phase) == s.result.Record(s.phase, text[..n]).Slice(phase);
      assert SmallSlices(next.result, size + 1 + n);
      if kind != End {
        InterpretIsSmall(m, text[SkipLineEnding(text, stop)..], next, size + 1 + n);
      }
    }
  }

  lemma ExtractIsSmall(m: Marker, c: string)
    ensures SmallSlices(Extract(m, c), |c| + 1)
  {
    hide AfterBegin, Lex, Interpret;
    if AfterBegin(m, c).Some? {
      InterpretIsSmall(m, AfterBegin(m, c).value, BEGUN, 0);
    }
  }

  lemma BlockIsBounded(text: string, maxLines: nat, maxBytes: nat)
    requires '\r' !in text && |text| <= SIZE_MAX - 128 && 0 < maxLines && 0 < maxBytes
    ensures |EndLine(ToolTail(text, maxLines, maxBytes))| <= maxBytes + 65
  {
    hide TruncateLinesTail, TruncateBytesTail;
    LinesTailBound(text, maxLines);
    BytesTailBound(TruncateLinesTail(text, maxLines), maxBytes);
  }

  lemma LinesTailBound(text: string, maxLines: nat)
    requires '\r' !in text && |text| <= SIZE_MAX - 128 && 0 < maxLines
    ensures |TruncateLinesTail(text, maxLines)| <= |text| + 64
  {
    hide SplitLines, Lines, JoinLines, Unlines, SkipEmpty, Decimal;
    if text == "" {
      NoLinesInNothing();
    } else {
      CountedLines(text);
      var body := DropFinalNewline(text);
      LinesAreFew(body);
      if maxLines < |Lines(body)| {
        LinesTailKeepsNewest(text, maxLines);
        SizeHasTwentyDigits(|Lines(body)| - maxLines);
      }
    }
  }

  lemma {:induction false} LinesAreFew(text: string)
    ensures |Lines(text)| <= |text| + 1
    decreases |text|
  {
    var e := LineEnd(text, 0);
    if e < |text| { LinesAreFew(text[e + 1..]); }
  }

  /** Every print of a compaction stays well below the limit that triggers it, notes included. */
  lemma CompactIsBounded(id: string, e: Extracted, seen: Seen)
    requires SmallSlices(e, SIZE_MAX - 128)
    ensures |Compact(MakeMarker(id), e, seen)| <= 2 * MAX_TEXT_BYTES + MAX_BACKTRACE_BYTES + 4 * |id| + 300
  {
    hide Print, ToolTail, EndLine;
    var m := MakeMarker(id);
    forall phase
      ensures |TextBlock(e.Slice(phase))| <= MAX_TEXT_BYTES + 65
      ensures |TraceBlock(e.Slice(phase))| <= MAX_BACKTRACE_BYTES + 65
    {
      assert '\r' !in e.Slice(phase) && |e.Slice(phase)| <= SIZE_MAX - 128;
      BlockIsBounded(e.Slice(phase), TAIL_LINES, MAX_TEXT_BYTES);
      BlockIsBounded(e.Slice(phase), BACKTRACE_LINES, MAX_BACKTRACE_BYTES);
    }
    assert |TextBlock(e.Slice(InStdout))| <= MAX_TEXT_BYTES + 65;
    assert |TextBlock(e.Slice(InValue))| <= MAX_TEXT_BYTES + 65;
    assert |TextBlock(e.Slice(InError))| <= MAX_TEXT_BYTES + 65;
    assert |TraceBlock(e.Slice(InBacktrace))| <= MAX_BACKTRACE_BYTES + 65;
    var pieces := CompactPieces(e, seen);
    PiecesLength(id, pieces);
    if pieces.Piece? {
      PiecesLength(id, pieces.next);
      if pieces.next.Piece? {
        PiecesLength(id, pieces.next.next);
      }
    }
  }

  lemma PiecesLength(id: string, pieces: Pieces)
    ensures pieces.Last? ==> |Print(MakeMarker(id), pieces)| == |pieces.segment|
    ensures pieces.Piece? ==>
      |Print(MakeMarker(id), pieces)| <= |pieces.segment| + |id| + 19 + |Print(MakeMarker(id), pieces.next)|
    ensures pieces.Piece? && pieces.next.Last? ==>
      |Print(MakeMarker(id), pieces)| <= |pieces.segment| + |id| + 19 + |pieces.next.segment|
  {
    assert forall kind :: |Name(kind)| <= 7;
  }
}
