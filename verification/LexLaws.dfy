/** Parsing in instalments: what is read before a line end decides how what follows is read. */
module LexLaws {
  import opened Text
  import opened Markers
  import opened Extraction
  import opened ExtractionLaws

  // ----- Joining two parses at a line end -----

  function AddFront(front: string, pieces: Pieces): Pieces {
    match pieces
    case Last(segment) => Last(front + segment)
    case Piece(segment, kind, next) => Piece(front + segment, kind, next)
  }

  /** Continue the open segment of one parse with another parse; nothing is read after END. */
  function Graft(first: Pieces, second: Pieces): Pieces {
    match first
    case Last(segment) => AddFront(segment, second)
    case Piece(segment, kind, next) => Piece(segment, kind, if kind == End then next else Graft(next, second))
  }

  /** Whole token-free lines only lengthen the first segment. */
  lemma LexAfterLines(m: Marker, lines: string, rest: string)
    requires m.Apart() && m.Plain() && EndsLine(lines) && TokenFree(m, lines)
    ensures Lex(m, lines + rest) == AddFront(lines, Lex(m, rest))
  {
    hide OccursAt, EndsLine, FirstToken, SkipLineEnding;
    var all, n := lines + rest, |lines|;
    NoTokenInLines(m, lines, rest);
    assert all[n..] == rest && all[..n] == lines && all[0..] == all;
    FirstTokenShift(m, all, n);
    var token := FirstToken(m, rest, 0);
    if token.Some? {
      var t := token.value;
      OccursInSuffix(lines, rest, m.Word(t.kind), t.pos);
      FirstTokenIs(m, all, 0, Token(n + t.pos, t.kind));
      SkipShift(all, n, t.pos + |m.Word(t.kind)|);
      assert all[..n + t.pos] == lines + rest[..t.pos];
      var after := SkipLineEnding(rest, t.pos + |m.Word(t.kind)|);
      assert all[n + after..] == rest[after..];
    } else {
      NoTokenAtAll(m, all, n);
    }
  }

  lemma NoTokenInLines(m: Marker, lines: string, rest: string)
    requires m.Plain() && EndsLine(lines) && TokenFree(m, lines)
    ensures forall p: nat, kind | TokenAt(m, lines + rest, p, kind) :: |lines| <= p
  {
    hide OccursAt, EndsLine;
    forall p: nat, kind | TokenAt(m, lines + rest, p, kind) ensures |lines| <= p {
      if p < |lines| {
        assert !TokenAt(m, lines, p, kind);
        NoWordAcrossNewline(lines, rest, m.Word(kind), p);
      }
    }
  }

  lemma NoTokenAtAll(m: Marker, text: string, n: nat)
    requires forall p: nat, kind | TokenAt(m, text, p, kind) :: n <= p
    requires FirstToken(m, text, n).None?
    ensures FirstToken(m, text, 0).None?
  {
    hide OccursAt;
  }

  /** Parsing in instalments: a text that ends a line can be parsed before the rest is known. */
  lemma {:induction false} LexConcat(m: Marker, a: string, b: string)
    requires m.Apart() && m.Plain() && EndsLine(a)
    ensures Lex(m, a + b) == Graft(Lex(m, a), Lex(m, b))
    decreases |a|
  {
    hide OccursAt, FirstToken, EndsLine, SkipLineEnding;
    var token := FirstToken(m, a, 0);
    if token.None? {
      LexAfterLines(m, a, b);
    } else {
      var t := token.value;
      var stop := t.pos + |m.Word(t.kind)|;
      FirstTokenFrozen(m, a, b);
      assert (a + b)[..t.pos] == a[..t.pos];
      if t.kind != End {
        TokenLeavesLineEnd(m, a, t.pos, t.kind, b);
        var after := SkipLineEnding(a, stop);
        assert (a + b)[after..] == a[after..] + b;
        LexConcat(m, a[after..], b);
      }
    }
  }

  /** In a text that ends a line, the line end after a token is inside the text. */
  lemma TokenLeavesLineEnd(m: Marker, a: string, p: nat, kind: Kind, b: string)
    requires m.Plain() && EndsLine(a) && OccursAt(a, m.Word(kind), p)
    ensures var stop := p + |m.Word(kind)|;
      && stop < |a| && SkipLineEnding(a + b, stop) == SkipLineEnding(a, stop)
      && EndsLine(a[SkipLineEnding(a, stop)..])
  {
    var w := m.Word(kind);
    assert a[p..p + |w|][|w| - 1] == a[p + |w| - 1];
  }

  lemma {:induction false} AfterBeginExtendsLines(m: Marker, c: string, more: string)
    requires EndsLine(c) && AfterBegin(m, c).Some?
    ensures AfterBegin(m, c + more) == Some(AfterBegin(m, c).value + more)
    decreases |c|
  {
    hide Trim, LineEnd, AfterBegin;
    TrimOfTrimmed("");
    AfterBeginFirstLine(m, c);
    if c != "" {
      LineIsTerminated(c, 0);
      var e := LineEnd(c, 0);
      AfterBeginLine(m, c, more);
      if Trim(c[..e]) != m.Word(Begin) {
        AfterBeginExtendsLines(m, c[e + 1..], more);
      }
    }
  }

  // ----- The verdict of a scan -----

  /** What the poll loop acts upon: whether BEGIN and END were found, a Julia error, and the open phase. */
  datatype Verdict = Verdict(begun: bool, ended: bool, error: bool, phase: Phase)

  function Judge(s: ScanState): Verdict {
    Verdict(s.result.foundBegin, s.result.foundEnd, s.result.juliaError, s.phase)
  }

  function Pass(v: Verdict, kind: Kind): Verdict {
    v.(error := v.error || kind == Error, phase := PhaseAfter(kind, v.phase))
  }

  function JudgePieces(pieces: Pieces, v: Verdict): Verdict {
    match pieces
    case Last(_) => v
    case Piece(_, kind, next) =>
      if kind == End then v.(ended := true)
      else JudgePieces(next, Pass(v, kind))
  }

  const OPEN := Verdict(true, false, false, InStdout)

  lemma {:induction false} JudgeInterpret(pieces: Pieces, s: ScanState)
    ensures Judge(Interpret(pieces, s)) == JudgePieces(pieces, Judge(s))
    decreases pieces
  {
    hide AppendSegment;
    if pieces.Piece? && pieces.kind != End {
      JudgeInterpret(pieces.next, Consume(s, pieces.segment, pieces.kind));
    }
  }

  lemma JudgeScan(m: Marker, c: string)
    ensures AfterBegin(m, c).Some? ==> Judge(Scan(m, c)) == JudgePieces(Lex(m, AfterBegin(m, c).value), OPEN)
    ensures AfterBegin(m, c).None? ==> Judge(Scan(m, c)) == Verdict(false, false, false, InStdout)
  {
    hide AfterBegin, Lex, Interpret;
    if AfterBegin(m, c).Some? {
      JudgeInterpret(Lex(m, AfterBegin(m, c).value), BEGUN);
    }
  }

  lemma {:induction false} JudgeGraft(first: Pieces, second: Pieces, v: Verdict)
    requires !v.ended
    ensures var w := JudgePieces(first, v);
      JudgePieces(Graft(first, second), v) == if w.ended then w else JudgePieces(second, w)
    decreases first
  {
    if first.Piece? && first.kind != End {
      JudgeGraft(first.next, second, Pass(v, first.kind));
    }
  }

  /** The verdict on a capture that ends a line decides the verdict on every continuation of it. */
  lemma VerdictContinues(m: Marker, c: string, rest: string)
    requires m.Apart() && m.Plain() && EndsLine(c) && AfterBegin(m, c).Some?
    ensures var w := Judge(Scan(m, c));
      Judge(Scan(m, c + rest)) == if w.ended then w else JudgePieces(Lex(m, rest), w)
  {
    hide AfterBegin, Lex, Interpret, JudgePieces, Graft, Judge, Scan, EndsLine;
    var body := AfterBegin(m, c).value;
    AfterBeginExtendsLines(m, c, rest);
    JudgeScan(m, c);
    JudgeScan(m, c + rest);
    SuffixEndsLine(c, body);
    LexConcat(m, body, rest);
    JudgeGraft(Lex(m, body), Lex(m, rest), OPEN);
  }

  lemma SuffixEndsLine(text: string, suffix: string)
    requires EndsLine(text) && EndsWith(text, suffix)
    ensures EndsLine(suffix)
  {
  }
}
