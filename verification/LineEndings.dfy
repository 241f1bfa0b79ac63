/** A capture reads the same whether its lines end in a newline or in carriage return and newline. */
module LineEndings {
  import opened Text
  import opened Markers
  import opened Extraction

  // ----- The BEGIN line -----

  /** A line is the BEGIN line exactly if it is the BEGIN word between blanks; other lines are passed over. */
  lemma FirstLineDecides(m: Marker, line: string, rest: string)
    requires '\n' !in line
    ensures var found := AfterBegin(m, line + ("\n" + rest));
      if exists left, right :: AllBlank(left) && AllBlank(right) && line == left + m.Word(Begin) + right
      then Trimmed(m.Word(Begin)) ==> found == Some(rest)
      else found == AfterBegin(m, rest)
  {
    hide AllBlank, Trimmed, LineEnd, Trim, AfterBegin;
    var text := line + ("\n" + rest);
    FirstLineIs(line, rest);
    AfterBeginFirstLine(m, text);
    if left, right :| AllBlank(left) && AllBlank(right) && line == left + m.Word(Begin) + right {
      if Trimmed(m.Word(Begin)) {
        TrimUnique(left, m.Word(Begin), right);
      }
    } else if Trim(line) == m.Word(Begin) {
      var left, right := TrimSplits(line);
    }
  }

  // ----- Both kinds of line ends -----

  function Crlf(text: string): string {
    if text == "" then "" else (if text[0] == '\n' then "\r\n" else [text[0]]) + Crlf(text[1..])
  }

  lemma {:induction false} CrlfConcat(a: string, b: string)
    ensures Crlf(a + b) == Crlf(a) + Crlf(b)
  {
    if a == "" {
      assert a + b == b;
    } else {
      assert (a + b)[1..] == a[1..] + b;
      CrlfConcat(a[1..], b);
    }
  }

  lemma {:induction false} CrlfOfLine(line: string)
    requires '\n' !in line
    ensures Crlf(line) == line
  {
    if line != "" {
      CrlfOfLine(line[1..]);
    }
  }

  lemma CrlfOfBreak(rest: string)
    ensures Crlf("\n" + rest) == "\r" + ("\n" + Crlf(rest)) && Crlf("") == ""
  {
    assert ("\n" + rest)[1..] == rest;
  }

  /** What a segment contributes does not depend on its line ends. */
  lemma {:induction false} CrlfDropped(text: string)
    ensures DropCr(Crlf(text)) == DropCr(text)
  {
    if text != "" {
      var first := if text[0] == '\n' then "\r\n" else [text[0]];
      DropCrConcat(first, Crlf(text[1..]));
      CrlfDropped(text[1..]);
      assert text[0] == '\n' ==> first[1..] == "\n";
      assert DropCr([text[0]]) == if text[0] == '\r' then "" else [text[0]];
      DropCrOfBreak();
    }
  }

  lemma DropCrOfBreak()
    ensures DropCr("\r\n") == "\n"
  {
    assert "\r\n"[1..] == "\n" && "\n"[1..] == "";
  }

  // ----- Words stay where they are -----

  predicate OneLine(word: string) {
    word != "" && '\n' !in word && '\r' !in word
  }

  /** The position in the new text of a position in the old one. */
  function Moved(text: string, p: nat): nat
    requires p <= |text|
  {
    |Crlf(text[..p])|
  }

  lemma WordMoves(text: string, word: string, p: nat)
    requires OneLine(word) && OccursAt(text, word, p)
    ensures OccursAt(Crlf(text), word, Moved(text, p))
    ensures Crlf(text) == Crlf(text[..p]) + (word + Crlf(text[p + |word|..]))
  {
    hide Crlf;
    var front, back := text[..p], text[p + |word|..];
    assert text == front + (word + back);
    CrlfConcat(front, word + back);
    CrlfConcat(word, back);
    CrlfOfLine(word);
  }

  lemma {:induction false} PrefixMoves(text: string, word: string)
    requires '\n' !in word && '\r' !in word && word <= Crlf(text)
    ensures word <= text
    decreases |text|
  {
    if word != "" {
      assert word[0] == Crlf(text)[0];
      assert word[0] in word;
      assert text[0] != '\n';
      assert word[1..] <= Crlf(text)[1..] == Crlf(text[1..]);
      PrefixMoves(text[1..], word[1..]);
    }
  }

  /** Every occurrence in the new text is one that has moved. */
  lemma {:induction false} WordHasMoved(text: string, word: string, q: nat) returns (p: nat)
    requires OneLine(word) && OccursAt(Crlf(text), word, q)
    ensures OccursAt(text, word, p) && p <= |text| && q == Moved(text, p)
    decreases |text|
  {
    var rest, first := text[1..], if text[0] == '\n' then "\r\n" else [text[0]];
    assert Crlf(text)[|first|..] == Crlf(rest);
    if q >= |first| {
      OccursShift(Crlf(text), |first|, word, q - |first|);
      var inner := WordHasMoved(rest, word, q - |first|);
      p := inner + 1;
      OccursShift(text, 1, word, inner);
      assert text[..p][1..] == rest[..inner];
    } else {
      assert Crlf(text)[q] == word[0];
      assert word[0] in word && q == 0 && text[0] != '\n';
      PrefixMoves(text, word);
      p := 0;
      assert text[..0] == "";
    }
  }

  lemma MovedIsMonotone(text: string, p: nat, q: nat)
    requires p <= q <= |text|
    ensures Moved(text, p) <= Moved(text, q)
  {
    hide Crlf;
    assert text[..q] == text[..p] + text[p..q];
    CrlfConcat(text[..p], text[p..q]);
  }

  lemma TokensAreOneLine(m: Marker)
    requires m.Plain()
    ensures forall kind :: OneLine(m.Word(kind))
  {
  }

  lemma FirstTokenMoves(m: Marker, text: string)
    requires m.Apart() && m.Plain()
    ensures match FirstToken(m, text, 0)
            case None => FirstToken(m, Crlf(text), 0).None?
            case Some(t) => t.pos <= |text| && FirstToken(m, Crlf(text), 0) == Some(Token(Moved(text, t.pos), t.kind))
  {
    hide OccursAt, Crlf, OneLine;
    TokensAreOneLine(m);
    var first := FirstToken(m, text, 0);
    forall q: nat, kind | TokenAt(m, Crlf(text), q, kind)
      ensures first.Some? && first.value.pos <= |text| && Moved(text, first.value.pos) <= q
    {
      var p := WordHasMoved(text, m.Word(kind), q);
      assert TokenAt(m, text, p, kind);
      MovedIsMonotone(text, first.value.pos, p);
    }
    if first.Some? {
      WordMoves(text, m.Word(first.value.kind), first.value.pos);
      FirstTokenIs(m, Crlf(text), 0, Token(Moved(text, first.value.pos), first.value.kind));
    }
  }

  // ----- The parse -----

  function CrlfPieces(pieces: Pieces): Pieces {
    match pieces
    case Last(segment) => Last(Crlf(segment))
    case Piece(segment, kind, next) => Piece(Crlf(segment), kind, CrlfPieces(next))
  }

  /** The line end behind a marker is skipped in both. */
  lemma SkipMoves(front: string, word: string, back: string)
    requires '\r' !in back
    ensures var text, longer := front + (word + back), Crlf(front) + (word + Crlf(back));
      longer[SkipLineEnding(longer, |Crlf(front)| + |word|)..] == Crlf(text[SkipLineEnding(text, |front| + |word|)..])
  {
    hide Crlf, SkipLineEnding;
    SkipBehind(front, word, back);
    SkipBehind(Crlf(front), word, Crlf(back));
    SkipAtStart(back);
  }

  lemma SkipBehind(front: string, word: string, back: string)
    ensures var text := front + (word + back);
      text[SkipLineEnding(text, |front| + |word|)..] == back[SkipLineEnding(back, 0)..]
  {
    hide SkipLineEnding;
    var text := front + (word + back);
    assert text[|front| + |word|..] == back;
    SkipShift(text, |front| + |word|, 0);
  }

  lemma SkipAtStart(back: string)
    requires '\r' !in back
    ensures Crlf(back)[SkipLineEnding(Crlf(back), 0)..] == Crlf(back[SkipLineEnding(back, 0)..])
  {
    if back != "" && back[0] != '\n' {
      assert back[0] in back;
    }
  }

  lemma {:induction false} LexMoves(m: Marker, text: string)
    requires m.Apart() && m.Plain() && '\r' !in text
    ensures Lex(m, Crlf(text)) == CrlfPieces(Lex(m, text))
    decreases |text|
  {
    hide OccursAt, Crlf, FirstToken, SkipLineEnding, OneLine;
    FirstTokenMoves(m, text);
    var first := FirstToken(m, text, 0);
    if first.Some? {
      var p, word := first.value.pos, m.Word(first.value.kind);
      TokensAreOneLine(m);
      WordMoves(text, word, p);
      OccurrenceSplits(text, word, p);
      var front, back := text[..p], text[p + |word|..];
      SkipMoves(front, word, back);
      assert Crlf(text)[..Moved(text, p)] == Crlf(front);
      CrlfOfBreak("");
      if first.value.kind != End {
        LexMoves(m, text[SkipLineEnding(text, p + |word|)..]);
      }
    }
  }

  lemma OccurrenceSplits(text: string, word: string, p: nat)
    requires OccursAt(text, word, p)
    ensures p + |word| <= |text| && text == text[..p] + (word + text[p + |word|..])
  {
  }

  lemma {:induction false} InterpretIgnoresCr(pieces: Pieces, s: ScanState)
    ensures Interpret(CrlfPieces(pieces), s) == Interpret(pieces, s)
    decreases pieces
  {
    hide Crlf, DropCr, DropFinalNewline, Beside;
    CrlfDropped(pieces.segment);
    assert s.result.Record(s.phase, Crlf(pieces.segment)) == s.result.Record(s.phase, pieces.segment);
    if pieces.Piece? {
      var after := Consume(s, pieces.segment, pieces.kind);
      assert Consume(s, Crlf(pieces.segment), pieces.kind) == after;
      InterpretIgnoresCr(pieces.next, after);
    }
  }

  lemma TrimIgnoresCr(line: string)
    ensures Trim(line + "\r") == Trim(line)
  {
    assert (line + "\r")[..|line|] == line;
  }

  lemma {:induction false} BeginMoves(m: Marker, capture: string)
    ensures match AfterBegin(m, capture)
            case None => AfterBegin(m, Crlf(capture)).None?
            case Some(rest) => AfterBegin(m, Crlf(capture)) == Some(Crlf(rest))
    decreases |capture|
  {
    hide Crlf, Trim, LineEnd, AfterBegin;
    var e := LineEnd(capture, 0);
    var line := capture[..e];
    assert line == capture[0..e];
    AfterBeginFirstLine(m, capture);
    CrlfOfLine(line);
    if e == |capture| {
      assert capture == line && capture[e..] == "";
      CrlfOfBreak("");
    } else {
      var rest := capture[e + 1..];
      assert capture == line + ("\n" + rest);
      CrlfConcat(line, "\n" + rest);
      CrlfOfBreak(rest);
      assert Crlf(capture) == (line + "\r") + ("\n" + Crlf(rest));
      FirstLineIs(line + "\r", Crlf(rest));
      AfterBeginFirstLine(m, Crlf(capture));
      TrimIgnoresCr(line);
      BeginMoves(m, rest);
    }
  }

  /** Carriage returns in front of newlines change nothing. */
  lemma CrlfReadsAlike(m: Marker, capture: string)
    requires m.Apart() && m.Plain() && '\r' !in capture
    ensures Scan(m, Crlf(capture)) == Scan(m, capture)
  {
    hide Crlf, AfterBegin, Lex, Interpret;
    BeginMoves(m, capture);
    var body := AfterBegin(m, capture);
    if body.Some? {
      LexMoves(m, body.value);
      InterpretIgnoresCr(Lex(m, body.value), BEGUN);
    }
  }
}
