/** What extraction does not depend on: later output, earlier history, and where a capture was cut. */
module ExtractionLaws {
  import opened Text
  import opened Markers
  import opened Extraction

  predicate Ends(pieces: Pieces) {
    pieces.Piece? && (pieces.kind == End || Ends(pieces.next))
  }

  lemma {:induction false} FoundEndMeansEnds(pieces: Pieces, s: ScanState)
    ensures Interpret(pieces, s).result.foundEnd <==> s.result.foundEnd || Ends(pieces)
    decreases pieces
  {
    hide AppendSegment;
    if pieces.Piece? && pieces.kind != End {
      FoundEndMeansEnds(pieces.next, Consume(s, pieces.segment, pieces.kind));
    }
  }

  // ----- Later output -----

  /** A token that has been seen stays the first one: nothing that straddles the seam can precede it. */
  lemma FirstTokenFrozen(m: Marker, c: string, more: string)
    requires m.Apart() && FirstToken(m, c, 0).Some?
    ensures FirstToken(m, c + more, 0) == FirstToken(m, c, 0)
  {
    hide OccursAt;
    var t := FirstToken(m, c, 0).value;
    OccursInPrefix(c, more, m.Word(t.kind), t.pos);
    forall p: nat, kind | TokenAt(m, c + more, p, kind) ensures t.pos <= p {
      if p + |m.Word(kind)| <= |c| {
        OccursInPrefix(c, more, m.Word(kind), p);
        assert TokenAt(m, c, p, kind);
      } else if p < t.pos {
        OccurrencesNeverNest(m, c + more, p, kind, t.pos, t.kind);
      }
    }
    FirstTokenIs(m, c + more, 0, t);
  }

  lemma {:induction false} LexFrozen(m: Marker, c: string, more: string)
    requires m.Apart() && Ends(Lex(m, c))
    ensures Lex(m, c + more) == Lex(m, c)
    decreases |c|
  {
    hide OccursAt, FirstToken;
    FirstTokenFrozen(m, c, more);
    var t := FirstToken(m, c, 0).value;
    var stop := t.pos + |m.Word(t.kind)|;
    assert (c + more)[..t.pos] == c[..t.pos];
    if t.kind != End {
      var after := SkipLineEnding(c, stop);
      assert SkipLineEnding(c + more, stop) == after;
      assert (c + more)[after..] == c[after..] + more;
      LexFrozen(m, c[after..], more);
    }
  }

  lemma LexEmpty(m: Marker)
    ensures Lex(m, "") == Last("")
  {
  }

  lemma NothingBegins(m: Marker)
    ensures AfterBegin(m, "").None?
  {
    hide Trim, LineEnd, AfterBegin;
    AfterBeginFirstLine(m, "");
    TrimOfTrimmed("");
    assert m.Word(Begin) != "" && ""[..LineEnd("", 0)] == "";
  }

  /** A terminated first line is judged alike whatever follows the text. */
  lemma AfterBeginLine(m: Marker, c: string, more: string)
    requires LineEnd(c, 0) < |c|
    ensures var e := LineEnd(c, 0);
      AfterBegin(m, c + more) ==
        if Trim(c[..e]) == m.Word(Begin) then Some(c[e + 1..] + more) else AfterBegin(m, c[e + 1..] + more)
  {
    hide Trim, LineEnd, AfterBegin;
    var e := LineEnd(c, 0);
    LineEndFrozen(c, more, 0);
    assert (c + more)[..e] == c[..e];
    assert (c + more)[e + 1..] == c[e + 1..] + more;
    AfterBeginFirstLine(m, c + more);
  }

  /** Once something follows the BEGIN line, later output only extends what follows. */
  lemma {:induction false} AfterBeginExtends(m: Marker, c: string, more: string)
    requires AfterBegin(m, c).Some? && AfterBegin(m, c).value != ""
    ensures AfterBegin(m, c + more) == Some(AfterBegin(m, c).value + more)
    decreases |c|
  {
    hide Trim, LineEnd, AfterBegin;
    AfterBeginFirstLine(m, c);
    var e := LineEnd(c, 0);
    if e < |c| {
      AfterBeginLine(m, c, more);
      if Trim(c[..e]) != m.Word(Begin) {
        AfterBeginExtends(m, c[e + 1..], more);
      }
    }
  }

  /** Extraction freezes: a capture that holds END has its final result, whatever is printed later. */
  lemma ExtractionFreezes(m: Marker, c: string, more: string)
    requires m.Apart() && Extract(m, c).foundEnd
    ensures Scan(m, c + more) == Scan(m, c)
  {
    hide OccursAt, FirstToken, AfterBegin, Lex, Interpret;
    var body := AfterBegin(m, c).value;
    FoundEndMeansEnds(Lex(m, body), BEGUN);
    if body == "" {
      LexEmpty(m);
    }
    AfterBeginExtends(m, c, more);
    LexFrozen(m, body, more);
  }

  // ----- Earlier history -----

  /** The line that the search accepts holds an occurrence of the BEGIN word. */
  lemma BeginLineHolds(m: Marker, c: string) returns (p: nat)
    requires Trim(c[..LineEnd(c, 0)]) == m.Word(Begin)
    ensures OccursAt(c, m.Word(Begin), p) && p < LineEnd(c, p) == LineEnd(c, 0)
    ensures AfterBegin(m, c) == Some(c[NextLine(c, p)..])
  {
    hide LineEnd, Trim;
    var e, w := LineEnd(c, 0), m.Word(Begin);
    var line := c[..e];
    var left, right := TrimSplits(line);
    p := |left|;
    assert w != "";
    assert line[p..p + |w|] == w;
    OccursInPrefix(line, c[e..], w, p);
    assert line + c[e..] == c;
    assert c[p..e] == line[p..];
    LineEndIs(c, p, e);
  }

  lemma BeginLineFirst(m: Marker, rest: string)
    requires m.Plain()
    ensures AfterBegin(m, m.Word(Begin) + ("\n" + rest)) == Some(rest)
  {
    hide Trim, LineEnd, Trimmed;
    FirstLineIs(m.Word(Begin), rest);
    TrimOfTrimmed(m.Word(Begin));
  }

  lemma LineEndsBefore(text: string, cut: nat)
    requires 0 < cut <= |text| && text[cut - 1] == '\n'
    ensures LineEnd(text, 0) < cut
  {
    var e := LineEnd(text, 0);
    forall i | 0 <= i < e ensures text[i] != '\n' {
      assert text[i] == text[0..e][i];
    }
  }

  /** Whole lines in which no BEGIN word starts can be dropped from the front. */
  lemma {:induction false} SkipLines(m: Marker, c: string, cut: nat)
    requires cut <= |c| && (cut == 0 || c[cut - 1] == '\n')
    requires forall p: nat | OccursAt(c, m.Word(Begin), p) :: cut <= p
    ensures AfterBegin(m, c) == AfterBegin(m, c[cut..])
    decreases |c|
  {
    hide LineEnd, Trim, OccursAt, AfterBegin;
    if cut == 0 {
      assert c[cut..] == c;
    } else {
      var e, w := LineEnd(c, 0), m.Word(Begin);
      if Trim(c[..e]) == w {
        var p := BeginLineHolds(m, c);
      }
      LineEndsBefore(c, cut);
      AfterBeginFirstLine(m, c);
      var rest := c[e + 1..];
      forall p: nat | OccursAt(rest, w, p) ensures cut - (e + 1) <= p {
        OccursShift(c, e + 1, w, p);
      }
      SkipLines(m, rest, cut - (e + 1));
      assert rest[cut - (e + 1)..] == c[cut..];
    }
  }

  /** The position at which the poll loop cuts the accumulator once BEGIN has been located. */
  function TrimPoint(m: Marker, c: string): (cut: nat)
    ensures cut <= |c| && (cut == 0 || c[cut - 1] == '\n')
    ensures forall p: nat | OccursAt(c, m.Word(Begin), p) :: cut <= p
  {
    var begin := Find(c, m.Word(Begin), 0);
    if begin.None? then 0 else LineStart(c, begin.value)
  }

  /** The cut is where the line of the first BEGIN starts. */
  lemma TrimPointIsExact(m: Marker, c: string, p: nat)
    requires OccursAt(c, m.Word(Begin), p) && forall q: nat | OccursAt(c, m.Word(Begin), q) :: p <= q
    ensures var cut := TrimPoint(m, c);
      cut <= p && '\n' !in c[cut..p] && (cut == 0 || c[cut - 1] == '\n')
  {
    hide OccursAt;
    assert Find(c, m.Word(Begin), 0) == Some(p);
  }

  /** Pre-BEGIN trimming leaves the extraction unchanged. */
  lemma TrimKeepsExtraction(m: Marker, c: string)
    ensures Scan(m, c[TrimPoint(m, c)..]) == Scan(m, c)
  {
    hide AfterBegin, Lex, Interpret;
    SkipLines(m, c, TrimPoint(m, c));
  }

  // ----- Where a capture was cut -----

  lemma NextLineShift(text: string, cut: nat, p: nat)
    requires cut + p <= |text|
    ensures text[cut..][NextLine(text[cut..], p)..] == text[NextLine(text, cut + p)..]
  {
    hide LineEnd;
    LineEndShift(text, cut, p);
  }

  /** What follows the BEGIN line is what follows the line of some occurrence of the BEGIN word. */
  lemma {:induction false} BeginFound(m: Marker, c: string) returns (p: nat)
    requires AfterBegin(m, c).Some?
    ensures OccursAt(c, m.Word(Begin), p) && p <= |c| && AfterBegin(m, c).value == c[NextLine(c, p)..]
    decreases |c|
  {
    hide *;
    AfterBeginStep(m, c, 0);
    assert c[0..] == c;
    if Trim(c[..LineEnd(c, 0)]) == m.Word(Begin) {
      p := BeginLineHolds(m, c);
    } else {
      var cut := NextLine(c, 0);
      var q := BeginFound(m, c[cut..]);
      p := cut + q;
      OccursShift(c, cut, m.Word(Begin), q);
      NextLineShift(c, cut, q);
    }
  }

  ghost predicate AtMostOnce(text: string, word: string) {
    forall p: nat, q: nat | OccursAt(text, word, p) && OccursAt(text, word, q) :: p == q
  }

  /** Two cuts of one history in which BEGIN occurs once, both holding its line, extract alike. */
  lemma CutsAgree(m: Marker, full: string, i: nat, j: nat)
    requires i <= |full| && j <= |full| && AtMostOnce(full, m.Word(Begin))
    requires AfterBegin(m, full[i..]).Some? && AfterBegin(m, full[j..]).Some?
    ensures Scan(m, full[i..]) == Scan(m, full[j..])
  {
    hide AfterBegin, LineEnd, Lex, Interpret, OccursAt;
    var p := BeginFound(m, full[i..]);
    var q := BeginFound(m, full[j..]);
    OccursShift(full, i, m.Word(Begin), p);
    OccursShift(full, j, m.Word(Begin), q);
    assert i + p == j + q;
    NextLineShift(full, i, p);
    NextLineShift(full, j, q);
  }
}
