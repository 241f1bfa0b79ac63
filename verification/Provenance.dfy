/** What truncation never invents: every row it shows is a note or a row of the text, in order. */
module Provenance {
  import opened Text
  import opened Truncation
  import opened Recency

  /** Some of the rows, in their order. */
  predicate Picked(a: seq<string>, b: seq<string>) {
    b == [] || (a != [] && ((a[0] == b[0] && Picked(a[1..], b[1..])) || Picked(a[1..], b)))
  }

  /** A note, or what a later cut has left of it. */
  ghost predicate LeftOver(row: string) {
    exists n: nat :: EndsWith(LinesNoteRow(n), row) || EndsWith(BytesNoteRow(n), row)
  }

  function LinesNoteRow(n: nat): string {
    "[JJMCP truncated: omitted " + Decimal(n) + " earlier line(s)]"
  }

  function BytesNoteRow(n: nat): string {
    "[JJMCP truncated: omitted " + Decimal(n) + " earlier byte(s)]"
  }

  /** Notes in front, then at most one row that a cut has shortened, then rows as they are, in order. */
  ghost predicate Drawn(all: seq<string>, rows: seq<string>) {
    rows == [] || (LeftOver(rows[0]) && Drawn(all, rows[1..])) || exists k: nat :: CutThenPicked(all, rows, k)
  }

  predicate CutThenPicked(all: seq<string>, rows: seq<string>, k: nat)
    requires rows != []
  {
    k < |all| && EndsWith(all[k], rows[0]) && Picked(all[k + 1..], rows[1..])
  }

  lemma {:induction false} PickedItself(a: seq<string>)
    ensures Picked(a, a)
  {
    if a != [] {
      PickedItself(a[1..]);
    }
  }

  lemma {:induction false} PickedTwice(a: seq<string>, b: seq<string>, c: seq<string>)
    requires Picked(a, b) && Picked(b, c)
    ensures Picked(a, c)
    decreases |a|
  {
    if c != [] {
      if a[0] == b[0] && Picked(a[1..], b[1..]) {
        if b[0] == c[0] && Picked(b[1..], c[1..]) {
          PickedTwice(a[1..], b[1..], c[1..]);
        } else {
          PickedTwice(a[1..], b[1..], c);
        }
      } else {
        PickedTwice(a[1..], b, c);
      }
    }
  }

  lemma {:induction false} PickedConcat(a: seq<string>, b: seq<string>, c: seq<string>, d: seq<string>)
    requires Picked(a, b) && Picked(c, d)
    ensures Picked(a + c, b + d)
    decreases |a|
  {
    if a == [] {
      assert a + c == c && b + d == d;
    } else {
      assert (a + c)[1..] == a[1..] + c;
      if b == [] {
        PickedConcat(a[1..], [], c, d);
        assert b + d == d && [] + d == d;
      } else if a[0] == b[0] && Picked(a[1..], b[1..]) {
        assert (b + d)[1..] == b[1..] + d;
        PickedConcat(a[1..], b[1..], c, d);
      } else {
        PickedConcat(a[1..], b, c, d);
      }
    }
  }

  lemma PickedBehind(front: seq<string>, a: seq<string>, b: seq<string>)
    requires Picked(a, b)
    ensures Picked(front + a, b)
  {
    PickedConcat(front, [], a, b);
    assert [] + b == b;
  }

  lemma PickedEnd(a: seq<string>, i: nat)
    requires i <= |a|
    ensures Picked(a, a[i..])
  {
    PickedItself(a[i..]);
    PickedBehind(a[..i], a[i..], a[i..]);
    assert a[..i] + a[i..] == a;
  }

  lemma {:induction false} ThinnedIsPicked(a: seq<string>, b: seq<string>)
    requires Thinned(a, b)
    ensures Picked(a, b)
    decreases |a|
  {
    if a != [] {
      var n := |a| - 1;
      assert a == a[..n] + [a[n]];
      if b != [] && a[n] == b[|b| - 1] && Thinned(a[..n], b[..|b| - 1]) {
        ThinnedIsPicked(a[..n], b[..|b| - 1]);
        PickedItself([a[n]]);
        PickedConcat(a[..n], b[..|b| - 1], [a[n]], [a[n]]);
        assert b == b[..|b| - 1] + [a[n]];
      } else {
        ThinnedIsPicked(a[..n], b);
        PickedConcat(a[..n], b, [a[n]], []);
        assert b + [] == b;
      }
    }
  }

  lemma {:induction false} PickedFirst(a: seq<string>, b: seq<string>) returns (k: nat)
    requires Picked(a, b) && b != []
    ensures CutThenPicked(a, b, k)
    decreases |a|
  {
    if a[0] == b[0] && Picked(a[1..], b[1..]) {
      k := 0;
    } else {
      var j := PickedFirst(a[1..], b);
      k := j + 1;
      assert a[1..][j + 1..] == a[k + 1..];
    }
  }

  lemma PickedIsDrawn(a: seq<string>, b: seq<string>)
    requires Picked(a, b)
    ensures Drawn(a, b)
  {
    if b != [] {
      var k := PickedFirst(a, b);
    }
  }

  lemma {:induction false} DrawnPicked(all: seq<string>, b: seq<string>, c: seq<string>)
    requires Drawn(all, b) && Picked(b, c)
    ensures Drawn(all, c)
    decreases |b|
  {
    if c != [] {
      if LeftOver(b[0]) && Drawn(all, b[1..]) {
        if b[0] == c[0] && Picked(b[1..], c[1..]) {
          DrawnPicked(all, b[1..], c[1..]);
        } else {
          DrawnPicked(all, b[1..], c);
        }
      } else {
        var k: nat :| CutThenPicked(all, b, k);
        if b[0] == c[0] && Picked(b[1..], c[1..]) {
          PickedTwice(all[k + 1..], b[1..], c[1..]);
          assert CutThenPicked(all, c, k);
        } else {
          PickedTwice(all[k + 1..], b[1..], c);
          PickedBehind(all[..k + 1], all[k + 1..], c);
          assert all[..k + 1] + all[k + 1..] == all;
          PickedIsDrawn(all, c);
        }
      }
    }
  }

  lemma {:induction false} DrawnGrows(all: seq<string>, rows: seq<string>, more: seq<string>)
    requires Drawn(all, rows)
    ensures Drawn(all + more, rows + more)
    decreases |rows|
  {
    PickedItself(more);
    if rows == [] {
      PickedBehind(all, more, more);
      assert rows + more == more;
      PickedIsDrawn(all + more, more);
    } else {
      assert (rows + more)[1..] == rows[1..] + more;
      if LeftOver(rows[0]) && Drawn(all, rows[1..]) {
        DrawnGrows(all, rows[1..], more);
      } else {
        var k: nat :| CutThenPicked(all, rows, k);
        PickedConcat(all[k + 1..], rows[1..], more, more);
        assert (all + more)[k + 1..] == all[k + 1..] + more;
        assert CutThenPicked(all + more, rows + more, k);
      }
    }
  }

  lemma EndsWithTwice(a: string, b: string, c: string)
    requires EndsWith(a, b) && EndsWith(b, c)
    ensures EndsWith(a, c)
  {
    assert a[|a| - |c|..] == a[|a| - |b|..][|b| - |c|..];
  }

  /** Cutting into the first row leaves a leftover or the one shortened row. */
  lemma DrawnCut(all: seq<string>, rows: seq<string>, short: string)
    requires rows != [] && Drawn(all, rows) && EndsWith(rows[0], short)
    ensures Drawn(all, [short] + rows[1..])
  {
    hide EndsWith;
    var cut := [short] + rows[1..];
    assert cut[1..] == rows[1..];
    if LeftOver(rows[0]) && Drawn(all, rows[1..]) {
      var n: nat :| EndsWith(LinesNoteRow(n), rows[0]) || EndsWith(BytesNoteRow(n), rows[0]);
      if EndsWith(LinesNoteRow(n), rows[0]) {
        EndsWithTwice(LinesNoteRow(n), rows[0], short);
      } else {
        EndsWithTwice(BytesNoteRow(n), rows[0], short);
      }
      assert LeftOver(short);
    } else {
      var k: nat :| CutThenPicked(all, rows, k);
      EndsWithTwice(all[k], rows[0], short);
      assert CutThenPicked(all, cut, k);
    }
  }

  lemma DrawnBehindNote(all: seq<string>, note: string, rows: seq<string>)
    requires LeftOver(note) && Drawn(all, rows)
    ensures Drawn(all, [note] + rows)
  {
    assert ([note] + rows)[1..] == rows;
  }

  lemma RowsOfNotes(n: nat)
    ensures Rows(OmittedLinesNote(n)) == [LinesNoteRow(n)] && LeftOver(LinesNoteRow(n))
    ensures Rows(OmittedBytesNote(n)) == [BytesNoteRow(n)] && LeftOver(BytesNoteRow(n))
  {
    hide Rows, Decimal, EndsWith;
    var lines, bytes := LinesNoteRow(n), BytesNoteRow(n);
    NoRows();
    DecimalHasNoBreak(n);
    RowsOfRow(lines, "");
    RowsOfRow(bytes, "");
    assert lines + "\n" + "" == OmittedLinesNote(n) && bytes + "\n" + "" == OmittedBytesNote(n);
    WholeIsSuffix(lines);
    WholeIsSuffix(bytes);
  }

  lemma DecimalHasNoBreak(n: nat)
    ensures '\n' !in LinesNoteRow(n) && '\n' !in BytesNoteRow(n)
  {
    assert '\n' !in Decimal(n);
    assert '\n' !in "[JJMCP truncated: omitted " && '\n' !in " earlier line(s)]" && '\n' !in " earlier byte(s)]";
  }

  lemma LinesTailDraws(all: seq<string>, text: string, maxRows: nat)
    requires '\r' !in text && 0 < maxRows && Drawn(all, Rows(text))
    ensures Drawn(all, Rows(TruncateLinesTail(text, maxRows)))
  {
    hide Rows, Lines, EndsLine, Unlines, SkipEmpty, OmittedLinesNote, Drawn, Thinned, Picked, DropFinalNewline,
         EndsWith, TruncateLinesTail, LeftOver;
    if text != "" && maxRows < |Lines(DropFinalNewline(text))| {
      var ls := Lines(DropFinalNewline(text));
      var omitted := |ls| - maxRows;
      var kept := Unlines(SkipEmpty(ls[omitted..]));
      LinesTailKeepsNewest(text, maxRows);
      CountedAreRows(text);
      KeptLinesThin(ls[omitted..]);
      ThinnedIsPicked(ls[omitted..], Rows(kept));
      PickedEnd(ls, omitted);
      PickedTwice(ls, ls[omitted..], Rows(kept));
      DrawnPicked(all, ls, Rows(kept));
      NotesEndLines(omitted);
      RowsOfNotes(omitted);
      RowsConcat(OmittedLinesNote(omitted), kept);
      DrawnBehindNote(all, LinesNoteRow(omitted), Rows(kept));
    } else {
      ShortTextStays(text, maxRows);
    }
  }

  lemma SuffixOfNothing(text: string, start: nat)
    requires start <= |text|
    ensures Rows("") == [] && (text == "" ==> Rows(text[start..]) == [])
  {
    if text == "" {
      assert text[start..] == "";
    }
  }

  /** A suffix of a text has the end of one row and the rows behind it. */
  lemma {:induction false} RowsOfSuffix(text: string, start: nat) returns (i: nat, short: string)
    requires start <= |text| && Rows(text[start..]) != []
    ensures i < |Rows(text)| && EndsWith(Rows(text)[i], short)
    ensures Rows(text[start..]) == [short] + Rows(text)[i + 1..]
    decreases |text|
  {
    hide Rows, Lines, EndsLine, EndsWith;
    SuffixOfNothing(text, start);
    var row, rest := RowsSplit(text);
    if start <= |row| {
      i, short := 0, row[start..];
      SuffixEnds(row, start);
      assert Rows(text)[1..] == Rows(rest);
      if text == row {
        RowsOfRow(short, "");
      } else {
        RowsOfRow(short, rest);
        assert text[start..] == short + "\n" + rest;
      }
    } else {
      var inner := start - |row| - 1;
      assert text[start..] == rest[inner..];
      i, short := RowsOfSuffix(rest, inner);
      i := i + 1;
      assert Rows(text)[i + 1..] == Rows(rest)[i..];
    }
  }

  lemma SuffixEnds(text: string, cut: nat)
    requires cut <= |text|
    ensures EndsWith(text, text[cut..])
  {
  }

  lemma SuffixDraws(all: seq<string>, text: string, start: nat)
    requires start <= |text| && Drawn(all, Rows(text))
    ensures Drawn(all, Rows(text[start..]))
  {
    hide Rows, Picked, EndsWith, LeftOver;
    if Rows(text[start..]) != [] {
      var i, short := RowsOfSuffix(text, start);
      PickedEnd(Rows(text), i);
      DrawnPicked(all, Rows(text), Rows(text)[i..]);
      DrawnCut(all, Rows(text)[i..], short);
      assert Rows(text)[i..][1..] == Rows(text)[i + 1..];
    }
  }

  lemma BytesTailDraws(all: seq<string>, text: string, maxBytes: nat)
    requires 0 < maxBytes && Drawn(all, Rows(text))
    ensures Drawn(all, Rows(TruncateBytesTail(text, maxBytes)))
  {
    hide Rows, Drawn, LeftOver, SafeSuffixStart, EndsLine;
    if |text| > maxBytes {
      var start := SafeSuffixStart(text, |text| - maxBytes);
      SuffixDraws(all, text, start);
      NotesEndLines(start);
      RowsOfNotes(start);
      RowsConcat(OmittedBytesNote(start), text[start..]);
      DrawnBehindNote(all, BytesNoteRow(start), Rows(text[start..]));
    }
  }

  /** `truncate_tool_tail` invents no rows: it shows notes and rows of the text, in order, the first perhaps cut. */
  lemma ToolTailDraws(all: seq<string>, text: string, maxRows: nat, maxBytes: nat)
    requires '\r' !in text && 0 < maxRows && 0 < maxBytes && Drawn(all, Rows(text))
    ensures Drawn(all, Rows(ToolTail(text, maxRows, maxBytes)))
  {
    hide Rows, Drawn, TruncateLinesTail, TruncateBytesTail;
    LinesTailDraws(all, text, maxRows);
    BytesTailDraws(all, TruncateLinesTail(text, maxRows), maxBytes);
  }
}
