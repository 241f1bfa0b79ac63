/**
 * What truncation never loses: the newest rows of a text, as far as they fit the limits. Blank rows
 * are the exception, which joining lines and dropping final newlines can remove.
 */
module Recency {
  import opened Text
  import opened Truncation

  // ----- Rows -----

  /** The lines of a text, whether or not the last one is terminated. */
  function Rows(text: string): (rows: seq<string>)
    decreases |text|
  {
    if text == "" then []
    else
      var e := LineEnd(text, 0);
      [text[..e]] + if e == |text| then [] else Rows(text[e + 1..])
  }

  /** The bytes that rows take, newlines included. */
  function Size(rows: seq<string>): nat {
    if rows == [] then 0 else |rows[0]| + 1 + Size(rows[1..])
  }

  /** A text that is not empty has a first row and a rest. */
  lemma RowsSplit(text: string) returns (row: string, rest: string)
    requires text != ""
    ensures '\n' !in row && |rest| < |text|
    ensures Rows(text) == [row] + Rows(rest) && Lines(text) == [row] + if text == row then [] else Lines(rest)
    ensures (text == row && rest == "") || text == row + "\n" + rest
    ensures EndsLine(text) <==> text != row && EndsLine(rest)
  {
    hide Rows, Lines, EndsLine;
    row, rest := FirstLineOfText(text);
    EndsLineMeans(text);
    if text == row {
      NoRows();
      RowsOfRow(row, "");
    } else {
      RowsOfRow(row, rest);
      EndsLineBehindRow(row, rest);
    }
  }

  lemma EndsLineBehindRow(row: string, rest: string)
    ensures EndsLine(row + "\n" + rest) <==> EndsLine(rest)
  {
  }

  lemma RowsOfRow(row: string, rest: string)
    requires '\n' !in row
    ensures Rows(row + "\n" + rest) == [row] + Rows(rest) && Rows(row) == if row == "" then [] else [row]
  {
    hide LineEnd;
    FirstLineIs(row, rest);
    assert row + ("\n" + rest) == row + "\n" + rest;
    assert row[0..|row|] == row;
    LineEndIs(row, 0, |row|);
  }

  lemma {:induction false} RowsConcat(a: string, b: string)
    requires EndsLine(a)
    ensures Rows(a + b) == Rows(a) + Rows(b)
    decreases |a|
  {
    hide Rows, Lines, EndsLine;
    if a == "" {
      NoRows();
      assert a + b == b;
    } else {
      var row, rest := RowsSplit(a);
      RowsConcat(rest, b);
      RowsOfRow(row, rest + b);
      assert a + b == row + "\n" + (rest + b);
    }
  }

  lemma NoRows()
    ensures Rows("") == []
  {
  }

  /** The lines of a text are its rows, and an empty one behind a final newline. */
  lemma {:induction false} LinesAreRows(text: string)
    ensures Lines(text) == Rows(text) + if EndsLine(text) then [""] else []
    decreases |text|
  {
    hide Rows, Lines, EndsLine;
    NoRows();
    EndsLineMeans("");
    if text == "" {
      LinesStep("", 0);
    } else {
      var row, rest := RowsSplit(text);
      LinesAreRows(rest);
    }
  }

  /** Terminating the last row adds none. */
  lemma {:induction false} RowsOfEndLine(text: string)
    ensures Rows(EndLine(text)) == Rows(text)
    decreases |text|
  {
    hide Rows, Lines, EndsLine;
    EndsLineMeans("");
    if !EndsLine(text) {
      var row, rest := RowsSplit(text);
      if text == row {
        NoRows();
        RowsOfRow(row, "");
        assert row + "\n" + "" == row + "\n";
      } else {
        RowsOfEndLine(rest);
        RowsOfRow(row, rest + "\n");
        assert text + "\n" == row + "\n" + (rest + "\n");
      }
    }
  }

  /** Where the rows from i on start in the text. */
  lemma {:induction false} RowsFrom(text: string, i: nat) returns (cut: nat)
    requires i <= |Rows(text)|
    ensures cut <= |text| && Rows(text[cut..]) == Rows(text)[i..] && |text| - cut <= Size(Rows(text)[i..])
    ensures i < |Rows(text)| ==> EndsLine(text[..cut])
    decreases |text|
  {
    hide Rows, Lines, EndsLine, Size;
    NoRows();
    EndsLineMeans("");
    if i == |Rows(text)| {
      cut := |text|;
      assert text[cut..] == "" && Rows(text)[i..] == [];
    } else if i == 0 {
      cut := 0;
      assert text[0..] == text && Rows(text)[0..] == Rows(text);
      RowsTakeSize(text);
    } else {
      var row, rest := RowsSplit(text);
      assert Rows(text)[i..] == Rows(rest)[i - 1..];
      var inner := RowsFrom(rest, i - 1);
      cut := |row| + 1 + inner;
      CutBehindRow(row, rest, inner);
    }
  }

  lemma CutBehindRow(row: string, rest: string, inner: nat)
    requires inner <= |rest|
    ensures (row + "\n" + rest)[|row| + 1 + inner..] == rest[inner..]
    ensures EndsLine(rest[..inner]) ==> EndsLine((row + "\n" + rest)[..|row| + 1 + inner])
  {
    assert (row + "\n" + rest)[..|row| + 1 + inner] == row + "\n" + rest[..inner];
  }

  lemma {:induction false} RowsTakeSize(text: string)
    ensures |text| <= Size(Rows(text)) <= |text| + 1
    decreases |text|
  {
    hide Rows, Lines;
    NoRows();
    if text != "" {
      var row, rest := RowsSplit(text);
      assert ([row] + Rows(rest))[1..] == Rows(rest);
      RowsTakeSize(rest);
    }
  }

  // ----- Losing blank rows -----

  /** Some blank rows have been taken out. */
  predicate Thinned(a: seq<string>, b: seq<string>) {
    if a == [] then b == []
    else
      var n := |a| - 1;
      || (b != [] && a[n] == b[|b| - 1] && Thinned(a[..n], b[..|b| - 1]))
      || (a[n] == "" && Thinned(a[..n], b))
  }

  lemma {:induction false} ThinnedItself(a: seq<string>)
    ensures Thinned(a, a)
  {
    if a != [] {
      ThinnedItself(a[..|a| - 1]);
    }
  }

  lemma {:induction false} ThinnedSize(a: seq<string>, b: seq<string>)
    requires Thinned(a, b)
    ensures |b| <= |a| && Size(b) <= Size(a)
  {
    if a != [] {
      var n := |a| - 1;
      SizeSplit(a, n);
      if b != [] && a[n] == b[|b| - 1] && Thinned(a[..n], b[..|b| - 1]) {
        SizeSplit(b, |b| - 1);
        ThinnedSize(a[..n], b[..|b| - 1]);
      } else {
        ThinnedSize(a[..n], b);
      }
    }
  }

  lemma {:induction false} SizeSplit(rows: seq<string>, i: nat)
    requires i <= |rows|
    ensures Size(rows) == Size(rows[..i]) + Size(rows[i..])
  {
    if i == 0 {
      assert rows[..i] == [] && rows[i..] == rows;
    } else {
      assert rows[1..][..i - 1] == rows[..i][1..] && rows[1..][i - 1..] == rows[i..];
      SizeSplit(rows[1..], i - 1);
    }
  }

  lemma {:induction false} ThinnedConcat(a: seq<string>, b: seq<string>, c: seq<string>, d: seq<string>)
    requires Thinned(a, b) && Thinned(c, d)
    ensures Thinned(a + c, b + d)
    decreases |c|
  {
    if c == [] {
      assert a + c == a && b + d == b;
    } else {
      var n := |c| - 1;
      assert (a + c)[..|a + c| - 1] == a + c[..n];
      if d != [] && c[n] == d[|d| - 1] && Thinned(c[..n], d[..|d| - 1]) {
        assert (b + d)[..|b + d| - 1] == b + d[..|d| - 1];
        ThinnedConcat(a, b, c[..n], d[..|d| - 1]);
      } else {
        ThinnedConcat(a, b, c[..n], d);
      }
    }
  }

  /** Every end of the rows survives as an end of the thinned rows. */
  lemma {:induction false} ThinnedEnd(a: seq<string>, b: seq<string>, i: nat) returns (j: nat)
    requires Thinned(a, b) && i <= |a|
    ensures j <= |b| && Thinned(a[i..], b[j..])
    decreases |a|
  {
    if i == |a| {
      j := |b|;
    } else {
      var n := |a| - 1;
      assert a[i..][..n - i] == a[..n][i..];
      if b != [] && a[n] == b[|b| - 1] && Thinned(a[..n], b[..|b| - 1]) {
        j := ThinnedEnd(a[..n], b[..|b| - 1], i);
        assert b[j..][..|b| - 1 - j] == b[..|b| - 1][j..];
      } else {
        j := ThinnedEnd(a[..n], b, i);
      }
    }
  }

  lemma {:induction false} ThinnedTwice(a: seq<string>, b: seq<string>, c: seq<string>)
    requires Thinned(a, b) && Thinned(b, c)
    ensures Thinned(a, c)
    decreases |a|
  {
    if a != [] {
      var n := |a| - 1;
      if b != [] && a[n] == b[|b| - 1] && Thinned(a[..n], b[..|b| - 1]) {
        if c != [] && b[|b| - 1] == c[|c| - 1] && Thinned(b[..|b| - 1], c[..|c| - 1]) {
          ThinnedTwice(a[..n], b[..|b| - 1], c[..|c| - 1]);
        } else {
          ThinnedTwice(a[..n], b[..|b| - 1], c);
        }
      } else {
        ThinnedTwice(a[..n], b, c);
      }
    }
  }

  // ----- Keeping the newest rows -----

  predicate Within(rows: seq<string>, maxRows: nat, maxBytes: nat) {
    |rows| <= maxRows && Size(rows) <= maxBytes
  }

  /** The end of `kept` is what is left of these rows. */
  predicate EndsWithRows(kept: seq<string>, rows: seq<string>, j: nat) {
    j <= |kept| && Thinned(rows, kept[j..])
  }

  /** Whatever newest rows fit the limits, `kept` ends with them, blank rows aside. */
  ghost predicate Keeps(all: seq<string>, kept: seq<string>, maxRows: nat, maxBytes: nat) {
    forall i: nat | i <= |all| && Within(all[i..], maxRows, maxBytes) ::
      exists j: nat :: EndsWithRows(kept, all[i..], j)
  }

  lemma ThinnedKeeps(a: seq<string>, b: seq<string>, maxRows: nat, maxBytes: nat)
    requires Thinned(a, b)
    ensures Keeps(a, b, maxRows, maxBytes)
  {
    forall i: nat | i <= |a| && Within(a[i..], maxRows, maxBytes) ensures exists j: nat :: EndsWithRows(b, a[i..], j) {
      var j := ThinnedEnd(a, b, i);
      assert EndsWithRows(b, a[i..], j);
    }
  }

  lemma KeepsTwice(a: seq<string>, b: seq<string>, c: seq<string>, maxRows: nat, maxBytes: nat)
    requires Keeps(a, b, maxRows, maxBytes) && Keeps(b, c, maxRows, maxBytes)
    ensures Keeps(a, c, maxRows, maxBytes)
  {
    hide Thinned;
    forall i: nat | i <= |a| && Within(a[i..], maxRows, maxBytes) ensures exists j: nat :: EndsWithRows(c, a[i..], j) {
      var j: nat :| EndsWithRows(b, a[i..], j);
      ThinnedSize(a[i..], b[j..]);
      assert Within(b[j..], maxRows, maxBytes);
      var k: nat :| EndsWithRows(c, b[j..], k);
      ThinnedTwice(a[i..], b[j..], c[k..]);
      assert EndsWithRows(c, a[i..], k);
    }
  }

  /** The same further rows are kept on both sides. */
  lemma KeepsGrows(a: seq<string>, b: seq<string>, more: seq<string>, maxRows: nat, maxBytes: nat)
    requires Keeps(a, b, maxRows, maxBytes)
    ensures Keeps(a + more, b + more, maxRows, maxBytes)
  {
    hide Thinned, Size;
    forall i: nat | i <= |a + more| && Within((a + more)[i..], maxRows, maxBytes)
      ensures exists j: nat :: EndsWithRows(b + more, (a + more)[i..], j)
    {
      if i >= |a| {
        var j := |b| + (i - |a|);
        assert (a + more)[i..] == more[i - |a|..] == (b + more)[j..];
        ThinnedItself(more[i - |a|..]);
        assert EndsWithRows(b + more, (a + more)[i..], j);
      } else {
        assert (a + more)[i..] == a[i..] + more;
        SizeSplit(a[i..] + more, |a| - i);
        assert (a[i..] + more)[..|a| - i] == a[i..];
        assert Within(a[i..], maxRows, maxBytes);
        var j: nat :| EndsWithRows(b, a[i..], j);
        ThinnedItself(more);
        ThinnedConcat(a[i..], b[j..], more, more);
        assert (b + more)[j..] == b[j..] + more;
        assert EndsWithRows(b + more, (a + more)[i..], j);
      }
    }
  }

  /** Rows in front of what is kept do no harm. */
  lemma KeepsBehind(a: seq<string>, front: seq<string>, b: seq<string>, maxRows: nat, maxBytes: nat)
    requires Keeps(a, b, maxRows, maxBytes)
    ensures Keeps(a, front + b, maxRows, maxBytes)
  {
    hide Thinned, Size;
    forall i: nat | i <= |a| && Within(a[i..], maxRows, maxBytes)
      ensures exists j: nat :: EndsWithRows(front + b, a[i..], j)
    {
      var j: nat :| EndsWithRows(b, a[i..], j);
      assert (front + b)[|front| + j..] == b[j..];
      assert EndsWithRows(front + b, a[i..], |front| + j);
    }
  }

  // ----- Truncated tails keep the newest rows -----

  lemma {:induction false} RowsOfTerminated(body: string)
    ensures Rows(body + "\n") == Lines(body)
    decreases |body|
  {
    hide Rows, Lines, EndsLine;
    NoRows();
    if body == "" {
      RowsOfRow("", "");
      LinesStep("", 0);
      assert "" + "\n" + "" == body + "\n";
    } else {
      var row, rest := RowsSplit(body);
      if body == row {
        RowsOfRow(row, "");
        assert row + "\n" + "" == body + "\n";
      } else {
        RowsOfTerminated(rest);
        RowsOfRow(row, rest + "\n");
        assert row + "\n" + (rest + "\n") == body + "\n";
      }
    }
  }

  lemma BlankLastThins(rows: seq<string>)
    ensures Thinned(rows + [""], rows) && Thinned(rows + [], rows) && Thinned(rows, rows)
  {
    ThinnedItself(rows);
    assert rows + [] == rows;
    assert (rows + [""])[..|rows|] == rows;
  }

  lemma RowsOfDropped(text: string)
    ensures Thinned(Rows(text), Rows(DropFinalNewline(text)))
  {
    hide Rows, Lines, EndsLine, Thinned;
    var body := DropFinalNewline(text);
    BlankLastThins(Rows(body));
    if body != text {
      assert text == body + "\n";
      RowsOfTerminated(body);
      LinesAreRows(body);
    }
  }

  /** Joined rows are those rows, without an empty last one. */
  lemma RowsOfUnlines(ls: seq<string>)
    requires ls != [] && forall l | l in ls :: '\n' !in l
    ensures Thinned(ls, Rows(Unlines(ls)))
  {
    hide Rows, Lines, EndsLine, Unlines, Thinned;
    LinesInvertsUnlines(ls);
    LinesAreRows(Unlines(ls));
    BlankLastThins(Rows(Unlines(ls)));
  }

  lemma {:induction false} SkipEmptyThins(ls: seq<string>)
    ensures Thinned(ls, SkipEmpty(ls))
  {
    if ls != [] && ls[0] == "" {
      SkipEmptyThins(ls[1..]);
      assert Thinned([""], []);
      ThinnedConcat([""], [], ls[1..], SkipEmpty(ls[1..]));
      assert [""] + ls[1..] == ls && [] + SkipEmpty(ls[1..]) == SkipEmpty(ls);
    } else {
      ThinnedItself(ls);
    }
  }

  lemma EndKeeps(all: seq<string>, from: nat, maxRows: nat, maxBytes: nat)
    requires from <= |all| && maxRows <= |all| - from
    ensures Keeps(all, all[from..], maxRows, maxBytes)
  {
    hide Thinned, Size;
    forall i: nat | i <= |all| && Within(all[i..], maxRows, maxBytes)
      ensures exists j: nat :: EndsWithRows(all[from..], all[i..], j)
    {
      assert all[from..][i - from..] == all[i..];
      ThinnedItself(all[i..]);
      assert EndsWithRows(all[from..], all[i..], i - from);
    }
  }

  lemma NotesEndLines(n: nat)
    ensures EndsLine(OmittedLinesNote(n)) && EndsLine(OmittedBytesNote(n))
  {
    var tail := " earlier line(s)]\n";
    assert tail[|tail| - 1] == '\n';
  }

  /** The line tail of a text keeps its newest rows. */
  lemma LinesTailKeeps(text: string, maxRows: nat, maxBytes: nat)
    requires '\r' !in text && 0 < maxRows
    ensures Keeps(Rows(text), Rows(TruncateLinesTail(text, maxRows)), maxRows, maxBytes)
  {
    hide Rows, Lines, Keeps, Thinned, TruncateLinesTail, DropFinalNewline;
    if text != "" && maxRows < |Lines(DropFinalNewline(text))| {
      LongTextKeeps(text, maxRows, maxBytes);
    } else {
      ShortTextStays(text, maxRows);
      ThinnedItself(Rows(text));
      ThinnedKeeps(Rows(text), Rows(text), maxRows, maxBytes);
    }
  }

  lemma ShortTextStays(text: string, maxRows: nat)
    requires '\r' !in text && 0 < maxRows && (text != "" ==> |Lines(DropFinalNewline(text))| <= maxRows)
    ensures TruncateLinesTail(text, maxRows) == text
  {
    hide Lines, SplitLines, DropFinalNewline, OmittedLinesNote, JoinLines;
    if text == "" {
      NoLinesInNothing();
    } else {
      CountedLines(text);
    }
  }

  lemma LongTextKeeps(text: string, maxRows: nat, maxBytes: nat)
    requires '\r' !in text && text != "" && 0 < maxRows < |Lines(DropFinalNewline(text))|
    ensures Keeps(Rows(text), Rows(TruncateLinesTail(text, maxRows)), maxRows, maxBytes)
  {
    hide Rows, Lines, EndsLine, Unlines, SkipEmpty, OmittedLinesNote, Keeps, Thinned, DropFinalNewline, EndsWith,
         TruncateLinesTail;
    var ls := Lines(DropFinalNewline(text));
    var omitted := |ls| - maxRows;
    var kept := Unlines(SkipEmpty(ls[omitted..]));
    LinesTailKeepsNewest(text, maxRows);
    CountedAreRows(text);
    EndKeeps(ls, omitted, maxRows, maxBytes);
    KeptLines(ls[omitted..], maxRows, maxBytes);
    KeepsTwice(ls, ls[omitted..], Rows(kept), maxRows, maxBytes);
    NotesEndLines(omitted);
    RowsConcat(OmittedLinesNote(omitted), kept);
    KeepsBehind(ls, Rows(OmittedLinesNote(omitted)), Rows(kept), maxRows, maxBytes);
  }

  /** The lines that are counted are the rows. */
  lemma CountedAreRows(text: string)
    requires text != ""
    ensures Lines(DropFinalNewline(text)) == Rows(text)
  {
    hide Rows, Lines, EndsLine;
    var body := DropFinalNewline(text);
    if body != text {
      assert text == body + "\n";
      RowsOfTerminated(body);
    } else {
      LinesAreRows(text);
      NotEndsLine(text);
    }
  }

  lemma NotEndsLine(text: string)
    requires text != "" && DropFinalNewline(text) == text
    ensures !EndsLine(text)
  {
  }

  lemma KeptLinesThin(ls: seq<string>)
    requires forall l | l in ls :: '\n' !in l
    ensures Thinned(ls, Rows(Unlines(SkipEmpty(ls))))
  {
    hide Rows, Unlines, SkipEmpty, Thinned;
    SkipEmptyThins(ls);
    var kept := SkipEmpty(ls);
    if kept == [] {
      NoRows();
      EmptyUnlines();
    } else {
      RowsOfUnlines(kept);
      ThinnedTwice(ls, kept, Rows(Unlines(kept)));
    }
  }

  lemma KeptLines(ls: seq<string>, maxRows: nat, maxBytes: nat)
    requires forall l | l in ls :: '\n' !in l
    ensures Keeps(ls, Rows(Unlines(SkipEmpty(ls))), maxRows, maxBytes)
  {
    hide Rows, Unlines, SkipEmpty, Keeps, Thinned;
    KeptLinesThin(ls);
    ThinnedKeeps(ls, Rows(Unlines(SkipEmpty(ls))), maxRows, maxBytes);
  }

  lemma EmptyUnlines()
    ensures Unlines([]) == ""
  {
  }

  /** The byte tail of a text keeps the newest rows that take fewer bytes than its limit. */
  lemma BytesTailKeeps(text: string, maxRows: nat, maxBytes: nat)
    requires 0 < maxBytes
    ensures Keeps(Rows(text), Rows(TruncateBytesTail(text, maxBytes)), maxRows, maxBytes - 1)
  {
    hide Rows, EndsLine, Size, Thinned, OmittedBytesNote, SafeSuffixStart;
    var rows, out := Rows(text), TruncateBytesTail(text, maxBytes);
    forall i: nat | i <= |rows| && Within(rows[i..], maxRows, maxBytes - 1)
      ensures exists j: nat :: EndsWithRows(Rows(out), rows[i..], j)
    {
      ThinnedItself(rows[i..]);
      if |text| <= maxBytes {
        assert EndsWithRows(Rows(out), rows[i..], i);
      } else if i == |rows| {
        assert rows[i..] == [] && Rows(out)[|Rows(out)|..] == [];
        assert EndsWithRows(Rows(out), rows[i..], |Rows(out)|);
      } else {
        var cut := RowsFrom(text, i);
        CutBehindNote(text, maxBytes, cut);
        var start := SafeSuffixStart(text, |text| - maxBytes);
        var front := OmittedBytesNote(start) + text[start..cut];
        RowsConcat(front, text[cut..]);
        assert Rows(out)[|Rows(front)|..] == rows[i..];
        assert EndsWithRows(Rows(out), rows[i..], |Rows(front)|);
      }
    }
  }

  /** A row that starts within the limit is not cut into. */
  lemma CutBehindNote(text: string, maxBytes: nat, cut: nat)
    requires 0 < maxBytes < |text| && |text| - maxBytes < cut <= |text| && EndsLine(text[..cut])
    ensures var start := SafeSuffixStart(text, |text| - maxBytes);
      && start < cut && EndsLine(OmittedBytesNote(start) + text[start..cut])
      && TruncateBytesTail(text, maxBytes) == (OmittedBytesNote(start) + text[start..cut]) + text[cut..]
  {
    hide OmittedBytesNote;
    var start := SafeSuffixStart(text, |text| - maxBytes);
    assert text[..cut][cut - 1] == '\n';
    assert text[start..] == text[start..cut] + text[cut..];
    assert text[start..cut][cut - start - 1] == '\n';
  }

  /** `truncate_tool_tail` keeps the newest rows within both limits. */
  lemma ToolTailKeeps(text: string, maxRows: nat, maxBytes: nat)
    requires '\r' !in text && 0 < maxRows && 0 < maxBytes
    ensures Keeps(Rows(text), Rows(ToolTail(text, maxRows, maxBytes)), maxRows, maxBytes - 1)
  {
    hide Rows, Keeps, TruncateLinesTail, TruncateBytesTail;
    var lines := TruncateLinesTail(text, maxRows);
    LinesTailKeeps(text, maxRows, maxBytes - 1);
    BytesTailKeeps(lines, maxRows, maxBytes);
    KeepsTwice(Rows(text), Rows(lines), Rows(ToolTail(text, maxRows, maxBytes)), maxRows, maxBytes - 1);
  }
}
