/** What the limits of a tool tail promise its reader. */
module TailLimits {
  import opened Text
  import opened Truncation
  import opened Recency
  import opened Provenance
  import opened Compaction
  import opened CompactionLaws

  // ----- Lines -----

  lemma FewRowsStay(text: string, maxLines: nat)
    requires '\r' !in text && 0 < maxLines && |Rows(text)| <= maxLines
    ensures TruncateLinesTail(text, maxLines) == text
  {
    hide Rows, TruncateLinesTail, DropFinalNewline, Lines;
    if text != "" {
      CountedAreRows(text);
    }
    ShortTextStays(text, maxLines);
  }

  /** Of too many rows the newest stay, blank ones in front aside, behind a note that counts the others. */
  lemma ManyRowsAreCut(text: string, maxLines: nat) returns (kept: string)
    requires '\r' !in text && 0 < maxLines < |Rows(text)|
    ensures var omitted := |Rows(text)| - maxLines;
      && TruncateLinesTail(text, maxLines) == OmittedLinesNote(omitted) + kept
      && Rows(OmittedLinesNote(omitted) + kept) == [LinesNoteRow(omitted)] + Rows(kept)
      && Thinned(Rows(text)[omitted..], Rows(kept)) && |kept| <= Size(Rows(text)[omitted..])
  {
    hide Rows, TruncateLinesTail, DropFinalNewline, Lines, Unlines, SkipEmpty, Thinned, EndsWith, OmittedLinesNote,
         EndsLine, Size;
    var omitted := |Rows(text)| - maxLines;
    NoRows();
    CountedAreRows(text);
    LinesTailKeepsNewest(text, maxLines);
    kept := Unlines(SkipEmpty(Rows(text)[omitted..]));
    KeptLinesThin(Rows(text)[omitted..]);
    ThinnedSize(Rows(text)[omitted..], Rows(kept));
    RowsTakeSize(kept);
    NotesEndLines(omitted);
    RowsOfNotes(omitted);
    RowsConcat(OmittedLinesNote(omitted), kept);
  }

  lemma LinesTailHasFewRows(text: string, maxLines: nat)
    requires '\r' !in text && 0 < maxLines
    ensures |Rows(TruncateLinesTail(text, maxLines))| <= maxLines + 1
  {
    hide Rows, TruncateLinesTail, OmittedLinesNote, Thinned, Size;
    if |Rows(text)| <= maxLines {
      FewRowsStay(text, maxLines);
    } else {
      var kept := ManyRowsAreCut(text, maxLines);
      ThinnedSize(Rows(text)[|Rows(text)| - maxLines..], Rows(kept));
    }
  }

  // ----- Bytes -----

  lemma BytesTailHasFewRows(text: string, maxBytes: nat)
    requires 0 < maxBytes
    ensures |Rows(TruncateBytesTail(text, maxBytes))| <= |Rows(text)| + 1
  {
    hide Rows, OmittedBytesNote, SafeSuffixStart, EndsWith;
    if |text| > maxBytes {
      var start := SafeSuffixStart(text, |text| - maxBytes);
      NotesEndLines(start);
      RowsOfNotes(start);
      RowsConcat(OmittedBytesNote(start), text[start..]);
      if Rows(text[start..]) != [] {
        var i, short := RowsOfSuffix(text, start);
      }
    }
  }

  // ----- Both -----

  /** A tool tail has no more rows than allowed, apart from its notes. */
  lemma ToolTailHasFewRows(text: string, maxLines: nat, maxBytes: nat)
    requires '\r' !in text && 0 < maxLines && 0 < maxBytes
    ensures |Rows(ToolTail(text, maxLines, maxBytes))| <= maxLines + 2
  {
    hide Rows, TruncateLinesTail, TruncateBytesTail;
    LinesTailHasFewRows(text, maxLines);
    BytesTailHasFewRows(TruncateLinesTail(text, maxLines), maxBytes);
  }

  /** A text within both limits is shown as it is. */
  lemma ToolTailLeavesAlone(text: string, maxLines: nat, maxBytes: nat)
    requires '\r' !in text && 0 < maxLines && |Rows(text)| <= maxLines && |text| <= maxBytes && 0 < maxBytes
    ensures ToolTail(text, maxLines, maxBytes) == text
  {
    hide Rows, TruncateLinesTail;
    FewRowsStay(text, maxLines);
  }

  /** If only the line limit is exceeded, the note counts the rows left out and the newest ones follow it. */
  lemma ToolTailCountsRows(text: string, maxLines: nat, maxBytes: nat) returns (kept: string)
    requires '\r' !in text && 0 < maxLines < |Rows(text)|
    requires var omitted := |Rows(text)| - maxLines;
      |OmittedLinesNote(omitted)| + Size(Rows(text)[omitted..]) <= maxBytes
    ensures var omitted := |Rows(text)| - maxLines;
      && ToolTail(text, maxLines, maxBytes) == OmittedLinesNote(omitted) + kept
      && Thinned(Rows(text)[omitted..], Rows(kept))
      && ("" !in Rows(text)[omitted..] ==> Rows(kept) == Rows(text)[omitted..])
  {
    hide Rows, TruncateLinesTail, OmittedLinesNote, Size, Thinned;
    kept := ManyRowsAreCut(text, maxLines);
    var newest := Rows(text)[|Rows(text)| - maxLines..];
    if "" !in newest {
      NothingThinned(newest, Rows(kept));
    }
  }

  lemma {:induction false} NothingThinned(a: seq<string>, b: seq<string>)
    requires Thinned(a, b) && "" !in a
    ensures a == b
  {
    if a != [] {
      var n := |a| - 1;
      NothingThinned(a[..n], b[..|b| - 1]);
      assert a == a[..n] + [a[n]] && b == b[..|b| - 1] + [b[|b| - 1]];
    }
  }

  /** If the byte limit is exceeded, the note counts the bytes in front of the suffix that is shown. */
  lemma ToolTailCountsBytes(text: string, maxLines: nat, maxBytes: nat) returns (start: nat)
    requires '\r' !in text && 0 < maxLines && |Rows(text)| <= maxLines && 0 < maxBytes < |text|
    ensures |text| - maxBytes <= start <= |text|
    ensures ToolTail(text, maxLines, maxBytes) == OmittedBytesNote(start) + text[start..]
    ensures !IsContinuation(text[|text| - maxBytes]) ==> start == |text| - maxBytes
  {
    hide Rows, TruncateLinesTail, OmittedBytesNote;
    FewRowsStay(text, maxLines);
    start := SafeSuffixStart(text, |text| - maxBytes);
  }

  /** The blocks of a compacted accumulator, in numbers. */
  lemma BlocksAreSmall(text: string)
    requires '\r' !in text && |text| <= SIZE_MAX - 128
    ensures |Rows(TextBlock(text))| <= 2002 && |TextBlock(text)| <= 262144 + 65
    ensures |Rows(TraceBlock(text))| <= 202 && |TraceBlock(text)| <= 131072 + 65
  {
    hide Rows, TruncateLinesTail, TruncateBytesTail;
    ToolTailHasFewRows(text, TAIL_LINES, MAX_TEXT_BYTES);
    ToolTailHasFewRows(text, BACKTRACE_LINES, MAX_BACKTRACE_BYTES);
    RowsOfEndLine(ToolTail(text, TAIL_LINES, MAX_TEXT_BYTES));
    RowsOfEndLine(ToolTail(text, BACKTRACE_LINES, MAX_BACKTRACE_BYTES));
    BlockIsBounded(text, TAIL_LINES, MAX_TEXT_BYTES);
    BlockIsBounded(text, BACKTRACE_LINES, MAX_BACKTRACE_BYTES);
  }

  /** Up to the same numbers, they show the whole text. */
  lemma BlocksShowSmallTexts(text: string)
    requires '\r' !in text
    ensures |Rows(text)| <= 2000 && |text| <= 262144 ==> TextBlock(text) == EndLine(text)
    ensures |Rows(text)| <= 200 && |text| <= 131072 ==> TraceBlock(text) == EndLine(text)
  {
    hide Rows, ToolTail;
    if |Rows(text)| <= 2000 && |text| <= 262144 {
      ToolTailLeavesAlone(text, TAIL_LINES, MAX_TEXT_BYTES);
    }
    if |Rows(text)| <= 200 && |text| <= 131072 {
      ToolTailLeavesAlone(text, BACKTRACE_LINES, MAX_BACKTRACE_BYTES);
    }
  }

  // ----- The single truncations -----

  /** A text within the limit is left alone by all four of them. */
  lemma NothingToOmit(text: string, limit: nat)
    requires 0 < limit
    ensures '\r' !in text && |Rows(text)| <= limit ==>
      TruncateLines(text, limit) == text == TruncateLinesTail(text, limit)
    ensures |text| <= limit ==> TruncateBytes(text, limit) == text == TruncateBytesTail(text, limit)
  {
    hide Rows, DropFinalNewline, Lines, SplitLines, JoinLines, Decimal, OmittedLinesNote, OmittedBytesNote;
    if text == "" {
      NoLinesInNothing();
    } else {
      CountedAreRows(text);
      if '\r' !in text {
        CountedLines(text);
      }
    }
  }

  /** With a limit of nothing, they only say so. */
  lemma NothingIsShown(text: string)
    ensures TruncateLines(text, 0) == TruncateLinesTail(text, 0)
         == "[JJMCP truncated: output hidden because max line count is 0]"
    ensures TruncateBytes(text, 0) == TruncateBytesTail(text, 0)
         == "[JJMCP truncated: output hidden because max byte count is 0]"
  {
  }

  /** Carriage returns are not counted, and are dropped from a text that is too long. */
  lemma CarriageReturnsDoNotCount(text: string, limit: nat)
    requires 0 < limit && (text != "" ==> text[|text| - 1] != '\r')
    ensures |Rows(DropCr(text))| <= limit ==> TruncateLines(text, limit) == text == TruncateLinesTail(text, limit)
    ensures |Rows(DropCr(text))| > limit ==>
      && TruncateLines(text, limit) == TruncateLines(DropCr(text), limit)
      && TruncateLinesTail(text, limit) == TruncateLinesTail(DropCr(text), limit)
  {
    hide Rows, DropFinalNewline, Lines, SplitLines, JoinLines, Decimal, OmittedLinesNote, DropCr;
    var plain := DropCr(text);
    SameLinesWithoutCr(text);
    NoRows();
    if plain == "" {
      NoLinesInNothing();
    } else {
      CountedAreRows(plain);
      CountedLines(plain);
    }
  }

  lemma SameLinesWithoutCr(text: string)
    requires text != "" ==> text[|text| - 1] != '\r'
    ensures SplitLines(text) == SplitLines(DropCr(text)) && (text == "" <==> DropCr(text) == "")
  {
    hide Lines, DropCr;
    DropCrEmpty();
    if text != "" {
      var n := |text| - 1;
      assert text[..n] + [text[n]] == text;
      DropCrAppend(text[..n], text[n]);
    }
  }
}
