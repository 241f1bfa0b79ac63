/** Re-printing an oversized accumulator with truncated slices, and why the verdict survives it. */
module Compaction {
  import opened Text
  import opened Markers
  import opened Extraction
  import opened Truncation
  import opened Runtime

  const MAX_TEXT_BYTES := 256 * 1024
  const MAX_BACKTRACE_BYTES := 128 * 1024
  const TAIL_LINES := 2000
  const BACKTRACE_LINES := 200

  /** Which markers a search of the accumulator meets anywhere. */
  datatype Seen = Seen(outEnd: bool, valEnd: bool, error: bool, backtrace: bool, end: bool)

  function Sighted(m: Marker, acc: string): Seen {
    var sees := (kind: Kind) => Find(acc, m.Word(kind), 0).Some?;
    Seen(sees(OutEnd), sees(ValEnd), sees(Error), sees(Backtrace), sees(End))
  }

  function TextBlock(text: string): string {
    EndLine(ToolTail(text, TAIL_LINES, MAX_TEXT_BYTES))
  }

  function TraceBlock(text: string): string {
    EndLine(ToolTail(text, BACKTRACE_LINES, MAX_BACKTRACE_BYTES))
  }

  function Close(segment: string, seen: Seen): Pieces {
    if seen.end then Piece(segment, End, Last("")) else Last(segment)
  }

  /** The token structure that compaction prints. */
  function CompactPieces(e: Extracted, seen: Seen): Pieces {
    var output := TextBlock(e.stdoutText);
    if seen.error then
      Piece(output, Error,
        if seen.backtrace
        then Piece(TextBlock(e.errorMessage), Backtrace, Close(TraceBlock(e.backtrace), seen))
        else Close(TextBlock(e.errorMessage), seen))
    else if seen.outEnd then
      Piece(output, OutEnd,
        if seen.valEnd
        then Piece(TextBlock(e.valueRepr), ValEnd, Close("", seen))
        else Close(TextBlock(e.valueRepr), seen))
    else Close(output, seen)
  }

  function Compact(m: Marker, e: Extracted, seen: Seen): string {
    m.Word(Begin) + ("\n" + Print(m, CompactPieces(e, seen)))
  }

  method AppendLine(out: string, line: string) returns (r: string)
    ensures r == out + line + "\n"
  {
    r := out + line;
    r := r + "\n";
  }

  method AppendBlock(out: string, text: string) returns (r: string)
    ensures r == out + EndLine(text)
  {
    if text == "" {
      assert out + EndLine(text) == out;
      return out;
    }
    r := out + text;
    assert r[|r| - 1] == text[|text| - 1];
    if r[|r| - 1] != '\n' {
      r := r + "\n";
    }
  }

  method ToolTailImpl(text: string, maxLines: nat, maxBytes: nat) returns (out: string)
    ensures out == ToolTail(text, maxLines, maxBytes)
  {
    var lines := TruncateLinesTailImpl(text, maxLines);
    out := TruncateBytesTailImpl(lines, maxBytes);
  }

  /** `compact_marker_accumulator`. */
  method CompactMarkerAccumulator(m: Marker, e: Extracted, seen: Seen) returns (out: string)
    ensures out == Compact(m, e, seen)
  {
    hide Print, ToolTail, EndLine;
    ghost var start, left := m.Word(Begin) + "\n", CompactPieces(e, seen);
    assert m.Word(Begin) + ("\n" + Print(m, left)) == start + Print(m, left);
    out := AppendLine("", m.Word(Begin));
    assert out == start;
    if left.Piece? { PrintStep(m, out, left); }
    var tail := ToolTailImpl(e.stdoutText, TAIL_LINES, MAX_TEXT_BYTES);
    ghost var before := out;
    out := AppendBlock(out, tail);
    if seen.error {
      out := AppendLine(out, m.Word(Error));
      left := left.next;
      if left.Piece? { PrintStep(m, out, left); }
      tail := ToolTailImpl(e.errorMessage, TAIL_LINES, MAX_TEXT_BYTES);
      before := out;
      out := AppendBlock(out, tail);
      if seen.backtrace {
        out := AppendLine(out, m.Word(Backtrace));
        left := left.next;
        if left.Piece? { PrintStep(m, out, left); }
        tail := ToolTailImpl(e.backtrace, BACKTRACE_LINES, MAX_BACKTRACE_BYTES);
        before := out;
        out := AppendBlock(out, tail);
      }
    } else if seen.outEnd {
      out := AppendLine(out, m.Word(OutEnd));
      left := left.next;
      if left.Piece? { PrintStep(m, out, left); }
      tail := ToolTailImpl(e.valueRepr, TAIL_LINES, MAX_TEXT_BYTES);
      before := out;
      out := AppendBlock(out, tail);
      if seen.valEnd {
        out := AppendLine(out, m.Word(ValEnd));
        left := left.next;
        if left.Piece? { PrintStep(m, out, left); }
        before := out;
        assert out + "" == out;
      }
    }
    assert out == before + left.segment;
    PrintLast(m, left.segment);
    PrintLast(m, "");
    if seen.end {
      out := AppendLine(out, m.Word(End));
      assert out + "" == out;
    }
  }

  lemma PrintLast(m: Marker, segment: string)
    ensures Print(m, Last(segment)) == segment
  {
  }
}
