/** Recovering the structured output of one evaluation from a marker-delimited capture. */
module Extraction {
  import opened Text
  import opened Markers

  datatype Phase = InStdout | InValue | InError | InBacktrace

  datatype Extracted = Extracted(
    foundBegin: bool, foundEnd: bool, juliaError: bool,
    text: string, stdoutText: string, valueRepr: string, errorMessage: string, backtrace: string)
  {
    function Slice(phase: Phase): string {
      match phase
      case InStdout => stdoutText
      case InValue => valueRepr
      case InError => errorMessage
      case InBacktrace => backtrace
    }

    /** `append_segment` on the legacy text and on the slice of the current phase. */
    function Record(phase: Phase, segment: string): Extracted {
      var r := this.(text := AppendSegment(text, segment));
      match phase
      case InStdout => r.(stdoutText := AppendSegment(stdoutText, segment))
      case InValue => r.(valueRepr := AppendSegment(valueRepr, segment))
      case InError => r.(errorMessage := AppendSegment(errorMessage, segment))
      case InBacktrace => r.(backtrace := AppendSegment(backtrace, segment))
    }
  }

  const NOTHING := Extracted(false, false, false, "", "", "", "", "")

  function SegmentText(segment: string): string {
    DropFinalNewline(DropCr(segment))
  }

  /** A text joins what is already there on a line of its own. */
  function Beside(out: string, text: string): string {
    if text == "" then out
    else if out != "" && out[|out| - 1] != '\n' && text[0] != '\n' then out + "\n" + text
    else out + text
  }

  function AppendSegment(out: string, segment: string): string {
    Beside(out, SegmentText(segment))
  }

  lemma BesideNothing(text: string)
    ensures Beside(text, "") == text && Beside("", text) == text
  {
  }

  lemma AppendToEmpty(segment: string)
    ensures AppendSegment("", segment) == SegmentText(segment)
  {
  }

  lemma AppendNothing(out: string)
    ensures AppendSegment(out, "") == out
  {
  }

  // ----- Tokens -----

  datatype Token = Token(pos: nat, kind: Kind)

  predicate TokenAt(m: Marker, text: string, p: nat, kind: Kind) {
    kind != Begin && OccursAt(text, m.Word(kind), p)
  }

  ghost predicate TokenFree(m: Marker, text: string) {
    forall p: nat, kind :: !TokenAt(m, text, p, kind)
  }

  ghost predicate IsFirstToken(m: Marker, text: string, start: nat, token: Token) {
    && start <= token.pos && TokenAt(m, text, token.pos, token.kind)
    && forall p: nat, kind | start <= p && TokenAt(m, text, p, kind) :: token.pos <= p
  }

  function KindAt(m: Marker, text: string, p: nat): (kind: Option<Kind>)
    ensures kind.Some? ==> TokenAt(m, text, p, kind.value)
    ensures kind.None? ==> forall k :: !TokenAt(m, text, p, k)
  {
    if TokenAt(m, text, p, End) then Some(End)
    else if TokenAt(m, text, p, Error) then Some(Error)
    else if TokenAt(m, text, p, OutEnd) then Some(OutEnd)
    else if TokenAt(m, text, p, ValEnd) then Some(ValEnd)
    else if TokenAt(m, text, p, Backtrace) then Some(Backtrace)
    else None
  }

  lemma NoTokenPastEnd(m: Marker, text: string)
    ensures forall p: nat, kind | TokenAt(m, text, p, kind) :: p < |text| && p + |m.Word(kind)| <= |text|
  {
    assert forall kind :: m.Word(kind) != "";
  }

  function FirstToken(m: Marker, text: string, start: nat): (r: Option<Token>)
    ensures r.Some? ==> IsFirstToken(m, text, start, r.value) && r.value.pos + |m.Word(r.value.kind)| <= |text|
    ensures r.None? ==> forall p: nat, kind | start <= p :: !TokenAt(m, text, p, kind)
    decreases |text| - start
  {
    hide OccursAt, KindAt;
    NoTokenPastEnd(m, text);
    if start >= |text| then None
    else
      var kind := KindAt(m, text, start);
      if kind.Some? then Some(Token(start, kind.value)) else FirstToken(m, text, start + 1)
  }

  lemma FirstTokenUnique(m: Marker, text: string, start: nat, a: Token, b: Token)
    requires m.Apart()
    requires IsFirstToken(m, text, start, a) && IsFirstToken(m, text, start, b)
    ensures a == b
  {
    if |m.Word(a.kind)| <= |m.Word(b.kind)| {
      OccurrencesNeverNest(m, text, b.pos, b.kind, a.pos, a.kind);
    } else {
      OccurrencesNeverNest(m, text, a.pos, a.kind, b.pos, b.kind);
    }
  }

  /** Any first token is the one the reference function reports. */
  lemma FirstTokenIs(m: Marker, text: string, start: nat, token: Token)
    requires m.Apart() && IsFirstToken(m, text, start, token)
    ensures FirstToken(m, text, start) == Some(token)
  {
    FirstTokenUnique(m, text, start, token, FirstToken(m, text, start).value);
  }

  /** Five independent searches, keeping the leftmost hit; no two kinds can tie. */
  method FindNextMarkerToken(m: Marker, capture: string, start: nat) returns (best: Option<Token>)
    requires m.Apart()
    ensures best == FirstToken(m, capture, start)
  {
    var kinds := [End, Error, OutEnd, ValEnd, Backtrace];
    best := None;
    for i := 0 to |kinds|
      invariant best.Some? ==> start <= best.value.pos && TokenAt(m, capture, best.value.pos, best.value.kind)
      invariant forall j, p: nat | 0 <= j < i && start <= p && TokenAt(m, capture, p, kinds[j]) ::
                  best.Some? && best.value.pos <= p
    {
      var pos := Find(capture, m.Word(kinds[i]), start);
      if pos.Some? && (best.None? || pos.value < best.value.pos) {
        best := Some(Token(pos.value, kinds[i]));
      }
    }
    forall p: nat, kind | start <= p && TokenAt(m, capture, p, kind)
      ensures best.Some? && best.value.pos <= p
    {
      assert kinds[0] == End && kinds[1] == Error && kinds[2] == OutEnd && kinds[3] == ValEnd && kinds[4] == Backtrace;
      var j :| 0 <= j < |kinds| && kinds[j] == kind;
      assert TokenAt(m, capture, p, kinds[j]);
    }
    if best.Some? {
      FirstTokenIs(m, capture, start, best.value);
    }
  }

  function SkipLineEnding(text: string, p: nat): (q: nat)
    requires p <= |text|
    ensures p <= q <= |text|
  {
    var q := if p < |text| && text[p] == '\r' then p + 1 else p;
    if q < |text| && text[q] == '\n' then q + 1 else q
  }

  // ----- The token structure of a capture -----

  /** Segments closed by tokens, then the segment still open. Nothing is read after END. */
  datatype Pieces = Last(segment: string) | Piece(segment: string, kind: Kind, next: Pieces)

  function Lex(m: Marker, text: string): Pieces
    decreases |text|
  {
    var token := FirstToken(m, text, 0);
    if token.None? then Last(text)
    else
      var p, kind := token.value.pos, token.value.kind;
      var after := SkipLineEnding(text, p + |m.Word(kind)|);
      Piece(text[..p], kind, if kind == End then Last("") else Lex(m, text[after..]))
  }

  function PhaseAfter(kind: Kind, phase: Phase): Phase {
    match kind
    case Error => InError
    case OutEnd => InValue
    case ValEnd => InStdout
    case Backtrace => InBacktrace
    case _ => phase
  }

  datatype ScanState = ScanState(result: Extracted, phase: Phase)

  /** One segment recorded and the token that closes it acted upon. */
  function Consume(s: ScanState, segment: string, kind: Kind): ScanState {
    var r := s.result.Record(s.phase, segment);
    if kind == End then ScanState(r.(foundEnd := true), s.phase)
    else ScanState(r.(juliaError := r.juliaError || kind == Error), PhaseAfter(kind, s.phase))
  }

  /** What the scanning loop makes of the pieces, started in a given state. */
  function Interpret(pieces: Pieces, s: ScanState): ScanState {
    match pieces
    case Last(segment) => ScanState(s.result.Record(s.phase, segment), s.phase)
    case Piece(segment, kind, next) =>
      var after := Consume(s, segment, kind);
      if kind == End then after else Interpret(next, after)
  }

  /** The text after the first line that, trimmed, is the BEGIN word. */
  function AfterBegin(m: Marker, capture: string): (r: Option<string>)
    ensures r.Some? ==> |r.value| <= |capture| && r.value == capture[|capture| - |r.value|..]
    decreases |capture|
  {
    var e := LineEnd(capture, 0);
    var rest := if e == |capture| then "" else capture[e + 1..];
    if Trim(capture[..e]) == m.Word(Begin) then Some(rest)
    else if e == |capture| then None
    else AfterBegin(m, rest)
  }

  const BEGUN := ScanState(NOTHING.(foundBegin := true), InStdout)

  /** Result and final phase of scanning a capture; no BEGIN line means an empty result. */
  function Scan(m: Marker, capture: string): ScanState {
    var body := AfterBegin(m, capture);
    if body.None? then ScanState(NOTHING, InStdout) else Interpret(Lex(m, body.value), BEGUN)
  }

  function Extract(m: Marker, capture: string): Extracted {
    Scan(m, capture).result
  }

  // ----- The imperative scanner -----

  /** The start of the line after the one that contains position p. */
  function NextLine(text: string, p: nat): (q: nat)
    requires p <= |text|
    ensures p <= q <= |text| && (p < |text| ==> p < q)
  {
    var e := LineEnd(text, p);
    if e == |text| then e else e + 1
  }

  lemma AfterBeginFirstLine(m: Marker, text: string)
    ensures var e := LineEnd(text, 0);
      var rest := text[if e == |text| then e else e + 1..];
      AfterBegin(m, text) ==
        if Trim(text[..e]) == m.Word(Begin) then Some(rest)
        else if e == |text| then None
        else AfterBegin(m, rest)
  {
    hide Trim, LineEnd;
  }

  /** One line of the search for BEGIN, in positions of the whole capture. */
  lemma AfterBeginStep(m: Marker, capture: string, lineStart: nat)
    requires lineStart <= |capture|
    ensures var e, rest := LineEnd(capture, lineStart), capture[NextLine(capture, lineStart)..];
      AfterBegin(m, capture[lineStart..]) ==
        if Trim(capture[lineStart..e]) == m.Word(Begin) then Some(rest)
        else if e == |capture| then None
        else AfterBegin(m, rest)
  {
    hide Trim, LineEnd, AfterBegin;
    var e, suffix := LineEnd(capture, lineStart), capture[lineStart..];
    LineEndShift(capture, lineStart, 0);
    assert capture[lineStart..e] == suffix[..e - lineStart];
    assert e < |capture| ==> capture[e + 1..] == suffix[e - lineStart + 1..];
    assert e == |capture| ==> capture[e..] == suffix[e - lineStart..] == "";
    AfterBeginFirstLine(m, suffix);
  }

  method FindMarkerLinePayloadStart(m: Marker, capture: string) returns (r: Option<nat>)
    ensures r.Some? ==> r.value <= |capture| && AfterBegin(m, capture) == Some(capture[r.value..])
    ensures r.None? ==> AfterBegin(m, capture).None?
  {
    hide Trim, LineEnd, AfterBegin;
    var lineStart: nat := 0;
    assert capture[0..] == capture;
    while lineStart <= |capture|
      invariant lineStart <= |capture| && AfterBegin(m, capture) == AfterBegin(m, capture[lineStart..])
      decreases |capture| - lineStart
    {
      AfterBeginStep(m, capture, lineStart);
      var lineEnd := LineEnd(capture, lineStart);
      var trimmed := TrimAscii(capture[lineStart..lineEnd]);
      if trimmed == m.Word(Begin) {
        return Some(NextLine(capture, lineStart));
      }
      if lineEnd == |capture| {
        return None;
      }
      lineStart := lineEnd + 1;
    }
    return None;
  }

  method AppendSegmentTo(out: string, segment: string) returns (r: string)
    ensures r == AppendSegment(out, segment)
  {
    var text := "";
    for i := 0 to |segment|
      invariant text == DropCr(segment[..i])
    {
      assert segment[..i + 1] == segment[..i] + [segment[i]];
      DropCrAppend(segment[..i], segment[i]);
      if segment[i] != '\r' {
        text := text + [segment[i]];
      }
    }
    assert segment[..|segment|] == segment;
    if text != "" && text[|text| - 1] == '\n' {
      text := text[..|text| - 1];
    }
    if text == "" {
      return out;
    }
    r := out;
    if r != "" && r[|r| - 1] != '\n' && text[0] != '\n' {
      r := r + "\n";
    }
    r := r + text;
  }

  method RecordSegment(result: Extracted, phase: Phase, segment: string) returns (r: Extracted)
    ensures r == result.Record(phase, segment)
  {
    var text := AppendSegmentTo(result.text, segment);
    var slice := AppendSegmentTo(result.Slice(phase), segment);
    r := result.(text := text);
    match phase
    case InStdout => r := r.(stdoutText := slice);
    case InValue => r := r.(valueRepr := slice);
    case InError => r := r.(errorMessage := slice);
    case InBacktrace => r := r.(backtrace := slice);
  }

  /** Tokens found from a position are the tokens found in the suffix that starts there. */
  lemma FirstTokenShift(m: Marker, text: string, cut: nat)
    requires m.Apart() && cut <= |text|
    ensures match FirstToken(m, text, cut)
            case None => FirstToken(m, text[cut..], 0).None?
            case Some(t) => FirstToken(m, text[cut..], 0) == Some(Token(t.pos - cut, t.kind))
  {
    hide OccursAt;
    var rest := text[cut..];
    forall p: nat, kind | TokenAt(m, rest, p, kind) ensures TokenAt(m, text, cut + p, kind) {
      OccursShift(text, cut, m.Word(kind), p);
    }
    var found := FirstToken(m, text, cut);
    if found.Some? {
      var t := found.value;
      OccursShift(text, cut, m.Word(t.kind), t.pos - cut);
      FirstTokenIs(m, rest, 0, Token(t.pos - cut, t.kind));
    }
  }

  lemma SkipShift(text: string, cut: nat, p: nat)
    requires cut + p <= |text|
    ensures SkipLineEnding(text, cut + p) == cut + SkipLineEnding(text[cut..], p)
  {
  }

  /** One step of the lexer, in positions of the whole capture. */
  lemma LexStep(m: Marker, capture: string, pos: nat)
    requires m.Apart() && pos <= |capture|
    ensures var t := FirstToken(m, capture, pos);
      if t.None? then Lex(m, capture[pos..]) == Last(capture[pos..])
      else
        var after := SkipLineEnding(capture, t.value.pos + |m.Word(t.value.kind)|);
        Lex(m, capture[pos..]) == Piece(capture[pos..t.value.pos], t.value.kind,
          if t.value.kind == End then Last("") else Lex(m, capture[after..]))
  {
    hide OccursAt, SkipLineEnding;
    FirstTokenShift(m, capture, pos);
    var token, rest := FirstToken(m, capture, pos), capture[pos..];
    if token.Some? {
      var t := token.value;
      var stop := t.pos + |m.Word(t.kind)|;
      SkipShift(capture, pos, stop - pos);
      assert capture[pos..t.pos] == rest[..t.pos - pos];
      assert capture[SkipLineEnding(capture, stop)..] == rest[SkipLineEnding(rest, stop - pos)..];
    }
  }

  /** A scan that has reached the end of the capture records nothing more. */
  lemma NothingLeft(m: Marker, s: ScanState)
    ensures Interpret(Lex(m, ""), s) == s
  {
    assert s.result.Record(s.phase, "") == s.result;
  }

  method ExtractBetweenMarkers(m: Marker, capture: string) returns (result: Extracted)
    requires m.Apart()
    ensures result == Extract(m, capture)
  {
    hide OccursAt, FirstToken, AfterBegin, Lex, LineEnd, SkipLineEnding, Extracted.Record;
    result := NOTHING;
    var phase := InStdout;
    var begin := FindMarkerLinePayloadStart(m, capture);
    if begin.None? {
      return;
    }
    var pos: nat := begin.value;
    result := result.(foundBegin := true);
    var done := false;
    while pos < |capture| && !done
      invariant pos <= |capture|
      invariant !done ==> Scan(m, capture) == Interpret(Lex(m, capture[pos..]), ScanState(result, phase))
      invariant done ==> Scan(m, capture).result == result
      decreases |capture| - pos, !done
    {
      LexStep(m, capture, pos);
      var token := FindNextMarkerToken(m, capture, pos);
      if token.None? {
        result := RecordSegment(result, phase, capture[pos..]);
        done := true;
      } else {
        var at, kind := token.value.pos, token.value.kind;
        result := RecordSegment(result, phase, capture[pos..at]);
        if kind == End {
          result := result.(foundEnd := true);
          done := true;
        } else {
          if kind == Error {
            result := result.(juliaError := true);
          }
          phase := PhaseAfter(kind, phase);
          pos := SkipLineEnding(capture, at + |m.Word(kind)|);
        }
      }
    }
    if !done {
      assert capture[pos..] == "";
      NothingLeft(m, ScanState(result, phase));
    }
  }
}
