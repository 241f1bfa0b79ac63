/** Every evaluation has an identifier of its own, so what earlier and later ones print is none of its business. */
module MarkerIds {
  import opened Text
  import opened Markers
  import opened Truncation
  import opened Extraction
  import opened Runtime
  import opened VerdictRuns
  import opened CompactionLaws
  import opened Repetition
  import opened PrintedPane
  import opened KeptHistory
  import opened EvalRuns
  import opened EndToEnd

  // ----- Identifiers -----

  /** `make_marker_id`: the time in microseconds, the process and a sequence number. */
  function MakeMarkerId(micros: nat, pid: nat, sequence: nat): string {
    Decimal(micros) + "_" + Decimal(pid) + "_" + Decimal(sequence)
  }

  /** Underscores stand alone, and never last. */
  predicate WellSpaced(id: string) {
    forall i | 0 <= i < |id| && id[i] == '_' :: i + 1 < |id| && id[i + 1] != '_'
  }

  lemma IdsAreNumericAndShort(micros: nat, pid: nat, sequence: nat)
    ensures var id := MakeMarkerId(micros, pid, sequence);
      && Numeric(id) && WellSpaced(id)
      && (micros <= SIZE_MAX && pid <= SIZE_MAX && sequence <= SIZE_MAX ==> |id| <= MAX_ID_LENGTH)
  {
    hide Decimal;
    var a, b, c := Decimal(micros), Decimal(pid), Decimal(sequence);
    assert '_' !in a && '_' !in b && '_' !in c;
    assert a != "" && b != "" && c != "";
    if micros <= SIZE_MAX && pid <= SIZE_MAX && sequence <= SIZE_MAX {
      SizeHasTwentyDigits(micros);
      SizeHasTwentyDigits(pid);
      SizeHasTwentyDigits(sequence);
    }
  }

  lemma SplitAtUnderscore(s: string, x: string, t: string, y: string)
    requires s + ("_" + x) == t + ("_" + y) && '_' !in s && '_' !in t
    ensures s == t && x == y
  {
    var all := s + ("_" + x);
    assert all[|s|] == '_' && (t + ("_" + y))[|t|] == '_';
    assert forall i | 0 <= i < |s| :: all[i] != '_';
    assert forall i | 0 <= i < |t| :: (t + ("_" + y))[i] != '_';
    assert |s| == |t|;
    assert s == all[..|s|] && t == (t + ("_" + y))[..|t|];
    assert x == all[|s| + 1..] && y == (t + ("_" + y))[|t| + 1..];
  }

  /** Different sequence numbers, or times, or processes, make different identifiers. */
  lemma IdsAreDistinct(micros: nat, pid: nat, sequence: nat, later: nat, other: nat, next: nat)
    requires MakeMarkerId(micros, pid, sequence) == MakeMarkerId(later, other, next)
    ensures micros == later && pid == other && sequence == next
  {
    hide Decimal;
    var a, b, c := Decimal(micros), Decimal(pid), Decimal(sequence);
    var x, y, z := Decimal(later), Decimal(other), Decimal(next);
    assert a + "_" + b + "_" + c == a + ("_" + (b + ("_" + c)));
    assert x + "_" + y + "_" + z == x + ("_" + (y + ("_" + z)));
    SplitAtUnderscore(a, b + ("_" + c), x, y + ("_" + z));
    SplitAtUnderscore(b, c, y, z);
    DecimalReadsBack(micros);
    DecimalReadsBack(later);
    DecimalReadsBack(pid);
    DecimalReadsBack(other);
    DecimalReadsBack(sequence);
    DecimalReadsBack(next);
  }

  // ----- Words of two evaluations -----

  lemma TailsDiffer(a: string, b: string)
    requires WellSpaced(b) && a + "__" <= b + "__"
    ensures a == b
  {
    var x, y := a + "__", b + "__";
    assert x[|a|] == '_' && x[|a| + 1] == '_';
    assert forall i | 0 <= i < |b| :: y[i] == b[i];
    if |a| >= |b| {
      assert a == x[..|a|] == y[..|a|] == b;
    }
  }

  /** No word of one evaluation stands in a word of another. */
  lemma ForeignWordsAreApart(a: string, b: string, inner: Kind, outer: Kind, p: nat)
    requires Numeric(b) && WellSpaced(b) && OccursAt(WordOf(b, outer), WordOf(a, inner), p)
    ensures a == b
  {
    var small, big := WordOf(a, inner), WordOf(b, outer);
    WordHead(a, inner);
    WordHead(b, outer);
    assert forall i | 0 <= i < |small| :: big[p + i] == small[i];
    if p > 0 {
      assert big[p + 2] == 'J' && big[p + 3] == 'J';
      OnlyPrefixHasJ(b, outer, p + 3);
    }
    assert p == 0 && inner == outer;
    var n := 9 + |Name(inner)|;
    WordTail(a, inner);
    WordTail(b, outer);
    assert small <= big;
    assert small[n..] <= big[n..];
    TailsDiffer(a, b);
  }

  lemma WordTail(id: string, kind: Kind)
    ensures 9 + |Name(kind)| <= |WordOf(id, kind)| && WordOf(id, kind)[9 + |Name(kind)|..] == id + "__"
  {
  }

  // ----- Prints of two evaluations -----

  /** What one evaluation looks for does not stand around a marker of another. */
  lemma NoForeignWord(printed: string, id: string, segment: string, kind: Kind, rest: string, other: Kind, p: nat)
    requires Numeric(printed) && WellSpaced(printed) && Numeric(id) && WellSpaced(id) && printed != id
    requires Spotless(MakeMarker(id), segment) && !Occurs(rest, WordOf(id, other))
    ensures !OccursAt(segment + (WordOf(printed, kind) + ("\n" + rest)), WordOf(id, other), p)
  {
    hide OccursAt, WordOf, EndsInMarkerCutBy, MakeMarker;
    var m, w, v := MakeMarker(id), WordOf(printed, kind), WordOf(id, other);
    var tail := w + ("\n" + rest);
    var all := segment + tail;
    if OccursAt(all, v, p) {
      if p < |segment| {
        NotOccurring(segment, m.Word(other), p);
        if p + |v| <= |segment| {
          OccursInPrefix(segment, tail, v, p);
        } else if p + |v| <= |segment| + |w| {
          StraddleIsCutMarker(printed, id, segment, kind, "\n" + rest, p, other);
        } else {
          WordAtStart(w, "\n" + rest);
          OccursInSuffix(segment, tail, w, 0);
          OccursNested(all, v, p, w, |segment|);
          ForeignWordsAreApart(printed, id, kind, other, |segment| - p);
        }
      } else {
        OccursInSuffix(segment, tail, v, p - |segment|);
        NoForeignWordBehind(printed, id, kind, rest, other, p - |segment|);
      }
    }
  }

  lemma NoForeignWordBehind(printed: string, id: string, kind: Kind, rest: string, other: Kind, p: nat)
    requires Numeric(printed) && WellSpaced(printed) && Numeric(id) && printed != id
    requires !Occurs(rest, WordOf(id, other))
    ensures !OccursAt(WordOf(printed, kind) + ("\n" + rest), WordOf(id, other), p)
  {
    hide OccursAt, WordOf, MakeMarker;
    var w, v := WordOf(printed, kind), WordOf(id, other);
    var line := w + "\n";
    assert line + rest == w + ("\n" + rest);
    EndsLineMeans(line);
    NumericIsPlain(id);
    assert '\n' !in MakeMarker(id).Word(other);
    forall q: nat ensures !OccursAt(rest, v, q) {
      NotOccurring(rest, v, q);
    }
    if OccursAt(line + rest, v, p) {
      OccursInEither(line, rest, v, p);
      if p < |line| {
        OccurrenceFits(line, v, p);
        if p + |v| <= |w| {
          OccursInPrefix(w, "\n", v, p);
          ForeignWordsAreApart(id, printed, other, kind, p);
        } else {
          WordHasNoLineBreak(line, v, p, |w|);
        }
      }
    }
  }

  lemma {:induction false} PrintIsForeign(printed: string, id: string, pieces: Pieces, other: Kind)
    requires Numeric(printed) && WellSpaced(printed) && Numeric(id) && WellSpaced(id) && printed != id
    requires Complete(pieces) && AllSpotless(MakeMarker(id), pieces)
    ensures !Occurs(Print(MakeMarker(printed), pieces), WordOf(id, other))
    decreases pieces
  {
    hide OccursAt, WordOf, MakeMarker, Spotless;
    var m, v := MakeMarker(printed), WordOf(id, other);
    var rest := Print(m, pieces.next);
    if pieces.kind == End {
      PrintEmpty(m);
      NothingHasNoWord(id, other);
    } else {
      PrintIsForeign(printed, id, pieces.next, other);
    }
    forall p: nat ensures !OccursAt(Print(m, pieces), v, p) {
      NoForeignWord(printed, id, pieces.segment, pieces.kind, rest, other, p);
    }
  }

  lemma NothingHasNoWord(id: string, kind: Kind)
    ensures !Occurs("", WordOf(id, kind))
  {
  }

  lemma NothingIsSpotless(id: string)
    ensures Spotless(MakeMarker(id), "")
  {
    forall kind ensures !Occurs("", MakeMarker(id).Word(kind)) {
      NothingHasNoWord(id, kind);
    }
  }

  /** A whole evaluation is nothing but unrelated lines to another one, unless its output has the other's markers. */
  lemma EmissionIsUnrelated(printed: string, id: string, run: Run)
    requires Numeric(printed) && WellSpaced(printed) && Numeric(id) && WellSpaced(id) && printed != id
    requires run.CrFree() && AllSpotless(MakeMarker(id), run.Pieces())
    ensures Unrelated(MakeMarker(id), Emission(printed, run))
  {
    hide OccursAt, WordOf, MakeMarker, Spotless, Emission, Run.Pieces, Run.CrFree, Print, EndsLine;
    var m, pieces := MakeMarker(printed), run.Pieces();
    RunPiecesComplete(run);
    EmissionIsPrint(printed, run);
    var line, text := WordOf(printed, Begin) + "\n", Print(m, pieces);
    NumericIsPlain(printed);
    RunHasNoCr(m, run);
    assert '\r' !in m.Word(Begin);
    PrintEndsLine(m, pieces);
    EndsLineMeans(line);
    LinesJoin(line, text);
    NothingIsSpotless(id);
    forall kind ensures !Occurs(Emission(printed, run), MakeMarker(id).Word(kind)) {
      PrintIsForeign(printed, id, pieces, kind);
      forall p: nat ensures !OccursAt(Emission(printed, run), WordOf(id, kind), p) {
        NoForeignWord(printed, id, "", Begin, text, kind, p);
        assert "" + (WordOf(printed, Begin) + ("\n" + text)) == line + text;
      }
    }
  }

  lemma UnrelatedLinesJoin(m: Marker, a: string, b: string)
    requires m.Plain() && Unrelated(m, a) && Unrelated(m, b)
    ensures Unrelated(m, a + b)
  {
    hide OccursAt, Occurs, EndsLine;
    LinesJoin(a, b);
    forall kind ensures !Occurs(a + b, m.Word(kind)) {
      assert '\n' !in m.Word(kind);
      JoinedLinesLackWord(a, b, m.Word(kind));
    }
  }

  /**
   * Two evaluations in one pane, one after the other: if the output of neither has markers of the other,
   * each of them is printed among lines that are unrelated to it, so all that is proved of one
   * evaluation in a pane holds of both.
   */
  lemma EvaluationsDoNotDisturb(a: string, first: Run, b: string, second: Run, pre: string, mid: string, post: string)
    requires WellSpaced(a) && WellSpaced(b) && a != b
    requires Prints(a, pre, first, mid) && Prints(a, pre, first, post) && AllSpotless(MakeMarker(b), first.Pieces())
    requires Prints(b, pre, second, mid) && Prints(b, pre, second, post) && AllSpotless(MakeMarker(a), second.Pieces())
    ensures Prints(a, pre, first, mid + (Emission(b, second) + post))
    ensures Prints(b, pre + (Emission(a, first) + mid), second, post)
    ensures Pane(a, pre, first, mid + (Emission(b, second) + post))
         == Pane(b, pre + (Emission(a, first) + mid), second, post)
  {
    hide OccursAt, WordOf, MakeMarker, AllSpotless, Emission, Run.Pieces, Run.CrFree, Unrelated, WellSpaced;
    NumericIsPlain(a);
    NumericIsPlain(b);
    EmissionIsUnrelated(a, b, first);
    EmissionIsUnrelated(b, a, second);
    UnrelatedLinesJoin(MakeMarker(a), Emission(b, second), post);
    UnrelatedLinesJoin(MakeMarker(a), mid, Emission(b, second) + post);
    UnrelatedLinesJoin(MakeMarker(b), Emission(a, first), mid);
    UnrelatedLinesJoin(MakeMarker(b), pre, Emission(a, first) + mid);
    PanesAgree(pre, Emission(a, first), mid, Emission(b, second), post);
  }

  lemma PanesAgree(pre: string, first: string, mid: string, second: string, post: string)
    ensures pre + (first + (mid + (second + post))) == (pre + (first + mid)) + (second + post)
  {
  }
}
