/** The private marker words of one evaluation and why they can never be confused. */
module Markers {
  import opened Text

  datatype Kind = Begin | End | Error | OutEnd | ValEnd | Backtrace

  /** The name of a kind inside its marker word. */
  function Name(kind: Kind): string {
    match kind
    case Begin => "BEGIN"
    case End => "END"
    case Error => "ERROR"
    case OutEnd => "OUT_END"
    case ValEnd => "VAL_END"
    case Backtrace => "BT"
  }

  /** The words of one evaluation, as the struct that the parser receives. */
  datatype Words = Words(id: string, begin: string, end: string, error: string,
                         outEnd: string, valEnd: string, bt: string)
  {
    function Word(kind: Kind): string {
      match kind
      case Begin => begin
      case End => end
      case Error => error
      case OutEnd => outEnd
      case ValEnd => valEnd
      case Backtrace => bt
    }

    ghost predicate NonEmpty() {
      forall kind :: Word(kind) != ""
    }

    /** No word is an infix of a different one. */
    ghost predicate Apart() {
      forall outer, inner, p: nat | OccursAt(Word(outer), Word(inner), p) :: inner == outer && p == 0
    }

    /** Every word stays on one line, has no blank at either end and begins with an underscore. */
    ghost predicate Plain() {
      forall kind :: '\n' !in Word(kind) && '\r' !in Word(kind) && Trimmed(Word(kind)) && "_" <= Word(kind)
    }
  }

  type Marker = w: Words | w.NonEmpty() witness MakeMarker("0")

  /** Identifiers as `make_marker_id` builds them. */
  predicate Numeric(id: string) {
    forall c | c in id :: c == '_' || '0' <= c <= '9'
  }

  function WordOf(id: string, kind: Kind): (w: string)
    ensures |w| == |Name(kind)| + |id| + 11
  {
    "__JJMCP_" + Name(kind) + "_" + id + "__"
  }

  lemma WordSpelled(id: string, kind: Kind, head: string)
    requires head == "__JJMCP_" + Name(kind) + "_"
    ensures head + id + "__" == WordOf(id, kind)
  {
  }

  function MakeMarker(id: string): (m: Words)
    ensures m.id == id && m.NonEmpty() && forall kind :: m.Word(kind) == WordOf(id, kind)
  {
    var m := Words(id, "__JJMCP_BEGIN_" + id + "__", "__JJMCP_END_" + id + "__", "__JJMCP_ERROR_" + id + "__",
                   "__JJMCP_OUT_END_" + id + "__", "__JJMCP_VAL_END_" + id + "__", "__JJMCP_BT_" + id + "__");
    WordSpelled(id, Begin, "__JJMCP_BEGIN_");
    WordSpelled(id, End, "__JJMCP_END_");
    WordSpelled(id, Error, "__JJMCP_ERROR_");
    WordSpelled(id, OutEnd, "__JJMCP_OUT_END_");
    WordSpelled(id, ValEnd, "__JJMCP_VAL_END_");
    WordSpelled(id, Backtrace, "__JJMCP_BT_");
    assert forall kind :: |WordOf(id, kind)| > 0;
    hide WordOf;
    m
  }

  lemma WordChars(id: string, kind: Kind)
    ensures var w, n := WordOf(id, kind), |Name(kind)|;
      && w[..8] == "__JJMCP_" && w[8..8 + n] == Name(kind) && w[8 + n] == '_'
      && w[9 + n..9 + n + |id|] == id && w[9 + n + |id|..] == "__"
      && w[|w| - 1] == '_'
  {
  }

  /** A word begins with its prefix and the first two letters of its name. */
  lemma WordHead(id: string, kind: Kind)
    ensures var w := WordOf(id, kind);
      && w[0] == '_' && w[1] == '_' && w[2] == 'J' && w[3] == 'J' && w[4] == 'M' && w[5] == 'C'
      && w[6] == 'P' && w[7] == '_' && w[8] == Name(kind)[0] && w[9] == Name(kind)[1]
  {
    var w := WordOf(id, kind);
    WordChars(id, kind);
    assert forall i | 0 <= i < 8 :: w[i] == w[..8][i];
    assert w[8] == w[8..8 + |Name(kind)|][0] && w[9] == w[8..8 + |Name(kind)|][1];
  }

  /**
   * For every identifier, no marker word of one evaluation is an infix of a different one. The
   * lengths of the names differ by at most five, and inside those offsets no second "__J" begins.
   */
  lemma NoWordInsideAnother(id: string, inner: Kind, outer: Kind, p: nat)
    requires OccursAt(WordOf(id, outer), WordOf(id, inner), p)
    ensures inner == outer && p == 0
  {
    var small, big := WordOf(id, inner), WordOf(id, outer);
    WordHead(id, inner);
    WordHead(id, outer);
    assert forall i | 0 <= i < |small| :: big[p + i] == small[i];
    assert big[p] == '_' && big[p + 1] == '_' && big[p + 2] == 'J';
    assert p <= |Name(outer)| - |Name(inner)| <= 5;
    assert p == 0;
    assert big[8] == small[8] && big[9] == small[9];
  }

  lemma MadeMarkersAreApart(id: string)
    ensures MakeMarker(id).Apart()
  {
    var m := MakeMarker(id);
    forall outer, inner, p: nat | OccursAt(m.Word(outer), m.Word(inner), p)
      ensures inner == outer && p == 0
    {
      NoWordInsideAnother(id, inner, outer, p);
    }
  }

  lemma NotInWord(id: string, kind: Kind, c: char)
    requires c !in id && (c == '\n' || c == '\r')
    ensures c !in WordOf(id, kind)
  {
    assert c !in Name(kind);
    assert c !in "__JJMCP_" + Name(kind) + "_";
  }

  lemma MadeMarkersArePlain(id: string)
    requires '\n' !in id && '\r' !in id
    ensures MakeMarker(id).Plain()
  {
    forall kind
      ensures '\n' !in WordOf(id, kind) && '\r' !in WordOf(id, kind)
      ensures Trimmed(WordOf(id, kind)) && "_" <= WordOf(id, kind)
    {
      NotInWord(id, kind, '\n');
      NotInWord(id, kind, '\r');
      WordChars(id, kind);
      WordHead(id, kind);
    }
  }

  /** An occurrence of a different, or differently placed, word never lies within another one. */
  lemma OccurrencesNeverNest(m: Marker, text: string, p: nat, outer: Kind, q: nat, inner: Kind)
    requires m.Apart()
    requires OccursAt(text, m.Word(outer), p) && OccursAt(text, m.Word(inner), q)
    requires p <= q && q + |m.Word(inner)| <= p + |m.Word(outer)|
    ensures p == q && inner == outer
  {
    OccursNested(text, m.Word(outer), p, m.Word(inner), q);
  }

  /** Where the word of a numeric identifier overlaps with any other, they share only one or two underscores. */
  lemma NumericWordsOverlapByUnderscores(id: string, next: string, first: Kind, second: Kind, shared: nat)
    requires Numeric(id)
    requires 0 < shared < |WordOf(id, first)| && shared <= |WordOf(next, second)|
    requires WordOf(id, first)[|WordOf(id, first)| - shared..] == WordOf(next, second)[..shared]
    ensures shared <= 2
  {
    var w, v := WordOf(id, first), WordOf(next, second);
    if shared >= 3 {
      WordHead(id, first);
      WordHead(next, second);
      var o := |w| - shared;
      var tail := w[o..];
      assert tail[0] == v[..shared][0] && tail[1] == v[..shared][1] && tail[2] == v[..shared][2];
      if o > 1 {
        OnlyPrefixHasJ(id, first, o + 2);
      }
    }
  }

  /** Every word ends in the one or two underscores with which every word begins. */
  lemma WordsShareUnderscores(id: string, first: Kind, second: Kind, shared: nat)
    requires shared <= 2
    ensures WordOf(id, first)[|WordOf(id, first)| - shared..] == WordOf(id, second)[..shared]
  {
    var w, v := WordOf(id, first), WordOf(id, second);
    WordChars(id, first);
    WordHead(id, second);
    assert w[9 + |Name(first)| + |id|..][0] == w[|w| - 2] == '_';
  }

  lemma OnlyPrefixHasJ(id: string, kind: Kind, i: nat)
    requires Numeric(id) && i < |WordOf(id, kind)| && i != 2 && i != 3
    ensures WordOf(id, kind)[i] != 'J'
  {
    var w, n := WordOf(id, kind), |Name(kind)|;
    WordChars(id, kind);
    WordHead(id, kind);
    if 8 <= i < 8 + n {
      assert w[i] == Name(kind)[i - 8];
      assert 'J' !in Name(kind);
    } else if 9 + n <= i < 9 + n + |id| {
      assert w[i] == w[9 + n..9 + n + |id|][i - 9 - n];
      assert w[i] in id;
    } else if i >= 9 + n + |id| {
      assert w[i] == w[9 + n + |id|..][i - 9 - n - |id|];
    }
  }
}
