/** Byte strings, one `char` a byte, and the search and trimming operations used on captures. */
module Text {

  datatype Option<+T> = None | Some(value: T)

  /** `word` stands in `text` at position p. */
  predicate OccursAt(text: string, word: string, p: nat) {
    p + |word| <= |text| && text[p..p + |word|] == word
  }

  ghost predicate Occurs(text: string, word: string) {
    exists p: nat :: OccursAt(text, word, p)
  }

  /** Positions in a suffix are positions in the whole text. */
  lemma OccursShift(text: string, cut: nat, word: string, p: nat)
    requires cut <= |text|
    ensures OccursAt(text[cut..], word, p) <==> OccursAt(text, word, cut + p)
  {
    if cut + p + |word| <= |text| {
      assert text[cut..][p..p + |word|] == text[cut + p..cut + p + |word|];
    }
  }

  /** An occurrence that fits into a prefix or concatenation is seen in both. */
  lemma OccursInPrefix(a: string, b: string, word: string, p: nat)
    requires p + |word| <= |a|
    ensures OccursAt(a, word, p) <==> OccursAt(a + b, word, p)
  {
    assert (a + b)[p..p + |word|] == a[p..p + |word|];
  }

  lemma OccursInSuffix(a: string, b: string, word: string, p: nat)
    ensures OccursAt(b, word, p) <==> OccursAt(a + b, word, |a| + p)
  {
    assert (a + b)[|a|..] == b;
    OccursShift(a + b, |a|, word, p);
  }

  predicate EndsWith(text: string, tail: string) {
    |tail| <= |text| && text[|text| - |tail|..] == tail
  }

  /** A word stands across a seam if and only if the seam cuts it into matching parts. */
  lemma OccursAcross(left: string, right: string, word: string, p: nat)
    requires p <= |left| <= p + |word| <= |left| + |right|
    ensures var k := |left| - p;
      OccursAt(left + right, word, p) <==> EndsWith(left, word[..k]) && right[..|word| - k] == word[k..]
  {
    var k := |left| - p;
    assert (left + right)[p..p + |word|] == left[p..] + right[..|word| - k];
    assert word == word[..k] + word[k..];
    if left[p..] + right[..|word| - k] == word {
      assert left[p..] == word[..k] && right[..|word| - k] == word[k..];
    }
  }

  /** An occurrence inside an occurrence is an occurrence in the outer word. */
  lemma OccursNested(text: string, outer: string, p: nat, inner: string, q: nat)
    requires OccursAt(text, outer, p) && OccursAt(text, inner, q)
    requires p <= q && q + |inner| <= p + |outer|
    ensures OccursAt(outer, inner, q - p)
  {
    var sub := outer[q - p..q - p + |inner|];
    assert forall i | 0 <= i < |sub| :: sub[i] == text[p..p + |outer|][q - p + i] == text[q..q + |inner|][i];
  }

  /** `std::string::find`: the first occurrence at or after `start`. */
  function Find(text: string, word: string, start: nat): (r: Option<nat>)
    ensures r.Some? ==> start <= r.value && OccursAt(text, word, r.value)
    ensures r.Some? ==> forall p: nat | start <= p && OccursAt(text, word, p) :: r.value <= p
    ensures r.None? ==> forall p: nat | start <= p :: !OccursAt(text, word, p)
    decreases |text| - start
  {
    if start + |word| > |text| then None
    else if OccursAt(text, word, start) then Some(start)
    else Find(text, word, start + 1)
  }

  /** The end of the line that contains position `start`: a newline, or the end of the text. */
  function LineEnd(text: string, start: nat): (e: nat)
    requires start <= |text|
    ensures start <= e <= |text| && '\n' !in text[start..e]
    ensures e < |text| ==> text[e] == '\n'
    decreases |text| - start
  {
    if start == |text| || text[start] == '\n' then start else LineEnd(text, start + 1)
  }

  /** Where the line that contains position p begins. */
  function LineStart(text: string, p: nat): (b: nat)
    requires p <= |text|
    ensures b <= p && '\n' !in text[b..p]
    ensures b > 0 ==> text[b - 1] == '\n'
  {
    if p == 0 || text[p - 1] == '\n' then p else LineStart(text, p - 1)
  }

  lemma {:induction false} LineEndIs(text: string, p: nat, e: nat)
    requires p <= e <= |text| && '\n' !in text[p..e] && (e == |text| || text[e] == '\n')
    ensures LineEnd(text, p) == e
    decreases e - p
  {
    if p < e {
      assert text[p] == text[p..e][0];
      assert text[p + 1..e] == text[p..e][1..];
      LineEndIs(text, p + 1, e);
    }
  }

  /** Line starts at or after a cut are the line starts of the suffix. */
  lemma {:induction false} LineStartShift(text: string, cut: nat, p: nat)
    requires p <= |text| && cut <= LineStart(text, p)
    ensures LineStart(text[cut..], p - cut) == LineStart(text, p) - cut
    decreases p
  {
    if !(p == 0 || text[p - 1] == '\n') {
      assert text[cut..][p - cut - 1] == text[p - 1];
      LineStartShift(text, cut, p - 1);
    }
  }

  /** A text that begins with a whole line. */
  lemma FirstLineIs(line: string, rest: string)
    requires '\n' !in line
    ensures var text := line + ("\n" + rest);
      LineEnd(text, 0) == |line| && text[..|line|] == line && text[|line| + 1..] == rest
  {
    var text := line + ("\n" + rest);
    assert text[0..|line|] == line && text[|line|] == '\n';
    LineEndIs(text, 0, |line|);
  }

  lemma TrimOfTrimmed(text: string)
    requires Trimmed(text)
    ensures Trim(text) == text
  {
    TrimUnique("", text, "");
    assert "" + text + "" == text;
  }

  /** Line ends seen from a suffix are the line ends of the whole text. */
  lemma {:induction false} LineEndShift(text: string, cut: nat, p: nat)
    requires cut + p <= |text|
    ensures LineEnd(text, cut + p) == cut + LineEnd(text[cut..], p)
    decreases |text| - p
  {
    if cut + p < |text| && text[cut + p] != '\n' {
      assert text[cut..][p] == text[cut + p];
      LineEndShift(text, cut, p + 1);
    }
  }

  lemma {:induction false} LineEndFrozen(c: string, more: string, p: nat)
    requires p <= |c| && LineEnd(c, p) < |c|
    ensures LineEnd(c + more, p) == LineEnd(c, p)
    decreases |c| - p
  {
    if c[p] != '\n' {
      LineEndFrozen(c, more, p + 1);
    }
  }

  /** The text is empty or its last line is terminated, as `tmux capture-pane` prints it. */
  predicate EndsLine(text: string) {
    text == "" || text[|text| - 1] == '\n'
  }

  lemma EndsLineMeans(text: string)
    ensures EndsLine(text) <==> text == "" || text[|text| - 1] == '\n'
  {
  }

  lemma LineIsTerminated(text: string, p: nat)
    requires EndsLine(text) && p < |text|
    ensures LineEnd(text, p) < |text|
  {
    assert text[p..|text|][|text| - 1 - p] == '\n';
  }

  /** A one-line word that starts before the end of a line ends there too. */
  lemma NoWordAcrossNewline(left: string, right: string, word: string, p: nat)
    requires '\n' !in word && EndsLine(left) && p < |left|
    ensures OccursAt(left + right, word, p) ==> OccursAt(left, word, p)
  {
    if p + |word| <= |left| {
      OccursInPrefix(left, right, word, p);
    } else if p + |word| <= |left| + |right| {
      assert (left + right)[p..p + |word|][|left| - 1 - p] == left[|left| - 1] == '\n';
    }
  }

  /** The text with its last line terminated. */
  function EndLine(text: string): (r: string)
    ensures EndsLine(r)
  {
    if EndsLine(text) then text else text + "\n"
  }

  predicate IsBlank(c: char) {
    c == ' ' || c == '\t' || c == '\r' || c == '\n'
  }

  predicate AllBlank(text: string) {
    forall i | 0 <= i < |text| :: IsBlank(text[i])
  }

  predicate Trimmed(text: string) {
    text == "" || (!IsBlank(text[0]) && !IsBlank(text[|text| - 1]))
  }

  function Trim(text: string): (r: string)
    ensures Trimmed(r)
  {
    if text == "" then text
    else if IsBlank(text[|text| - 1]) then Trim(text[..|text| - 1])
    else if IsBlank(text[0]) then Trim(text[1..])
    else text
  }

  /** Trimming is determined by its result: a trimmed core between two blank margins. */
  lemma {:induction false} TrimUnique(left: string, core: string, right: string)
    requires AllBlank(left) && AllBlank(right) && Trimmed(core)
    ensures Trim(left + core + right) == core
    decreases |left| + |right|
  {
    var text := left + core + right;
    if right != "" {
      assert text[..|text| - 1] == left + core + right[..|right| - 1];
      TrimUnique(left, core, right[..|right| - 1]);
    } else if left != "" {
      assert text[|text| - 1] == (left + core)[|left + core| - 1];
      if IsBlank(text[|text| - 1]) {
        assert core == "";
        assert text[..|text| - 1] == left[..|left| - 1] + core + right;
        TrimUnique(left[..|left| - 1], core, right);
      } else {
        assert text[1..] == left[1..] + core + right;
        TrimUnique(left[1..], core, right);
      }
    } else {
      assert text == core;
    }
  }

  /** Space, tab, carriage return and newline are trimmed away, and nothing else is. */
  lemma OneCharacterTrimmed(c: char)
    ensures Trim([c]) == if c in [' ', '\t', '\r', '\n'] then "" else [c]
  {
    assert [c][..0] == "" && [c][0] == c;
  }

  lemma {:induction false} TrimSplits(text: string) returns (left: string, right: string)
    ensures AllBlank(left) && AllBlank(right) && text == left + Trim(text) + right
    decreases |text|
  {
    left, right := "", "";
    if text != "" {
      var last := |text| - 1;
      if IsBlank(text[last]) {
        var margin;
        left, margin := TrimSplits(text[..last]);
        right := margin + [text[last]];
        assert text[..last] + [text[last]] == text;
        assert (left + Trim(text) + margin) + [text[last]] == left + Trim(text) + right;
      } else if IsBlank(text[0]) {
        var margin;
        margin, right := TrimSplits(text[1..]);
        left := [text[0]] + margin;
        assert [text[0]] + text[1..] == text;
        assert [text[0]] + (margin + Trim(text) + right) == left + Trim(text) + right;
      }
    }
  }

  /** `trim_ascii`: pop blanks from the back, then erase the blanks in front. */
  method TrimAscii(text: string) returns (r: string)
    ensures r == Trim(text)
  {
    r := text;
    ghost var right := "";
    while r != "" && IsBlank(r[|r| - 1])
      invariant text == r + right && AllBlank(right)
      decreases |r|
    {
      right := [r[|r| - 1]] + right;
      r := r[..|r| - 1];
    }
    var first := 0;
    while first < |r| && IsBlank(r[first])
      invariant first <= |r| && AllBlank(r[..first])
    {
      assert r[..first + 1] == r[..first] + [r[first]];
      first := first + 1;
    }
    ghost var left := r[..first];
    if first > 0 {
      r := r[first..];
    }
    assert text == left + r + right;
    TrimUnique(left, r, right);
  }

  function DropCr(text: string): (r: string)
    ensures '\r' !in r
    ensures '\r' !in text ==> r == text
  {
    if text == "" then ""
    else (if text[0] == '\r' then "" else [text[0]]) + DropCr(text[1..])
  }

  lemma {:induction false} DropCrConcat(a: string, b: string)
    ensures DropCr(a + b) == DropCr(a) + DropCr(b)
  {
    if a == "" {
      assert a + b == b;
    } else {
      assert (a + b)[1..] == a[1..] + b;
      DropCrConcat(a[1..], b);
    }
  }

  lemma DropCrAppend(text: string, c: char)
    ensures DropCr(text + [c]) == if c == '\r' then DropCr(text) else DropCr(text) + [c]
  {
    DropCrConcat(text, [c]);
  }

  lemma DropCrEmpty()
    ensures DropCr("") == ""
  {
  }

  function DropFinalNewline(text: string): string {
    if text != "" && text[|text| - 1] == '\n' then text[..|text| - 1] else text
  }
}
