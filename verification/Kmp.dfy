/** The automaton walk that finds how a new screen capture overlaps the previous one. */
module Kmp {

  /** The last k elements of `prior` are the first k elements of `current`. */
  predicate IsOverlap<T(==)>(prior: seq<T>, current: seq<T>, k: nat) {
    k <= |prior| && k <= |current| && prior[|prior| - k..] == current[..k]
  }

  /** k is the length of a proper border of s: both a prefix and a suffix, shorter than s. */
  predicate IsBorder<T(==)>(s: seq<T>, k: nat) {
    k < |s| && IsOverlap(s, s, k)
  }

  ghost predicate IsLongestOverlap<T>(prior: seq<T>, current: seq<T>, k: nat) {
    IsOverlap(prior, current, k) && forall j: nat | IsOverlap(prior, current, j) :: j <= k
  }

  ghost predicate IsLongestBorder<T>(s: seq<T>, k: nat) {
    IsBorder(s, k) && forall j: nat | IsBorder(s, j) :: j <= k
  }

  /** Every entry is the longest proper border of its prefix of s. */
  ghost predicate IsPrefixTable<T>(s: seq<T>, pi: seq<nat>) {
    |pi| <= |s| && forall i | 0 <= i < |pi| :: IsLongestBorder(s[..i + 1], pi[i])
  }

  /** Reference definition of the overlap: count down from the largest conceivable one. */
  function OverlapUpTo<T(==)>(prior: seq<T>, current: seq<T>, bound: nat): (k: nat)
    ensures k <= bound && IsOverlap(prior, current, k)
    ensures forall j: nat | j <= bound && IsOverlap(prior, current, j) :: j <= k
  {
    if bound == 0 || IsOverlap(prior, current, bound) then bound else OverlapUpTo(prior, current, bound - 1)
  }

  function LongestOverlap<T(==)>(prior: seq<T>, current: seq<T>): (k: nat)
    ensures IsLongestOverlap(prior, current, k)
  {
    OverlapUpTo(prior, current, |prior|)
  }

  /** An overlap of a one-longer text is an overlap of the text that the next element extends. */
  lemma OverlapExtends<T>(text: seq<T>, pattern: seq<T>, c: T, k: nat)
    ensures IsOverlap(text + [c], pattern, k + 1)
       <==> k < |pattern| && IsOverlap(text, pattern, k) && pattern[k] == c
  {
    var longer := text + [c];
    if k < |pattern| && k <= |text| {
      assert longer[|longer| - (k + 1)..] == text[|text| - k..] + [c];
      assert pattern[..k + 1] == pattern[..k] + [pattern[k]];
      if IsOverlap(longer, pattern, k + 1) {
        assert text[|text| - k..] == longer[|longer| - (k + 1)..][..k] == pattern[..k + 1][..k];
        assert c == longer[|longer| - (k + 1)..][k] == pattern[..k + 1][k];
      }
    }
  }

  /** Below a known overlap, the overlaps of the text are exactly the borders of the matched part. */
  lemma OverlapNests<T>(text: seq<T>, pattern: seq<T>, k: nat, j: nat)
    requires IsOverlap(text, pattern, k) && j < k
    ensures IsOverlap(text, pattern, j) <==> IsBorder(pattern[..k], j)
  {
    var matched := pattern[..k];
    assert matched[k - j..] == text[|text| - k..][k - j..] == text[|text| - j..];
    assert matched[..j] == pattern[..j];
  }

  /** Proper borders of s[..i+1] are overlaps of s[1..i+1] with s. */
  lemma BorderIsOverlapOfTail<T>(s: seq<T>, i: nat, k: nat)
    requires i < |s|
    ensures IsBorder(s[..i + 1], k) <==> IsOverlap(s[1..i + 1], s, k)
  {
    if k <= i {
      assert s[..i + 1][i + 1 - k..] == s[1..i + 1][i - k..];
      assert s[..i + 1][..k] == s[..k];
    }
  }

  lemma LongestBorderIsLongestOverlapOfTail<T>(s: seq<T>, i: nat, k: nat)
    requires i < |s|
    ensures IsLongestBorder(s[..i + 1], k) <==> IsLongestOverlap(s[1..i + 1], s, k)
  {
    var prefix, tail := s[..i + 1], s[1..i + 1];
    BorderIsOverlapOfTail(s, i, k);
    forall j: nat | IsBorder(prefix, j) ensures IsOverlap(tail, s, j) {
      BorderIsOverlapOfTail(s, i, j);
    }
    forall j: nat | IsOverlap(tail, s, j) ensures IsBorder(prefix, j) {
      BorderIsOverlapOfTail(s, i, j);
    }
  }

  /** No overlap of the text that `c` can extend is longer than `j`. */
  ghost predicate Ceiling<T>(text: seq<T>, pattern: seq<T>, c: T, j: nat) {
    forall k: nat | k < |pattern| && IsOverlap(text, pattern, k) && pattern[k] == c :: k <= j
  }

  /** Falling back to the longest border of the matched part loses no candidate. */
  lemma FallbackKeepsCeiling<T>(text: seq<T>, pattern: seq<T>, c: T, j: nat, border: nat)
    requires 0 < j && IsOverlap(text, pattern, j) && Ceiling(text, pattern, c, j)
    requires j == |pattern| || pattern[j] != c
    requires IsLongestBorder(pattern[..j], border)
    ensures border < j && IsOverlap(text, pattern, border) && Ceiling(text, pattern, c, border)
  {
    OverlapNests(text, pattern, j, border);
    forall k: nat | k < |pattern| && IsOverlap(text, pattern, k) && pattern[k] == c
      ensures k <= border
    {
      OverlapNests(text, pattern, j, k);
    }
  }

  /** When no further fallback applies, the automaton state for the longer text is known. */
  lemma AdvanceIsLongest<T>(text: seq<T>, pattern: seq<T>, c: T, j: nat)
    requires j < |pattern| && IsOverlap(text, pattern, j) && Ceiling(text, pattern, c, j)
    requires j == 0 || pattern[j] == c
    ensures IsLongestOverlap(text + [c], pattern, if pattern[j] == c then j + 1 else 0)
  {
    var next := if pattern[j] == c then j + 1 else 0;
    if next > 0 { OverlapExtends(text, pattern, c, j); }
    forall m: nat | IsOverlap(text + [c], pattern, m) ensures m <= next {
      if m > 0 { OverlapExtends(text, pattern, c, m - 1); }
    }
  }

  /** One more entry, found by advancing the automaton of s over s[1..], extends the table. */
  lemma TableExtends<T>(s: seq<T>, pi: seq<nat>, j: nat)
    requires |pi| < |s| && IsPrefixTable(s, pi)
    requires IsLongestOverlap(s[1..|pi| + 1], s, j)
    ensures IsPrefixTable(s, pi + [j])
  {
    LongestBorderIsLongestOverlapOfTail(s, |pi|, j);
  }

  lemma FirstEntry<T>(s: seq<T>)
    ensures IsPrefixTable(s, []) && (s != [] ==> IsPrefixTable(s, [0]))
  {
    if s != [] {
      TableExtends(s, [], 0);
      assert [] + [0] == [0];
    }
  }

  /** An entry of the table starts the automaton on the element that follows its prefix. */
  lemma TableEntry<T>(s: seq<T>, pi: seq<nat>, n: nat, c: T)
    requires IsPrefixTable(s, pi) && 0 < n <= |pi|
    ensures IsLongestBorder(s[..n], pi[n - 1]) && pi[n - 1] < n
    ensures IsOverlap(s[1..n], s, pi[n - 1]) && Ceiling(s[1..n], s, c, pi[n - 1])
  {
    assert IsLongestBorder(s[..n - 1 + 1], pi[n - 1]);
    LongestBorderIsLongestOverlapOfTail(s, n - 1, pi[n - 1]);
  }

  /** The longest proper border of every prefix of s. `fallbacks` counts the inner iterations. */
  method PrefixFunction<T(==)>(s: seq<T>) returns (pi: seq<nat>, ghost fallbacks: nat)
    ensures |pi| == |s| && IsPrefixTable(s, pi)
    ensures fallbacks <= |s|
  {
    hide IsPrefixTable, IsLongestBorder, IsLongestOverlap, IsOverlap, Ceiling;
    pi, fallbacks := seq(|s|, _ => 0), 0;
    FirstEntry(s);
    if |s| > 0 {
      assert pi[..1] == [0];
    }
    var i: nat := 1;
    while i < |s|
      invariant |pi| == |s| && (|s| == 0 || i <= |s|) && 1 <= i
      invariant |s| > 0 ==> IsPrefixTable(s, pi[..i]) && fallbacks + pi[i - 1] <= i
      invariant |s| == 0 ==> fallbacks == 0
    {
      ghost var text, done := s[1..i], pi[..i];
      TableEntry(s, done, i, s[i]);
      var j: nat := pi[i - 1];
      while j > 0 && s[i] != s[j]
        invariant j < i && IsOverlap(text, s, j) && Ceiling(text, s, s[i], j)
        invariant fallbacks + j <= i
      {
        TableEntry(s, done, j, s[i]);
        FallbackKeepsCeiling(text, s, s[i], j, done[j - 1]);
        j := pi[j - 1];
        fallbacks := fallbacks + 1;
      }
      AdvanceIsLongest(text, s, s[i], j);
      assert text + [s[i]] == s[1..i + 1];
      if s[i] == s[j] {
        j := j + 1;
      }
      TableExtends(s, done, j);
      pi := pi[i := j];
      assert pi[..i + 1] == done + [j];
      i := i + 1;
    }
    assert |s| > 0 ==> pi[..i] == pi;
  }

  /** The empty cases and the prefix fast path agree with the longest overlap. */
  lemma EarlyExits<T>(prior: seq<T>, current: seq<T>)
    ensures prior == [] || current == [] ==> IsLongestOverlap(prior, current, 0)
    ensures prior <= current ==> IsLongestOverlap(prior, current, |prior|)
  {
  }

  lemma LongestIsUnique<T>(prior: seq<T>, current: seq<T>, k: nat)
    requires IsLongestOverlap(prior, current, k)
    ensures k == LongestOverlap(prior, current) && k <= |current|
  {
  }

  lemma LongestIsCeiling<T>(text: seq<T>, pattern: seq<T>, c: T, j: nat)
    requires IsLongestOverlap(text, pattern, j)
    ensures IsOverlap(text, pattern, j) && Ceiling(text, pattern, c, j)
  {
  }

  /**
   * The longest k such that the last k elements of `prior` are the first k of `current`, found in
   * at most |prior| + |current| fallbacks. The early exits agree with the same specification.
   */
  method ComputeCaptureOverlap<T(==)>(prior: seq<T>, current: seq<T>)
    returns (k: nat, ghost fallbacks: nat)
    ensures IsLongestOverlap(prior, current, k)
    ensures k == LongestOverlap(prior, current)
    ensures fallbacks <= |prior| + |current|
  {
    hide IsPrefixTable, IsLongestBorder, IsLongestOverlap, IsOverlap, Ceiling, LongestOverlap;
    EarlyExits(prior, current);
    fallbacks := 0;
    if prior == [] || current == [] {
      LongestIsUnique(prior, current, 0);
      return 0, 0;
    }
    if |current| >= |prior| && current[..|prior|] == prior {
      LongestIsUnique(prior, current, |prior|);
      return |prior|, 0;
    }
    var pi;
    pi, fallbacks := PrefixFunction(current);
    ghost var tableCost := fallbacks;
    var state: nat := 0;
    EarlyExits([], current);
    assert prior[..0] == [];
    for n := 0 to |prior|
      invariant IsLongestOverlap(prior[..n], current, state) && state <= |current|
      invariant fallbacks + state <= tableCost + n
    {
      var c := prior[n];
      ghost var text := prior[..n];
      LongestIsCeiling(text, current, c, state);
      if state == |current| {
        TableEntry(current, pi, state, c);
        FallbackKeepsCeiling(text, current, c, state, pi[state - 1]);
        state := pi[state - 1];
        fallbacks := fallbacks + 1;
      }
      while state > 0 && c != current[state]
        invariant state < |current| && IsOverlap(text, current, state) && Ceiling(text, current, c, state)
        invariant fallbacks + state <= tableCost + n
      {
        TableEntry(current, pi, state, c);
        FallbackKeepsCeiling(text, current, c, state, pi[state - 1]);
        state := pi[state - 1];
        fallbacks := fallbacks + 1;
      }
      AdvanceIsLongest(text, current, c, state);
      assert text + [c] == prior[..n + 1];
      if c == current[state] {
        state := state + 1;
      }
    }
    assert prior[..|prior|] == prior;
    LongestIsUnique(prior, current, state);
    k := state;
  }
}
