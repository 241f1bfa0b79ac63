/** Texts that are joined so that each of them begins on a line of its own. */
module Joining {
  import opened Text
  import opened Truncation
  import opened Recency
  import opened Extraction

  /**
   * `joined` is `out` and then `text`, whose rows follow those of `out`. A newline with which `text`
   * begins ends the last row of `out` where that is open, and is a blank row otherwise.
   */
  predicate JoinsOnLine(out: string, text: string, joined: string) {
    && out <= joined && EndsWith(joined, text)
    && (text == "" ==> joined == out)
    && Rows(joined) == Rows(out) + if !EndsLine(out) && "\n" <= text then Rows(text)[1..] else Rows(text)
  }

  /** The texts, one after the other. */
  ghost predicate JoinsInOrder(texts: seq<string>, joined: string) {
    if texts == [] then joined == ""
    else
      var n := |texts| - 1;
      exists before: string :: JoinsInOrder(texts[..n], before) && JoinsOnLine(before, texts[n], joined)
  }

  /** `append_segment` joins on a line. */
  lemma BesideJoins(out: string, text: string)
    ensures JoinsOnLine(out, text, Beside(out, text))
  {
    hide Rows, EndsLine, EndsWith;
    EndsLineMeans(out);
    EndsLineMeans(out + "\n");
    NoRows();
    if text == "" {
      assert Rows(out) + [] == Rows(out);
      NothingJoined(out);
    } else if EndsLine(out) {
      WholeIsSuffix(text);
      SuffixBehind(out, text, text);
      RowsConcat(out, text);
    } else if text[0] == '\n' {
      var rest := text[1..];
      assert text == "" + "\n" + rest;
      RowsOfRow("", rest);
      BesideOpenRow(out, rest);
      WholeIsSuffix(text);
      SuffixBehind(out, text, text);
      assert out + text == (out + "\n") + rest;
    } else {
      BesideOpenRow(out, text);
      WholeIsSuffix(text);
      SuffixBehind(out + "\n", text, text);
    }
  }

  lemma BesideOpenRow(out: string, text: string)
    requires !EndsLine(out)
    ensures Rows((out + "\n") + text) == Rows(out) + Rows(text)
  {
    hide Rows;
    RowsOfEndLine(out);
    RowsConcat(out + "\n", text);
  }

  /** Nothing else does. */
  lemma JoinIsUnique(out: string, text: string, joined: string)
    requires JoinsOnLine(out, text, joined)
    ensures joined == Beside(out, text)
  {
    hide Rows, EndsLine, Beside;
    BesideJoins(out, text);
    var other := Beside(out, text);
    if text != "" {
      LastOfSuffix(joined, text);
      LastOfSuffix(other, text);
      RowsDetermine(joined, other);
    }
  }

  lemma LastOfSuffix(joined: string, text: string)
    requires text != "" && EndsWith(joined, text)
    ensures EndsLine(joined) <==> EndsLine(text)
  {
    assert joined[|joined| - |text|..][|text| - 1] == joined[|joined| - 1];
  }

  lemma RowsDetermine(a: string, b: string)
    requires Rows(a) == Rows(b) && (EndsLine(a) <==> EndsLine(b))
    ensures a == b
  {
    hide Rows, Lines, Unlines;
    LinesAreRows(a);
    LinesAreRows(b);
    UnlinesInvertsLines(a);
    UnlinesInvertsLines(b);
  }

  lemma JoinNext(texts: seq<string>, before: string, text: string)
    requires JoinsInOrder(texts, before)
    ensures JoinsInOrder(texts + [text], Beside(before, text))
  {
    hide JoinsOnLine, Beside;
    BesideJoins(before, text);
    assert (texts + [text])[..|texts|] == texts;
  }

  /** There is one way to join texts. */
  lemma {:induction false} OrderIsUnique(texts: seq<string>, a: string, b: string)
    requires JoinsInOrder(texts, a) && JoinsInOrder(texts, b)
    ensures a == b
  {
    hide JoinsOnLine, Beside;
    if texts != [] {
      var n := |texts| - 1;
      var c :| JoinsInOrder(texts[..n], c) && JoinsOnLine(c, texts[n], a);
      var d :| JoinsInOrder(texts[..n], d) && JoinsOnLine(d, texts[n], b);
      OrderIsUnique(texts[..n], c, d);
      JoinIsUnique(c, texts[n], a);
      JoinIsUnique(c, texts[n], b);
    }
  }
}
