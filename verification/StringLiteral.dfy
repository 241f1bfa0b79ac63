/** Text handed to Julia as a string literal is read back as that text, and nothing more. */
module StringLiteral {

  // ----- Writing -----

  function HexDigit(n: nat): char
    requires n < 16
  {
    "0123456789abcdef"[n]
  }

  function Escape(c: char): string {
    match c
    case '\\' => "\\\\"
    case '"' => "\\\""
    case '\n' => "\\n"
    case '\r' => "\\r"
    case '\t' => "\\t"
    case '$' => "\\$"
    case _ => if c as int < 0x20 then ['\\', 'x', HexDigit(c as int / 16), HexDigit(c as int % 16)] else [c]
  }

  function EscapeAll(text: string): string {
    if text == "" then "" else Escape(text[0]) + EscapeAll(text[1..])
  }

  function Literal(text: string): string {
    "\"" + EscapeAll(text) + "\""
  }

  /** `julia_string_literal`. */
  method JuliaStringLiteral(text: string) returns (out: string)
    ensures out == Literal(text)
  {
    hide EscapeAll;
    out := "\"";
    var n := 0;
    assert text[0..] == text;
    while n < |text|
      invariant n <= |text|
      invariant out + EscapeAll(text[n..]) == "\"" + EscapeAll(text)
    {
      ghost var before := out;
      EscapeAllStep(before, text, n);
      var c := text[n];
      match c {
        case '\\' => out := out + "\\\\";
        case '"' => out := out + "\\\"";
        case '\n' => out := out + "\\n";
        case '\r' => out := out + "\\r";
        case '\t' => out := out + "\\t";
        case '$' => out := out + "\\$";
        case _ =>
          if c as int < 0x20 {
            out := out + "\\x";
            out := out + [HexDigit(c as int / 16)];
            out := out + [HexDigit(c as int % 16)];
          } else {
            out := out + [c];
          }
      }
      assert out == before + Escape(c);
      n := n + 1;
    }
    EscapeNothing(out, text[n..]);
    out := out + "\"";
  }

  lemma EscapeAllStep(before: string, text: string, n: nat)
    requires n < |text|
    ensures before + EscapeAll(text[n..]) == (before + Escape(text[n])) + EscapeAll(text[n + 1..])
  {
    assert text[n..][1..] == text[n + 1..];
  }

  lemma EscapeNothing(before: string, text: string)
    requires text == ""
    ensures before + EscapeAll(text) == before
  {
  }

  predicate NeedsNoEscape(c: char) {
    ' ' <= c && c != '\\' && c != '"' && c != '$'
  }

  /** What needs no escape is written as it is, and an escape takes two characters, or four for other control bytes. */
  lemma {:induction false} PlainTextStays(text: string)
    requires forall i | 0 <= i < |text| :: NeedsNoEscape(text[i])
    ensures Literal(text) == "\"" + text + "\""
  {
    if text != "" {
      PlainTextStays(text[1..]);
      assert NeedsNoEscape(text[0]) && Escape(text[0]) == [text[0]];
      assert Literal(text[1..])[1..|text|] == text[1..];
      assert EscapeAll(text) == [text[0]] + text[1..];
    }
  }

  lemma EscapesAreShort(c: char)
    ensures |Escape(c)| == if c in "\\\"$\n\r\t" then 2 else if c < ' ' then 4 else 1
  {
  }

  // ----- Reading, by Julia's rules for string literals -----

  datatype Reading = Read(value: string, rest: string) | TripleQuoted | Malformed

  datatype Unescaped = Unescaped(c: char, length: nat) | Unknown

  function HexValue(s: string, i: nat): (v: int)
    ensures -1 <= v < 16
  {
    if i >= |s| then -1
    else if '0' <= s[i] <= '9' then s[i] as int - '0' as int
    else if 'a' <= s[i] <= 'f' then s[i] as int - 'a' as int + 10
    else if 'A' <= s[i] <= 'F' then s[i] as int - 'A' as int + 10
    else -1
  }

  /** What follows a backslash; `\x` takes one digit, and a second if there is one. */
  function ReadEscape(s: string): (r: Unescaped)
    ensures r.Unescaped? ==> 0 < r.length <= |s|
  {
    if s == "" then Unknown
    else
      match s[0]
      case '\\' => Unescaped('\\', 1)
      case '"' => Unescaped('"', 1)
      case '$' => Unescaped('$', 1)
      case 'n' => Unescaped('\n', 1)
      case 'r' => Unescaped('\r', 1)
      case 't' => Unescaped('\t', 1)
      case 'a' => Unescaped(7 as char, 1)
      case 'b' => Unescaped(8 as char, 1)
      case 'v' => Unescaped(11 as char, 1)
      case 'f' => Unescaped(12 as char, 1)
      case 'e' => Unescaped(27 as char, 1)
      case 'x' =>
        var high, low := HexValue(s, 1), HexValue(s, 2);
        if high < 0 then Unknown
        else if low < 0 then Unescaped(high as char, 2)
        else Unescaped((16 * high + low) as char, 3)
      case _ => Unknown
  }

  function Prepend(c: char, r: Reading): Reading {
    if r.Read? then Read([c] + r.value, r.rest) else r
  }

  /** After the opening quote: a bare `$` would interpolate, and a raw line ending reads as a newline. */
  function ReadBody(s: string): Reading {
    if s == "" then Malformed
    else
      match s[0]
      case '"' => Read("", s[1..])
      case '$' => Malformed
      case '\\' =>
        var escape := ReadEscape(s[1..]);
        if escape.Unescaped? then Prepend(escape.c, ReadBody(s[1 + escape.length..])) else Malformed
      case '\r' => Prepend('\n', ReadBody(if |s| > 1 && s[1] == '\n' then s[2..] else s[1..]))
      case c => Prepend(c, ReadBody(s[1..]))
  }

  function ReadLiteral(s: string): Reading {
    if |s| >= 3 && s[..3] == "\"\"\"" then TripleQuoted
    else if s == "" || s[0] != '"' then Malformed
    else ReadBody(s[1..])
  }

  // ----- Round trip -----

  lemma EscapeIsRead(c: char, s: string)
    ensures ReadBody(Escape(c) + s) == Prepend(c, ReadBody(s))
  {
    if c as int < 0x20 && c !in "\n\r\t" {
      HexIsRead(c, s);
      EscapedIsRead(Escape(c), c, 3, s);
    } else if |Escape(c)| == 2 {
      SimpleIsRead(c, s);
      EscapedIsRead(Escape(c), c, 1, s);
    } else {
      assert (Escape(c) + s)[1..] == s;
    }
  }

  lemma EscapedIsRead(escape: string, c: char, length: nat, s: string)
    requires |escape| == length + 1 && escape[0] == '\\' && ReadEscape((escape + s)[1..]) == Unescaped(c, length)
    ensures ReadBody(escape + s) == Prepend(c, ReadBody(s))
  {
    hide ReadEscape;
    assert (escape + s)[1 + length..] == s;
  }

  lemma SimpleIsRead(c: char, s: string)
    requires |Escape(c)| == 2
    ensures Escape(c)[0] == '\\' && ReadEscape((Escape(c) + s)[1..]) == Unescaped(c, 1)
  {
    assert (Escape(c) + s)[1..][0] == Escape(c)[1];
  }

  lemma HexIsRead(c: char, s: string)
    requires c as int < 0x20 && c !in "\n\r\t"
    ensures ReadEscape((Escape(c) + s)[1..]) == Unescaped(c, 3)
  {
    var tail := (Escape(c) + s)[1..];
    var high, low := c as int / 16, c as int % 16;
    assert tail[0] == 'x' && tail[1] == HexDigit(high) && tail[2] == HexDigit(low);
    DigitHasValue(tail, 1, high);
    DigitHasValue(tail, 2, low);
    assert 16 * high + low == c as int;
  }

  lemma DigitHasValue(s: string, i: nat, n: nat)
    requires i < |s| && n < 16 && s[i] == HexDigit(n)
    ensures HexValue(s, i) == n
  {
  }

  /** Past the opening quote, the text is read back and the reader stops exactly at what follows. */
  lemma {:induction false} BodyRoundTrip(text: string, rest: string)
    ensures ReadBody(EscapeAll(text) + ("\"" + rest)) == Read(text, rest)
    decreases |text|
  {
    hide Escape, ReadEscape;
    if text == "" {
      assert EscapeAll(text) + ("\"" + rest) == "\"" + rest;
    } else {
      var s := EscapeAll(text[1..]) + ("\"" + rest);
      assert EscapeAll(text) + ("\"" + rest) == Escape(text[0]) + s;
      BodyRoundTrip(text[1..], rest);
      EscapeIsRead(text[0], s);
    }
  }

  /** The literal reads back as its text, except an empty one that a quote follows. */
  lemma LiteralRoundTrip(text: string, rest: string)
    ensures ReadLiteral(Literal(text) + rest) == Read(text, rest)
       <==> !(text == "" && rest != "" && rest[0] == '"')
    ensures !ReadLiteral(Literal(text) + rest).Read? ==> ReadLiteral(Literal(text) + rest) == TripleQuoted
  {
    hide ReadBody;
    var all := Literal(text) + rest;
    assert all[1..] == EscapeAll(text) + ("\"" + rest);
    BodyRoundTrip(text, rest);
    if text != "" {
      assert all[1] == Escape(text[0])[0] != '"';
    } else if rest != "" && rest[0] == '"' {
      assert all[..3] == "\"\"\"";
    } else if rest != "" {
      assert all[2] == rest[0];
    }
  }

  /** No literal is a prefix of another: whatever follows, the text and what follows are determined. */
  lemma LiteralsDelimitThemselves(a: string, x: string, b: string, y: string)
    requires Literal(a) + x == Literal(b) + y
    ensures a == b && x == y
  {
    hide EscapeAll, ReadBody;
    var all := Literal(a) + x;
    assert all[1..] == EscapeAll(a) + ("\"" + x);
    assert all[1..] == EscapeAll(b) + ("\"" + y);
    BodyRoundTrip(a, x);
    BodyRoundTrip(b, y);
  }

  // ----- What the literal is made of -----

  /** The backslashes directly before position i. */
  function Slashes(s: string, i: nat): nat
    requires i <= |s|
  {
    if i > 0 && s[i - 1] == '\\' then 1 + Slashes(s, i - 1) else 0
  }

  lemma {:induction false} SlashesAcross(a: string, b: string, j: nat)
    requires j <= |b| && Slashes(a, |a|) % 2 == 0
    ensures Slashes(a + b, |a| + j) % 2 == Slashes(b, j) % 2
    decreases j
  {
    if j == 0 {
      SlashesWithin(a, b, |a|);
    } else if b[j - 1] == '\\' {
      SlashesAcross(a, b, j - 1);
    }
  }

  lemma {:induction false} SlashesWithin(a: string, b: string, i: nat)
    requires i <= |a|
    ensures Slashes(a + b, i) == Slashes(a, i)
  {
    if i > 0 && a[i - 1] == '\\' {
      SlashesWithin(a, b, i - 1);
    }
  }

  predicate Special(c: char) {
    c == '"' || c == '$'
  }

  /** No control byte, every quote and dollar escaped, and no backslash left open at the end. */
  predicate WellEscaped(s: string) {
    && (forall c | c in s :: c as int >= 0x20)
    && (forall i | 0 <= i < |s| && Special(s[i]) :: Slashes(s, i) % 2 == 1)
    && Slashes(s, |s|) % 2 == 0
  }

  lemma EscapeIsWellEscaped(c: char)
    ensures WellEscaped(Escape(c))
  {
    var s := Escape(c);
    if c as int < 0x20 && c !in "\n\r\t" {
      assert HexDigit(c as int / 16) as int >= 0x30 && HexDigit(c as int % 16) as int >= 0x30;
    } else if |s| == 2 {
      assert Slashes(s, 1) == 1 + Slashes(s, 0);
      assert Slashes(s, 2) == if s[1] == '\\' then 1 + Slashes(s, 1) else 0;
    }
  }

  lemma WellEscapedConcat(a: string, b: string)
    requires WellEscaped(a) && WellEscaped(b)
    ensures WellEscaped(a + b)
  {
    hide Slashes;
    forall i | 0 <= i < |a + b| && Special((a + b)[i]) ensures Slashes(a + b, i) % 2 == 1 {
      if i < |a| {
        SlashesWithin(a, b, i);
      } else {
        SlashesAcross(a, b, i - |a|);
      }
    }
    SlashesAcross(a, b, |b|);
  }

  lemma {:induction false} InteriorIsWellEscaped(text: string)
    ensures WellEscaped(EscapeAll(text))
    decreases |text|
  {
    hide Escape;
    if text != "" {
      EscapeIsWellEscaped(text[0]);
      InteriorIsWellEscaped(text[1..]);
      WellEscapedConcat(Escape(text[0]), EscapeAll(text[1..]));
    }
  }
}
