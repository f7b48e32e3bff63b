/** Literal strings of PDF (ISO 32000-1, section 7.3.4.2): the writer's escaping and a reader. */
module PdfStrings {
  import opened Wrappers

  /** Python's `s.replace(c, r)` for a single character c. */
  function Replace(s: string, c: char, r: string): string {
    if s == "" then "" else (if s[0] == c then r else [s[0]]) + Replace(s[1..], c, r)
  }

  /** The three chained replaces of the writer. */
  function Escape(text: string): string {
    Replace(Replace(Replace(text, '\\', "\\\\"), '(', "\\("), ')', "\\)")
  }

  function EscapeChar(c: char): string {
    if c == '\\' || c == '(' || c == ')' then ['\\', c] else [c]
  }

  function EscapeOnce(text: string): string {
    if text == "" then "" else EscapeChar(text[0]) + EscapeOnce(text[1..])
  }

  lemma {:induction false} ReplaceConcat(a: string, b: string, c: char, r: string)
    ensures Replace(a + b, c, r) == Replace(a, c, r) + Replace(b, c, r)
  {
    if a == "" {
      assert a + b == b;
    } else {
      assert (a + b)[1..] == a[1..] + b;
      ReplaceConcat(a[1..], b, c, r);
    }
  }

  lemma ReplaceOne(x: char, c: char, r: string)
    ensures Replace([x], c, r) == if x == c then r else [x]
  {
    assert [x][1..] == "";
  }

  lemma ReplaceTwo(x: char, y: char, c: char, r: string)
    ensures Replace([x, y], c, r) == (if x == c then r else [x]) + (if y == c then r else [y])
  {
    ReplaceOne(x, c, r);
    ReplaceOne(y, c, r);
    assert [x, y] == [x] + [y];
    ReplaceConcat([x], [y], c, r);
  }

  /** Chaining the replaces escapes each character once: a backslash added by one replace is never
      escaped by a later one. */
  lemma {:induction false} EscapeIsOnePass(text: string)
    ensures Escape(text) == EscapeOnce(text)
  {
    if text != "" {
      var x, rest := text[0], text[1..];
      assert text == [x] + rest;
      EscapeIsOnePass(rest);
      var a := Replace(rest, '\\', "\\\\");
      var b := Replace(a, '(', "\\(");
      EscapeOneChar(x);
      ReplaceConcat([x], rest, '\\', "\\\\");
      ReplaceConcat(Replace([x], '\\', "\\\\"), a, '(', "\\(");
      ReplaceConcat(Replace(Replace([x], '\\', "\\\\"), '(', "\\("), b, ')', "\\)");
    }
  }

  lemma EscapeOneChar(x: char)
    ensures Escape([x]) == EscapeChar(x)
  {
    ReplaceOne(x, '\\', "\\\\");
    if x == '\\' {
      ReplaceTwo('\\', '\\', '(', "\\(");
      ReplaceTwo('\\', '\\', ')', "\\)");
    } else {
      ReplaceOne(x, '(', "\\(");
      if x == '(' {
        ReplaceTwo('\\', '(', ')', "\\)");
      } else {
        ReplaceOne(x, ')', "\\)");
      }
    }
  }

  // ---------------------------------------------------------------- the reader

  predicate IsOctal(c: char) {
    '0' <= c <= '7'
  }

  /** The length of the escape sequence at the start of s, after its backslash. */
  function EscapeLength(s: string): (n: nat)
    requires s != ""
    ensures 1 <= n <= |s|
  {
    if IsOctal(s[0]) then
      (if |s| > 1 && IsOctal(s[1]) then (if |s| > 2 && IsOctal(s[2]) then 3 else 2) else 1)
    else if s[0] == '\r' && |s| > 1 && s[1] == '\n' then 2
    else 1
  }

  function OctalValue(s: string): nat
    requires forall i :: 0 <= i < |s| ==> IsOctal(s[i])
  {
    if s == "" then 0 else
      assert IsOctal(s[|s| - 1]);
      8 * OctalValue(s[..|s| - 1]) + (s[|s| - 1] - '0') as nat
  }

  /** What an escape sequence (without its backslash) stands for. */
  function Unescape(s: string): string
    requires s != "" && |s| == EscapeLength(s)
  {
    if IsOctal(s[0]) then [(OctalValue(s) % 256) as char]
    else match s[0]
         case 'n' => "\n"
         case 'r' => "\r"
         case 't' => "\t"
         case 'b' => [8 as char]
         case 'f' => [12 as char]
         case '\n' => ""
         case '\r' => ""
         case c => [c]
  }

  datatype Literal = Literal(text: string, rest: string)

  function Prepend(text: string, r: Option<Literal>): Option<Literal> {
    if r.Some? then Some(Literal(text + r.value.text, r.value.rest)) else None
  }

  /** Reads a literal string up to its closing parenthesis, `depth` parentheses being open inside
      it: balanced parentheses need no escape, an end of line reads as a line feed. */
  function ReadLiteral(s: string, depth: nat): Option<Literal>
    decreases |s|
  {
    if s == "" then None
    else match s[0]
         case ')' => if depth == 0 then Some(Literal("", s[1..])) else Prepend(")", ReadLiteral(s[1..], depth - 1))
         case '(' => Prepend("(", ReadLiteral(s[1..], depth + 1))
         case '\\' =>
           if |s| == 1 then None else
             var n := EscapeLength(s[1..]);
             EscapePrefix(s[1..]);
             Prepend(Unescape(s[1..][..n]), ReadLiteral(s[1..][n..], depth))
         case '\r' => Prepend("\n", ReadLiteral(if |s| > 1 && s[1] == '\n' then s[2..] else s[1..], depth))
         case c => Prepend([c], ReadLiteral(s[1..], depth))
  }

  lemma EscapePrefix(s: string)
    requires s != ""
    ensures EscapeLength(s[..EscapeLength(s)]) == EscapeLength(s)
  {
  }

  /** A text with every end of line (CR, LF or CR LF) read as a line feed. */
  function Normalize(text: string): string {
    if text == "" then ""
    else if text[0] == '\r' then "\n" + Normalize(if |text| > 1 && text[1] == '\n' then text[2..] else text[1..])
    else [text[0]] + Normalize(text[1..])
  }

  /** The escaped text with its closing parenthesis, as the reader meets it. */
  function Body(text: string, rest: string): string {
    EscapeOnce(text) + ")" + rest
  }

  lemma BodyCons(text: string, rest: string)
    ensures Body(text, rest) == if text == "" then ")" + rest else EscapeChar(text[0]) + Body(text[1..], rest)
  {
  }

  /** The reader undoes the escaping, up to ends of line, and stops at the right parenthesis. */
  lemma {:induction false} ReadEscaped(text: string, rest: string)
    ensures ReadLiteral(Body(text, rest), 0) == Some(Literal(Normalize(text), rest))
    decreases |text|
  {
    hide Body, EscapeOnce;
    var s := Body(text, rest);
    BodyCons(text, rest);
    if text == "" {
      assert s[1..] == rest;
    } else {
      var x, tail := text[0], text[1..];
      if x == '\\' || x == '(' || x == ')' {
        assert s[1..][1..] == Body(tail, rest);
        assert s[1..][..1] == [x];
        ReadEscaped(tail, rest);
      } else if x == '\r' {
        ReadCarriageReturn(text, rest);
        ReadEscaped(if |text| > 1 && text[1] == '\n' then text[2..] else tail, rest);
      } else {
        assert s[1..] == Body(tail, rest);
        ReadEscaped(tail, rest);
      }
    }
  }

  lemma ReadCarriageReturn(text: string, rest: string)
    requires text != "" && text[0] == '\r'
    ensures var after := if |text| > 1 && text[1] == '\n' then text[2..] else text[1..];
            ReadLiteral(Body(text, rest), 0) == Prepend("\n", ReadLiteral(Body(after, rest), 0))
  {
    hide ReadLiteral, Body, EscapeOnce;
    var tail := text[1..];
    BodyCons(text, rest);
    BodyCons(tail, rest);
    ReadReturn(Body(tail, rest));
    if tail != "" && tail[0] == '\n' {
      assert Body(tail, rest)[1..] == Body(tail[1..], rest) && tail[1..] == text[2..];
    }
  }

  lemma ReadReturn(u: string)
    ensures ReadLiteral("\r" + u, 0) == Prepend("\n", ReadLiteral(if u != "" && u[0] == '\n' then u[1..] else u, 0))
  {
    var s := "\r" + u;
    assert s[0] == '\r' && s[1..] == u;
    assert u != "" ==> s[2..] == u[1..];
  }

  lemma {:induction false} NormalizeHasNoCR(text: string)
    ensures '\r' !in Normalize(text)
    ensures '\r' !in text ==> Normalize(text) == text
    decreases |text|
  {
    if text != "" {
      NormalizeHasNoCR(if text[0] == '\r' && |text| > 1 && text[1] == '\n' then text[2..] else text[1..]);
      assert '\r' !in text ==> '\r' !in text[1..];
    }
  }

  /** Main result: literal strings round-trip exactly for texts without a carriage return. */
  lemma LiteralRoundTrip(text: string, rest: string)
    ensures ReadLiteral(Escape(text) + ")" + rest, 0) == Some(Literal(Normalize(text), rest))
    ensures Normalize(text) == text <==> '\r' !in text
  {
    EscapeIsOnePass(text);
    ReadEscaped(text, rest);
    NormalizeHasNoCR(text);
  }
}
