/**
 * The part of `JSON.stringify` the exporters rely on: writing a string as a
 * JSON string literal (section 7 of RFC 8259, with the escapes ECMAScript's
 * QuoteJSONString chooses), and a reader for such literals that undoes it.
 */
module Json {

  import opened Wrappers

  /** The characters U+0000 to U+001F, which section 7 of RFC 8259 requires to be escaped. */
  predicate IsControl(c: char) { c < ' ' }

  /** No character of `s` is a control character. */
  predicate Printable(s: string)
  {
    forall k | 0 <= k < |s| :: !IsControl(s[k])
  }

  lemma PrintableConcat(a: string, b: string)
    requires Printable(a) && Printable(b)
    ensures Printable(a + b)
  {
    forall k | 0 <= k < |a + b| ensures !IsControl((a + b)[k]) {
      if k >= |a| {
        assert (a + b)[k] == b[k - |a|];
      }
    }
  }

  /** A printable text holds no raw newline. */
  lemma PrintableHasNoNewline(s: string)
    requires Printable(s)
    ensures '\n' !in s
  {
  }

  /** The lower-case hexadecimal digit for d. */
  function HexDigit(d: nat): (c: char)
    requires d < 16
    ensures !IsControl(c) && c != '"'
  {
    "0123456789abcdef"[d]
  }

  /** The value of a hexadecimal digit of either case. */
  function HexValue(c: char): (r: Option<nat>)
    ensures r.Some? ==> r.value < 16
  {
    if '0' <= c <= '9' then Some(c as int - '0' as int)
    else if 'a' <= c <= 'f' then Some(c as int - 'a' as int + 10)
    else if 'A' <= c <= 'F' then Some(c as int - 'A' as int + 10)
    else None
  }

  lemma HexRoundTrip(d: nat)
    requires d < 16
    ensures HexValue(HexDigit(d)) == Some(d)
  {
  }

  /**
   * One character as it appears inside a JSON string literal: `"` and `\` and
   * the five control characters with short escapes get a backslash escape, the
   * other control characters a `\u00xx` escape, everything else itself.
   */
  function EscapeChar(c: char): (r: string)
    ensures |r| > 0 && r[0] != '"'
    ensures Printable(r)
  {
    if c == '"' then "\\\""
    else if c == '\\' then "\\\\"
    else if c as int == 0x08 then "\\b"
    else if c as int == 0x0C then "\\f"
    else if c == '\n' then "\\n"
    else if c == '\r' then "\\r"
    else if c == '\t' then "\\t"
    else if IsControl(c) then "\\u00" + [HexDigit(c as int / 16), HexDigit(c as int % 16)]
    else [c]
  }

  /** The body of the JSON string literal for `s`. */
  function Escape(s: string): (r: string)
    ensures Printable(r)
  {
    if |s| == 0 then ""
    else
      PrintableConcat(EscapeChar(s[0]), Escape(s[1..]));
      EscapeChar(s[0]) + Escape(s[1..])
  }

  /** `JSON.stringify` of a string: the escaped body between double quotes. */
  function Quote(s: string): (r: string)
    ensures Printable(r) && '\n' !in r
    ensures |r| >= 2 && r[0] == '"' && r[|r| - 1] == '"'
  {
    PrintableConcat("\"", Escape(s));
    PrintableConcat("\"" + Escape(s), "\"");
    PrintableHasNoNewline("\"" + Escape(s) + "\"");
    "\"" + Escape(s) + "\""
  }

  /** `s` without the leading `prefix`, when it starts with it. */
  function Expect(prefix: string, s: string): (r: Option<string>)
    ensures r.Some? ==> |r.value| == |s| - |prefix|
  {
    if |prefix| <= |s| && s[..|prefix|] == prefix then Some(s[|prefix|..]) else None
  }

  lemma ExpectPrefix(prefix: string, rest: string)
    ensures Expect(prefix, prefix + rest) == Some(rest)
  {
    assert (prefix + rest)[..|prefix|] == prefix;
    assert (prefix + rest)[|prefix|..] == rest;
  }

  /**
   * The character an escape sequence stands for, given the text after its
   * backslash, and the text after the sequence. A `\u` escape naming a
   * surrogate code unit is refused: a lone surrogate is not a character.
   */
  function ParseEscape(s: string): (r: Option<(char, string)>)
    ensures r.Some? ==> |r.value.1| < |s|
  {
    if |s| == 0 then None
    else if s[0] == '"' then Some(('"', s[1..]))
    else if s[0] == '\\' then Some(('\\', s[1..]))
    else if s[0] == '/' then Some(('/', s[1..]))
    else if s[0] == 'b' then Some((8 as char, s[1..]))
    else if s[0] == 'f' then Some((12 as char, s[1..]))
    else if s[0] == 'n' then Some(('\n', s[1..]))
    else if s[0] == 'r' then Some(('\r', s[1..]))
    else if s[0] == 't' then Some(('\t', s[1..]))
    else if s[0] == 'u' && |s| >= 5 then
      var d0 :- HexValue(s[1]);
      var d1 :- HexValue(s[2]);
      var d2 :- HexValue(s[3]);
      var d3 :- HexValue(s[4]);
      var v := ((d0 * 16 + d1) * 16 + d2) * 16 + d3;
      if 0xD800 <= v < 0xE000 then None else Some((v as char, s[5..]))
    else None
  }

  /** One character of a string literal's body (not its closing quote). */
  function ParseChar(s: string): (r: Option<(char, string)>)
    requires |s| > 0
    ensures r.Some? ==> |r.value.1| < |s|
  {
    if IsControl(s[0]) then None
    else if s[0] == '\\' then ParseEscape(s[1..])
    else Some((s[0], s[1..]))
  }

  /** Reading one escaped character gives that character back. */
  lemma ParseEscapedChar(c: char, rest: string)
    ensures ParseChar(EscapeChar(c) + rest) == Some((c, rest))
  {
    var e := EscapeChar(c);
    var s := e + rest;
    if |e| == 1 {
      assert s[1..] == rest;
    } else if |e| == 2 {
      assert s[1..][1..] == rest;
    } else {
      var hi, lo := c as int / 16, c as int % 16;
      HexRoundTrip(hi);
      HexRoundTrip(lo);
      assert s[1..][5..] == rest;
      assert s[1..][1] == '0' && s[1..][2] == '0' && s[1..][3] == HexDigit(hi) && s[1..][4] == HexDigit(lo);
    }
  }

  /** The characters of a string literal up to its closing quote, and the text after it. */
  function ParseBody(s: string): (r: Option<(string, string)>)
    ensures r.Some? ==> |r.value.1| < |s|
    decreases |s|
  {
    if |s| == 0 then None
    else if s[0] == '"' then Some(("", s[1..]))
    else
      var (c, rest) :- ParseChar(s);
      var (body, after) :- ParseBody(rest);
      Some(([c] + body, after))
  }

  /** A JSON string literal at the start of `s`: its value and the text after it. */
  function ParseString(s: string): (r: Option<(string, string)>)
    ensures r.Some? ==> |r.value.1| < |s|
  {
    if |s| > 0 && s[0] == '"' then ParseBody(s[1..]) else None
  }

  lemma {:induction false} ParseBodyEscaped(x: string, rest: string)
    ensures ParseBody(Escape(x) + "\"" + rest) == Some((x, rest))
  {
    var s := Escape(x) + "\"" + rest;
    if |x| == 0 {
      assert s == "\"" + rest;
      assert s[1..] == rest;
    } else {
      var tail := Escape(x[1..]) + "\"" + rest;
      assert s == EscapeChar(x[0]) + tail;
      ParseEscapedChar(x[0], tail);
      ParseBodyEscaped(x[1..], rest);
      assert [x[0]] + x[1..] == x;
    }
  }

  /** Reading back a quoted string gives the original string and leaves what follows. */
  lemma ParseQuote(x: string, rest: string)
    ensures ParseString(Quote(x) + rest) == Some((x, rest))
  {
    var s := Quote(x) + rest;
    assert s[1..] == Escape(x) + "\"" + rest;
    ParseBodyEscaped(x, rest);
  }
}
