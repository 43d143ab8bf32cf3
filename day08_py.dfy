// Day 8 (Python script): the same literal decoder written as a three-mode
// loop, with a more lenient treatment of malformed input.

module Day08Py {
  import opened Text
  import Day08

  datatype Mode = Normal | Escape | Hex

  /** The exceptions `mem` raises; `ValueError` is the one `int` raises. */
  datatype Error = CouldNotParse | InvalidEscape(ch: char) | InvalidHex | ValueError

  datatype Result<T> = Ok(value: T) | Err(error: Error)

  /** The first code points of the 67 runs of ten decimal digits (general
      category Nd) outside ASCII in Unicode 15.0, the character database of
      Python 3.12. Each run holds the digits 0 to 9 in order. */
  const NdZeros: seq<int> := [
    0x660, 0x6F0, 0x7C0, 0x966, 0x9E6, 0xA66, 0xAE6, 0xB66, 0xBE6, 0xC66,
    0xCE6, 0xD66, 0xDE6, 0xE50, 0xED0, 0xF20, 0x1040, 0x1090, 0x17E0, 0x1810,
    0x1946, 0x19D0, 0x1A80, 0x1A90, 0x1B50, 0x1BB0, 0x1C40, 0x1C50, 0xA620,
    0xA8D0, 0xA900, 0xA9D0, 0xA9F0, 0xAA50, 0xABF0, 0xFF10, 0x1_04A0, 0x1_0D30,
    0x1_1066, 0x1_10F0, 0x1_1136, 0x1_11D0, 0x1_12F0, 0x1_1450, 0x1_14D0,
    0x1_1650, 0x1_16C0, 0x1_1730, 0x1_18E0, 0x1_1950, 0x1_1C50, 0x1_1D50,
    0x1_1DA0, 0x1_1F50, 0x1_6A60, 0x1_6AC0, 0x1_6B50, 0x1_D7CE, 0x1_D7D8,
    0x1_D7E2, 0x1_D7EC, 0x1_D7F6, 0x1_E140, 0x1_E2F0, 0x1_E4F0, 0x1_E950,
    0x1_FBF0
  ]

  /** The digit value of `c` in the first `n` runs of the table. */
  function NdDigitBelow(c: char, n: nat): (r: Option<nat>)
    requires n <= |NdZeros|
    ensures r.Some? ==> r.value < 10
    ensures r.Some? ==> exists j :: 0 <= j < n && NdZeros[j] + r.value == c as int
  {
    if n == 0 then None
    else if NdZeros[n - 1] <= c as int < NdZeros[n - 1] + 10 then Some(c as int - NdZeros[n - 1])
    else NdDigitBelow(c, n - 1)
  }

  /** The value of a decimal digit of any script, `Py_UNICODE_TODECIMAL`. */
  function NdDigit(c: char): (r: Option<nat>)
    ensures r.Some? ==> r.value < 10
    ensures IsAsciiDigit(c) ==> r == Some(c as int - '0' as int)
  {
    if c as int < 0x80 then (if IsAsciiDigit(c) then Some(c as int - '0' as int) else None)
    else NdDigitBelow(c, |NdZeros|)
  }

  /** What `int` reads in place of each char of its argument: an ASCII char
      below U+007F as it is, any other whitespace as a space, any other
      decimal digit as the ASCII digit of its value, and anything else as a
      char no number contains. */
  function AsciiForm(c: char): (r: char)
    ensures r as int < 0x80
    ensures c as int < 0x7F ==> r == c
    ensures IsWhitespace(c) ==> IsWhitespace(r)
    ensures NdDigit(c).Some? && !IsWhitespace(c) ==> r as int == '0' as int + NdDigit(c).value
    ensures c as int >= 0x7F && !IsWhitespace(c) && NdDigit(c).None? ==> HexValue(r).None? && !IsWhitespace(r)
  {
    if c as int < 0x7F then c
    else if IsWhitespace(c) then ' '
    else match NdDigit(c)
      case Some(d) => ('0' as int + d) as char
      case None => '?'
  }

  /** The membership test `char.lower() in 'abcdef1234567890'`. No char
      outside ASCII lower-cases to one of these, so it is the ASCII
      hexadecimal digits of either case. */
  predicate IsHexDigit(c: char) {
    HexValue(c).Some?
  }

  /** `int(buf, 16)` on a two-char buffer whose first char is a hexadecimal
      digit: `int` reads the second char through `AsciiForm`; a hexadecimal
      digit, ASCII or a decimal digit of another script, gives the byte,
      trailing whitespace is stripped, and anything else raises
      `ValueError`. */
  function HexPair(a: char, b: char): (r: Option<nat>)
    requires IsHexDigit(a)
    ensures r.Some? <==> IsHexDigit(b) || NdDigit(b).Some? || IsWhitespace(b)
    ensures r.Some? ==> r.value <= 0xFF
    ensures IsHexDigit(b) ==> r == Some(HexValue(a).value * 16 + HexValue(b).value)
    ensures NdDigit(b).Some? && !IsWhitespace(b) ==> r == Some(HexValue(a).value * 16 + NdDigit(b).value)
    ensures IsWhitespace(b) ==> r == HexValue(a)
  {
    var f := AsciiForm(b);
    if IsHexDigit(f) then Some(HexValue(a).value * 16 + HexValue(f).value)
    else if IsWhitespace(f) then HexValue(a)
    else None
  }

  function Prepend(p: string, r: Result<string>): (q: Result<string>)
    ensures q.Err? <==> r.Err?
    ensures r.Err? ==> q == r
    ensures r.Ok? ==> q.value == p + r.value
  {
    if r.Ok? then Ok(p + r.value) else r
  }

  lemma PrependPrepend(a: string, b: string, r: Result<string>)
    ensures Prepend(a, Prepend(b, r)) == Prepend(a + b, r)
  {
    if r.Ok? {
      assert a + (b + r.value) == (a + b) + r.value;
    }
  }

  // ---------------------------------------------------------------------
  // Reference definition, token by token.

  /** The text between the quotes. A quote in it is an ordinary char, and
      an escape cut short by the end of the text is dropped silently. */
  function MemBody(t: string): Result<string>
    decreases |t|
  {
    if t == [] then Ok([])
    else if t[0] != '\\' then Prepend([t[0]], MemBody(t[1..]))
    else if |t| == 1 then Ok([])
    else if t[1] == '\\' || t[1] == '"' then Prepend([t[1]], MemBody(t[2..]))
    else if t[1] != 'x' then Err(InvalidEscape(t[1]))
    else if |t| == 2 then Ok([])
    else if !IsHexDigit(t[2]) then Err(InvalidHex)
    else if |t| == 3 then Ok([])
    else match HexPair(t[2], t[3])
      case None => Err(ValueError)
      case Some(n) => Prepend([n as char], MemBody(t[4..]))
  }

  /** The text between the first and the last char; empty for a lone char. */
  function Inner(line: string): (r: string)
    requires |line| >= 1
    ensures |r| + 2 == |line| || (|line| == 1 && r == [])
  {
    if |line| == 1 then [] else line[1..|line| - 1]
  }

  /** What `mem` returns or raises for `line`. The empty line gives the
      empty string; otherwise the first and last chars must be quotes,
      which a one-char line `"` satisfies on its own. */
  function Memory(line: string): Result<string>
  {
    if line == [] then Ok([])
    else if !(line[0] == '"' && line[|line| - 1] == '"') then Err(CouldNotParse)
    else MemBody(Inner(line))
  }

  /** What is left to decode in mode `m` with `hex` buffered and `rest`
      unread. */
  function Resume(m: Mode, hex: string, rest: string): Result<string>
  {
    match m
    case Normal => MemBody(rest)
    case Escape => MemBody("\\" + rest)
    case Hex => MemBody("\\x" + hex + rest)
  }

  // ---------------------------------------------------------------------
  // The loop, as the script writes it.

  /** `mem`: strips the quotes and runs the mode machine over the rest. */
  method Mem(line: string) returns (r: Result<string>)
    ensures r == Memory(line)
  {
    if |line| == 0 {
      return Ok("");
    }
    if !(line[0] == '"' && line[|line| - 1] == '"') {
      return Err(CouldNotParse);
    }
    var body := if |line| == 1 then [] else line[1..|line| - 1];
    var out: string := "";
    var hexBuffer: string := "";
    var mode := Normal;
    assert body[0..] == body;
    if MemBody(body).Ok? {
      assert "" + MemBody(body).value == MemBody(body).value;
    }
    for i := 0 to |body|
      invariant mode != Hex ==> hexBuffer == []
      invariant mode == Hex ==> |hexBuffer| <= 1 && (|hexBuffer| == 1 ==> IsHexDigit(hexBuffer[0]))
      invariant Memory(line) == Prepend(out, Resume(mode, hexBuffer, body[i..]))
    {
      assert body[i..] == [body[i]] + body[i + 1..];
      var raised: Option<Error>;
      mode, hexBuffer, out, raised := Feed(mode, hexBuffer, out, body[i], body[i + 1..]);
      if raised.Some? {
        return Err(raised.value);
      }
    }
    assert body[|body|..] == [];
    assert "\\" + [] == "\\";
    assert "\\x" + hexBuffer + [] == "\\x" + hexBuffer;
    assert out + [] == out;
    return Ok(out);
  }

  /** The buffer that mode `m` may hold. */
  predicate Buffered(m: Mode, hex: string)
  {
    if m == Hex then |hex| <= 1 && (|hex| == 1 ==> IsHexDigit(hex[0])) else hex == []
  }

  /** One turn of the loop of `mem` on the char `ch`, with `rest` still
      unread after it: either the exception it raises, or the new mode,
      buffer and output, which leave the meaning of the input unchanged. */
  method Feed(mode: Mode, hexBuffer: string, out: string, ch: char, ghost rest: string)
    returns (mode': Mode, hexBuffer': string, out': string, raised: Option<Error>)
    requires Buffered(mode, hexBuffer)
    ensures raised.Some? ==> Prepend(out, Resume(mode, hexBuffer, [ch] + rest)) == Err(raised.value)
    ensures raised.None? ==> Buffered(mode', hexBuffer')
    ensures raised.None? ==>
      Prepend(out', Resume(mode', hexBuffer', rest)) == Prepend(out, Resume(mode, hexBuffer, [ch] + rest))
  {
    var t := [ch] + rest;
    mode', hexBuffer', out', raised := mode, hexBuffer, out, None;
    match mode {
      case Normal =>
        assert t[1..] == rest;
        if ch == '\\' {
          mode' := Escape;
        } else {
          PrependPrepend(out, [ch], MemBody(rest));
          out' := out + [ch];
        }
      case Escape =>
        var u := "\\" + t;
        assert u[1] == ch && u[2..] == rest;
        if ch == '\\' || ch == '"' {
          PrependPrepend(out, [ch], MemBody(rest));
          mode' := Normal;
          out' := out + [ch];
        } else if ch == 'x' {
          assert u == "\\x" + [] + rest;
          mode' := Hex;
        } else {
          raised := Some(InvalidEscape(ch));
        }
      case Hex =>
        var u := "\\x" + hexBuffer + t;
        hexBuffer' := hexBuffer + [ch];
        if |hexBuffer'| == 2 {
          assert |u| >= 4 && u[2] == hexBuffer'[0] && u[3] == ch && u[4..] == rest;
          mode' := Normal;
          match HexPair(hexBuffer'[0], ch) {
            case None =>
              raised := Some(ValueError);
            case Some(n) =>
              PrependPrepend(out, [n as char], MemBody(rest));
              out' := out + [n as char];
          }
          hexBuffer' := "";
        } else {
          assert u == "\\x" + hexBuffer' + rest;
          assert u[2] == ch;
          if !IsHexDigit(ch) {
            raised := Some(InvalidHex);
          }
        }
    }
  }

  // ---------------------------------------------------------------------
  // The encoder: the same text as the Rust encoder produces.

  /** `encode`: a quote, each char with `\` and `"` prefixed by `\`, a quote. */
  method Encode(line: string) returns (out: string)
    ensures out == Day08.Escaped(line)
  {
    out := "\"";
    for i := 0 to |line|
      invariant out == "\"" + Day08.EscapeChars(line[..i])
    {
      var ch := line[i];
      assert line[..i + 1] == line[..i] + [ch];
      Day08.EscapeCharsSnoc(line[..i], ch);
      if ch == '"' || ch == '\\' {
        out := out + ['\\', ch];
      } else {
        out := out + [ch];
      }
    }
    assert line[..|line|] == line;
    out := out + "\"";
  }

  /** `chars`: one per char of the line. */
  function Chars(line: string): (n: nat)
    ensures n == |line|
  {
    if line == [] then 0 else 1 + Chars(line[1..])
  }

  /** `santas_desire`: the literal's length minus the decoded length. */
  function SantasDesire(line: string): (r: Result<int>)
    ensures r.Ok? <==> Memory(line).Ok?
    ensures r.Ok? ==> r.value == |line| - |Memory(line).value|
  {
    match Memory(line)
    case Ok(d) => Ok(Chars(line) - |d|)
    case Err(e) => Err(e)
  }

  /** `santas_desire2`: the encoded length minus the literal's length. */
  function SantasDesire2(line: string): (r: int)
    ensures r == Day08.Specials(line) + 2
  {
    Day08.EscapedLength(line);
    |Day08.Escaped(line)| - Chars(line)
  }

  // ---------------------------------------------------------------------
  // Properties.

  lemma MemBodyPlainChar(c: char, rest: string)
    requires c != '\\'
    ensures MemBody([c] + rest) == Prepend([c], MemBody(rest))
  {
    assert ([c] + rest)[1..] == rest;
  }

  lemma MemBodyEscapedChar(c: char, rest: string)
    requires Day08.NeedsEscape(c)
    ensures MemBody(['\\', c] + rest) == Prepend([c], MemBody(rest))
  {
    var t := ['\\', c] + rest;
    assert t[0] == '\\' && t[1] == c && t[2..] == rest;
  }

  lemma {:induction false} MemBodyEscapeChars(s: string)
    ensures MemBody(Day08.EscapeChars(s)) == Ok(s)
    decreases |s|
  {
    if s != [] {
      var c := s[0];
      var rest := Day08.EscapeChars(s[1..]);
      MemBodyEscapeChars(s[1..]);
      if Day08.NeedsEscape(c) {
        MemBodyEscapedChar(c, rest);
      } else {
        MemBodyPlainChar(c, rest);
      }
      assert [c] + s[1..] == s;
    }
  }

  /** `mem` undoes `encode` for every string. */
  lemma RoundTrip(s: string)
    ensures Memory(Day08.Escaped(s)) == Ok(s)
  {
    var e := Day08.Escaped(s);
    assert e[0] == '"' && e[|e| - 1] == '"';
    assert Inner(e) == Day08.EscapeChars(s);
    MemBodyEscapeChars(s);
  }

  /** The encoded length: the input, one backslash per special char, and
      the two quotes. */
  lemma EncodedLength(line: string)
    ensures |Day08.Escaped(line)| == Chars(line) + Day08.Specials(line) + 2
  {
    Day08.EscapedLength(line);
  }

  lemma {:induction false} MemBodyLength(t: string)
    ensures MemBody(t).Ok? ==> |MemBody(t).value| <= |t|
    decreases |t|
  {
    if t != [] {
      if t[0] != '\\' {
        MemBodyLength(t[1..]);
      } else if |t| >= 2 && (t[1] == '\\' || t[1] == '"') {
        MemBodyLength(t[2..]);
      } else if |t| >= 4 && t[1] == 'x' && IsHexDigit(t[2]) {
        MemBodyLength(t[4..]);
      }
    }
  }

  /** `santas_desire` is never negative: 2 for any quoted literal of two or
      more chars, at least, and 1 for the lone quote. */
  lemma SantasDesireBounds(line: string)
    ensures SantasDesire(line).Ok? && |line| >= 2 ==> SantasDesire(line).value >= 2
    ensures SantasDesire(line).Ok? ==> SantasDesire(line).value >= 0
  {
    if line != [] {
      MemBodyLength(Inner(line));
    }
  }

  /** `mem` raises `CouldNotParse` exactly for a non-empty line that does not
      start and end with a quote. */
  lemma CouldNotParseExactly(line: string)
    ensures Memory(line) == Err(CouldNotParse) <==>
              (line != [] && !(line[0] == '"' && line[|line| - 1] == '"'))
  {
    if line != [] && line[0] == '"' && line[|line| - 1] == '"' {
      MemBodyNeverCouldNotParse(Inner(line));
    }
  }

  lemma {:induction false} MemBodyNeverCouldNotParse(t: string)
    ensures MemBody(t) != Err(CouldNotParse)
    decreases |t|
  {
    if t != [] {
      if t[0] != '\\' {
        MemBodyNeverCouldNotParse(t[1..]);
      } else if |t| >= 2 && (t[1] == '\\' || t[1] == '"') {
        MemBodyNeverCouldNotParse(t[2..]);
      } else if |t| >= 4 && t[1] == 'x' && IsHexDigit(t[2]) {
        MemBodyNeverCouldNotParse(t[4..]);
      }
    }
  }

  /** The two short lines: the empty line and a lone quote both give ''. */
  lemma ShortLines()
    ensures Memory("") == Ok("")
    ensures Memory("\"") == Ok("")
  {
  }

  /** Text with no backslash is kept as it is, quotes included. */
  lemma {:induction false} MemBodyNoBackslash(p: string)
    requires forall i :: 0 <= i < |p| ==> p[i] != '\\'
    ensures MemBody(p) == Ok(p)
    decreases |p|
  {
    if p != [] {
      MemBodyNoBackslash(p[1..]);
      assert p == [p[0]] + p[1..];
      MemBodyPlainChar(p[0], p[1..]);
    }
  }

  /** An escape cut short by the closing quote is dropped, and what came
      before it is returned: a trailing `\`, `\x` or `\x` and one digit. */
  lemma {:induction false} PartialAtEnd(p: string, tail: string)
    requires forall i :: 0 <= i < |p| ==> p[i] != '\\'
    requires tail == "\\" || tail == "\\x" || (|tail| == 3 && tail[..2] == "\\x" && IsHexDigit(tail[2]))
    ensures Memory("\"" + p + tail + "\"") == Ok(p)
    decreases |p|
  {
    var line := "\"" + p + tail + "\"";
    assert Inner(line) == p + tail;
    PartialBody(p, tail);
  }

  lemma {:induction false} PartialBody(p: string, tail: string)
    requires forall i :: 0 <= i < |p| ==> p[i] != '\\'
    requires tail == "\\" || tail == "\\x" || (|tail| == 3 && tail[..2] == "\\x" && IsHexDigit(tail[2]))
    ensures MemBody(p + tail) == Ok(p)
    decreases |p|
  {
    if p == [] {
      assert p + tail == tail;
    } else {
      PartialBody(p[1..], tail);
      assert p + tail == [p[0]] + (p[1..] + tail);
      MemBodyPlainChar(p[0], p[1..] + tail);
      assert [p[0]] + p[1..] == p;
    }
  }

  /** Only the first hex digit is checked: a whitespace second char is
      stripped by `int`, so `\x5 ` decodes to the char 5. */
  lemma SecondHexCharUnchecked()
    ensures Memory("\"\\x5 \"") == Ok([5 as char])
  {
    var line := "\"\\x5 \"";
    var body := ['\\', 'x', '5', ' '];
    assert Inner(line) == body;
    assert body[4..] == [];
    assert IsHexDigit('5') && !IsHexDigit(' ') && IsWhitespace(' ');
    assert HexPair('5', ' ') == Some(5);
    assert MemBody(body[4..]) == Ok([]);
    assert [5 as char] + [] == [5 as char];
  }

  /** `int` reads a decimal digit of another script as its ASCII digit:
      `\x5` followed by SEGMENTED DIGIT ZERO decodes to the char 0x50. */
  lemma WideDigitSecondHexChar()
    ensures Memory("\"\\x5\U{1FBF0}\"") == Ok(['P'])
  {
    var line := "\"\\x5\U{1FBF0}\"";
    var body := ['\\', 'x', '5', '\U{1FBF0}'];
    assert Inner(line) == body;
    assert body[4..] == [];
    assert |NdZeros| == 67 && NdZeros[66] == 0x1_FBF0;
    assert NdDigit('\U{1FBF0}') == Some(0);
    assert HexPair('5', '\U{1FBF0}') == Some(0x50);
    assert MemBody(body[4..]) == Ok([]);
    assert MemBody(body) == Prepend([0x50 as char], Ok([]));
    assert [0x50 as char] + [] == ['P'];
  }

  /** A control char that Python's `str.isspace` accepts is not stripped by
      `int`: `\x5` followed by U+001C raises `ValueError`. */
  lemma SeparatorNotStripped()
    ensures Memory("\"\\x5\U{001C}\"") == Err(ValueError)
  {
    var line := "\"\\x5\U{001C}\"";
    assert Inner(line) == ['\\', 'x', '5', '\U{001C}'];
    assert HexPair('5', '\U{001C}').None?;
  }

  /** A bad first hex char raises `InvalidHex`; a bad second one is left to
      `int`, which raises `ValueError`. */
  lemma HexErrors()
    ensures Memory("\"\\xg0\"") == Err(InvalidHex)
    ensures Memory("\"\\x0g\"") == Err(ValueError)
  {
    var a := "\"\\xg0\"";
    assert Inner(a) == ['\\', 'x', 'g', '0'];
    assert !IsHexDigit('g') && IsHexDigit('0');
    var b := "\"\\x0g\"";
    assert Inner(b) == ['\\', 'x', '0', 'g'];
    assert HexPair('0', 'g').None?;
  }
}
