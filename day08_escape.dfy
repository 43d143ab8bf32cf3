// Day 8 (Rust generation): the decoder and encoder of double-quoted string
// literals with the escapes \\, \" and \xHH.

module Day08 {
  import opened Text

  /** Scanner states; the source spells the first one `ExpectInitalQuote`. */
  datatype State = ExpectInitialQuote | Normal | Escape | CollectHex(hex: string) | OutsideQuotes

  /** The decoder's error kinds (the I/O variant belongs to the input reader). */
  datatype Error =
    | NoLeadingQuote
    | NoTrailingQuote
    | CharsAfterTrailingQuote
    | UnexpectedEscapedChar(ch: char)
    | BadHexEscape(hex: string)

  /** What `unescape` ends in: a value, an error it returns, or the panic of
      its `unreachable!()` arm. */
  datatype Result<T> = Ok(value: T) | Err(error: Error) | Panic

  /** The number of bytes a char takes in UTF-8, which is what
      `String::len` counts. */
  function Utf8Len(c: char): (n: nat)
    ensures 1 <= n <= 4
    ensures n == 1 <==> c as int < 0x80
  {
    if c as int < 0x80 then 1
    else if c as int < 0x800 then 2
    else if c as int < 0x1_0000 then 3
    else 4
  }

  /** `hex.len()`: the UTF-8 length of the collected chars. */
  function ByteLen(s: string): (n: nat)
    ensures n >= |s|
    ensures n == 0 <==> s == []
  {
    if s == [] then 0 else Utf8Len(s[0]) + ByteLen(s[1..])
  }

  /** `u8::from_str_radix(hex, 16)`. The standard parser accepts a leading
      `+`, so `+5` reads as 5: `\x+5` is a valid escape here. */
  function HexByte(hex: string): (r: Option<nat>)
    ensures r.Some? ==> r.value <= U8_MAX
  {
    ParseUnsigned(hex, 16, U8_MAX)
  }

  /** The byte parser on a two-char escape body. */
  lemma HexBytePair(a: char, b: char)
    ensures HexByte([a, b]) ==
      if a == '+' then HexValue(b)
      else if HexValue(a).Some? && HexValue(b).Some? then Some(HexValue(a).value * 16 + HexValue(b).value)
      else None
  {
    var s := [a, b];
    assert s[1..] == [b];
    assert [b][1..] == [];
    if a == '+' {
      assert Digits([b], 16) == if HexValue(b).Some? then DigitsFrom(HexValue(b).value, [], 16) else None;
    } else if HexValue(a).Some? {
      var ha := HexValue(a).value;
      assert Digits(s, 16) == DigitsFrom(ha, [b], 16);
    }
  }

  function Prepend(p: string, r: Result<string>): (q: Result<string>)
    ensures q.Err? <==> r.Err?
    ensures q.Panic? <==> r.Panic?
    ensures !r.Ok? ==> q == r
    ensures r.Ok? ==> q.value == p + r.value
  {
    if r.Ok? then Ok(p + r.value) else r
  }

  // ---------------------------------------------------------------------
  // Reference definition: a literal read token by token, from the left.

  /** The text after the opening quote: a sequence of plain chars and
      escapes, closed by a quote that must be the last char. */
  function DecodeBody(t: string): Result<string>
    decreases |t|
  {
    if t == [] then Err(NoTrailingQuote)
    else if t[0] == '"' then (if |t| == 1 then Ok([]) else Err(CharsAfterTrailingQuote))
    else if t[0] == '\\' then
      if |t| == 1 then Err(NoTrailingQuote)
      else if t[1] == '\\' || t[1] == '"' then Prepend([t[1]], DecodeBody(t[2..]))
      else if t[1] == 'x' then
        if |t| < 4 then Err(NoTrailingQuote)
        else if Utf8Len(t[2]) > 1 then Panic
        else match HexByte(t[2..4])
          case None => Err(BadHexEscape(t[2..4]))
          case Some(n) => Prepend([n as char], DecodeBody(t[4..]))
      else Err(UnexpectedEscapedChar(t[1]))
    else Prepend([t[0]], DecodeBody(t[1..]))
  }

  /** The meaning of a whole literal. An empty input never leaves the
      initial state, so it is reported as a missing trailing quote. */
  function Decode(s: string): Result<string>
  {
    if s == [] then Err(NoTrailingQuote)
    else if s[0] != '"' then Err(NoLeadingQuote)
    else DecodeBody(s[1..])
  }

  /** What is left to decode from state `st` with input `rest` still unread. */
  function Resume(st: State, rest: string): Result<string>
  {
    match st
    case ExpectInitialQuote => Decode(rest)
    case Normal => DecodeBody(rest)
    case Escape => DecodeBody("\\" + rest)
    case CollectHex(hex) => DecodeBody("\\x" + hex + rest)
    case OutsideQuotes => if rest == [] then Ok([]) else Err(CharsAfterTrailingQuote)
  }

  lemma PrependPrepend(a: string, b: string, r: Result<string>)
    ensures Prepend(a, Prepend(b, r)) == Prepend(a + b, r)
  {
    if r.Ok? {
      assert a + (b + r.value) == (a + b) + r.value;
    }
  }

  // ---------------------------------------------------------------------
  // The scanner, as the source writes it: one state change per char.

  /** `unescape`: decodes a literal by driving the state machine. */
  method Unescape(s: string) returns (r: Result<string>)
    ensures r == Decode(s)
  {
    var state := ExpectInitialQuote;
    var out: string := [];
    assert s[0..] == s;
    if Decode(s).Ok? {
      assert [] + Decode(s).value == Decode(s).value;
    }
    for i := 0 to |s|
      invariant state.CollectHex? ==> |state.hex| <= 1
      invariant Decode(s) == Prepend(out, Resume(state, s[i..]))
    {
      assert s[i..] == [s[i]] + s[i + 1..];
      var stop: Option<Result<string>>;
      state, out, stop := Feed(state, out, s[i], s[i + 1..]);
      if stop.Some? {
        return stop.value;
      }
    }
    assert s[|s|..] == [];
    assert "\\" + [] == "\\";
    assert state.CollectHex? ==> |"\\x" + state.hex + []| < 4;
    if state != OutsideQuotes {
      return Err(NoTrailingQuote);
    }
    assert out + [] == out;
    return Ok(out);
  }

  /** One turn of the loop of `unescape` on the char `ch`, with `rest`
      still unread after it: either the error it returns or its panic,
      which is then what the whole input decodes to, or the new state and
      output, which leave the meaning of the input unchanged. */
  method Feed(state: State, out: string, ch: char, ghost rest: string)
    returns (state': State, out': string, stop: Option<Result<string>>)
    requires state.CollectHex? ==> |state.hex| <= 1
    ensures stop.Some? ==> !stop.value.Ok? && Prepend(out, Resume(state, [ch] + rest)) == stop.value
    ensures stop.None? ==> state'.CollectHex? ==> |state'.hex| <= 1
    ensures stop.None? ==>
      Prepend(out', Resume(state', rest)) == Prepend(out, Resume(state, [ch] + rest))
  {
    var t := [ch] + rest;
    state', out', stop := state, out, None;
    match state {
      case ExpectInitialQuote =>
        if ch == '"' {
          assert t[1..] == rest;
          state' := Normal;
        } else {
          stop := Some(Err(NoLeadingQuote));
        }
      case Normal =>
        assert t[1..] == rest;
        if ch == '"' {
          state' := OutsideQuotes;
        } else if ch == '\\' {
          state' := State.Escape;
        } else {
          PrependPrepend(out, [ch], DecodeBody(rest));
          out' := out + [ch];
        }
      case Escape =>
        var u := "\\" + t;
        assert u[1] == ch && u[2..] == rest;
        if ch == '\\' || ch == '"' {
          PrependPrepend(out, [ch], DecodeBody(rest));
          out' := out + [ch];
          state' := Normal;
        } else if ch == 'x' {
          assert u == "\\x" + [] + rest;
          state' := CollectHex([]);
        } else {
          stop := Some(Err(UnexpectedEscapedChar(ch)));
        }
      case CollectHex(hex) =>
        // The match is on the byte length: a first char of two or more
        // bytes sends the second char to the `unreachable!()` arm.
        var u := "\\x" + hex + t;
        var n := ByteLen(hex);
        if n == 0 {
          assert u == "\\x" + [ch] + rest;
          state' := CollectHex([ch]);
        } else if n == 1 {
          var hex2 := hex + [ch];
          assert Utf8Len(hex[0]) == 1 by {
            assert hex[1..] == [];
          }
          assert |u| >= 4 && u[2] == hex[0] && u[2..4] == hex2 && u[4..] == rest;
          match HexByte(hex2) {
            case None =>
              stop := Some(Err(BadHexEscape(hex2)));
            case Some(b) =>
              PrependPrepend(out, [b as char], DecodeBody(rest));
              out' := out + [b as char];
              state' := Normal;
          }
        } else {
          assert hex[1..] == [];
          assert |u| >= 4 && u[2] == hex[0] && Utf8Len(u[2]) > 1;
          stop := Some(Panic);
        }
      case OutsideQuotes =>
        stop := Some(Err(CharsAfterTrailingQuote));
    }
  }

  // ---------------------------------------------------------------------
  // The encoder.

  predicate NeedsEscape(c: char) { c == '\\' || c == '"' }

  function EscapeChar(c: char): string
  {
    if NeedsEscape(c) then ['\\', c] else [c]
  }

  function EscapeChars(s: string): string
    decreases |s|
  {
    if s == [] then [] else EscapeChar(s[0]) + EscapeChars(s[1..])
  }

  /** The literal that `escape` produces for `s`. */
  function Escaped(s: string): string
  {
    "\"" + EscapeChars(s) + "\""
  }

  lemma {:induction false} EscapeCharsSnoc(s: string, c: char)
    ensures EscapeChars(s + [c]) == EscapeChars(s) + EscapeChar(c)
    decreases |s|
  {
    if s == [] {
      assert [c][1..] == [];
    } else {
      assert (s + [c])[1..] == s[1..] + [c];
      EscapeCharsSnoc(s[1..], c);
    }
  }

  /** `escape`: a quote, each char with `\` and `"` prefixed by `\`, a quote. */
  method Escape(s: string) returns (out: string)
    ensures out == Escaped(s)
  {
    out := "\"";
    for i := 0 to |s|
      invariant out == "\"" + EscapeChars(s[..i])
    {
      var ch := s[i];
      assert s[..i + 1] == s[..i] + [ch];
      EscapeCharsSnoc(s[..i], ch);
      if ch == '\\' || ch == '"' {
        out := out + ['\\', ch];
      } else {
        out := out + [ch];
      }
    }
    assert s[..|s|] == s;
    out := out + "\"";
  }

  function Specials(s: string): nat
  {
    Count(s, '\\') + Count(s, '"')
  }

  /** The encoded length: the input, one backslash per special char, and
      the two quotes. */
  lemma {:induction false} EscapedLength(s: string)
    ensures |Escaped(s)| == |s| + Specials(s) + 2
    decreases |s|
  {
    EscapeCharsLength(s);
  }

  lemma {:induction false} EscapeCharsLength(s: string)
    ensures |EscapeChars(s)| == |s| + Specials(s)
    decreases |s|
  {
    if s != [] {
      EscapeCharsLength(s[1..]);
    }
  }

  /** One plain char, then the rest. */
  lemma DecodeBodyPlainChar(c: char, rest: string)
    requires !NeedsEscape(c)
    ensures DecodeBody([c] + rest) == Prepend([c], DecodeBody(rest))
  {
    assert ([c] + rest)[1..] == rest;
  }

  /** A backslash and one of the two specials, then the rest. */
  lemma DecodeBodyEscapedChar(c: char, rest: string)
    requires NeedsEscape(c)
    ensures DecodeBody(['\\', c] + rest) == Prepend([c], DecodeBody(rest))
  {
    var t := ['\\', c] + rest;
    assert t[0] == '\\' && t[1] == c && t[2..] == rest;
  }

  /** A hexadecimal escape, then the rest: a first char of more than one
      byte panics, otherwise the two chars decode as a byte or fail. */
  lemma DecodeBodyHexEscape(a: char, b: char, rest: string)
    ensures DecodeBody(['\\', 'x', a, b] + rest) ==
      if Utf8Len(a) > 1 then Panic
      else match HexByte([a, b])
      case None => Err(BadHexEscape([a, b]))
      case Some(n) => Prepend([n as char], DecodeBody(rest))
  {
    var t := ['\\', 'x', a, b] + rest;
    assert t[2..4] == [a, b] && t[4..] == rest;
  }

  /** A run of plain chars, then the rest. */
  lemma {:induction false} DecodeBodyPlain(p: string, rest: string)
    requires forall i :: 0 <= i < |p| ==> !NeedsEscape(p[i])
    ensures DecodeBody(p + rest) == Prepend(p, DecodeBody(rest))
    decreases |p|
  {
    if p == [] {
      assert p + rest == rest;
      if DecodeBody(rest).Ok? {
        assert [] + DecodeBody(rest).value == DecodeBody(rest).value;
      }
    } else {
      DecodeBodyPlain(p[1..], rest);
      assert p + rest == [p[0]] + (p[1..] + rest);
      DecodeBodyPlainChar(p[0], p[1..] + rest);
      PrependPrepend([p[0]], p[1..], DecodeBody(rest));
      assert [p[0]] + p[1..] == p;
    }
  }

  lemma {:induction false} DecodeEscapeChars(s: string)
    ensures DecodeBody(EscapeChars(s) + "\"") == Ok(s)
    decreases |s|
  {
    if s == [] {
      assert EscapeChars(s) + "\"" == "\"";
    } else {
      var c := s[0];
      var rest := EscapeChars(s[1..]) + "\"";
      DecodeEscapeChars(s[1..]);
      assert EscapeChars(s) + "\"" == EscapeChar(c) + rest;
      if NeedsEscape(c) {
        DecodeBodyEscapedChar(c, rest);
      } else {
        DecodeBodyPlainChar(c, rest);
      }
      assert [c] + s[1..] == s;
    }
  }

  /** Decoding undoes encoding, for every string: the property that
      `roundtrip_input` checks line by line. */
  lemma RoundTrip(s: string)
    ensures Decode(Escaped(s)) == Ok(s)
  {
    var e := Escaped(s);
    assert e[0] == '"' && e[1..] == EscapeChars(s) + "\"";
    DecodeEscapeChars(s);
  }

  lemma {:induction false} DecodeBodyLength(t: string)
    ensures DecodeBody(t).Ok? ==> |DecodeBody(t).value| + 1 <= |t|
    decreases |t|
  {
    if t != [] && t[0] == '\\' && |t| >= 2 {
      if t[1] == '\\' || t[1] == '"' {
        DecodeBodyLength(t[2..]);
      } else if t[1] == 'x' && |t| >= 4 {
        DecodeBodyLength(t[4..]);
      }
    } else if t != [] && t[0] != '"' {
      DecodeBodyLength(t[1..]);
    }
  }

  /** A decoded literal is at least two chars shorter than its source, so
      the per-line subtraction of `part1` never underflows. */
  lemma DecodedLength(s: string)
    ensures Decode(s).Ok? ==> |Decode(s).value| + 2 <= |s|
  {
    if s != [] && s[0] == '"' {
      DecodeBodyLength(s[1..]);
    }
  }

  lemma {:induction false} DecodeBodyNeverLeading(t: string)
    ensures DecodeBody(t) != Err(NoLeadingQuote)
    decreases |t|
  {
    if t != [] && t[0] == '\\' && |t| >= 2 {
      if t[1] == '\\' || t[1] == '"' {
        DecodeBodyNeverLeading(t[2..]);
      } else if t[1] == 'x' && |t| >= 4 {
        DecodeBodyNeverLeading(t[4..]);
      }
    } else if t != [] && t[0] != '"' {
      DecodeBodyNeverLeading(t[1..]);
    }
  }

  /** `NoLeadingQuote` is reported exactly when the first char is not `"`. */
  lemma NoLeadingQuoteExactly(s: string)
    ensures Decode(s) == Err(NoLeadingQuote) <==> (s != [] && s[0] != '"')
  {
    if s != [] && s[0] == '"' {
      DecodeBodyNeverLeading(s[1..]);
    }
  }

  lemma {:induction false} DecodeBodyClosesAtEnd(t: string)
    ensures DecodeBody(t).Ok? ==> t != [] && t[|t| - 1] == '"'
    decreases |t|
  {
    if t != [] && t[0] == '\\' && |t| >= 2 {
      if t[1] == '\\' || t[1] == '"' {
        DecodeBodyClosesAtEnd(t[2..]);
      } else if t[1] == 'x' && |t| >= 4 {
        DecodeBodyClosesAtEnd(t[4..]);
      }
    } else if t != [] && t[0] != '"' {
      DecodeBodyClosesAtEnd(t[1..]);
    }
  }

  /** A literal that decodes starts and ends with an (unescaped) quote. */
  lemma DecodedIsQuoted(s: string)
    ensures Decode(s).Ok? ==> |s| >= 2 && s[0] == '"' && s[|s| - 1] == '"'
  {
    if s != [] && s[0] == '"' {
      DecodeBodyClosesAtEnd(s[1..]);
      DecodeBodyLength(s[1..]);
    }
  }

  lemma {:induction false} DecodeBodyErrors(t: string)
    ensures DecodeBody(t).Err? && DecodeBody(t).error.UnexpectedEscapedChar? ==>
              !NeedsEscape(DecodeBody(t).error.ch) && DecodeBody(t).error.ch != 'x'
    ensures DecodeBody(t).Err? && DecodeBody(t).error.BadHexEscape? ==>
              |DecodeBody(t).error.hex| == 2 && HexByte(DecodeBody(t).error.hex).None?
              && Utf8Len(DecodeBody(t).error.hex[0]) == 1
    decreases |t|
  {
    if t != [] && t[0] == '\\' && |t| >= 2 {
      if t[1] == '\\' || t[1] == '"' {
        DecodeBodyErrors(t[2..]);
      } else if t[1] == 'x' && |t| >= 4 {
        DecodeBodyErrors(t[4..]);
      }
    } else if t != [] && t[0] != '"' {
      DecodeBodyErrors(t[1..]);
    }
  }

  /** An escape error names a char other than `\`, `"` and `x`; a hex error
      names exactly the two chars that failed to parse as a byte, the first
      of them a one-byte char (a wider one panics instead). */
  lemma EscapeErrors(s: string)
    ensures Decode(s).Err? && Decode(s).error.UnexpectedEscapedChar? ==>
              !NeedsEscape(Decode(s).error.ch) && Decode(s).error.ch != 'x'
    ensures Decode(s).Err? && Decode(s).error.BadHexEscape? ==>
              |Decode(s).error.hex| == 2 && HexByte(Decode(s).error.hex).None?
              && Utf8Len(Decode(s).error.hex[0]) == 1
  {
    if s != [] && s[0] == '"' {
      DecodeBodyErrors(s[1..]);
    }
  }

  /** The leading `+` accepted by the byte parser lets `\x+5` through. */
  lemma PlusSignHexEscape()
    ensures Decode("\"\\x+5\"") == Ok([5 as char])
  {
    var s := "\"\\x+5\"";
    assert s[1..] == ['\\', 'x', '+', '5'] + "\"";
    HexBytePair('+', '5');
    assert HexByte(['+', '5']) == Some(5);
    DecodeBodyHexEscape('+', '5', "\"");
    assert DecodeBody("\"") == Ok([]);
    assert [5 as char] + [] == [5 as char];
  }

  /** A decodable hex escape has a one-byte first char: `"\xé0"` counts
      two bytes for the `é`, so the `0` reaches the `unreachable!()` arm. */
  lemma WideHexPanics()
    ensures Decode("\"\\x\U{e9}0\"") == Panic
  {
    var s := "\"\\x\U{e9}0\"";
    assert s[1..] == ['\\', 'x', '\U{e9}', '0'] + "\"";
    DecodeBodyHexEscape('\U{e9}', '0', "\"");
  }

  /** A hex escape at position `k` whose first char takes more than one byte. */
  predicate WideHexAt(t: string, k: int)
  {
    0 <= k && k + 3 < |t| && t[k] == '\\' && t[k + 1] == 'x' && Utf8Len(t[k + 2]) > 1
  }

  ghost predicate HasWideHex(t: string)
  {
    exists k :: WideHexAt(t, k)
  }

  lemma WideHexShift(t: string, j: nat)
    requires j <= |t| && HasWideHex(t[j..])
    ensures HasWideHex(t)
  {
    var k :| WideHexAt(t[j..], k);
    assert WideHexAt(t, k + j);
  }

  /** Every panic comes from a hex escape whose first char takes more than
      one byte. */
  lemma {:induction false} DecodeBodyPanics(t: string)
    ensures DecodeBody(t).Panic? ==> HasWideHex(t)
    decreases |t|
  {
    if t != [] && t[0] == '\\' && |t| >= 2 {
      if t[1] == '\\' || t[1] == '"' {
        DecodeBodyPanics(t[2..]);
        if DecodeBody(t).Panic? {
          WideHexShift(t, 2);
        }
      } else if t[1] == 'x' && |t| >= 4 {
        if Utf8Len(t[2]) > 1 {
          assert WideHexAt(t, 0);
        } else {
          DecodeBodyPanics(t[4..]);
          if DecodeBody(t).Panic? {
            WideHexShift(t, 4);
          }
        }
      }
    } else if t != [] && t[0] != '"' {
      DecodeBodyPanics(t[1..]);
      if DecodeBody(t).Panic? {
        WideHexShift(t, 1);
      }
    }
  }

  // ---------------------------------------------------------------------
  // The per-line arithmetic of the two puzzle parts.

  /** `part1`'s per-line term: literal length minus decoded length. */
  function Part1Term(s: string): (r: Result<nat>)
    ensures r.Ok? <==> Decode(s).Ok?
    ensures r.Ok? ==> r.value + |Decode(s).value| == |s| && r.value >= 2
  {
    DecodedLength(s);
    match Decode(s)
    case Ok(d) => Ok(|s| - |d|)
    case Err(e) => Err(e)
    case Panic => Panic
  }

  /** `part2`'s per-line term: encoded length minus input length. */
  function Part2Term(s: string): (r: nat)
    ensures r == Specials(s) + 2
  {
    EscapedLength(s);
    |Escaped(s)| - |s|
  }

  /** The sum of `part1`'s terms; the first undecodable line aborts it. */
  function Part1Total(lines: seq<string>): (r: Result<nat>)
    ensures r.Ok? ==> r.value >= 2 * |lines|
    ensures r.Ok? <==> forall i :: 0 <= i < |lines| ==> Decode(lines[i]).Ok?
  {
    if lines == [] then Ok(0)
    else
      match Part1Term(lines[0])
      case Err(e) => Err(e)
      case Panic => Panic
      case Ok(n) =>
        match Part1Total(lines[1..])
        case Err(e) => Err(e)
        case Panic => Panic
        case Ok(m) => Ok(n + m)
  }

  predicate ContainsHexEscape(s: string)
  {
    exists k :: 0 <= k < |s| - 1 && s[k] == '\\' && s[k + 1] == 'x'
  }

  /** One line of `roundtrip_input`: escape, unescape, unescape again,
      re-escape, and report (true) a line whose round trips disagree. */
  function RoundtripLine(input: string): Result<bool>
  {
    var escaped := Escaped(input);
    match Decode(escaped)
    case Err(e) => Err(e)
    case Panic => Panic
    case Ok(unescaped) =>
      match Decode(unescaped)
      case Err(e) => Err(e)
      case Panic => Panic
      case Ok(unescaped2) =>
        var reescaped := Escaped(unescaped2);
        Ok(input != unescaped || (input != reescaped && !ContainsHexEscape(input)))
  }

  /** The first comparison of `roundtrip_input` never fires; only lines that
      are not themselves decodable literals, or whose decoding does not
      re-encode to the same text, are reported or abort the run. */
  lemma RoundtripLineMeaning(input: string)
    ensures RoundtripLine(input) ==
      match Decode(input)
      case Err(e) => Err(e)
      case Panic => Panic
      case Ok(d) => Ok(input != Escaped(d) && !ContainsHexEscape(input))
  {
    RoundTrip(input);
  }

  /** An input that is itself the encoding of some string is never reported. */
  lemma RoundtripOfEncoded(x: string)
    ensures RoundtripLine(Escaped(x)) == Ok(false)
  {
    RoundtripLineMeaning(Escaped(x));
    RoundTrip(x);
  }

  // ---------------------------------------------------------------------
  // The unit tests of the source, as facts about the model.

  /** The closing quote alone decodes to nothing. */
  lemma DecodeBodyQuote()
    ensures DecodeBody("\"") == Ok([])
  {
  }

  /** A plain run closed by the quote decodes to itself. */
  lemma DecodeBodyPlainClosed(p: string)
    requires forall i :: 0 <= i < |p| ==> !NeedsEscape(p[i])
    ensures DecodeBody(p + "\"") == Ok(p)
  {
    DecodeBodyPlain(p, "\"");
    DecodeBodyQuote();
    assert p + [] == p;
  }

  /** The escapes of the first test case, from the right: `\\b"`, then
      the plain run, then `\x44`. */
  lemma ExampleHexTail(mid: string)
    requires mid == "gqbcppho" + (['\\', '\\'] + ("b" + "\""))
    ensures DecodeBody(mid) == Ok("gqbcppho\\b")
  {
    var last := "b" + "\"";
    var tail := ['\\', '\\'] + last;
    DecodeBodyPlainClosed("b");
    DecodeBodyEscapedChar('\\', last);
    assert ['\\'] + "b" == "\\b";
    DecodeBodyPlain("gqbcppho", tail);
    assert "gqbcppho" + "\\b" == "gqbcppho\\b";
  }

  lemma ExampleHexBody(hex: string, mid: string)
    requires mid == "gqbcppho" + (['\\', '\\'] + ("b" + "\""))
    requires hex == ['\\', 'x', '4', '4'] + mid
    ensures DecodeBody(hex) == Ok("Dgqbcppho\\b")
  {
    ExampleHexTail(mid);
    HexBytePair('4', '4');
    DecodeBodyHexEscape('4', '4', mid);
    assert [0x44 as char] + "gqbcppho\\b" == "Dgqbcppho\\b";
  }

  /** The first `unescape` test case. */
  lemma UnescapeExampleHex()
    ensures Decode("\"m\\x44gqbcppho\\\\b\"") == Ok("mDgqbcppho\\b")
  {
    var s := "\"m\\x44gqbcppho\\\\b\"";
    var mid := "gqbcppho" + (['\\', '\\'] + ("b" + "\""));
    var hex := ['\\', 'x', '4', '4'] + mid;
    assert s[1..] == "m" + hex;
    ExampleHexBody(hex, mid);
    DecodeBodyPlain("m", hex);
    ExampleHexText();
  }

  lemma ExampleHexText()
    ensures "m" + "Dgqbcppho\\b" == "mDgqbcppho\\b"
  {
  }

  /** The second `unescape` test case. */
  lemma UnescapeExampleBackslash()
    ensures Decode("\"\\\\bo\"") == Ok("\\bo")
  {
    var u := "\"\\\\bo\"";
    var last := "bo" + "\"";
    assert u[1..] == ['\\', '\\'] + last;
    DecodeBodyPlainClosed("bo");
    DecodeBodyEscapedChar('\\', last);
    assert ['\\'] + "bo" == "\\bo";
  }

  lemma FixtureQuoteEscape()
    ensures Decode("\"aaa\\\"aaa\"") == Ok("aaa\"aaa")
  {
    var line := "\"aaa\\\"aaa\"";
    var last := "aaa" + "\"";
    var esc := ['\\', '"'] + last;
    assert line[1..] == "aaa" + esc;
    DecodeBodyPlainClosed("aaa");
    DecodeBodyEscapedChar('"', last);
    assert ['"'] + "aaa" == "\"aaa";
    DecodeBodyPlain("aaa", esc);
    assert "aaa" + "\"aaa" == "aaa\"aaa";
  }

  lemma FixtureHexEscape()
    ensures Decode("\"\\x27\"") == Ok([0x27 as char])
  {
    var line := "\"\\x27\"";
    assert line[1..] == ['\\', 'x', '2', '7'] + "\"";
    HexBytePair('2', '7');
    DecodeBodyHexEscape('2', '7', "\"");
    DecodeBodyQuote();
    assert [0x27 as char] + [] == [0x27 as char];
  }

  /** The sum over a line in front of others is the line's term plus the
      sum over the others. */
  lemma Part1TotalCons(line: string, rest: seq<string>, n: nat, m: nat)
    requires Part1Term(line) == Ok(n) && Part1Total(rest) == Ok(m)
    ensures Part1Total([line] + rest) == Ok(n + m)
  {
    assert ([line] + rest)[0] == line && ([line] + rest)[1..] == rest;
  }

  /** The total over four decodable lines is the sum of their terms. */
  lemma Part1TotalFour(a: string, b: string, c: string, d: string, na: nat, nb: nat, nc: nat, nd: nat)
    requires Part1Term(a) == Ok(na) && Part1Term(b) == Ok(nb)
    requires Part1Term(c) == Ok(nc) && Part1Term(d) == Ok(nd)
    ensures Part1Total([a, b, c, d]) == Ok(na + nb + nc + nd)
  {
    assert Part1Total([]) == Ok(0);
    Part1TotalCons(d, [], nd, 0);
    assert [d] + [] == [d];
    Part1TotalCons(c, [d], nc, nd);
    Part1TotalCons(b, [c, d], nb, nc + nd);
    Part1TotalCons(a, [b, c, d], na, nb + nc + nd);
    assert [a] + ([b] + ([c] + [d])) == [a, b, c, d];
  }

  lemma FixtureEmptyTerm()
    ensures Part1Term("\"\"") == Ok(2)
  {
    var a := "\"\"";
    assert a[1..] == "\"";
    DecodeBodyQuote();
  }

  lemma FixturePlainTerm()
    ensures Part1Term("\"abc\"") == Ok(2)
  {
    var b := "\"abc\"";
    assert b[1..] == "abc" + "\"";
    DecodeBodyPlainClosed("abc");
  }

  lemma FixtureEscapeTerms()
    ensures Part1Term("\"aaa\\\"aaa\"") == Ok(3)
    ensures Part1Term("\"\\x27\"") == Ok(5)
  {
    FixtureQuoteEscape();
    FixtureHexEscape();
  }

  /** The four fixture lines give `part1` a total of 12. */
  lemma UnescapeFixtureTotal()
    ensures Part1Total(["\"\"", "\"abc\"", "\"aaa\\\"aaa\"", "\"\\x27\""]) == Ok(12)
  {
    FixtureEmptyTerm();
    FixturePlainTerm();
    FixtureEscapeTerms();
    Part1TotalFour("\"\"", "\"abc\"", "\"aaa\\\"aaa\"", "\"\\x27\"", 2, 2, 3, 5);
  }
}
