// Shared string and number helpers that model the parts of the Rust and
// Python standard libraries the solutions call: whitespace trimming,
// lower-casing, splitting and integer parsing.

module Text {

  datatype Option<T> = None | Some(value: T)

  // ---------------------------------------------------------------------
  // Characters

  /** Rust's `char::is_whitespace`: the Unicode White_Space property. */
  predicate IsWhitespace(c: char) {
    ('\U{0009}' <= c <= '\U{000D}') || c == ' ' || c == '\U{0085}' || c == '\U{00A0}'
    || c == '\U{1680}' || ('\U{2000}' <= c <= '\U{200A}') || c == '\U{2028}'
    || c == '\U{2029}' || c == '\U{202F}' || c == '\U{205F}' || c == '\U{3000}'
  }

  predicate IsAsciiDigit(c: char) { '0' <= c <= '9' }

  predicate IsAsciiLowerLetter(c: char) { 'a' <= c <= 'z' }

  predicate IsAsciiUpperLetter(c: char) { 'A' <= c <= 'Z' }

  /** Lower-casing of one char; only the ASCII letters are mapped. */
  function LowerChar(c: char): (r: char)
    ensures IsAsciiUpperLetter(c) ==> IsAsciiLowerLetter(r)
    ensures !IsAsciiUpperLetter(c) ==> r == c
  {
    if IsAsciiUpperLetter(c) then (c as int - 'A' as int + 'a' as int) as char else c
  }

  /** `str::to_lowercase` restricted to ASCII case mapping. */
  function Lower(s: string): (r: string)
    ensures |r| == |s|
    ensures forall i :: 0 <= i < |s| ==> r[i] == LowerChar(s[i])
  {
    if s == [] then [] else [LowerChar(s[0])] + Lower(s[1..])
  }

  /** Value of an ASCII hexadecimal digit of either case. */
  function HexValue(c: char): (r: Option<nat>)
    ensures r.Some? <==> (IsAsciiDigit(c) || 'a' <= c <= 'f' || 'A' <= c <= 'F')
    ensures r.Some? ==> r.value < 16
  {
    if IsAsciiDigit(c) then Some(c as int - '0' as int)
    else if 'a' <= c <= 'f' then Some(c as int - 'a' as int + 10)
    else if 'A' <= c <= 'F' then Some(c as int - 'A' as int + 10)
    else None
  }

  function DigitValue(c: char, radix: nat): (r: Option<nat>)
    requires radix == 10 || radix == 16
    ensures r.Some? ==> r.value < radix
  {
    if radix == 10 then (if IsAsciiDigit(c) then Some(c as int - '0' as int) else None)
    else HexValue(c)
  }

  // ---------------------------------------------------------------------
  // Trimming

  /** Number of leading whitespace chars. */
  function LeadingWhitespace(s: string): (n: nat)
    ensures n <= |s|
    ensures forall i :: 0 <= i < n ==> IsWhitespace(s[i])
    ensures n < |s| ==> !IsWhitespace(s[n])
  {
    if s != [] && IsWhitespace(s[0]) then 1 + LeadingWhitespace(s[1..]) else 0
  }

  function TrimStart(s: string): (r: string)
    ensures r == s[LeadingWhitespace(s)..]
  {
    s[LeadingWhitespace(s)..]
  }

  function TrimEnd(s: string): (r: string)
    ensures |r| <= |s| && r == s[..|r|]
    ensures forall i :: |r| <= i < |s| ==> IsWhitespace(s[i])
    ensures r != [] ==> !IsWhitespace(r[|r| - 1])
  {
    if s != [] && IsWhitespace(s[|s| - 1]) then TrimEnd(s[..|s| - 1]) else s
  }

  /** `str::trim`: the longest slice with no leading or trailing whitespace. */
  function Trim(s: string): (r: string)
    ensures LeadingWhitespace(s) + |r| <= |s|
    ensures r == s[LeadingWhitespace(s)..LeadingWhitespace(s) + |r|]
    ensures r != [] ==> !IsWhitespace(r[0]) && !IsWhitespace(r[|r| - 1])
    ensures (forall i :: 0 <= i < |s| ==> IsWhitespace(s[i])) <==> r == []
  {
    var t := TrimStart(s);
    var r := TrimEnd(t);
    r
  }

  /** A string that neither starts nor ends with whitespace trims to itself. */
  lemma TrimUnchanged(s: string)
    requires s != [] ==> !IsWhitespace(s[0]) && !IsWhitespace(s[|s| - 1])
    ensures Trim(s) == s
  {
    assert s[0..] == s;
  }

  /** A space before a trimmed string is trimmed away. */
  lemma TrimSpaced(s: string)
    requires s != [] && !IsWhitespace(s[0]) && !IsWhitespace(s[|s| - 1])
    ensures Trim(" " + s) == s
  {
    var t := " " + s;
    assert LeadingWhitespace(t) == 1 by {
      assert t[1..] == s;
    }
    assert TrimStart(t) == s;
    TrimUnchanged(s);
  }

  /** A string without ASCII capitals lower-cases to itself. */
  lemma LowerUnchanged(s: string)
    requires forall i :: 0 <= i < |s| ==> !IsAsciiUpperLetter(s[i])
    ensures Lower(s) == s
  {
  }

  // ---------------------------------------------------------------------
  // Splitting

  predicate MatchAt(s: string, sep: string, k: nat) {
    k + |sep| <= |s| && s[k..k + |sep|] == sep
  }

  /** Index of the first occurrence of a non-empty `sep` in `s`. */
  function IndexOf(s: string, sep: string, from: nat := 0): (r: Option<nat>)
    requires |sep| > 0 && from <= |s|
    ensures r.Some? ==> from <= r.value && MatchAt(s, sep, r.value)
                        && forall k :: from <= k < r.value ==> !MatchAt(s, sep, k)
    ensures r.None? ==> forall k :: from <= k <= |s| ==> !MatchAt(s, sep, k)
    decreases |s| - from
  {
    if from + |sep| > |s| then None
    else if s[from..from + |sep|] == sep then Some(from)
    else IndexOf(s, sep, from + 1)
  }

  /** `str::split` with a non-empty string pattern: the pieces between the
      non-overlapping occurrences of `sep`, scanning from the left. */
  function Split(s: string, sep: string): (r: seq<string>)
    requires |sep| > 0
    ensures |r| >= 1
    decreases |s|
  {
    match IndexOf(s, sep)
    case None => [s]
    case Some(k) => [s[..k]] + Split(s[k + |sep|..], sep)
  }

  function Join(pieces: seq<string>, sep: string): string
  {
    if pieces == [] then []
    else if |pieces| == 1 then pieces[0]
    else pieces[0] + sep + Join(pieces[1..], sep)
  }

  lemma JoinCons(head: string, tail: seq<string>, sep: string)
    requires |tail| >= 1
    ensures Join([head] + tail, sep) == head + sep + Join(tail, sep)
  {
    assert ([head] + tail)[1..] == tail;
  }

  lemma Reassemble(s: string, i: nat, j: nat)
    requires i <= j <= |s|
    ensures s == s[..i] + s[i..j] + s[j..]
  {
  }

  /** One unfolding of `Split` at the first occurrence of the separator. */
  lemma SplitFound(s: string, sep: string, k: nat, rest: string)
    requires |sep| > 0 && IndexOf(s, sep) == Some(k)
    requires k + |sep| <= |s| && rest == s[k + |sep|..]
    ensures s[k..k + |sep|] == sep
    ensures Split(s, sep) == [s[..k]] + Split(rest, sep)
  {
  }

  lemma {:induction false} JoinSplit(s: string, sep: string)
    requires |sep| > 0
    ensures Join(Split(s, sep), sep) == s
    decreases |s|
  {
    var idx := IndexOf(s, sep);
    if idx.Some? {
      var k := idx.value;
      var rest := s[k + |sep|..];
      SplitFound(s, sep, k, rest);
      JoinSplit(rest, sep);
      JoinCons(s[..k], Split(rest, sep), sep);
      Reassemble(s, k, k + |sep|);
    }
  }

  /** The first occurrence of a one-char separator after a run without it. */
  lemma IndexOfChar(a: string, c: char, rest: string)
    requires forall i :: 0 <= i < |a| ==> a[i] != c
    ensures IndexOf(a + [c] + rest, [c]) == Some(|a|)
  {
    var s := a + [c] + rest;
    assert s[|a|..|a| + 1] == [c];
    assert MatchAt(s, [c], |a|);
    forall k | 0 <= k < |a|
      ensures !MatchAt(s, [c], k)
    {
      assert s[k] == a[k];
      if k + 1 <= |s| {
        assert s[k..k + 1] == [s[k]];
      }
    }
  }

  /** A string without the one-char separator splits into itself. */
  lemma SplitNoSeparator(s: string, c: char)
    requires forall i :: 0 <= i < |s| ==> s[i] != c
    ensures Split(s, [c]) == [s]
  {
    forall k | 0 <= k <= |s|
      ensures !MatchAt(s, [c], k)
    {
      if k + 1 <= |s| {
        assert s[k..k + 1] == [s[k]];
      }
    }
    assert IndexOf(s, [c]) == None;
  }

  /** Splitting on a one-char separator peels off the text before its
      first occurrence. */
  lemma SplitAtChar(a: string, c: char, rest: string)
    requires forall i :: 0 <= i < |a| ==> a[i] != c
    ensures Split(a + [c] + rest, [c]) == [a] + Split(rest, [c])
  {
    var s := a + [c] + rest;
    IndexOfChar(a, c, rest);
    assert s[..|a|] == a && s[|a| + 1..] == rest;
  }

  /** Pieces without the one-char separator, joined by it, split back
      into the pieces. */
  lemma {:induction false} SplitJoinChar(pieces: seq<string>, c: char)
    requires |pieces| >= 1
    requires forall k, i :: 0 <= k < |pieces| && 0 <= i < |pieces[k]| ==> pieces[k][i] != c
    ensures Split(Join(pieces, [c]), [c]) == pieces
    decreases |pieces|
  {
    if |pieces| == 1 {
      SplitNoSeparator(pieces[0], c);
    } else {
      var rest := pieces[1..];
      SplitJoinChar(rest, c);
      assert pieces == [pieces[0]] + rest;
      JoinCons(pieces[0], rest, [c]);
      SplitAtChar(pieces[0], c, Join(rest, [c]));
    }
  }

  /** Length of the leading run of non-whitespace chars. */
  function WordLength(s: string): (n: nat)
    ensures n <= |s|
    ensures forall i :: 0 <= i < n ==> !IsWhitespace(s[i])
    ensures n < |s| ==> IsWhitespace(s[n])
  {
    if s == [] || IsWhitespace(s[0]) then 0 else 1 + WordLength(s[1..])
  }

  /** `str::split_whitespace`: the maximal runs of non-whitespace chars. */
  function SplitWhitespace(s: string): (r: seq<string>)
    ensures forall t :: t in r ==> t != [] && forall i :: 0 <= i < |t| ==> !IsWhitespace(t[i])
    decreases |s|
  {
    if s == [] then []
    else if IsWhitespace(s[0]) then SplitWhitespace(s[1..])
    else
      var n := WordLength(s);
      [s[..n]] + SplitWhitespace(s[n..])
  }

  /** A word followed by whitespace or the end is the first token. */
  lemma SplitWhitespaceWord(w: string, rest: string)
    requires w != [] && forall i :: 0 <= i < |w| ==> !IsWhitespace(w[i])
    requires rest != [] ==> IsWhitespace(rest[0])
    ensures SplitWhitespace(w + rest) == [w] + SplitWhitespace(rest)
  {
    WordLengthOfWord(w, rest);
    assert (w + rest)[..|w|] == w && (w + rest)[|w|..] == rest;
  }

  lemma {:induction false} WordLengthOfWord(w: string, rest: string)
    requires forall i :: 0 <= i < |w| ==> !IsWhitespace(w[i])
    requires rest != [] ==> IsWhitespace(rest[0])
    ensures WordLength(w + rest) == |w|
    decreases |w|
  {
    if w != [] {
      assert (w + rest)[1..] == w[1..] + rest;
      WordLengthOfWord(w[1..], rest);
    }
  }

  /** Leading whitespace is skipped. */
  lemma SplitWhitespaceSpace(c: char, rest: string)
    requires IsWhitespace(c)
    ensures SplitWhitespace([c] + rest) == SplitWhitespace(rest)
  {
    assert ([c] + rest)[1..] == rest;
  }

  /** A word and a space start the tokens. */
  lemma SplitWhitespaceWordSpace(w: string, rest: string)
    requires w != [] && forall i :: 0 <= i < |w| ==> !IsWhitespace(w[i])
    ensures SplitWhitespace(w + (" " + rest)) == [w] + SplitWhitespace(rest)
  {
    SplitWhitespaceWord(w, " " + rest);
    SplitWhitespaceSpace(' ', rest);
  }

  /** Words joined by single spaces split back into the words. */
  lemma {:induction false} SplitWhitespaceJoin(words: seq<string>)
    requires forall k :: 0 <= k < |words| ==> words[k] != [] && NoSpace(words[k])
    ensures SplitWhitespace(Join(words, " ")) == words
    decreases |words|
  {
    if |words| == 1 {
      SplitWhitespaceWord(words[0], []);
      assert words[0] + [] == words[0];
    } else if |words| > 1 {
      var rest := words[1..];
      SplitWhitespaceJoin(rest);
      JoinSpace(words);
      SplitWhitespaceWordSpace(words[0], Join(rest, " "));
    }
  }

  lemma JoinSpace(words: seq<string>)
    requires |words| > 1
    ensures Join(words, " ") == words[0] + (" " + Join(words[1..], " "))
  {
    assert words == [words[0]] + words[1..];
    JoinCons(words[0], words[1..], " ");
  }

  /** Every char of a join comes from a piece or the separator. */
  lemma {:induction false} JoinChars(pieces: seq<string>, sep: string, c: char)
    requires c in Join(pieces, sep)
    ensures c in sep || exists k :: 0 <= k < |pieces| && c in pieces[k]
    decreases |pieces|
  {
    if |pieces| > 1 {
      var j := Join(pieces[1..], sep);
      if c !in pieces[0] && c !in sep {
        JoinChars(pieces[1..], sep, c);
        var k :| 0 <= k < |pieces[1..]| && c in pieces[1..][k];
        assert c in pieces[k + 1];
      }
    }
  }

  /** A join of non-empty pieces starts with the first piece's first char
      and ends with the last piece's last char. */
  lemma {:induction false} JoinEnds(pieces: seq<string>, sep: string)
    requires |pieces| >= 1 && forall k :: 0 <= k < |pieces| ==> pieces[k] != []
    ensures var j := Join(pieces, sep); var last := pieces[|pieces| - 1];
      j != [] && j[0] == pieces[0][0] && j[|j| - 1] == last[|last| - 1]
    decreases |pieces|
  {
    if |pieces| > 1 {
      JoinEnds(pieces[1..], sep);
    }
  }

  predicate NoUpper(s: string)
  {
    forall i :: 0 <= i < |s| ==> !IsAsciiUpperLetter(s[i])
  }

  predicate NoSpace(s: string)
  {
    forall i :: 0 <= i < |s| ==> !IsWhitespace(s[i])
  }

  /** Non-empty words without whitespace or capitals, joined by single
      spaces, are left alone by trimming and lower-casing. */
  lemma JoinNormal(words: seq<string>)
    requires |words| >= 1
    requires forall k :: 0 <= k < |words| ==> words[k] != [] && NoSpace(words[k]) && NoUpper(words[k])
    ensures Lower(Trim(Join(words, " "))) == Join(words, " ")
  {
    var s := Join(words, " ");
    JoinEnds(words, " ");
    var last := words[|words| - 1];
    assert !IsWhitespace(last[|last| - 1]);
    TrimUnchanged(s);
    JoinNoUpper(words);
    LowerUnchanged(s);
  }

  lemma JoinNoUpper(words: seq<string>)
    requires forall k :: 0 <= k < |words| ==> NoUpper(words[k])
    ensures NoUpper(Join(words, " "))
  {
    var s := Join(words, " ");
    forall i | 0 <= i < |s|
      ensures !IsAsciiUpperLetter(s[i])
    {
      JoinChars(words, " ", s[i]);
      if s[i] !in " " {
        var k :| 0 <= k < |words| && s[i] in words[k];
      }
    }
  }

  function Reverse<T>(s: seq<T>): (r: seq<T>)
    ensures |r| == |s| && forall i :: 0 <= i < |s| ==> r[i] == s[|s| - 1 - i]
  {
    if s == [] then [] else Reverse(s[1..]) + [s[0]]
  }

  // ---------------------------------------------------------------------
  // Numbers

  /** Reads the digits of `s` in the given radix after the value `acc`
      already read, left to right; None if a char is not a digit. */
  function DigitsFrom(acc: nat, s: string, radix: nat): (r: Option<nat>)
    requires radix == 10 || radix == 16
    ensures r.Some? ==> r.value >= acc
    decreases |s|
  {
    if s == [] then Some(acc)
    else
      match DigitValue(s[0], radix)
      case Some(d) => DigitsFrom(acc * radix + d, s[1..], radix)
      case None => None
  }

  /** Value of a digit string in the given radix (0 for the empty string). */
  function Digits(s: string, radix: nat): (r: Option<nat>)
    requires radix == 10 || radix == 16
  {
    DigitsFrom(0, s, radix)
  }

  lemma {:induction false} DigitsFromAllDigits(acc: nat, s: string, radix: nat)
    requires radix == 10 || radix == 16
    ensures DigitsFrom(acc, s, radix).Some? <==> forall i :: 0 <= i < |s| ==> DigitValue(s[i], radix).Some?
    decreases |s|
  {
    if s != [] && DigitValue(s[0], radix).Some? {
      DigitsFromAllDigits(acc * radix + DigitValue(s[0], radix).value, s[1..], radix);
      assert forall i :: 1 <= i < |s| ==> s[i] == s[1..][i - 1];
    }
  }

  /** A string reads as a decimal number exactly when all its chars are
      ASCII digits. */
  lemma DigitsAllDecimal(s: string)
    ensures Digits(s, 10).Some? <==> forall i :: 0 <= i < |s| ==> IsAsciiDigit(s[i])
  {
    DigitsFromAllDigits(0, s, 10);
  }

  lemma {:induction false} DigitsFromSnoc(acc: nat, s: string, c: char, radix: nat)
    requires radix == 10 || radix == 16
    ensures DigitsFrom(acc, s + [c], radix) ==
      match (DigitsFrom(acc, s, radix), DigitValue(c, radix))
      case (Some(v), Some(d)) => Some(v * radix + d)
      case _ => None
    decreases |s|
  {
    if s == [] {
      assert [c][1..] == [];
    } else {
      assert (s + [c])[1..] == s[1..] + [c];
      match DigitValue(s[0], radix)
      case Some(d) => DigitsFromSnoc(acc * radix + d, s[1..], c, radix);
      case None =>
    }
  }

  /** The ASCII digit for `d`. */
  function DecimalDigit(d: nat): (c: char)
    requires d < 10
    ensures IsAsciiDigit(c) && DigitValue(c, 10) == Some(d)
  {
    ('0' as int + d) as char
  }

  /** The decimal rendering of `n` (Rust's `to_string`, Python's `str`). */
  function DecimalString(n: nat): (r: string)
    ensures |r| >= 1
    ensures forall i :: 0 <= i < |r| ==> IsAsciiDigit(r[i])
    decreases n
  {
    if n < 10 then [DecimalDigit(n)] else DecimalString(n / 10) + [DecimalDigit(n % 10)]
  }

  /** Reading back a rendered number gives the number. */
  lemma {:induction false} DigitsDecimalString(n: nat)
    ensures Digits(DecimalString(n), 10) == Some(n)
    decreases n
  {
    if n < 10 {
      DigitsFromSnoc(0, [], DecimalDigit(n), 10);
      assert [] + [DecimalDigit(n)] == [DecimalDigit(n)];
    } else {
      DigitsDecimalString(n / 10);
      DigitsFromSnoc(0, DecimalString(n / 10), DecimalDigit(n % 10), 10);
    }
  }

  /** Rust's `from_str_radix` for an unsigned integer type whose largest
      value is `max`: an optional leading `+` (not `-`), then at least one
      digit, and the value must fit. */
  function ParseUnsigned(s: string, radix: nat, max: nat): (r: Option<nat>)
    requires radix == 10 || radix == 16
    ensures r.Some? ==> r.value <= max
    ensures s == [] ==> r.None?
  {
    var digits := if s != [] && s[0] == '+' then s[1..] else s;
    if digits == [] then None
    else
      match Digits(digits, radix)
      case Some(v) => if v <= max then Some(v) else None
      case None => None
  }

  /** Rust's `from_str_radix` for a signed type with range `min..=max`: an
      optional `+` or `-`, then at least one digit, and the value must fit. */
  function ParseSigned(s: string, radix: nat, min: int, max: int): (r: Option<int>)
    requires radix == 10 || radix == 16
    ensures r.Some? ==> min <= r.value <= max
    ensures s == [] ==> r.None?
  {
    var negative := s != [] && s[0] == '-';
    var digits := if s != [] && (s[0] == '+' || s[0] == '-') then s[1..] else s;
    if digits == [] then None
    else
      match Digits(digits, radix)
      case Some(v) =>
        var x: int := if negative then -(v as int) else v as int;
        if min <= x <= max then Some(x) else None
      case None => None
  }

  const U8_MAX: nat := 0xFF
  const U16_MAX: nat := 0xFFFF
  const U32_MAX: nat := 0xFFFF_FFFF
  const I32_MIN: int := -0x8000_0000
  const I32_MAX: int := 0x7FFF_FFFF

  /** `str::parse::<u16>()`. */
  function ParseU16(s: string): (r: Option<nat>)
    ensures r.Some? ==> r.value <= U16_MAX
  {
    ParseUnsigned(s, 10, U16_MAX)
  }

  /** `str::parse::<u32>()`. */
  function ParseU32(s: string): (r: Option<nat>)
    ensures r.Some? ==> r.value <= U32_MAX
  {
    ParseUnsigned(s, 10, U32_MAX)
  }

  /** `str::parse::<i32>()`. */
  function ParseI32(s: string): (r: Option<int>)
    ensures r.Some? ==> I32_MIN <= r.value <= I32_MAX
  {
    ParseSigned(s, 10, I32_MIN, I32_MAX)
  }

  /** A rendered `i32` parses back. */
  lemma ParseI32Decimal(n: nat)
    requires n <= I32_MAX
    ensures ParseI32(DecimalString(n)) == Some(n)
  {
    DigitsDecimalString(n);
  }

  /** A rendered `u16` parses back. */
  lemma ParseU16Decimal(n: nat)
    requires n <= U16_MAX
    ensures ParseU16(DecimalString(n)) == Some(n)
  {
    DigitsDecimalString(n);
  }

  /** A rendered `u32` parses back. */
  lemma ParseU32Decimal(n: nat)
    requires n <= U32_MAX
    ensures ParseU32(DecimalString(n)) == Some(n)
  {
    DigitsDecimalString(n);
  }

  /** The decimal rendering of a signed number, with a `-` when negative. */
  function SignedString(n: int): (r: string)
    ensures r != []
    ensures forall i :: 0 <= i < |r| ==> IsAsciiDigit(r[i]) || (i == 0 && r[i] == '-')
  {
    if n < 0 then "-" + DecimalString(-n) else DecimalString(n)
  }

  /** A rendered `i32`, negative or not, parses back. */
  lemma ParseI32Signed(n: int)
    requires I32_MIN <= n <= I32_MAX
    ensures ParseI32(SignedString(n)) == Some(n)
  {
    if n < 0 {
      DigitsDecimalString(-n);
      assert ("-" + DecimalString(-n))[1..] == DecimalString(-n);
    } else {
      DigitsDecimalString(n);
    }
  }

  function Count<T(==)>(s: seq<T>, x: T): (n: nat)
    ensures n <= |s|
  {
    if s == [] then 0 else (if s[0] == x then 1 else 0) + Count(s[1..], x)
  }

  lemma {:induction false} CountAppend<T>(a: seq<T>, b: seq<T>, x: T)
    ensures Count(a + b, x) == Count(a, x) + Count(b, x)
    decreases |a|
  {
    if a == [] {
      assert a + b == b;
    } else {
      CountAppend(a[1..], b, x);
      assert (a + b)[1..] == a[1..] + b;
    }
  }

  // ---------------------------------------------------------------------
  // Sums

  function Sum(xs: seq<int>): int
  {
    if xs == [] then 0 else xs[0] + Sum(xs[1..])
  }

  lemma {:induction false} SumAppend(a: seq<int>, b: seq<int>)
    ensures Sum(a + b) == Sum(a) + Sum(b)
    decreases |a|
  {
    if a != [] {
      assert (a + b)[0] == a[0] && (a + b)[1..] == a[1..] + b;
      SumAppend(a[1..], b);
      assert Sum(a + b) == (a + b)[0] + Sum((a + b)[1..]);
    } else {
      assert a + b == b;
    }
  }

  lemma SumSnoc(a: seq<int>, x: int)
    ensures Sum(a + [x]) == Sum(a) + x
  {
    SumAppend(a, [x]);
    assert Sum([x]) == x + Sum([]);
  }

  /** Changing one term changes the sum by the difference. */
  lemma {:induction false} SumUpdate(a: seq<int>, i: nat, v: int)
    requires i < |a|
    ensures Sum(a[i := v]) == Sum(a) - a[i] + v
    decreases |a|
  {
    if i > 0 {
      SumUpdate(a[1..], i - 1, v);
      assert a[i := v][1..] == a[1..][i - 1 := v];
    }
  }

  /** The order of the terms does not matter for reversal. */
  lemma {:induction false} SumReverse(a: seq<int>)
    ensures Sum(Reverse(a)) == Sum(a)
    decreases |a|
  {
    if a != [] {
      SumReverse(a[1..]);
      SumAppend(Reverse(a[1..]), [a[0]]);
      assert Sum([a[0]]) == a[0] + Sum([]);
    }
  }

  // ---------------------------------------------------------------------
  // The order of strings: lexicographic by char, a prefix first. For
  // UTF-8 strings this is the byte order too.

  predicate StrLess(a: string, b: string)
  {
    b != [] && (a == [] || a[0] < b[0] || (a[0] == b[0] && StrLess(a[1..], b[1..])))
  }

  lemma {:induction false} StrLessIrreflexive(a: string)
    ensures !StrLess(a, a)
    decreases |a|
  {
    if a != [] {
      StrLessIrreflexive(a[1..]);
    }
  }

  lemma {:induction false} StrLessAsymmetric(a: string, b: string)
    ensures StrLess(a, b) ==> !StrLess(b, a)
    decreases |a|
  {
    if a != [] && b != [] {
      StrLessAsymmetric(a[1..], b[1..]);
    }
  }

  lemma {:induction false} StrLessTransitive(a: string, b: string, c: string)
    requires StrLess(a, b) && StrLess(b, c)
    ensures StrLess(a, c)
    decreases |a|
  {
    if a != [] && a[0] == b[0] && b[0] == c[0] {
      StrLessTransitive(a[1..], b[1..], c[1..]);
    }
  }

  /** Two different strings are ordered one way or the other. */
  lemma {:induction false} StrLessTotal(a: string, b: string)
    requires a != b
    ensures StrLess(a, b) || StrLess(b, a)
    decreases |a|
  {
    if a != [] && b != [] && a[0] == b[0] {
      assert a == [a[0]] + a[1..] && b == [b[0]] + b[1..];
      StrLessTotal(a[1..], b[1..]);
    }
  }
}
