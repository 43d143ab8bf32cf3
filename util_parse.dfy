// The shared tokenizer of the `util` crate: a line is trimmed, optionally
// lower-cased, split on a separator and checked against a set of options
// (direction, token-count bounds, fixed tokens, a cut-off after which the
// remaining tokens are handed back unparsed).

module Parsing {
  import opened Text

  // ---------------------------------------------------------------------
  // Char classes

  predicate JustLetters(s: string)
  {
    forall i :: 0 <= i < |s| ==> IsAsciiLowerLetter(s[i])
  }

  predicate JustNumbers(s: string)
  {
    forall i :: 0 <= i < |s| ==> IsAsciiDigit(s[i])
  }

  /** `is_just_letters`: every char is one of `a`..`z`; true for "". */
  method IsJustLetters(s: string) returns (b: bool)
    ensures b <==> JustLetters(s)
  {
    for i := 0 to |s|
      invariant forall j :: 0 <= j < i ==> IsAsciiLowerLetter(s[j])
    {
      if !('a' <= s[i] <= 'z') {
        return false;
      }
    }
    return true;
  }

  /** `is_just_numbers`: every char is one of `0`..`9`; true for "". */
  method IsJustNumbers(s: string) returns (b: bool)
    ensures b <==> JustNumbers(s)
  {
    for i := 0 to |s|
      invariant forall j :: 0 <= j < i ==> IsAsciiDigit(s[j])
    {
      if !('0' <= s[i] <= '9') {
        return false;
      }
    }
    return true;
  }

  /** No string but the empty one is both. */
  lemma LettersAndNumbers(s: string)
    ensures JustLetters(s) && JustNumbers(s) <==> s == []
  {
    if s != [] {
      assert !(IsAsciiLowerLetter(s[0]) && IsAsciiDigit(s[0]));
    }
  }

  // ---------------------------------------------------------------------
  // Options

  datatype Direction = Left | Right

  datatype Options = Options(
    direction: Direction,
    tokenizerSplit: string,
    fixedTokens: map<nat, string>,
    consumeOnly: Option<nat>,
    forceLowercase: bool,
    requireAtLeast: Option<nat>,
    requireFewerThan: Option<nat>)

  /** `ParseOptions::default`. */
  const Default := Options(Right, " ", map[], None, true, None, None)

  function WithDirection(o: Options, pd: Direction): (r: Options)
    ensures r.direction == pd
  {
    o.(direction := pd)
  }

  function WithTokenizerSplit(o: Options, ts: string): (r: Options)
    ensures r.tokenizerSplit == ts
  {
    o.(tokenizerSplit := ts)
  }

  function WithFixedTokens(o: Options, ft: map<nat, string>): (r: Options)
    ensures r.fixedTokens == ft
  {
    o.(fixedTokens := ft)
  }

  function WithConsumeOnly(o: Options, n: Option<nat>): (r: Options)
    ensures r.consumeOnly == n
  {
    o.(consumeOnly := n)
  }

  function WithRequireAtLeast(o: Options, n: Option<nat>): (r: Options)
    ensures r.requireAtLeast == n
  {
    o.(requireAtLeast := n)
  }

  function WithRequireFewerThan(o: Options, n: Option<nat>): (r: Options)
    ensures r.requireFewerThan == n
  {
    o.(requireFewerThan := n)
  }

  /** Each builder changes its own field and no other: builders of
      different fields commute, and of one field the last one wins. */
  lemma BuildersIndependent(o: Options, pd: Direction, ts: string, ft: map<nat, string>,
                            c: Option<nat>, lo: Option<nat>, hi: Option<nat>)
    ensures WithDirection(WithTokenizerSplit(o, ts), pd) == WithTokenizerSplit(WithDirection(o, pd), ts)
    ensures WithFixedTokens(WithConsumeOnly(o, c), ft) == WithConsumeOnly(WithFixedTokens(o, ft), c)
    ensures WithRequireAtLeast(WithRequireFewerThan(o, hi), lo)
         == WithRequireFewerThan(WithRequireAtLeast(o, lo), hi)
    ensures WithConsumeOnly(WithConsumeOnly(o, lo), c) == WithConsumeOnly(o, c)
    ensures WithDirection(WithDirection(o, Left), pd) == WithDirection(o, pd)
    ensures var d := WithRequireAtLeast(WithDirection(o, pd), lo);
      d.tokenizerSplit == o.tokenizerSplit && d.fixedTokens == o.fixedTokens
      && d.consumeOnly == o.consumeOnly && d.forceLowercase == o.forceLowercase
      && d.requireFewerThan == o.requireFewerThan
  {
  }

  // ---------------------------------------------------------------------
  // Parsing

  datatype ParseResult = ParseResult(tokens: seq<string>, rest: Option<seq<string>>)

  datatype ParseError = InputIsEmpty | TooFewTokens | TooManyTokens | TokenMismatchOnFixedKey

  datatype Result<T, E> = Ok(value: T) | Err(error: E)

  /** `str::split` with a string pattern; the empty pattern matches between
      every two chars and at both ends. */
  function SplitOn(s: string, sep: string): (r: seq<string>)
    ensures |r| >= 1
  {
    if sep == [] then [[]] + seq(|s|, i requires 0 <= i < |s| => [s[i]]) + [[]]
    else Split(s, sep)
  }

  /** The tokens of a non-blank input, in the order the options read them. */
  function Tokens(input: string, o: Options): seq<string>
  {
    var t := Trim(input);
    var s := if o.forceLowercase then Lower(t) else t;
    var toks := SplitOn(s, o.tokenizerSplit);
    if o.direction.Left? then Reverse(toks) else toks
  }

  /** How many tokens are read before the rest is handed back. */
  function Limit(toks: seq<string>, o: Options): (m: nat)
    ensures m <= |toks|
  {
    if o.consumeOnly.Some? && o.consumeOnly.value + 1 < |toks| then o.consumeOnly.value + 1
    else |toks|
  }

  /** Some fixed position before `m` holds a different token. */
  predicate Mismatch(toks: seq<string>, fixed: map<nat, string>, m: nat)
    requires m <= |toks|
  {
    exists i :: 0 <= i < m && i in fixed && toks[i] != fixed[i]
  }

  /** The tokens before `m` that are not at a fixed position. */
  function Kept(toks: seq<string>, fixed: map<nat, string>, m: nat): (r: seq<string>)
    requires m <= |toks|
    ensures |r| <= m
  {
    if m == 0 then [] else Kept(toks, fixed, m - 1) + (if m - 1 in fixed then [] else [toks[m - 1]])
  }

  /** What `parse_with_options` answers. */
  function Parse(input: string, o: Options): Result<ParseResult, ParseError>
  {
    if Trim(input) == [] then Err(InputIsEmpty)
    else
      var toks := Tokens(input, o);
      if o.requireAtLeast.Some? && |toks| < o.requireAtLeast.value then Err(TooFewTokens)
      else if o.requireFewerThan.Some? && |toks| >= o.requireFewerThan.value then Err(TooManyTokens)
      else Read(toks, o)
  }

  /** The pass over the tokens, once their count is accepted. */
  function Read(toks: seq<string>, o: Options): Result<ParseResult, ParseError>
  {
    ReadUpTo(toks, o.fixedTokens, Limit(toks, o))
  }

  /** Reading the first `m` tokens and handing back the rest. */
  function ReadUpTo(toks: seq<string>, fixed: map<nat, string>, m: nat): Result<ParseResult, ParseError>
    requires m <= |toks|
  {
    if Mismatch(toks, fixed, m) then Err(TokenMismatchOnFixedKey)
    else Ok(ParseResult(Kept(toks, fixed, m), if m < |toks| then Some(toks[m..]) else None))
  }

  /** `Parser::parse_with_options`: one pass over the tokens that stops at
      the first mismatching fixed token or once `consume_only` tokens have
      been read. */
  method ParseWithOptions(input: string, o: Options) returns (r: Result<ParseResult, ParseError>)
    ensures r == Parse(input, o)
  {
    var t := Trim(input);
    if t == [] {
      return Err(InputIsEmpty);
    }
    var s := if o.forceLowercase then Lower(t) else t;
    var toks := SplitOn(s, o.tokenizerSplit);
    if o.direction.Left? {
      toks := Reverse(toks);
    }
    assert toks == Tokens(input, o);
    if o.requireAtLeast.Some? && |toks| < o.requireAtLeast.value {
      return Err(TooFewTokens);
    }
    if o.requireFewerThan.Some? && |toks| >= o.requireFewerThan.value {
      return Err(TooManyTokens);
    }
    r := ReadTokens(toks, o);
  }

  /** The loop of `parse_with_options` over the tokens. */
  method ReadTokens(toks: seq<string>, o: Options) returns (r: Result<ParseResult, ParseError>)
    ensures r == Read(toks, o)
  {
    var kept: seq<string> := [];
    for i := 0 to |toks|
      invariant i <= Limit(toks, o)
      invariant kept == Kept(toks, o.fixedTokens, i)
      invariant !Mismatch(toks, o.fixedTokens, i)
    {
      if o.consumeOnly.Some? && i > o.consumeOnly.value {
        return Ok(ParseResult(kept, Some(toks[i..])));
      }
      MismatchStep(toks, o.fixedTokens, i);
      if i in o.fixedTokens {
        if toks[i] == o.fixedTokens[i] {
          continue;
        } else {
          return Err(TokenMismatchOnFixedKey);
        }
      }
      kept := kept + [toks[i]];
    }
    return Ok(ParseResult(kept, None));
  }

  lemma MismatchStep(toks: seq<string>, fixed: map<nat, string>, i: nat)
    requires i < |toks|
    ensures Mismatch(toks, fixed, i + 1) <==>
      Mismatch(toks, fixed, i) || (i in fixed && toks[i] != fixed[i])
  {
  }

  /** With no fixed tokens every token before the limit is kept. */
  lemma {:induction false} KeptAll(toks: seq<string>, m: nat)
    requires m <= |toks|
    ensures Kept(toks, map[], m) == toks[..m]
  {
    if m > 0 {
      KeptAll(toks, m - 1);
      assert toks[..m] == toks[..m - 1] + [toks[m - 1]];
    }
  }

  /** `consume_only(n)` keeps the first n + 1 tokens, not n, since the cut
      test is `i > n`: the rest starts at token n + 1. */
  lemma ConsumeOnlyKeepsOneMore(input: string, o: Options, n: nat)
    requires Trim(input) != [] && o.consumeOnly == Some(n) && o.fixedTokens == map[]
    requires o.requireAtLeast.None? && o.requireFewerThan.None?
    requires |Tokens(input, o)| > n + 1
    ensures Parse(input, o).Ok?
    ensures Parse(input, o).value.tokens == Tokens(input, o)[..n + 1]
    ensures Parse(input, o).value.rest == Some(Tokens(input, o)[n + 1..])
  {
    KeptAll(Tokens(input, o), n + 1);
  }

  /** The cut-off `consume_only(n)` describes: n tokens are read. */
  function IntendedLimit(toks: seq<string>, o: Options): (m: nat)
    ensures m <= |toks|
  {
    if o.consumeOnly.Some? && o.consumeOnly.value < |toks| then o.consumeOnly.value
    else |toks|
  }

  /** The pass over the tokens with the cut test `i >= n`. */
  function ReadIntended(toks: seq<string>, o: Options): Result<ParseResult, ParseError>
  {
    ReadUpTo(toks, o.fixedTokens, IntendedLimit(toks, o))
  }

  /** With the cut test `i >= n`, `consume_only(n)` keeps exactly the first
      n tokens and hands back the rest from token n on; with fewer tokens
      all are kept and nothing is handed back. */
  lemma ConsumeOnlyKeepsN(toks: seq<string>, o: Options, n: nat)
    requires o.consumeOnly == Some(n) && o.fixedTokens == map[]
    ensures n < |toks| ==> ReadIntended(toks, o) == Ok(ParseResult(toks[..n], Some(toks[n..])))
    ensures n >= |toks| ==> ReadIntended(toks, o) == Ok(ParseResult(toks, None))
  {
    var m := IntendedLimit(toks, o);
    KeptAll(toks, m);
    assert toks[..|toks|] == toks;
  }

  /** Fixed positions are exactly the dropped ones. */
  lemma {:induction false} KeptSkipsFixed(toks: seq<string>, fixed: map<nat, string>, m: nat)
    requires m <= |toks|
    ensures |Kept(toks, fixed, m)| == m - |set i | 0 <= i < m && i in fixed|
  {
    if m > 0 {
      KeptSkipsFixed(toks, fixed, m - 1);
      var before := set i | 0 <= i < m - 1 && i in fixed;
      var now := set i | 0 <= i < m && i in fixed;
      if m - 1 in fixed {
        assert now == before + {m - 1};
      } else {
        assert now == before;
      }
    }
  }

  /** A blank input is always refused first, whatever the options. */
  lemma BlankRefused(input: string, o: Options)
    requires forall i :: 0 <= i < |input| ==> IsWhitespace(input[i])
    ensures Parse(input, o) == Err(InputIsEmpty)
  {
  }

  /** Reading a line to the left reverses the order of its tokens. */
  lemma LeftReverses(input: string, o: Options)
    ensures Tokens(input, WithDirection(o, Left)) == Reverse(Tokens(input, WithDirection(o, Right)))
  {
  }

  /** A line already trimmed and lower-case is split as it stands. */
  lemma TokensAsWritten(input: string, o: Options)
    requires Trim(input) == input && Lower(input) == input
    requires o.direction == Right && |o.tokenizerSplit| > 0
    ensures Tokens(input, o) == Split(input, o.tokenizerSplit)
  {
  }

  /** A line whose tokens are all read, none at a fixed position wrong. */
  lemma ParseAll(input: string, o: Options, toks: seq<string>)
    requires Trim(input) != [] && Tokens(input, o) == toks
    requires o.requireAtLeast.None? && o.requireFewerThan.None?
    requires Limit(toks, o) == |toks| && !Mismatch(toks, o.fixedTokens, |toks|)
    ensures Parse(input, o) == Ok(ParseResult(Kept(toks, o.fixedTokens, |toks|), None))
  {
  }

  /** A fixed token that is present is dropped and the others kept in order:
      with `1 => "->"`, the words of `x -> y b` read as x, y, b. */
  lemma ArrowExample()
    ensures Parse("x -> y b", WithFixedTokens(Default, map[1 := "->"]))
         == Ok(ParseResult(["x", "y", "b"], None))
  {
    ArrowTokens();
    ArrowKept();
    ParseAll("x -> y b", WithFixedTokens(Default, map[1 := "->"]), ["x", "->", "y", "b"]);
  }

  lemma ArrowKept()
    ensures Limit(["x", "->", "y", "b"], WithFixedTokens(Default, map[1 := "->"])) == 4
    ensures !Mismatch(["x", "->", "y", "b"], map[1 := "->"], 4)
    ensures Kept(["x", "->", "y", "b"], map[1 := "->"], 4) == ["x", "y", "b"]
  {
    assert Kept(["x", "->", "y", "b"], map[1 := "->"], 2) == ["x"];
  }

  lemma ArrowText()
    ensures Join(["x", "->", "y", "b"], " ") == "x -> y b"
  {
    JoinCons("y", ["b"], " ");
    JoinCons("->", ["y", "b"], " ");
    JoinCons("x", ["->", "y", "b"], " ");
  }

  lemma ArrowPlain()
    ensures Trim("x -> y b") == "x -> y b" && Lower("x -> y b") == "x -> y b"
  {
    TrimUnchanged("x -> y b");
    LowerUnchanged("x -> y b");
  }

  lemma ArrowSplit()
    ensures Split("x -> y b", " ") == ["x", "->", "y", "b"]
  {
    ArrowText();
    SplitJoinChar(["x", "->", "y", "b"], ' ');
  }

  lemma ArrowTokens()
    ensures Trim("x -> y b") != []
    ensures Tokens("x -> y b", WithFixedTokens(Default, map[1 := "->"])) == ["x", "->", "y", "b"]
  {
    ArrowPlain();
    ArrowSplit();
    TokensAsWritten("x -> y b", WithFixedTokens(Default, map[1 := "->"]));
  }
}
