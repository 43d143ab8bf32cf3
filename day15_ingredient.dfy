// Day 15: an ingredient line, `<name>: capacity <n>, durability <n>,
// flavor <n>, texture <n>, calories <n>`, read with the shared tokenizer.

module Day15Ingredient {
  import opened Text
  import opened Parsing

  /** A cookie ingredient and its five properties per teaspoon. */
  datatype Ingredient = Ingredient(
    name: string, capacity: int, durability: int, flavor: int, texture: int, calories: int)

  /** What `parse_line` does with a line: an ingredient, `None`, or a panic
      in one of the `unwrap`s of a number. */
  datatype Parsed = Parsed(ingredient: Ingredient) | Rejected | Panicked

  /** The property names the tokenizer checks and drops. */
  const CapacityKey := "capacity"
  const DurabilityKey := "durability"
  const FlavorKey := "flavor"
  const TextureKey := "texture"
  const CaloriesKey := "calories"

  const Fixed: map<nat, string> :=
    map[1 := CapacityKey, 3 := DurabilityKey, 5 := FlavorKey, 7 := TextureKey, 9 := CaloriesKey]

  /** At least 11 tokens and fewer than 12, the names at the odd places. */
  const LineOptions: Options :=
    WithFixedTokens(WithRequireFewerThan(WithRequireAtLeast(Default, Some(11)), Some(12)), Fixed)

  /** `String::pop`: the last char goes, if there is one. */
  function Pop(s: string): (r: string)
    ensures s != [] ==> r + [s[|s| - 1]] == s
    ensures s == [] ==> r == []
  {
    if s == [] then [] else s[..|s| - 1]
  }

  /** `Ingredient::parse_line`: a trimmed blank line, or one the tokenizer
      refuses, gives `None`; otherwise the kept tokens are the name with its
      colon, four scores with their commas, and the calories. */
  function ParseLine(line: string): (r: Parsed)
    ensures Trim(line) == [] ==> r == Rejected
    ensures !r.Rejected? ==> Parse(Trim(line), LineOptions).Ok?
    ensures r.Parsed? ==> var i := r.ingredient;
      I32_MIN <= i.capacity <= I32_MAX && I32_MIN <= i.durability <= I32_MAX && I32_MIN <= i.flavor <= I32_MAX &&
      I32_MIN <= i.texture <= I32_MAX && I32_MIN <= i.calories <= I32_MAX
  {
    var line := Trim(line);
    if line == [] then Rejected
    else
      match Parse(line, LineOptions)
      case Err(_) => Rejected
      case Ok(res) =>
        var t := res.tokens;
        if |t| < 6 then Panicked
        else
          match (ParseI32(Pop(t[1])), ParseI32(Pop(t[2])), ParseI32(Pop(t[3])), ParseI32(Pop(t[4])), ParseI32(t[5]))
          case (Some(c), Some(d), Some(f), Some(x), Some(k)) => Parsed(Ingredient(Pop(t[0]), c, d, f, x, k))
          case _ => Panicked
  }

  /** The tokens of a line, as the tokenizer splits them. */
  function Words(line: string): seq<string>
  {
    Tokens(Trim(line), LineOptions)
  }

  /** Eleven tokens with the five property names where the tokenizer
      expects them. */
  predicate Shaped(w: seq<string>)
  {
    |w| == 11 && w[1] == CapacityKey && w[3] == DurabilityKey && w[5] == FlavorKey
    && w[7] == TextureKey && w[9] == CaloriesKey
  }

  /** The five numbers of a shaped line all read as `i32`s. */
  predicate Numeric(w: seq<string>)
    requires |w| == 11
  {
    ParseI32(Pop(w[2])).Some? && ParseI32(Pop(w[4])).Some? && ParseI32(Pop(w[6])).Some?
    && ParseI32(Pop(w[8])).Some? && ParseI32(w[10]).Some?
  }

  lemma KeptEleven(toks: seq<string>)
    requires |toks| == 11
    ensures Kept(toks, Fixed, 11) == [toks[0], toks[2], toks[4], toks[6], toks[8], toks[10]]
  {
    assert Kept(toks, Fixed, 1) == [toks[0]];
    assert Kept(toks, Fixed, 3) == [toks[0], toks[2]];
    assert Kept(toks, Fixed, 5) == [toks[0], toks[2], toks[4]];
    assert Kept(toks, Fixed, 7) == [toks[0], toks[2], toks[4], toks[6]];
    assert Kept(toks, Fixed, 9) == [toks[0], toks[2], toks[4], toks[6], toks[8]];
  }

  lemma MismatchEleven(toks: seq<string>)
    requires |toks| == 11
    ensures Mismatch(toks, Fixed, 11) <==> !Shaped(toks)
  {
    if !Shaped(toks) {
      var i :| i in {1, 3, 5, 7, 9} && toks[i] != Fixed[i];
      assert i in Fixed;
    }
  }

  lemma LineOptionsFields()
    ensures LineOptions == Options(Right, " ", Fixed, None, true, Some(11), Some(12))
  {
  }

  /** The tokenizer accepts a non-blank line exactly when it is shaped, and
      then keeps the name and the five numbers. */
  lemma ParseOfLine(line: string)
    requires Trim(line) != []
    ensures Parse(Trim(line), LineOptions).Ok? <==> Shaped(Words(line))
    ensures Shaped(Words(line)) ==> var w := Words(line);
      Parse(Trim(line), LineOptions).value.tokens == [w[0], w[2], w[4], w[6], w[8], w[10]]
  {
    var w := Words(line);
    LineOptionsFields();
    if |w| == 11 {
      MismatchEleven(w);
      KeptEleven(w);
    }
  }

  /** `None` exactly for a blank line and for one whose tokens are not
      eleven with the property names in place. */
  lemma RejectedExactly(line: string)
    ensures ParseLine(line).Rejected? <==> Trim(line) == [] || !Shaped(Words(line))
  {
    if Trim(line) != [] {
      ParseOfLine(line);
    }
  }

  /** A shaped line gives an ingredient exactly when its five numbers read,
      and panics otherwise; the name loses its colon and the four scores
      their commas. */
  lemma ParsedExactly(line: string)
    requires Trim(line) != [] && Shaped(Words(line))
    ensures ParseLine(line).Parsed? <==> Numeric(Words(line))
    ensures ParseLine(line).Panicked? <==> !Numeric(Words(line))
    ensures ParseLine(line).Parsed? ==> var w := Words(line);
      ParseLine(line).ingredient == Ingredient(Pop(w[0]), ParseI32(Pop(w[2])).value,
        ParseI32(Pop(w[4])).value, ParseI32(Pop(w[6])).value, ParseI32(Pop(w[8])).value,
        ParseI32(w[10]).value)
  {
    ParseOfLine(line);
  }

  /** The tokens of the line an ingredient is written as. */
  function LineWords(i: Ingredient): seq<string>
  {
    [i.name + ":", CapacityKey, SignedString(i.capacity) + ",", DurabilityKey,
     SignedString(i.durability) + ",", FlavorKey, SignedString(i.flavor) + ",",
     TextureKey, SignedString(i.texture) + ",", CaloriesKey, SignedString(i.calories)]
  }

  /** The line an ingredient is written as. */
  function Format(i: Ingredient): string
  {
    Join(LineWords(i), " ")
  }

  /** A name the tokenizer leaves alone: no whitespace and no capitals. */
  predicate PlainName(name: string)
  {
    NoSpace(name) && NoUpper(name)
  }

  predicate Fits(i: Ingredient)
  {
    I32_MIN <= i.capacity <= I32_MAX && I32_MIN <= i.durability <= I32_MAX
    && I32_MIN <= i.flavor <= I32_MAX && I32_MIN <= i.texture <= I32_MAX
    && I32_MIN <= i.calories <= I32_MAX
  }

  /** Words without whitespace or capitals, joined by spaces, are the
      tokens of the line they make. */
  lemma WordsOfJoin(w: seq<string>)
    requires |w| >= 1
    requires forall k :: 0 <= k < |w| ==> Plain(w[k])
    ensures Trim(Join(w, " ")) == Join(w, " ") != []
    ensures Words(Join(w, " ")) == w
  {
    var s := Join(w, " ");
    JoinNormal(w);
    SplitJoinChar(w, ' ');
    JoinEnds(w, " ");
    var last := w[|w| - 1];
    assert !IsWhitespace(last[|last| - 1]);
    TrimUnchanged(s);
  }

  predicate Plain(s: string)
  {
    s != [] && NoSpace(s) && NoUpper(s)
  }

  lemma PlainAppend(a: string, b: string)
    requires NoSpace(a) && NoUpper(a) && Plain(b)
    ensures Plain(a + b)
  {
    assert forall k :: 0 <= k < |a| + |b| ==> (a + b)[k] == if k < |a| then a[k] else b[k - |a|];
  }

  lemma SignedPlain(n: int)
    ensures Plain(SignedString(n)) && Plain(SignedString(n) + ",")
  {
    PlainAppend(SignedString(n), ",");
  }

  lemma LineWordsPlain(i: Ingredient)
    requires PlainName(i.name)
    ensures var w := LineWords(i); forall k :: 0 <= k < |w| ==> Plain(w[k])
  {
    var w := LineWords(i);
    PlainAppend(i.name, ":");
    SignedPlain(i.capacity);
    SignedPlain(i.durability);
    SignedPlain(i.flavor);
    SignedPlain(i.texture);
    SignedPlain(i.calories);
    NamesPlain();
  }

  lemma NamesPlain()
    ensures Plain(CapacityKey) && Plain(DurabilityKey) && Plain(FlavorKey) && Plain(TextureKey) && Plain(CaloriesKey)
  {
  }

  /** Plain words joined by spaces read as the ingredient their tokens
      spell, when they are shaped and their numbers read. */
  lemma ParseJoined(w: seq<string>)
    requires forall k :: 0 <= k < |w| ==> Plain(w[k])
    requires Shaped(w) && Numeric(w)
    ensures ParseLine(Join(w, " ")) == Parsed(Ingredient(Pop(w[0]), ParseI32(Pop(w[2])).value,
      ParseI32(Pop(w[4])).value, ParseI32(Pop(w[6])).value, ParseI32(Pop(w[8])).value,
      ParseI32(w[10]).value))
  {
    WordsOfJoin(w);
    ParsedExactly(Join(w, " "));
  }

  lemma PopLast(s: string, c: char)
    ensures Pop(s + [c]) == s
  {
    assert (s + [c])[..|s|] == s;
  }

  /** A written-out ingredient reads back as itself. */
  lemma ParseFormat(i: Ingredient)
    requires PlainName(i.name) && Fits(i)
    ensures ParseLine(Format(i)) == Parsed(i)
  {
    LineWordsPlain(i);
    var w := LineWords(i);
    LineWordsShaped(i);
    ScoreWord(w, 2, i.capacity);
    ScoreWord(w, 4, i.durability);
    ScoreWord(w, 6, i.flavor);
    ScoreWord(w, 8, i.texture);
    ParseI32Signed(i.calories);
    ParseJoined(w);
  }

  lemma LineWordsShaped(i: Ingredient)
    ensures Shaped(LineWords(i)) && Pop(LineWords(i)[0]) == i.name
  {
    PopLast(i.name, ':');
  }

  /** A word holding a score and its comma reads back as the score. */
  lemma ScoreWord(w: seq<string>, k: nat, n: int)
    requires k < |w| && w[k] == SignedString(n) + "," && I32_MIN <= n <= I32_MAX
    ensures ParseI32(Pop(w[k])) == Some(n)
  {
    ScoreRead(n);
  }

  /** A score written with its comma reads back once the comma is popped. */
  lemma ScoreRead(n: int)
    requires I32_MIN <= n <= I32_MAX
    ensures ParseI32(Pop(SignedString(n) + ",")) == Some(n)
  {
    PopLast(SignedString(n), ',');
    ParseI32Signed(n);
  }

  /** A blank line is not an ingredient. */
  lemma BlankRejected(line: string)
    requires forall k :: 0 <= k < |line| ==> IsWhitespace(line[k])
    ensures ParseLine(line) == Rejected
  {
  }

  /** A line missing its calories has ten tokens and is refused. */
  lemma TenTokensRejected(i: Ingredient)
    requires PlainName(i.name)
    ensures ParseLine(Join(LineWords(i)[..10], " ")) == Rejected
  {
    LineWordsPlain(i);
    WordsOfJoin(LineWords(i)[..10]);
    RejectedExactly(Join(LineWords(i)[..10], " "));
  }

  /** Plain, shaped words with a number that does not read panic. */
  lemma PanicJoined(w: seq<string>)
    requires forall k :: 0 <= k < |w| ==> Plain(w[k])
    requires Shaped(w) && !Numeric(w)
    ensures ParseLine(Join(w, " ")) == Panicked
  {
    WordsOfJoin(w);
    ParsedExactly(Join(w, " "));
  }

  lemma CapacityOverflows(i: Ingredient)
    requires i.capacity == I32_MAX + 1
    ensures ParseI32(Pop(LineWords(i)[2])) == None
  {
    PopLast(SignedString(i.capacity), ',');
    DigitsDecimalString(i.capacity);
  }

  /** A number the tokenizer lets through but `i32` cannot hold panics. */
  lemma OverflowPanics(i: Ingredient)
    requires PlainName(i.name) && i.capacity == I32_MAX + 1
    ensures ParseLine(Format(i)) == Panicked
  {
    LineWordsPlain(i);
    LineWordsShaped(i);
    CapacityOverflows(i);
    PanicJoined(LineWords(i));
  }
}
