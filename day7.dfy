// Day 7 parsers: a line `<instruction> -> <wire>` of the gate booklet read
// into a wire name and an instruction over names and 16-bit numbers. The
// first generation (day7) and the parser files of the second (day07) do
// the same token checks.

module Day7 {
  import opened Text
  import opened Parsing

  /** A wire name: lower-case ASCII letters. */
  datatype Name = Name(val: string)

  /** `Name::new` (`Name::parse`): the input as a name, if it is all
      letters. */
  function NewName(v: string): (r: Option<Name>)
    ensures r.Some? <==> JustLetters(v)
    ensures r.Some? ==> r.value.val == v
  {
    if JustLetters(v) then Some(Name(v)) else None
  }

  datatype Evaluable = Num(n: nat) | Named(name: Name)

  /** `parse_evaluable`: letters make a name (the empty string included),
      digits a `u16`, anything else nothing. */
  function ParseEvaluable(ev: string): (r: Option<Evaluable>)
    ensures r.Some? <==> JustLetters(ev) || (JustNumbers(ev) && ParseU16(ev).Some?)
    ensures r.Some? && r.value.Named? ==> r.value.name.val == ev
    ensures r.Some? && r.value.Num? ==> !JustLetters(ev) && Some(r.value.n) == ParseU16(ev)
  {
    if JustLetters(ev) then
      match NewName(ev)
      case Some(n) => Some(Named(n))
      case None => None
    else if JustNumbers(ev) then
      match ParseU16(ev)
      case Some(v) => Some(Num(v))
      case None => None
    else None
  }

  /** `Evaluable::get`: a number is itself; a name must be in the table. */
  function Get(e: Evaluable, lookup: map<Name, nat>): (r: nat)
    requires e.Named? ==> e.name in lookup
    ensures e.Num? ==> r == e.n
    ensures e.Named? ==> r == lookup[e.name]
  {
    match e
    case Num(v) => v
    case Named(n) => lookup[n]
  }

  datatype Instruction =
    | Store(x: Evaluable)
    | Not(x: Evaluable)
    | And(x: Evaluable, y: Evaluable)
    | Or(x: Evaluable, y: Evaluable)
    | Lshift(x: Evaluable, y: Evaluable)
    | Rshift(x: Evaluable, y: Evaluable)

  datatype InstructionType = Nonary | Unary | Binary

  /** `Instruction::get_type`: how many operands the gate takes. */
  function GetType(i: Instruction): (t: InstructionType)
    ensures t == Nonary <==> i.Store?
    ensures t == Unary <==> i.Not?
    ensures t == Binary <==> !i.Store? && !i.Not?
  {
    match i
    case Store(_) => Nonary
    case Not(_) => Unary
    case _ => Binary
  }

  /** Tokens an instruction of each type spans. */
  function TokenCount(t: InstructionType): nat
  {
    match t
    case Nonary => 1
    case Unary => 2
    case Binary => 3
  }

  predicate IsOperator(s: string)
  {
    s == "and" || s == "or" || s == "lshift" || s == "rshift"
  }

  function ParseNonary(x: string): Option<Instruction>
  {
    match ParseEvaluable(x)
    case Some(e) => Some(Store(e))
    case None => None
  }

  function ParseUnary(inst: string, v: string): Option<Instruction>
  {
    if inst != "not" then None
    else
      match ParseEvaluable(v)
      case Some(e) => Some(Not(e))
      case None => None
  }

  function ParseBinary(x: string, inst: string, y: string): Option<Instruction>
  {
    match ParseEvaluable(x)
    case None => None
    case Some(a) =>
      match ParseEvaluable(y)
      case None => None
      case Some(b) =>
        if inst == "and" then Some(And(a, b))
        else if inst == "or" then Some(Or(a, b))
        else if inst == "lshift" then Some(Lshift(a, b))
        else if inst == "rshift" then Some(Rshift(a, b))
        else None
  }

  /** `Instruction::parse` (`parse_instruction`): one token is a stored
      value, two a `not`, three a binary gate; any other count is refused. */
  function ParseInstruction(inst: seq<string>): (r: Option<Instruction>)
    ensures r.Some? <==>
      (|inst| == 1 && ParseEvaluable(inst[0]).Some?)
      || (|inst| == 2 && inst[0] == "not" && ParseEvaluable(inst[1]).Some?)
      || (|inst| == 3 && IsOperator(inst[1])
          && ParseEvaluable(inst[0]).Some? && ParseEvaluable(inst[2]).Some?)
    ensures r.Some? ==> |inst| == TokenCount(GetType(r.value))
  {
    if |inst| == 1 then ParseNonary(inst[0])
    else if |inst| == 2 then ParseUnary(inst[0], inst[1])
    else if |inst| == 3 then ParseBinary(inst[0], inst[1], inst[2])
    else None
  }

  // ---------------------------------------------------------------------
  // Lines

  /** A parsed line of the second generation: the destination and its
      instruction. */
  datatype Connection = Connection(name: Name, instruction: Instruction)

  /** The space-separated tokens of a trimmed, lower-cased line. Reading
      them from the right with `rsplit(' ')` meets the same pieces. */
  function LineTokens(input: string): seq<string>
  {
    Split(Lower(Trim(input)), " ")
  }

  /** The checks of `Wire::parse` of the second generation on the tokens:
      the last token is the destination name, the one before it must be
      `->`, and the tokens before that, in their order, are the
      instruction. */
  function ConnectionOf(toks: seq<string>): (r: Option<Connection>)
    requires |toks| >= 1
    ensures r.Some? <==>
      |toks| >= 2 && JustLetters(toks[|toks| - 1]) && toks[|toks| - 2] == "->"
      && ParseInstruction(toks[..|toks| - 2]).Some?
    ensures r.Some? ==>
      r.value.name.val == toks[|toks| - 1]
      && Some(r.value.instruction) == ParseInstruction(toks[..|toks| - 2])
  {
    match NewName(toks[|toks| - 1])
    case None => None
    case Some(name) =>
      if |toks| < 2 || toks[|toks| - 2] != "->" then None
      else
        match ParseInstruction(toks[..|toks| - 2])
        case None => None
        case Some(i) => Some(Connection(name, i))
  }

  /** `Wire::parse` of the second generation: a blank line is nothing. */
  function ParseConnection(input: string): (r: Option<Connection>)
    ensures Lower(Trim(input)) == [] ==> r.None?
  {
    var s := Lower(Trim(input));
    if s == [] then None else ConnectionOf(Split(s, " "))
  }

  /** A wire of the first generation also holds its signal, once known. */
  datatype Wire = Wire(name: Name, value: Option<nat>, instruction: Instruction)

  /** `Wire::parse` of the first generation: the same checks, and the
      signal starts unknown. */
  function ParseWire(input: string): (r: Option<Wire>)
    ensures r.Some? <==> ParseConnection(input).Some?
    ensures r.Some? ==>
      r.value.value.None?
      && r.value.name == ParseConnection(input).value.name
      && r.value.instruction == ParseConnection(input).value.instruction
  {
    match ParseConnection(input)
    case None => None
    case Some(c) => Some(Wire(c.name, None, c.instruction))
  }

  // ---------------------------------------------------------------------
  // Writing a line, and reading it back

  /** Operands a line can spell: non-empty names, and numbers up to 65535. */
  predicate ValidEvaluable(e: Evaluable)
  {
    match e
    case Num(n) => n <= U16_MAX
    case Named(name) => name.val != [] && JustLetters(name.val)
  }

  predicate ValidInstruction(i: Instruction)
  {
    ValidEvaluable(i.x) && (!i.Store? && !i.Not? ==> ValidEvaluable(i.y))
  }

  function EvaluableText(e: Evaluable): string
    requires ValidEvaluable(e)
  {
    match e
    case Num(n) => DecimalString(n)
    case Named(name) => name.val
  }

  function OperatorText(i: Instruction): string
    requires !i.Store? && !i.Not?
  {
    match i
    case And(_, _) => "and"
    case Or(_, _) => "or"
    case Lshift(_, _) => "lshift"
    case Rshift(_, _) => "rshift"
  }

  function InstructionTokens(i: Instruction): seq<string>
    requires ValidInstruction(i)
  {
    match i
    case Store(x) => [EvaluableText(x)]
    case Not(x) => ["not", EvaluableText(x)]
    case _ => [EvaluableText(i.x), OperatorText(i), EvaluableText(i.y)]
  }

  /** The line `<instruction> -> <name>`. */
  function ConnectionText(c: Connection): string
    requires ValidInstruction(c.instruction) && c.name.val != [] && JustLetters(c.name.val)
  {
    Join(InstructionTokens(c.instruction) + ["->", c.name.val], " ")
  }

  /** An operand reads back from its text. */
  lemma ParseEvaluableText(e: Evaluable)
    requires ValidEvaluable(e)
    ensures ParseEvaluable(EvaluableText(e)) == Some(e)
  {
    if e.Num? {
      var s := DecimalString(e.n);
      assert !JustLetters(s) by {
        assert IsAsciiDigit(s[0]);
      }
      ParseU16Decimal(e.n);
    }
  }

  /** An instruction reads back from its tokens. */
  lemma ParseInstructionTokens(i: Instruction)
    requires ValidInstruction(i)
    ensures ParseInstruction(InstructionTokens(i)) == Some(i)
  {
    ParseEvaluableText(i.x);
    if !i.Store? && !i.Not? {
      ParseEvaluableText(i.y);
    }
  }

  /** The tokens of a line are non-empty, without spaces or capitals. */
  lemma EvaluableTextChars(e: Evaluable)
    requires ValidEvaluable(e)
    ensures var t := EvaluableText(e); t != [] && NoSpace(t) && NoUpper(t)
  {
  }

  lemma ConnectionWords(c: Connection)
    requires ValidInstruction(c.instruction) && c.name.val != [] && JustLetters(c.name.val)
    ensures var w := InstructionTokens(c.instruction) + ["->", c.name.val];
      |w| >= 3 && forall k :: 0 <= k < |w| ==> w[k] != [] && NoSpace(w[k]) && NoUpper(w[k])
  {
    EvaluableTextChars(c.instruction.x);
    if !c.instruction.Store? && !c.instruction.Not? {
      EvaluableTextChars(c.instruction.y);
    }
  }

  /** A line written out from a connection parses back to it. */
  lemma ParseConnectionText(c: Connection)
    requires ValidInstruction(c.instruction) && c.name.val != [] && JustLetters(c.name.val)
    ensures ParseConnection(ConnectionText(c)) == Some(c)
  {
    var w := InstructionTokens(c.instruction) + ["->", c.name.val];
    var s := ConnectionText(c);
    ConnectionWords(c);
    JoinNormal(w);
    SplitJoinChar(w, ' ');
    assert LineTokens(s) == w;
    assert w[..|w| - 2] == InstructionTokens(c.instruction);
    ParseInstructionTokens(c.instruction);
    assert w[|w| - 1] == c.name.val && w[|w| - 2] == "->";
    assert Lower(Trim(s)) != [];
    assert ParseConnection(s) == ConnectionOf(w);
    var r := ConnectionOf(w);
    assert r.Some? && r.value.name.val == c.name.val && r.value.instruction == c.instruction;
  }

  /** So does a first-generation wire, with its signal unknown. */
  lemma ParseWireText(c: Connection)
    requires ValidInstruction(c.instruction) && c.name.val != [] && JustLetters(c.name.val)
    ensures ParseWire(ConnectionText(c)) == Some(Wire(c.name, None, c.instruction))
  {
    ParseConnectionText(c);
  }
}
