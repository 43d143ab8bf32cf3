// Day 6 (first generation): lights kept in a map from point to state,
// commands read from text lines and applied through an iterator over the
// points of a rectangle.

module Day6 {
  import opened Text
  import opened Day3

  function Max(a: int, b: int): int { if a >= b then a else b }

  // ---------------------------------------------------------------------
  // The points a `Through` iterator yields.

  /** The points `x..=x1` of row `y`, left to right. */
  function RowFrom(x: int, x1: int, y: int): (r: seq<Point>)
    ensures |r| == if x <= x1 then x1 - x + 1 else 0
    decreases x1 - x
  {
    if x > x1 then [] else [Point(x, y)] + RowFrom(x + 1, x1, y)
  }

  /** The rows `y..=y1`, each with the points `x0..=x1`, top to bottom. */
  function RowsFrom(x0: int, x1: int, y: int, y1: int): seq<Point>
    decreases y1 - y
  {
    if y > y1 then [] else RowFrom(x0, x1, y) + RowsFrom(x0, x1, y + 1, y1)
  }

  /** Everything a fresh `Through::new(from, to)` yields. A corner past
      the other one in a coordinate gives a single column or row there. */
  function Walk(from: Point, to: Point): seq<Point>
  {
    RowsFrom(from.x, Max(from.x, to.x), from.y, Max(from.y, to.y))
  }

  /** The points a command covers. */
  ghost function Rect(from: Point, to: Point): set<Point>
  {
    set x, y | from.x <= x <= Max(from.x, to.x) && from.y <= y <= Max(from.y, to.y) :: Point(x, y)
  }

  /** A point lies in a command's rectangle exactly when both its
      coordinates lie between the corners. */
  lemma RectMembers(from: Point, to: Point)
    ensures forall p :: p in Rect(from, to) <==>
      from.x <= p.x <= Max(from.x, to.x) && from.y <= p.y <= Max(from.y, to.y)
  {
    forall p: Point | from.x <= p.x <= Max(from.x, to.x) && from.y <= p.y <= Max(from.y, to.y)
      ensures p in Rect(from, to)
    {
      assert p == Point(p.x, p.y);
    }
  }

  lemma {:induction false} RowMembers(x: int, x1: int, y: int, p: Point)
    ensures p in RowFrom(x, x1, y) <==> p.y == y && x <= p.x <= x1
    decreases x1 - x
  {
    if x <= x1 {
      RowMembers(x + 1, x1, y, p);
    }
  }

  lemma {:induction false} RowsMembers(x0: int, x1: int, y: int, y1: int, p: Point)
    ensures p in RowsFrom(x0, x1, y, y1) <==> x0 <= p.x <= x1 && y <= p.y <= y1
    decreases y1 - y
  {
    if y <= y1 {
      RowMembers(x0, x1, y, p);
      RowsMembers(x0, x1, y + 1, y1, p);
    }
  }

  /** The walk covers exactly the command's rectangle. */
  lemma WalkMembers(from: Point, to: Point)
    ensures forall p :: p in Walk(from, to) <==> p in Rect(from, to)
  {
    forall p
      ensures p in Walk(from, to) <==> p in Rect(from, to)
    {
      RowsMembers(from.x, Max(from.x, to.x), from.y, Max(from.y, to.y), p);
      if p in Walk(from, to) {
        assert p == Point(p.x, p.y);
      }
    }
  }

  lemma {:induction false} RowsLength(x0: int, x1: int, y: int, y1: int)
    requires x0 <= x1
    ensures |RowsFrom(x0, x1, y, y1)| == if y <= y1 then (x1 - x0 + 1) * (y1 - y + 1) else 0
    decreases y1 - y
  {
    if y <= y1 {
      RowsLength(x0, x1, y + 1, y1);
      var w := x1 - x0 + 1;
      assert w * (y1 - y + 1) == w * (y1 - (y + 1) + 1) + w;
    }
  }

  /** `Through` yields `(dx + 1) * (dy + 1)` points, at least the first
      corner. */
  lemma WalkLength(from: Point, to: Point)
    ensures |Walk(from, to)| == (Max(from.x, to.x) - from.x + 1) * (Max(from.y, to.y) - from.y + 1)
    ensures |Walk(from, to)| >= 1 && Walk(from, to)[0] == from
  {
    RowsLength(from.x, Max(from.x, to.x), from.y, Max(from.y, to.y));
  }

  predicate NoRepeats(s: seq<Point>)
  {
    forall i, j :: 0 <= i < j < |s| ==> s[i] != s[j]
  }

  lemma NoRepeatsAppend(a: seq<Point>, b: seq<Point>)
    requires NoRepeats(a) && NoRepeats(b)
    requires forall p :: p in a ==> p !in b
    ensures NoRepeats(a + b)
  {
    forall i, j | 0 <= i < j < |a + b|
      ensures (a + b)[i] != (a + b)[j]
    {
      if i < |a| && j >= |a| {
        assert (a + b)[i] in a && (a + b)[j] in b;
      }
    }
  }

  lemma {:induction false} RowNoRepeats(x: int, x1: int, y: int)
    ensures NoRepeats(RowFrom(x, x1, y))
    decreases x1 - x
  {
    if x <= x1 {
      RowNoRepeats(x + 1, x1, y);
      RowMembers(x + 1, x1, y, Point(x, y));
      NoRepeatsAppend([Point(x, y)], RowFrom(x + 1, x1, y));
    }
  }

  lemma {:induction false} RowsNoRepeats(x0: int, x1: int, y: int, y1: int)
    ensures NoRepeats(RowsFrom(x0, x1, y, y1))
    decreases y1 - y
  {
    if y <= y1 {
      RowNoRepeats(x0, x1, y);
      RowsNoRepeats(x0, x1, y + 1, y1);
      forall p | p in RowFrom(x0, x1, y)
        ensures p !in RowsFrom(x0, x1, y + 1, y1)
      {
        RowMembers(x0, x1, y, p);
        RowsMembers(x0, x1, y + 1, y1, p);
      }
      NoRepeatsAppend(RowFrom(x0, x1, y), RowsFrom(x0, x1, y + 1, y1));
    }
  }

  /** No point is yielded twice. */
  lemma WalkNoRepeats(from: Point, to: Point)
    ensures NoRepeats(Walk(from, to))
  {
    RowsNoRepeats(from.x, Max(from.x, to.x), from.y, Max(from.y, to.y));
  }

  lemma {:induction false} NoRepeatsCard(s: seq<Point>)
    requires NoRepeats(s)
    ensures |set p | p in s| == |s|
    decreases |s|
  {
    if s != [] {
      assert NoRepeats(s[1..]) by {
        forall i, j | 0 <= i < j < |s[1..]|
          ensures s[1..][i] != s[1..][j]
        {
          assert s[1..][i] == s[i + 1] && s[1..][j] == s[j + 1];
        }
      }
      NoRepeatsCard(s[1..]);
      assert s[0] !in s[1..] by {
        forall i | 0 <= i < |s[1..]|
          ensures s[1..][i] != s[0]
        {
          assert s[1..][i] == s[i + 1];
        }
      }
      assert (set p | p in s) == {s[0]} + (set p | p in s[1..]) by {
        assert s == [s[0]] + s[1..];
      }
    }
  }

  /** A command covers `(dx + 1) * (dy + 1)` lights. */
  lemma RectCard(from: Point, to: Point)
    ensures |Rect(from, to)| == (Max(from.x, to.x) - from.x + 1) * (Max(from.y, to.y) - from.y + 1)
  {
    WalkMembers(from, to);
    WalkNoRepeats(from, to);
    WalkLength(from, to);
    NoRepeatsCard(Walk(from, to));
    assert (set p | p in Walk(from, to)) == Rect(from, to);
  }

  /** The points to come from a cursor: its own, then those from the next
      cursor position, or none past the last row. */
  lemma CursorStep(x: int, x1: int, y: int, y1: int, x0: int)
    requires x0 <= x <= x1 && y <= y1
    ensures RowFrom(x, x1, y) + RowsFrom(x0, x1, y + 1, y1) ==
      [Point(x, y)] +
      if x + 1 <= x1 then RowFrom(x + 1, x1, y) + RowsFrom(x0, x1, y + 1, y1)
      else if y + 1 <= y1 then RowFrom(x0, x1, y + 1) + RowsFrom(x0, x1, y + 2, y1)
      else []
  {
    assert RowFrom(x, x1, y) == [Point(x, y)] + RowFrom(x + 1, x1, y);
    if x + 1 > x1 {
      assert RowFrom(x + 1, x1, y) == [];
    }
  }

  /** The `Through` iterator: the current point, or finished. */
  class Through {
    const from: Point
    const to: Point
    var curX: int
    var curY: int
    var finished: bool

    ghost predicate Valid()
      reads this
    {
      !finished ==>
        from.x <= curX <= Max(from.x, to.x) && from.y <= curY <= Max(from.y, to.y)
    }

    /** The points still to come: the rest of the current row, then the
        rows below it. */
    ghost function Remaining(): seq<Point>
      reads this
    {
      if finished then []
      else RowFrom(curX, Max(from.x, to.x), curY) + RowsFrom(from.x, Max(from.x, to.x), curY + 1, Max(from.y, to.y))
    }

    /** `Through::new`. The source's `i32` counters step one past the
        larger corner, so that corner stays below `i32::MAX`. */
    constructor(from: Point, to: Point)
      requires Max(from.x, to.x) < I32_MAX && Max(from.y, to.y) < I32_MAX
      ensures this.from == from && this.to == to
      ensures curX == from.x && curY == from.y && !finished
      ensures Valid() && Remaining() == Walk(from, to)
    {
      this.from := from;
      this.to := to;
      curX := from.x;
      curY := from.y;
      finished := false;
    }

    /** `next`: the current point, and the cursor moves right, wrapping to
        the start of the next row past `to.x` and finishing past `to.y`. */
    method Next() returns (r: Option<Point>)
      requires Valid()
      modifies this
      ensures Valid()
      ensures old(finished) ==> r == None && finished && curX == old(curX) && curY == old(curY)
      ensures !old(finished) ==> r == Some(Point(old(curX), old(curY)))
      ensures !old(finished) && old(curX) + 1 <= to.x ==>
        curX == old(curX) + 1 && curY == old(curY) && !finished
      ensures !old(finished) && old(curX) + 1 > to.x ==>
        curX == from.x && curY == old(curY) + 1 && finished == (old(curY) + 1 > to.y)
      ensures old(Remaining()) == [] ==> r == None
      ensures old(Remaining()) != [] ==> r == Some(old(Remaining())[0]) && Remaining() == old(Remaining())[1..]
    {
      if finished {
        return None;
      }
      CursorStep(curX, Max(from.x, to.x), curY, Max(from.y, to.y), from.x);
      r := Some(Point(curX, curY));
      curX := curX + 1;
      if curX > to.x {
        curX := from.x;
        curY := curY + 1;
        if curY > to.y {
          finished := true;
        }
      }
    }
  }

  /** `for pt in Through::new(from, to)`, collecting the points: exactly
      the walk, in row-major order. */
  method Points(from: Point, to: Point) returns (ps: seq<Point>)
    requires Max(from.x, to.x) < I32_MAX && Max(from.y, to.y) < I32_MAX
    ensures ps == Walk(from, to)
  {
    var it := new Through(from, to);
    ps := [];
    while true
      invariant it.Valid() && it.from == from && it.to == to
      invariant ps + it.Remaining() == Walk(from, to)
      decreases |it.Remaining()|
    {
      ghost var rest := it.Remaining();
      var pt := it.Next();
      if pt.None? {
        break;
      }
      assert rest == [pt.value] + it.Remaining();
      assert ps + [pt.value] + it.Remaining() == ps + rest;
      ps := ps + [pt.value];
    }
  }

  // ---------------------------------------------------------------------
  // Parsing.

  /** `parse_point`: the first two comma-separated fields as base-10
      `i32`s; further fields are ignored. */
  function ParsePoint(input: Option<string>): (r: Option<Point>)
    ensures input.None? ==> r.None?
    ensures r.Some? ==> input.Some? && |Split(input.value, ",")| >= 2
    ensures r.Some? ==> var f := Split(input.value, ",");
      ParseI32(f[0]) == Some(r.value.x) && ParseI32(f[1]) == Some(r.value.y)
  {
    match input
    case None => None
    case Some(s) =>
      var fields := Split(s, ",");
      if |fields| < 2 then None
      else
        match (ParseI32(fields[0]), ParseI32(fields[1]))
        case (Some(x), Some(y)) => Some(Point(x, y))
        case _ => None
  }

  /** The `i`-th token, as the tokenizer's `next` hands it out. */
  function Token(tokens: seq<string>, i: nat): (r: Option<string>)
    ensures r.Some? <==> i < |tokens|
  {
    if i < |tokens| then Some(tokens[i]) else None
  }

  /** What a line asks for: the instruction word and the two corners. */
  datatype Parsed = Parsed(word: string, from: Point, to: Point)

  /** The checks of `parse_line` before the loop: the trimmed, lower-cased
      line, a leading `turn` skipped, an instruction word, a point,
      `through` and a point. Anything after the second point is ignored. */
  function ParseCommand(line: string): (r: Option<Parsed>)
    ensures Lower(Trim(line)) == [] ==> r.None?
  {
    var t := Lower(Trim(line));
    if t == [] then None else ParseTokens(SplitWhitespace(t))
  }

  /** The tokens of `parse_line`'s tokenizer, read in order. */
  function ParseTokens(tokens: seq<string>): (r: Option<Parsed>)
  {
    if tokens == [] then None
    else
      var k := if tokens[0] == "turn" then 1 else 0;
      if k >= |tokens| then None
      else
        match ParsePoint(Token(tokens, k + 1))
        case None => None
        case Some(from) =>
          if Token(tokens, k + 2) != Some("through") then None
          else
            match ParsePoint(Token(tokens, k + 3))
            case None => None
            case Some(to) => Some(Parsed(tokens[k], from, to))
  }

  // The text of a well-formed line, and reading it back.

  /** `x,y` for a point with natural coordinates. */
  function PointText(p: Point): string
    requires p.x >= 0 && p.y >= 0
  {
    DecimalString(p.x) + "," + DecimalString(p.y)
  }

  /** A point reads back from its text. */
  lemma ParsePointText(p: Point)
    requires 0 <= p.x <= I32_MAX && 0 <= p.y <= I32_MAX
    ensures ParsePoint(Some(PointText(p))) == Some(p)
  {
    var a, b := DecimalString(p.x), DecimalString(p.y);
    SplitAtChar(a, ',', b);
    SplitNoSeparator(b, ',');
    ParseI32Decimal(p.x);
    ParseI32Decimal(p.y);
  }

  /** The words of a line as the puzzle writes it: `turn on`, `turn off`
      or `toggle`, then the corners. */
  function LineWords(word: string, from: Point, to: Point): seq<string>
    requires IsInstruction(word)
    requires from.x >= 0 && from.y >= 0 && to.x >= 0 && to.y >= 0
  {
    (if word == "toggle" then [] else ["turn"]) + [word, PointText(from), "through", PointText(to)]
  }

  /** The line, its words separated by single spaces. */
  function LineText(word: string, from: Point, to: Point): string
    requires IsInstruction(word)
    requires from.x >= 0 && from.y >= 0 && to.x >= 0 && to.y >= 0
  {
    Join(LineWords(word, from, to), " ")
  }

  /** The line spelled out piece by piece. */
  lemma LineTextPieces(word: string, from: Point, to: Point)
    requires IsInstruction(word)
    requires from.x >= 0 && from.y >= 0 && to.x >= 0 && to.y >= 0
    ensures LineText(word, from, to) ==
      if word == "toggle" then word + " " + PointText(from) + " " + "through" + " " + PointText(to)
      else "turn" + " " + word + " " + PointText(from) + " " + "through" + " " + PointText(to)
  {
    var p, q := PointText(from), PointText(to);
    if word != "toggle" {
      JoinFive("turn", word, p, "through", q);
      assert LineWords(word, from, to) == ["turn", word, p, "through", q];
    } else {
      JoinFour(word, p, "through", q);
      assert LineWords(word, from, to) == [word, p, "through", q];
    }
  }

  lemma JoinFour(a: string, b: string, c: string, d: string)
    ensures Join([a, b, c, d], " ") == a + " " + b + " " + c + " " + d
  {
    JoinCons(c, [d], " ");
    JoinCons(b, [c, d], " ");
    JoinCons(a, [b, c, d], " ");
  }

  lemma JoinFive(a: string, b: string, c: string, d: string, e: string)
    ensures Join([a, b, c, d, e], " ") == a + " " + b + " " + c + " " + d + " " + e
  {
    JoinFour(b, c, d, e);
    JoinCons(a, [b, c, d, e], " ");
  }

  lemma PointTextChars(p: Point)
    requires p.x >= 0 && p.y >= 0
    ensures NoUpper(PointText(p)) && NoSpace(PointText(p)) && PointText(p) != []
    ensures !IsWhitespace(PointText(p)[|PointText(p)| - 1])
  {
    var a, b := DecimalString(p.x), DecimalString(p.y);
    var t := PointText(p);
    assert forall i :: 0 <= i < |a| ==> t[i] == a[i];
    assert t[|a|] == ',';
    assert forall i :: |a| + 1 <= i < |t| ==> t[i] == b[i - |a| - 1];
  }

  /** The words of a line are non-empty, without spaces or capitals. */
  lemma LineWordsChars(word: string, from: Point, to: Point)
    requires IsInstruction(word)
    requires from.x >= 0 && from.y >= 0 && to.x >= 0 && to.y >= 0
    ensures var w := LineWords(word, from, to);
      forall k :: 0 <= k < |w| ==> w[k] != [] && NoSpace(w[k]) && NoUpper(w[k])
  {
    PointTextChars(from);
    PointTextChars(to);
  }

  /** The tokens of a well-formed line are its words. */
  lemma LineTokens(word: string, from: Point, to: Point)
    requires IsInstruction(word)
    requires from.x >= 0 && from.y >= 0 && to.x >= 0 && to.y >= 0
    ensures SplitWhitespace(LineText(word, from, to)) == LineWords(word, from, to)
  {
    LineWordsChars(word, from, to);
    SplitWhitespaceJoin(LineWords(word, from, to));
  }

  /** Trimming and lower-casing leave a well-formed line alone. */
  lemma LineTextNormal(word: string, from: Point, to: Point)
    requires IsInstruction(word)
    requires from.x >= 0 && from.y >= 0 && to.x >= 0 && to.y >= 0
    ensures Lower(Trim(LineText(word, from, to))) == LineText(word, from, to)
  {
    LineWordsChars(word, from, to);
    JoinNormal(LineWords(word, from, to));
  }

  /** Reading the words of a well-formed line gives back its instruction
      and corners. */
  lemma ParseLineWords(word: string, from: Point, to: Point)
    requires IsInstruction(word)
    requires 0 <= from.x <= I32_MAX && 0 <= from.y <= I32_MAX && 0 <= to.x <= I32_MAX && 0 <= to.y <= I32_MAX
    ensures ParseTokens(LineWords(word, from, to)) == Some(Parsed(word, from, to))
  {
    ParsePointText(from);
    ParsePointText(to);
    if word == "toggle" {
      ParseWords([word, PointText(from), "through", PointText(to)], 0, word, from, to);
    } else {
      ParseWords(["turn", word, PointText(from), "through", PointText(to)], 1, word, from, to);
    }
  }

  /** The tokens, after an optional `turn`, of a line whose corners read. */
  lemma ParseWords(t: seq<string>, k: nat, word: string, from: Point, to: Point)
    requires k <= 1 && |t| == k + 4 && (k == 1 <==> t[0] == "turn")
    requires t[k] == word && t[k + 2] == "through"
    requires ParsePoint(Some(t[k + 1])) == Some(from) && ParsePoint(Some(t[k + 3])) == Some(to)
    ensures ParseTokens(t) == Some(Parsed(word, from, to))
  {
    assert Token(t, k + 1) == Some(t[k + 1]) && Token(t, k + 3) == Some(t[k + 3]);
  }

  /** Reading a well-formed line gives back its instruction and corners. */
  lemma ParseLineText(word: string, from: Point, to: Point)
    requires IsInstruction(word)
    requires 0 <= from.x <= I32_MAX && 0 <= from.y <= I32_MAX && 0 <= to.x <= I32_MAX && 0 <= to.y <= I32_MAX
    ensures ParseCommand(LineText(word, from, to)) == Some(Parsed(word, from, to))
  {
    var s := LineText(word, from, to);
    LineTextNormal(word, from, to);
    LineWordsChars(word, from, to);
    JoinEnds(LineWords(word, from, to), " ");
    assert s != [];
    LineTokens(word, from, to);
    assert ParseCommand(s) == ParseTokens(LineWords(word, from, to));
    ParseLineWords(word, from, to);
  }

  /** The words of the match in `parse_line`. */
  predicate IsInstruction(word: string)
  {
    word == "on" || word == "off" || word == "toggle"
  }

  /** What an instruction does to one light. */
  function Effect(word: string, light: bool): bool
  {
    if word == "on" then true else if word == "off" then false else !light
  }

  /** `get`: a light never set is off. */
  function Get(m: map<Point, bool>, p: Point): bool
  {
    if p in m then m[p] else false
  }

  /** The lights after the instruction reached every point of `done`. */
  ghost function Touch(m: map<Point, bool>, word: string, done: set<Point>): (r: map<Point, bool>)
    ensures r.Keys == m.Keys + done
    ensures forall p :: Get(r, p) == if p in done then Effect(word, Get(m, p)) else Get(m, p)
  {
    map p | p in m.Keys + done :: if p in done then Effect(word, Get(m, p)) else m[p]
  }

  /** The lights after one line: changed only when the line parses and
      names a known instruction. */
  ghost function AfterLine(m: map<Point, bool>, line: string): map<Point, bool>
  {
    match ParseCommand(line)
    case None => m
    case Some(c) => if IsInstruction(c.word) then Touch(m, c.word, Rect(c.from, c.to)) else m
  }

  /** The lights after each line in turn. */
  ghost function AfterLines(m: map<Point, bool>, lines: seq<string>): map<Point, bool>
    decreases |lines|
  {
    if lines == [] then m else AfterLines(AfterLine(m, lines[0]), lines[1..])
  }

  /** The corners a line names stay below `i32::MAX`, where `Through`'s
      counters would overflow. */
  predicate InRange(line: string)
  {
    match ParseCommand(line)
    case None => true
    case Some(c) => Max(c.from.x, c.to.x) < I32_MAX && Max(c.from.y, c.to.y) < I32_MAX
  }

  /** The lights that are on. */
  function OnSet(m: map<Point, bool>): (on: set<Point>)
    ensures on <= m.Keys
    ensures forall p :: p in on <==> Get(m, p)
  {
    set p | p in m && m[p]
  }

  /** Taking the next point of a walk without repeats moves it from the
      points to come to the points done. */
  lemma WalkStep(rest: seq<Point>, done: set<Point>, rect: set<Point>)
    requires rest != [] && NoRepeats(rest)
    requires forall q :: q in rect <==> q in done || q in rest
    requires forall q :: q in done ==> q !in rest
    ensures rest[0] !in done && rest[0] !in rest[1..]
    ensures NoRepeats(rest[1..])
    ensures forall q :: q in rect <==> q in done + {rest[0]} || q in rest[1..]
    ensures forall q :: q in done + {rest[0]} ==> q !in rest[1..]
  {
    assert rest == [rest[0]] + rest[1..];
    forall i | 0 <= i < |rest[1..]|
      ensures rest[1..][i] != rest[0]
    {
      assert rest[1..][i] == rest[i + 1];
    }
    forall i, j | 0 <= i < j < |rest[1..]|
      ensures rest[1..][i] != rest[1..][j]
    {
      assert rest[1..][i] == rest[i + 1] && rest[1..][j] == rest[j + 1];
    }
  }

  lemma TouchNothing(m: map<Point, bool>, word: string)
    ensures Touch(m, word, {}) == m
  {
  }

  lemma TouchOne(m: map<Point, bool>, word: string, done: set<Point>, p: Point)
    requires p !in done
    ensures Touch(m, word, done)[p := Effect(word, Get(Touch(m, word, done), p))] == Touch(m, word, done + {p})
  {
  }

  // ---------------------------------------------------------------------
  // The lights.

  class Lights {
    var lights: map<Point, bool>

    /** `Lights::new`: no light set. */
    constructor()
      ensures lights == map[]
      ensures Count() == 0
    {
      lights := map[];
    }

    /** `count`: the number of lights that are on. */
    function Count(): (n: nat)
      reads this
      ensures n == |OnSet(lights)|
    {
      |set p | p in lights && lights[p]|
    }

    method TurnOn(point: Point)
      modifies this
      ensures lights == old(lights)[point := true]
    {
      lights := lights[point := true];
    }

    method TurnOff(point: Point)
      modifies this
      ensures lights == old(lights)[point := false]
    {
      lights := lights[point := false];
    }

    /** `toggle`: stores the negation of what `get` reads. */
    method Toggle(point: Point)
      modifies this
      ensures lights == old(lights)[point := !Get(old(lights), point)]
    {
      lights := lights[point := !Get(lights, point)];
    }

    method Set(point: Point, v: bool)
      modifies this
      ensures lights == old(lights)[point := v]
    {
      lights := lights[point := v];
    }

    /** `parse_line`: true when the line was carried out; a line that does
        not parse, or names an unknown instruction, changes nothing (the
        match fails at the first point, before any light is set). */
    method ParseLine(line: string) returns (ok: bool)
      requires InRange(line)
      modifies this
      ensures ok <==> ParseCommand(line).Some? && IsInstruction(ParseCommand(line).value.word)
      ensures lights == AfterLine(old(lights), line)
    {
      var c := ParseCommand(line);
      if c.None? {
        return false;
      }
      ok := Sweep(c.value.word, c.value.from, c.value.to);
    }

    /** The loop of `parse_line`: the instruction at every point `Through`
        yields, or `false` at the first point when the word is unknown. */
    method Sweep(word: string, from: Point, to: Point) returns (ok: bool)
      requires Max(from.x, to.x) < I32_MAX && Max(from.y, to.y) < I32_MAX
      modifies this
      ensures ok == IsInstruction(word)
      ensures lights == if ok then Touch(old(lights), word, Rect(from, to)) else old(lights)
    {
      var it := new Through(from, to);
      WalkMembers(from, to);
      WalkNoRepeats(from, to);
      WalkLength(from, to);
      assert from in Rect(from, to);
      TouchNothing(lights, word);
      ghost var done: set<Point> := {};
      while true
        invariant it.Valid() && fresh(it) && it.from == from && it.to == to
        invariant NoRepeats(it.Remaining())
        invariant forall p :: p in Rect(from, to) <==> p in done || p in it.Remaining()
        invariant forall p :: p in done ==> p !in it.Remaining()
        invariant lights == Touch(old(lights), word, done)
        invariant done == {} || IsInstruction(word)
        decreases |it.Remaining()|
      {
        ghost var rest := it.Remaining();
        var pt := it.Next();
        if pt.None? {
          break;
        }
        var p := pt.value;
        assert p == rest[0] && it.Remaining() == rest[1..];
        WalkStep(rest, done, Rect(from, to));
        TouchOne(old(lights), word, done, p);
        if word == "on" {
          TurnOn(p);
        } else if word == "off" {
          TurnOff(p);
        } else if word == "toggle" {
          Toggle(p);
        } else {
          return false;
        }
        done := done + {p};
      }
      assert done == Rect(from, to);
      return true;
    }

    /** `parse_lines`: every `\n`-separated line in turn. */
    method ParseLines(text: string)
      requires forall line :: line in Split(text, "\n") ==> InRange(line)
      modifies this
      ensures lights == AfterLines(old(lights), Split(text, "\n"))
    {
      var lines := Split(text, "\n");
      for i := 0 to |lines|
        invariant AfterLines(lights, lines[i..]) == AfterLines(old(lights), lines)
      {
        assert lines[i..][1..] == lines[i + 1..];
        var _ := ParseLine(lines[i]);
      }
    }
  }

  // ---------------------------------------------------------------------
  // `test_examples`.

  lemma ExampleDecimals()
    ensures DecimalString(0) == "0"
    ensures DecimalString(999) == "999"
    ensures DecimalString(499) == "499" && DecimalString(500) == "500"
  {
    assert DecimalString(99) == "99" by {
      assert DecimalString(9) == "9";
    }
    assert DecimalString(49) == "49" && DecimalString(50) == "50" by {
      assert DecimalString(4) == "4" && DecimalString(5) == "5";
    }
  }

  /** A line written out with its corners' texts is the line. */
  lemma LineTextIs(word: string, from: Point, to: Point, p: string, q: string, text: string)
    requires IsInstruction(word)
    requires from.x >= 0 && from.y >= 0 && to.x >= 0 && to.y >= 0
    requires PointText(from) == p && PointText(to) == q
    requires text == if word == "toggle" then word + " " + p + " " + "through" + " " + q
      else "turn" + " " + word + " " + p + " " + "through" + " " + q
    ensures LineText(word, from, to) == text
  {
    LineTextPieces(word, from, to);
  }

  lemma ExamplePoints()
    ensures PointText(Point(0, 0)) == "0,0"
    ensures PointText(Point(999, 999)) == "999,999" && PointText(Point(999, 0)) == "999,0"
    ensures PointText(Point(499, 499)) == "499,499" && PointText(Point(500, 500)) == "500,500"
  {
    ExampleDecimals();
  }

  lemma TurnOnPieces()
    ensures "turn on 0,0 through 999,999" == "turn" + " " + "on" + " " + "0,0" + " " + "through" + " " + "999,999"
  {
  }

  lemma TogglePieces()
    ensures "toggle 0,0 through 999,0" == "toggle" + " " + "0,0" + " " + "through" + " " + "999,0"
  {
  }

  lemma TurnOffPieces()
    ensures "turn off 499,499 through 500,500" == "turn" + " " + "off" + " " + "499,499" + " " + "through" + " " + "500,500"
  {
  }

  lemma TurnOnText()
    ensures LineText("on", Point(0, 0), Point(999, 999)) == "turn on 0,0 through 999,999"
  {
    ExamplePoints();
    TurnOnPieces();
    LineTextIs("on", Point(0, 0), Point(999, 999), "0,0", "999,999", "turn on 0,0 through 999,999");
  }

  lemma ToggleText()
    ensures LineText("toggle", Point(0, 0), Point(999, 0)) == "toggle 0,0 through 999,0"
  {
    ExamplePoints();
    TogglePieces();
    LineTextIs("toggle", Point(0, 0), Point(999, 0), "0,0", "999,0", "toggle 0,0 through 999,0");
  }

  lemma TurnOffText()
    ensures LineText("off", Point(499, 499), Point(500, 500)) == "turn off 499,499 through 500,500"
  {
    ExamplePoints();
    TurnOffPieces();
    LineTextIs("off", Point(499, 499), Point(500, 500), "499,499", "500,500", "turn off 499,499 through 500,500");
  }

  lemma TurnOnLine()
    ensures ParseCommand("turn on 0,0 through 999,999") == Some(Parsed("on", Point(0, 0), Point(999, 999)))
  {
    TurnOnText();
    ParseLineText("on", Point(0, 0), Point(999, 999));
  }

  lemma ToggleLine()
    ensures ParseCommand("toggle 0,0 through 999,0") == Some(Parsed("toggle", Point(0, 0), Point(999, 0)))
  {
    ToggleText();
    ParseLineText("toggle", Point(0, 0), Point(999, 0));
  }

  lemma TurnOffLine()
    ensures ParseCommand("turn off 499,499 through 500,500") == Some(Parsed("off", Point(499, 499), Point(500, 500)))
  {
    TurnOffText();
    ParseLineText("off", Point(499, 499), Point(500, 500));
  }

  /** How each instruction changes the set of lights that are on. */
  lemma OnSetTouch(m: map<Point, bool>, word: string, r: set<Point>)
    ensures word == "on" ==> OnSet(Touch(m, word, r)) == OnSet(m) + r
    ensures word == "off" ==> OnSet(Touch(m, word, r)) == OnSet(m) - r
    ensures !IsInstruction(word) || word == "toggle" ==>
      OnSet(Touch(m, word, r)) == (OnSet(m) - r) + (r - OnSet(m))
  {
  }

  lemma CardDifference(a: set<Point>, b: set<Point>)
    requires b <= a
    ensures |a - b| == |a| - |b|
  {
    assert a == (a - b) + b;
  }

  /** A rectangle inside another's bounds is part of it. */
  lemma RectInside(outer0: Point, outer1: Point, inner0: Point, inner1: Point)
    requires outer0.x <= inner0.x && Max(inner0.x, inner1.x) <= Max(outer0.x, outer1.x)
    requires outer0.y <= inner0.y && Max(inner0.y, inner1.y) <= Max(outer0.y, outer1.y)
    ensures Rect(inner0, inner1) <= Rect(outer0, outer1)
  {
    RectMembers(outer0, outer1);
    RectMembers(inner0, inner1);
  }

  /** Rectangles on different rows share no light. */
  lemma RectApart(a0: Point, a1: Point, b0: Point, b1: Point)
    requires Max(a0.y, a1.y) < b0.y
    ensures Rect(a0, a1) * Rect(b0, b1) == {}
  {
    RectMembers(a0, a1);
    RectMembers(b0, b1);
  }

  ghost const All := Rect(Point(0, 0), Point(999, 999))
  ghost const FirstRow := Rect(Point(0, 0), Point(999, 0))
  ghost const Middle := Rect(Point(499, 499), Point(500, 500))

  lemma ExampleRects()
    ensures |All| == 1000000 && |FirstRow| == 1000 && |Middle| == 4
    ensures FirstRow <= All && Middle <= All - FirstRow
  {
    RectCard(Point(0, 0), Point(999, 999));
    RectCard(Point(0, 0), Point(999, 0));
    RectCard(Point(499, 499), Point(500, 500));
    RectInside(Point(0, 0), Point(999, 999), Point(0, 0), Point(999, 0));
    RectInside(Point(0, 0), Point(999, 999), Point(499, 499), Point(500, 500));
    RectApart(Point(0, 0), Point(999, 0), Point(499, 499), Point(500, 500));
  }

  /** The lights on after each line of the test, from none. */
  lemma ExampleCounts(m1: map<Point, bool>, m2: map<Point, bool>, m3: map<Point, bool>)
    requires m1 == Touch(map[], "on", All)
    requires m2 == Touch(m1, "toggle", FirstRow)
    requires m3 == Touch(m2, "off", Middle)
    ensures |OnSet(m1)| == 1000000 && |OnSet(m2)| == 999000 && |OnSet(m3)| == 998996
  {
    ExampleRects();
    OnSetTouch(map[], "on", All);
    assert OnSet(map[]) == {};
    assert OnSet(m1) == All;
    OnSetTouch(m1, "toggle", FirstRow);
    assert FirstRow - All == {};
    assert OnSet(m2) == All - FirstRow;
    CardDifference(All, FirstRow);
    OnSetTouch(m2, "off", Middle);
    CardDifference(All - FirstRow, Middle);
  }

  /** `test_examples`: the counts before and after each line. */
  method Examples() returns (counts: seq<int>)
    ensures counts == [0, 1000000, 999000, 998996]
  {
    var lts := new Lights();
    var c0 := lts.Count();
    TurnOnLine();
    ToggleLine();
    TurnOffLine();
    var _ := lts.ParseLine("turn on 0,0 through 999,999");
    ghost var m1 := lts.lights;
    var c1 := lts.Count();
    var _ := lts.ParseLine("toggle 0,0 through 999,0");
    ghost var m2 := lts.lights;
    var c2 := lts.Count();
    var _ := lts.ParseLine("turn off 499,499 through 500,500");
    ExampleCounts(m1, m2, lts.lights);
    var c3 := lts.Count();
    counts := [c0, c1, c2, c3];
  }
}
