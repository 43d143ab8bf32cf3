// Day 18: an animated square grid of lights. Each step an on light stays
// on with two or three neighbours on, and an off light turns on with
// exactly three. Addressing is `lights[y][x]`.
//
// The neighbour count skips the cells whose column equals their row
// (`cx != cy`), not the centre cell: on the diagonal it misses neighbours,
// and off it the centre counts itself. The model counts as written and
// states the difference in `FarFromDiagonal` and `DiagonalExample`.

module Day18 {
  import opened Text

  datatype LightGrid = LightGrid(lights: seq<seq<bool>>)

  function Edge(g: LightGrid): nat
  {
    |g.lights|
  }

  /** Every row is as long as there are rows. */
  predicate Square(g: LightGrid)
  {
    forall y :: 0 <= y < |g.lights| ==> |g.lights[y]| == |g.lights|
  }

  /** `LightGrid::blank`: an `edge` by `edge` grid, all off. */
  function Blank(edge: nat): (g: LightGrid)
    ensures Square(g) && Edge(g) == edge
    ensures forall y, x :: 0 <= y < edge && 0 <= x < edge ==> !g.lights[y][x]
  {
    LightGrid(seq(edge, _ => seq(edge, _ => false)))
  }

  // ---------------------------------------------------------------------
  // Reading a grid

  /** A trimmed line of a grid with `edge` lights: that many `.` and `#`. */
  predicate RowFits(line: string, edge: nat)
  {
    |line| == edge && forall i :: 0 <= i < |line| ==> line[i] == '.' || line[i] == '#'
  }

  /** The lights of a line: `#` is on. */
  function Bits(line: string): (r: seq<bool>)
    ensures |r| == |line| && forall i :: 0 <= i < |line| ==> r[i] == (line[i] == '#')
  {
    seq(|line|, i requires 0 <= i < |line| => line[i] == '#')
  }

  /** The lines of the trimmed text, each trimmed. */
  function TrimmedLines(lines: string): (r: seq<string>)
    ensures |r| == |Split(Trim(lines), "\n")| >= 1
    ensures forall k :: 0 <= k < |r| ==> r[k] == Trim(Split(Trim(lines), "\n")[k])
  {
    var spl := Split(Trim(lines), "\n");
    seq(|spl|, k requires 0 <= k < |spl| => Trim(spl[k]))
  }

  /** What `parse_lines` gives: as many lights on every line as there are
      lines, or nothing. */
  function Decode(lines: string): Option<LightGrid>
  {
    var rows := TrimmedLines(lines);
    if forall k :: 0 <= k < |rows| ==> RowFits(rows[k], |rows|)
    then Some(LightGrid(seq(|rows|, k requires 0 <= k < |rows| => Bits(rows[k]))))
    else None
  }

  /** The inner loop of `parse_lines`: the lights of one trimmed line, or
      nothing at the first character other than `.` and `#`. */
  method ReadRow(line: string) returns (r: Option<seq<bool>>)
    ensures r.Some? <==> forall i :: 0 <= i < |line| ==> line[i] == '.' || line[i] == '#'
    ensures r.Some? ==> r.value == Bits(line)
  {
    var rl: seq<bool> := [];
    for i := 0 to |line|
      invariant rl == Bits(line[..i])
      invariant forall j :: 0 <= j < i ==> line[j] == '.' || line[j] == '#'
    {
      var ch := line[i];
      if ch == '.' {
        rl := rl + [false];
      } else if ch == '#' {
        rl := rl + [true];
      } else {
        return None;
      }
    }
    assert line[..|line|] == line;
    r := Some(rl);
  }

  /** One line of `parse_lines`: the wrong length, or a character other
      than `.` and `#`, gives nothing. */
  method ReadLine(line: string, edge: nat) returns (r: Option<seq<bool>>)
    ensures r.Some? <==> RowFits(line, edge)
    ensures r.Some? ==> r.value == Bits(line)
  {
    if |line| != edge {
      return None;
    }
    r := ReadRow(line);
  }

  /** The rows `parse_lines` has read so far fit and hold the lights of
      the first lines. */
  predicate ReadSoFar(rows: seq<string>, ret: seq<seq<bool>>, edge: nat)
  {
    |ret| <= |rows| && forall j :: 0 <= j < |ret| ==> ret[j] == Bits(rows[j]) && RowFits(rows[j], edge)
  }

  lemma ReadSoFarStep(rows: seq<string>, ret: seq<seq<bool>>, edge: nat, row: seq<bool>)
    requires ReadSoFar(rows, ret, edge) && |ret| < |rows|
    requires RowFits(rows[|ret|], edge) && row == Bits(rows[|ret|])
    ensures ReadSoFar(rows, ret + [row], edge)
  {
  }

  /** `LightGrid::parse_lines`; the lines are trimmed as they are read. */
  method ParseLines(lines: string) returns (r: Option<LightGrid>)
    ensures r == Decode(lines)
  {
    var rows := TrimmedLines(lines);
    var edge := |rows|;
    var ret: seq<seq<bool>> := [];
    for k := 0 to edge
      invariant |ret| == k && ReadSoFar(rows, ret, edge)
    {
      var rl := ReadLine(rows[k], edge);
      if rl.None? {
        return None;
      }
      ReadSoFarStep(rows, ret, edge, rl.value);
      ret := ret + [rl.value];
    }
    r := Some(LightGrid(ret));
    assert ret == seq(edge, k requires 0 <= k < edge => Bits(rows[k]));
  }

  /** A grid read is square, with one row per line. */
  lemma DecodeSquare(lines: string)
    requires Decode(lines).Some?
    ensures Square(Decode(lines).value) && Edge(Decode(lines).value) == |TrimmedLines(lines)| >= 1
  {
  }

  /** Blank text is a single empty line, which cannot be a row of one. */
  lemma DecodeEmpty()
    ensures Decode("") == None
  {
    TrimUnchanged("");
    SplitNoSeparator("", '\n');
    assert Split(Trim(""), "\n") == [""];
    TrimUnchanged("");
    assert TrimmedLines("")[0] == "";
  }

  /** A row written out, `#` for on and `.` for off. */
  function RowText(row: seq<bool>): (t: string)
    ensures |t| == |row| && forall i :: 0 <= i < |row| ==> t[i] == if row[i] then '#' else '.'
  {
    seq(|row|, i requires 0 <= i < |row| => if row[i] then '#' else '.')
  }

  /** The rows of a grid written out. */
  function RowTexts(g: LightGrid): (r: seq<string>)
    ensures |r| == |g.lights| && forall y :: 0 <= y < |g.lights| ==> r[y] == RowText(g.lights[y])
  {
    seq(|g.lights|, y requires 0 <= y < |g.lights| => RowText(g.lights[y]))
  }

  /** A grid written out, one line per row. */
  function Render(g: LightGrid): string
  {
    Join(RowTexts(g), "\n")
  }

  /** A written row trims to itself, fits, and reads back. */
  lemma RowTextReads(row: seq<bool>)
    requires row != []
    ensures Trim(RowText(row)) == RowText(row)
    ensures RowFits(RowText(row), |row|) && Bits(RowText(row)) == row
  {
    TrimUnchanged(RowText(row));
  }

  /** The written rows are non-empty, trimmed and free of line breaks. */
  lemma RowTextsClean(g: LightGrid)
    requires Square(g)
    ensures forall k :: 0 <= k < |RowTexts(g)| ==>
      RowTexts(g)[k] != [] && Trim(RowTexts(g)[k]) == RowTexts(g)[k] && '\n' !in RowTexts(g)[k]
  {
    forall k | 0 <= k < |RowTexts(g)|
      ensures RowTexts(g)[k] != [] && Trim(RowTexts(g)[k]) == RowTexts(g)[k] && '\n' !in RowTexts(g)[k]
    {
      RowTextReads(g.lights[k]);
    }
  }

  /** A written grid starts and ends with a light, so trimming keeps it. */
  lemma RenderTrimmed(g: LightGrid)
    requires Square(g) && Edge(g) >= 1
    ensures Trim(Render(g)) == Render(g)
  {
    RowTextsClean(g);
    JoinEnds(RowTexts(g), "\n");
    TrimUnchanged(Render(g));
  }

  /** A written grid splits at the line breaks into its written rows. */
  lemma RenderSplits(g: LightGrid)
    requires Square(g) && Edge(g) >= 1
    ensures Split(Render(g), "\n") == RowTexts(g)
  {
    RowTextsClean(g);
    SplitJoinChar(RowTexts(g), '\n');
  }

  /** The lines read from the written grid are its written rows. */
  lemma RenderLines(g: LightGrid)
    requires Square(g) && Edge(g) >= 1
    ensures TrimmedLines(Render(g)) == RowTexts(g)
  {
    RenderTrimmed(g);
    RenderSplits(g);
    RowTextsClean(g);
  }

  /** A square grid with a light reads back from its written form. */
  lemma RenderDecodes(g: LightGrid)
    requires Square(g) && Edge(g) >= 1
    ensures Decode(Render(g)) == Some(g)
  {
    RenderLines(g);
    var rows := TrimmedLines(Render(g));
    forall k | 0 <= k < |rows|
      ensures RowFits(rows[k], |rows|) && Bits(rows[k]) == g.lights[k]
    {
      RowTextReads(g.lights[k]);
    }
    assert seq(|rows|, k requires 0 <= k < |rows| => Bits(rows[k])) == g.lights;
  }

  // ---------------------------------------------------------------------
  // Counting the lights around a cell

  /** `v - 1` and `v + 1`, where they are on the grid. */
  function Beside(v: nat, last: nat): (r: seq<nat>)
    requires v <= last
    ensures v !in r && forall i :: 0 <= i < |r| ==> r[i] <= last
  {
    (if v != 0 then [v - 1] else []) + (if v != last then [v + 1] else [])
  }

  /** `v`, then the coordinates beside it. */
  function Around(v: nat, last: nat): (r: seq<nat>)
    requires v <= last
    ensures forall i :: 0 <= i < |r| ==> r[i] <= last
  {
    [v] + Beside(v, last)
  }

  /** The coordinates around `v` are exactly those at most one away, on the
      grid, each once. */
  lemma AroundExactly(v: nat, last: nat, w: nat)
    requires v <= last
    ensures w in Around(v, last) <==> w <= last && (w == v || w + 1 == v || w == v + 1)
    ensures forall i, j :: 0 <= i < j < |Around(v, last)| ==> Around(v, last)[i] != Around(v, last)[j]
  {
  }

  /** The light at column `cx` and row `cy` is on the grid and on. */
  predicate LitAt(g: LightGrid, cx: nat, cy: nat)
  {
    cy < |g.lights| && cx < |g.lights[cy]| && g.lights[cy][cx]
  }

  /** The on lights of column `cx` at the rows `ys` that `keep` lets
      through. */
  function ColumnCount(g: LightGrid, cx: nat, ys: seq<nat>, keep: (nat, nat) -> bool): nat
  {
    if ys == [] then 0
    else
      var cy := ys[|ys| - 1];
      ColumnCount(g, cx, ys[..|ys| - 1], keep) + (if keep(cx, cy) && LitAt(g, cx, cy) then 1 else 0)
  }

  /** The on lights of the columns `xs` and rows `ys` that `keep` lets
      through. */
  function BlockCount(g: LightGrid, xs: seq<nat>, ys: seq<nat>, keep: (nat, nat) -> bool): nat
  {
    if xs == [] then 0
    else BlockCount(g, xs[..|xs| - 1], ys, keep) + ColumnCount(g, xs[|xs| - 1], ys, keep)
  }

  /** The test of `count_adjacent_on`. */
  predicate OffDiagonal(cx: nat, cy: nat)
  {
    cx != cy
  }

  /** What `count_adjacent_on` counts: the on lights of the 3 by 3 block
      around the cell, clipped to the grid, off the diagonal. */
  function AdjacentOn(g: LightGrid, x: nat, y: nat): nat
    requires Square(g) && x < |g.lights| && y < |g.lights|
  {
    var last := |g.lights| - 1;
    BlockCount(g, Around(x, last), Around(y, last), OffDiagonal)
  }

  /** The count the puzzle means: the on lights of the block other than
      the cell itself. */
  function Neighbours(g: LightGrid, x: nat, y: nat): nat
    requires Square(g) && x < |g.lights| && y < |g.lights|
  {
    var last := |g.lights| - 1;
    BlockCount(g, Around(x, last), Around(y, last), (cx, cy) => cx != x || cy != y)
  }

  /** The coordinate list `count_adjacent_on` builds for one axis. */
  method AroundList(v: nat, last: nat) returns (vs: seq<nat>)
    requires v <= last
    ensures vs == Around(v, last)
  {
    vs := [v];
    if v != 0 {
      vs := vs + [v - 1];
    }
    if v != last {
      vs := vs + [v + 1];
    }
  }

  lemma ColumnStep(g: LightGrid, cx: nat, ys: seq<nat>, j: nat, keep: (nat, nat) -> bool)
    requires j < |ys|
    ensures ColumnCount(g, cx, ys[..j + 1], keep)
      == ColumnCount(g, cx, ys[..j], keep) + (if keep(cx, ys[j]) && LitAt(g, cx, ys[j]) then 1 else 0)
  {
    assert ys[..j + 1][..j] == ys[..j];
  }

  lemma BlockStep(g: LightGrid, xs: seq<nat>, ys: seq<nat>, i: nat, keep: (nat, nat) -> bool)
    requires i < |xs|
    ensures BlockCount(g, xs[..i + 1], ys, keep) == BlockCount(g, xs[..i], ys, keep) + ColumnCount(g, xs[i], ys, keep)
  {
    assert xs[..i + 1][..i] == xs[..i];
  }

  /** `LightGrid::count_adjacent_on`; a coordinate off the grid panics. */
  method CountAdjacentOn(g: LightGrid, x: nat, y: nat) returns (n: nat)
    requires Square(g) && x < |g.lights| && y < |g.lights|
    ensures n == AdjacentOn(g, x, y)
  {
    var last := |g.lights| - 1;
    var xs := AroundList(x, last);
    var ys := AroundList(y, last);
    var ret := 0;
    for i := 0 to |xs|
      invariant ret == BlockCount(g, xs[..i], ys, OffDiagonal)
    {
      var cx := xs[i];
      for j := 0 to |ys|
        invariant ret == BlockCount(g, xs[..i], ys, OffDiagonal) + ColumnCount(g, cx, ys[..j], OffDiagonal)
      {
        var cy := ys[j];
        ColumnStep(g, cx, ys, j, OffDiagonal);
        if cx != cy && g.lights[cy][cx] {
          ret := ret + 1;
        }
      }
      assert ys[..|ys|] == ys;
      BlockStep(g, xs, ys, i, OffDiagonal);
    }
    assert xs[..|xs|] == xs;
    n := ret;
  }

  // ---------------------------------------------------------------------
  // The count as written against the count meant

  lemma {:induction false} ColumnAgree(g: LightGrid, cx: nat, ys: seq<nat>, k1: (nat, nat) -> bool, k2: (nat, nat) -> bool)
    requires forall j :: 0 <= j < |ys| ==> k1(cx, ys[j]) == k2(cx, ys[j])
    ensures ColumnCount(g, cx, ys, k1) == ColumnCount(g, cx, ys, k2)
    decreases |ys|
  {
    if ys != [] {
      ColumnAgree(g, cx, ys[..|ys| - 1], k1, k2);
    }
  }

  lemma {:induction false} BlockAgree(g: LightGrid, xs: seq<nat>, ys: seq<nat>, k1: (nat, nat) -> bool, k2: (nat, nat) -> bool)
    requires forall i, j :: 0 <= i < |xs| && 0 <= j < |ys| ==> k1(xs[i], ys[j]) == k2(xs[i], ys[j])
    ensures BlockCount(g, xs, ys, k1) == BlockCount(g, xs, ys, k2)
    decreases |xs|
  {
    if xs != [] {
      BlockAgree(g, xs[..|xs| - 1], ys, k1, k2);
      ColumnAgree(g, xs[|xs| - 1], ys, k1, k2);
    }
  }

  lemma {:induction false} ColumnAppend(g: LightGrid, cx: nat, a: seq<nat>, b: seq<nat>, keep: (nat, nat) -> bool)
    ensures ColumnCount(g, cx, a + b, keep) == ColumnCount(g, cx, a, keep) + ColumnCount(g, cx, b, keep)
    decreases |b|
  {
    if b != [] {
      assert (a + b)[..|a + b| - 1] == a + b[..|b| - 1];
      ColumnAppend(g, cx, a, b[..|b| - 1], keep);
    } else {
      assert a + b == a;
    }
  }

  lemma {:induction false} BlockAppend(g: LightGrid, a: seq<nat>, b: seq<nat>, ys: seq<nat>, keep: (nat, nat) -> bool)
    ensures BlockCount(g, a + b, ys, keep) == BlockCount(g, a, ys, keep) + BlockCount(g, b, ys, keep)
    decreases |b|
  {
    if b != [] {
      assert (a + b)[..|a + b| - 1] == a + b[..|b| - 1];
      BlockAppend(g, a, b[..|b| - 1], ys, keep);
    } else {
      assert a + b == a;
    }
  }

  /** Every light of the block, the cell included. */
  predicate Everything(cx: nat, cy: nat)
  {
    true
  }

  /** With the cell first among the columns and rows and nowhere else, a
      test that lets everything through counts one light more than one
      that leaves out only the cell, when the cell is on. */
  lemma CentreOnce(g: LightGrid, x: nat, y: nat, xs: seq<nat>, ys: seq<nat>)
    requires x !in xs && y !in ys
    ensures BlockCount(g, [x] + xs, [y] + ys, Everything)
      == BlockCount(g, [x] + xs, [y] + ys, (cx, cy) => cx != x || cy != y) + (if LitAt(g, x, y) then 1 else 0)
  {
    var keep := (cx, cy) => cx != x || cy != y;
    BlockAppend(g, [x], xs, [y] + ys, Everything);
    BlockAppend(g, [x], xs, [y] + ys, keep);
    BlockAgree(g, xs, [y] + ys, Everything, keep);
    assert BlockCount(g, [x], [y] + ys, Everything) == ColumnCount(g, x, [y] + ys, Everything);
    assert BlockCount(g, [x], [y] + ys, keep) == ColumnCount(g, x, [y] + ys, keep);
    ColumnAppend(g, x, [y], ys, Everything);
    ColumnAppend(g, x, [y], ys, keep);
    ColumnAgree(g, x, ys, Everything, keep);
  }

  /** Two blocks at least three apart share no coordinate. */
  lemma OffTheDiagonal(x: nat, y: nat, last: nat)
    requires x <= last && y <= last && (x > y + 2 || y > x + 2)
    ensures forall i, j :: 0 <= i < |Around(x, last)| && 0 <= j < |Around(y, last)| ==>
      OffDiagonal(Around(x, last)[i], Around(y, last)[j]) == Everything(Around(x, last)[i], Around(y, last)[j])
  {
    var xs, ys := Around(x, last), Around(y, last);
    forall i, j | 0 <= i < |xs| && 0 <= j < |ys|
      ensures OffDiagonal(xs[i], ys[j])
    {
      AroundExactly(x, last, xs[i]);
      AroundExactly(y, last, ys[j]);
    }
  }

  /** Away from the diagonal every cell of the block is off it, so the
      cell counts itself: one more than its neighbours when it is on. */
  lemma FarFromDiagonal(g: LightGrid, x: nat, y: nat)
    requires Square(g) && x < |g.lights| && y < |g.lights|
    requires x > y + 2 || y > x + 2
    ensures AdjacentOn(g, x, y) == Neighbours(g, x, y) + (if g.lights[y][x] then 1 else 0)
  {
    var last := |g.lights| - 1;
    OffTheDiagonal(x, y, last);
    BlockAgree(g, Around(x, last), Around(y, last), OffDiagonal, Everything);
    CentreOnce(g, x, y, Beside(x, last), Beside(y, last));
  }

  /** The count the puzzle means leaves out the cell itself and nothing
      else of the block: with the cell it is every on light of the block. */
  lemma NeighboursLeaveOutCell(g: LightGrid, x: nat, y: nat)
    requires Square(g) && x < |g.lights| && y < |g.lights|
    ensures Neighbours(g, x, y) + (if g.lights[y][x] then 1 else 0)
      == BlockCount(g, Around(x, |g.lights| - 1), Around(y, |g.lights| - 1), Everything)
  {
    var last := |g.lights| - 1;
    CentreOnce(g, x, y, Beside(x, last), Beside(y, last));
  }

  /** `count_adjacent_on` with the test the puzzle means, `(cx, cy) != (x,
      y)`, in place of `cx != cy`. */
  method CountNeighbours(g: LightGrid, x: nat, y: nat) returns (n: nat)
    requires Square(g) && x < |g.lights| && y < |g.lights|
    ensures n == Neighbours(g, x, y)
  {
    var last := |g.lights| - 1;
    var keep := (cx, cy) => cx != x || cy != y;
    var xs := AroundList(x, last);
    var ys := AroundList(y, last);
    var ret := 0;
    for i := 0 to |xs|
      invariant ret == BlockCount(g, xs[..i], ys, keep)
    {
      var cx := xs[i];
      for j := 0 to |ys|
        invariant ret == BlockCount(g, xs[..i], ys, keep) + ColumnCount(g, cx, ys[..j], keep)
      {
        var cy := ys[j];
        ColumnStep(g, cx, ys, j, keep);
        if (cx != x || cy != y) && g.lights[cy][cx] {
          ret := ret + 1;
        }
      }
      assert ys[..|ys|] == ys;
      BlockStep(g, xs, ys, i, keep);
    }
    assert xs[..|xs|] == xs;
    n := ret;
  }

  /** The grid of the given edge with every light on. */
  function Full(edge: nat): (g: LightGrid)
    ensures Square(g) && Edge(g) == edge
  {
    LightGrid(seq(edge, _ => seq(edge, _ => true)))
  }

  function Kept(keep: (nat, nat) -> bool, cx: nat, cy: nat): nat
  {
    if keep(cx, cy) then 1 else 0
  }

  /** A column of three lights, all on, read middle-first. */
  lemma FullColumn(g: LightGrid, cx: nat, keep: (nat, nat) -> bool)
    requires g == Full(3) && cx < 3
    ensures ColumnCount(g, cx, [1, 0, 2], keep) == Kept(keep, cx, 1) + Kept(keep, cx, 0) + Kept(keep, cx, 2)
  {
    assert [1, 0, 2][..2] == [1, 0];
    assert [1, 0][..1] == [1];
    assert [1][..0] == [];
  }

  /** The 3 by 3 block around the centre, all on. */
  lemma FullBlock(g: LightGrid, keep: (nat, nat) -> bool)
    requires g == Full(3)
    ensures BlockCount(g, [1, 0, 2], [1, 0, 2], keep)
      == Kept(keep, 1, 1) + Kept(keep, 1, 0) + Kept(keep, 1, 2)
       + Kept(keep, 0, 1) + Kept(keep, 0, 0) + Kept(keep, 0, 2)
       + Kept(keep, 2, 1) + Kept(keep, 2, 0) + Kept(keep, 2, 2)
  {
    assert [1, 0, 2][..2] == [1, 0];
    assert [1, 0][..1] == [1];
    assert [1][..0] == [];
    FullColumn(g, 1, keep);
    FullColumn(g, 0, keep);
    FullColumn(g, 2, keep);
  }

  /** In a 3 by 3 grid all on, the centre has eight neighbours on but the
      count sees six: the corners on the diagonal are skipped. */
  lemma DiagonalExample(g: LightGrid)
    requires g == Full(3)
    ensures Neighbours(g, 1, 1) == 8 && AdjacentOn(g, 1, 1) == 6
  {
    assert Around(1, 2) == [1, 0, 2];
    FullBlock(g, OffDiagonal);
    FullBlock(g, (cx, cy) => cx != 1 || cy != 1);
  }

  // ---------------------------------------------------------------------
  // Animation

  /** The rule of the animation for a light and its counted neighbours. */
  predicate Rule(on: bool, count: nat)
  {
    if on then count == 2 || count == 3 else count == 3
  }

  /** The light at `x, y` after one step. */
  predicate After(g: LightGrid, x: nat, y: nat)
    requires Square(g) && x < |g.lights| && y < |g.lights|
  {
    Rule(g.lights[y][x], AdjacentOn(g, x, y))
  }

  /** The part of the new grid `next_state` has filled: the columns before
      `x`, and the rows before `y` of column `x`. */
  predicate FilledTo(g: LightGrid, ret: seq<seq<bool>>, x: nat, y: nat)
    requires Square(g)
  {
    |ret| == |g.lights| && (forall r :: 0 <= r < |ret| ==> |ret[r]| == |g.lights|)
    && forall r, c :: 0 <= r < |ret| && 0 <= c < |ret| ==>
      ret[r][c] == ((c < x || (c == x && r < y)) && After(g, c, r))
  }

  /** `LightGrid::next_state`: a new grid of the same edge where every
      light follows the rule; the grid stepped from is a value and is left
      as it was. */
  method NextState(g: LightGrid) returns (r: LightGrid)
    requires Square(g)
    ensures Square(r) && Edge(r) == Edge(g)
    ensures forall y, x :: 0 <= y < Edge(g) && 0 <= x < Edge(g) ==> r.lights[y][x] == After(g, x, y)
  {
    var e := |g.lights|;
    var ret := Blank(e).lights;
    for x := 0 to e
      invariant FilledTo(g, ret, x, 0)
    {
      for y := 0 to e
        invariant FilledTo(g, ret, x, y)
      {
        var v;
        if g.lights[y][x] {
          var n := CountAdjacentOn(g, x, y);
          v := n == 2 || n == 3;
        } else {
          var n := CountAdjacentOn(g, x, y);
          v := n == 3;
        }
        ret := ret[y := ret[y][x := v]];
      }
    }
    r := LightGrid(ret);
  }

  lemma {:induction false} ColumnNone(g: LightGrid, cx: nat, ys: seq<nat>, keep: (nat, nat) -> bool)
    requires forall j :: 0 <= j < |ys| ==> !LitAt(g, cx, ys[j])
    ensures ColumnCount(g, cx, ys, keep) == 0
    decreases |ys|
  {
    if ys != [] {
      ColumnNone(g, cx, ys[..|ys| - 1], keep);
    }
  }

  lemma {:induction false} BlockNone(g: LightGrid, xs: seq<nat>, ys: seq<nat>, keep: (nat, nat) -> bool)
    requires forall i, j :: 0 <= i < |xs| && 0 <= j < |ys| ==> !LitAt(g, xs[i], ys[j])
    ensures BlockCount(g, xs, ys, keep) == 0
    decreases |xs|
  {
    if xs != [] {
      BlockNone(g, xs[..|xs| - 1], ys, keep);
      ColumnNone(g, xs[|xs| - 1], ys, keep);
    }
  }

  /** A dark grid stays dark. */
  lemma BlankStaysBlank(edge: nat, x: nat, y: nat)
    requires x < edge && y < edge
    ensures !After(Blank(edge), x, y)
  {
    var g := Blank(edge);
    BlockNone(g, Around(x, edge - 1), Around(y, edge - 1), OffDiagonal);
  }

  // ---------------------------------------------------------------------
  // Counting the lights on

  /** The on lights of column `x` in the rows before `n`. */
  function ColumnOn(g: LightGrid, x: nat, n: nat): (c: nat)
    requires Square(g) && x < |g.lights| && n <= |g.lights|
    ensures c <= n
  {
    if n == 0 then 0 else ColumnOn(g, x, n - 1) + (if g.lights[n - 1][x] then 1 else 0)
  }

  /** The on lights of the columns before `m`. */
  function GridOn(g: LightGrid, m: nat): (c: nat)
    requires Square(g) && m <= |g.lights|
    ensures c <= m * |g.lights|
  {
    if m == 0 then 0 else GridOn(g, m - 1) + ColumnOn(g, m - 1, |g.lights|)
  }

  /** `LightGrid::count_on`: the lights on, at most the number of cells. */
  method CountOn(g: LightGrid) returns (n: nat)
    requires Square(g)
    ensures n == GridOn(g, Edge(g)) && n <= Edge(g) * Edge(g)
  {
    var e := |g.lights|;
    var ret := 0;
    for x := 0 to e
      invariant ret == GridOn(g, x)
    {
      for y := 0 to e
        invariant ret == GridOn(g, x) + ColumnOn(g, x, y)
      {
        if g.lights[y][x] {
          ret := ret + 1;
        }
      }
    }
    n := ret;
  }

  lemma {:induction false} ColumnOnAll(g: LightGrid, x: nat, n: nat, on: bool)
    requires Square(g) && x < |g.lights| && n <= |g.lights|
    requires forall y :: 0 <= y < |g.lights| ==> g.lights[y][x] == on
    ensures ColumnOn(g, x, n) == if on then n else 0
    decreases n
  {
    if n > 0 {
      ColumnOnAll(g, x, n - 1, on);
    }
  }

  lemma {:induction false} GridOnAll(g: LightGrid, m: nat, on: bool)
    requires Square(g) && m <= |g.lights|
    requires forall y, x :: 0 <= y < |g.lights| && 0 <= x < |g.lights| ==> g.lights[y][x] == on
    ensures GridOn(g, m) == if on then m * |g.lights| else 0
    decreases m
  {
    if m > 0 {
      GridOnAll(g, m - 1, on);
      ColumnOnAll(g, m - 1, |g.lights|, on);
    }
  }

  /** No light is on in a blank grid, and every one in a full grid. */
  lemma CountBlankFull(edge: nat)
    ensures GridOn(Blank(edge), edge) == 0
    ensures GridOn(Full(edge), edge) == edge * edge
  {
    GridOnAll(Blank(edge), edge, false);
    GridOnAll(Full(edge), edge, true);
  }
}
