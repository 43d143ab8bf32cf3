// Day 6 (second generation): a fixed grid of lights, each command applied
// in place to an inclusive rectangle of it. The lights are either on/off
// switches or `u8` brightness levels.

module Day06 {
  import opened Text

  datatype Instruction = TurnOn | TurnOff | Toggle

  datatype Point = Point(x: int, y: int)

  datatype Command = Command(instruction: Instruction, from: Point, to: Point)

  function Min(a: int, b: int): int { if a <= b then a else b }
  function Max(a: int, b: int): int { if a >= b then a else b }

  /** The cell lies in the inclusive rectangle spanned by the two corners,
      whichever order they come in. */
  predicate Covers(c: Command, x: int, y: int)
  {
    Min(c.from.x, c.to.x) <= x <= Max(c.from.x, c.to.x) &&
    Min(c.from.y, c.to.y) <= y <= Max(c.from.y, c.to.y)
  }

  /** Swapping the corners names the same rectangle. */
  lemma CoversSymmetric(i: Instruction, a: Point, b: Point, x: int, y: int)
    ensures Covers(Command(i, a, b), x, y) <==> Covers(Command(i, b, a), x, y)
  {
  }

  /** `ManipulateLight<bool>`: on, off, or flipped. */
  function Switch(i: Instruction, light: bool): bool
  {
    match i
    case TurnOn => true
    case TurnOff => false
    case Toggle => !light
  }

  lemma SwitchLaws(light: bool)
    ensures Switch(Toggle, Switch(Toggle, light)) == light
    ensures Switch(Toggle, light) != light
    ensures Switch(TurnOn, Switch(TurnOn, light)) == Switch(TurnOn, light)
    ensures Switch(TurnOff, Switch(TurnOff, light)) == Switch(TurnOff, light)
  {
  }

  /** How much an instruction raises a brightness level. */
  function Raise(i: Instruction): nat
  {
    match i
    case TurnOn => 1
    case TurnOff => 0
    case Toggle => 2
  }

  /** `ManipulateLight<u8>`: one up, one down but never below zero, or two up.
      Going above `u8::MAX` panics in the source, so callers keep
      `level + Raise(i)` within it. */
  function Brighten(i: Instruction, level: int): (r: int)
    requires 0 <= level && level + Raise(i) <= U8_MAX
    ensures 0 <= r <= U8_MAX
    ensures i == TurnOff ==> r == if level == 0 then 0 else level - 1
    ensures i != TurnOff ==> r == level + Raise(i)
  {
    match i
    case TurnOn => level + 1
    case TurnOff => if level > 0 then level - 1 else 0
    case Toggle => level + 2
  }

  /** The command's rectangle lies inside the grid; indexing outside it
      panics in the source. */
  predicate InGrid<L>(c: Command, grid: array2<L>)
  {
    0 <= Min(c.from.x, c.to.x) && Max(c.from.x, c.to.x) < grid.Length0 &&
    0 <= Min(c.from.y, c.to.y) && Max(c.from.y, c.to.y) < grid.Length1
  }

  /** `Command::apply`: every cell of the rectangle, row by row, goes
      through `manipulate`; every other cell keeps its value. */
  method Apply<L>(c: Command, grid: array2<L>, manipulate: L -> L)
    requires InGrid(c, grid)
    modifies grid
    ensures forall x, y :: 0 <= x < grid.Length0 && 0 <= y < grid.Length1 ==>
      grid[x, y] == if Covers(c, x, y) then manipulate(old(grid[x, y])) else old(grid[x, y])
  {
    var minX, maxX := Min(c.from.x, c.to.x), Max(c.from.x, c.to.x);
    var minY, maxY := Min(c.from.y, c.to.y), Max(c.from.y, c.to.y);
    var y := minY;
    while y <= maxY
      invariant minY <= y <= maxY + 1
      invariant forall i, j :: 0 <= i < grid.Length0 && 0 <= j < grid.Length1 ==>
        grid[i, j] == if minX <= i <= maxX && minY <= j < y then manipulate(old(grid[i, j])) else old(grid[i, j])
    {
      var x := minX;
      while x <= maxX
        invariant minX <= x <= maxX + 1
        invariant forall i, j :: 0 <= i < grid.Length0 && 0 <= j < grid.Length1 ==>
          grid[i, j] ==
            if (minX <= i <= maxX && minY <= j < y) || (minX <= i < x && j == y)
            then manipulate(old(grid[i, j])) else old(grid[i, j])
      {
        grid[x, y] := manipulate(grid[x, y]);
        x := x + 1;
      }
      y := y + 1;
    }
  }

  /** `apply` on a grid of switches. */
  method ApplySwitches(c: Command, grid: array2<bool>)
    requires InGrid(c, grid)
    modifies grid
    ensures forall x, y :: 0 <= x < grid.Length0 && 0 <= y < grid.Length1 ==>
      grid[x, y] == if Covers(c, x, y) then Switch(c.instruction, old(grid[x, y])) else old(grid[x, y])
  {
    Apply(c, grid, light => Switch(c.instruction, light));
  }

  /** Every cell holds a `u8`. */
  ghost predicate Levels(grid: array2<int>)
    reads grid
  {
    forall x, y :: 0 <= x < grid.Length0 && 0 <= y < grid.Length1 ==> 0 <= grid[x, y] <= U8_MAX
  }

  /** `apply` on a grid of brightness levels, none of them pushed past
      `u8::MAX`. */
  method ApplyLevels(c: Command, grid: array2<int>)
    requires InGrid(c, grid) && Levels(grid)
    requires forall x, y :: 0 <= x < grid.Length0 && 0 <= y < grid.Length1 && Covers(c, x, y) ==>
      grid[x, y] + Raise(c.instruction) <= U8_MAX
    modifies grid
    ensures Levels(grid)
    ensures forall x, y :: 0 <= x < grid.Length0 && 0 <= y < grid.Length1 ==>
      grid[x, y] == if Covers(c, x, y) then Brighten(c.instruction, old(grid[x, y])) else old(grid[x, y])
  {
    var i := c.instruction;
    Apply(c, grid, level => if 0 <= level && level + Raise(i) <= U8_MAX then Brighten(i, level) else level);
  }

  // ---------------------------------------------------------------------
  // A sequence of commands, cell by cell.

  /** The switch at `(x, y)` after commands `i..` starting from `light`. */
  function SwitchFrom(cmds: seq<Command>, i: nat, x: int, y: int, light: bool): bool
    requires i <= |cmds|
    decreases |cmds| - i
  {
    if i == |cmds| then light
    else SwitchFrom(cmds, i + 1, x, y, if Covers(cmds[i], x, y) then Switch(cmds[i].instruction, light) else light)
  }

  /** The loop of `part1`: each command applied to the grid in turn. */
  method RunSwitches(cmds: seq<Command>, grid: array2<bool>)
    requires forall k :: 0 <= k < |cmds| ==> InGrid(cmds[k], grid)
    modifies grid
    ensures forall x, y :: 0 <= x < grid.Length0 && 0 <= y < grid.Length1 ==>
      grid[x, y] == SwitchFrom(cmds, 0, x, y, old(grid[x, y]))
  {
    for k := 0 to |cmds|
      invariant forall x, y :: 0 <= x < grid.Length0 && 0 <= y < grid.Length1 ==>
        SwitchFrom(cmds, k, x, y, grid[x, y]) == SwitchFrom(cmds, 0, x, y, old(grid[x, y]))
    {
      ApplySwitches(cmds[k], grid);
    }
  }

  /** Commands `i..` never push the level at `(x, y)`, starting at `level`,
      past `u8::MAX`. */
  predicate FitsFrom(cmds: seq<Command>, i: nat, x: int, y: int, level: int)
    requires i <= |cmds| && 0 <= level <= U8_MAX
    decreases |cmds| - i
  {
    i == |cmds| ||
    (var c := cmds[i];
     (Covers(c, x, y) ==> level + Raise(c.instruction) <= U8_MAX) &&
     FitsFrom(cmds, i + 1, x, y, if Covers(c, x, y) then Brighten(c.instruction, level) else level))
  }

  /** The level at `(x, y)` after commands `i..` starting from `level`. */
  function LevelFrom(cmds: seq<Command>, i: nat, x: int, y: int, level: int): (r: int)
    requires i <= |cmds| && 0 <= level <= U8_MAX && FitsFrom(cmds, i, x, y, level)
    ensures 0 <= r <= U8_MAX
    decreases |cmds| - i
  {
    if i == |cmds| then level
    else
      var c := cmds[i];
      LevelFrom(cmds, i + 1, x, y, if Covers(c, x, y) then Brighten(c.instruction, level) else level)
  }

  /** The loop of `part2`. */
  method RunLevels(cmds: seq<Command>, grid: array2<int>)
    requires forall k :: 0 <= k < |cmds| ==> InGrid(cmds[k], grid)
    requires Levels(grid)
    requires forall x, y :: 0 <= x < grid.Length0 && 0 <= y < grid.Length1 ==> FitsFrom(cmds, 0, x, y, grid[x, y])
    modifies grid
    ensures Levels(grid)
    ensures forall x, y :: 0 <= x < grid.Length0 && 0 <= y < grid.Length1 ==>
      grid[x, y] == LevelFrom(cmds, 0, x, y, old(grid[x, y]))
  {
    for k := 0 to |cmds|
      invariant Levels(grid)
      invariant forall x, y :: 0 <= x < grid.Length0 && 0 <= y < grid.Length1 ==>
        FitsFrom(cmds, k, x, y, grid[x, y]) &&
        LevelFrom(cmds, k, x, y, grid[x, y]) == LevelFrom(cmds, 0, x, y, old(grid[x, y]))
    {
      ApplyLevels(cmds[k], grid);
    }
  }

  // ---------------------------------------------------------------------
  // Totals over a `w` by `h` grid.

  ghost function SumRow(f: (int, int) -> int, w: nat, y: int): int
  {
    if w == 0 then 0 else SumRow(f, w - 1, y) + f(w - 1, y)
  }

  /** The sum of `f` over the cells `0 <= x < w`, `0 <= y < h`. */
  ghost function SumCells(f: (int, int) -> int, w: nat, h: nat): int
  {
    if h == 0 then 0 else SumCells(f, w, h - 1) + SumRow(f, w, h - 1)
  }

  lemma {:induction false} SumRowAdd(f: (int, int) -> int, g: (int, int) -> int, s: (int, int) -> int, w: nat, y: int)
    requires forall x :: 0 <= x < w ==> s(x, y) == f(x, y) + g(x, y)
    ensures SumRow(s, w, y) == SumRow(f, w, y) + SumRow(g, w, y)
  {
    if w > 0 {
      SumRowAdd(f, g, s, w - 1, y);
    }
  }

  /** Sums add up cell by cell. */
  lemma {:induction false} SumCellsAdd(f: (int, int) -> int, g: (int, int) -> int, s: (int, int) -> int, w: nat, h: nat)
    requires forall x, y :: 0 <= x < w && 0 <= y < h ==> s(x, y) == f(x, y) + g(x, y)
    ensures SumCells(s, w, h) == SumCells(f, w, h) + SumCells(g, w, h)
  {
    if h > 0 {
      SumCellsAdd(f, g, s, w, h - 1);
      SumRowAdd(f, g, s, w, h - 1);
    }
  }

  lemma {:induction false} SumRowZero(f: (int, int) -> int, w: nat, y: int)
    requires forall x :: 0 <= x < w ==> f(x, y) == 0
    ensures SumRow(f, w, y) == 0
  {
    if w > 0 {
      SumRowZero(f, w - 1, y);
    }
  }

  lemma {:induction false} SumCellsZero(f: (int, int) -> int, w: nat, h: nat)
    requires forall x, y :: 0 <= x < w && 0 <= y < h ==> f(x, y) == 0
    ensures SumCells(f, w, h) == 0
  {
    if h > 0 {
      SumCellsZero(f, w, h - 1);
      SumRowZero(f, w, h - 1);
    }
  }

  lemma {:induction false} SumRowBox(f: (int, int) -> int, x0: int, x1: int, c: int, w: nat, y: int)
    requires 0 <= x0 <= x1 < w
    requires forall x :: 0 <= x < w ==> f(x, y) == if x0 <= x <= x1 then c else 0
    ensures SumRow(f, w, y) == c * (x1 - x0 + 1)
  {
    if w - 1 > x1 {
      SumRowBox(f, x0, x1, c, w - 1, y);
    } else if x0 < x1 {
      SumRowBox(f, x0, x1 - 1, c, w - 1, y);
      assert c * (x1 - x0 + 1) == c * (x1 - 1 - x0 + 1) + c;
    } else {
      SumRowZero(f, w - 1, y);
    }
  }

  /** A value `c` on an inclusive box of cells and zero elsewhere sums to `c`
      times the box's area. */
  lemma {:induction false} SumCellsBox(f: (int, int) -> int, x0: int, x1: int, y0: int, y1: int, c: int, w: nat, h: nat)
    requires 0 <= x0 <= x1 < w && 0 <= y0 <= y1 < h
    requires forall x, y :: 0 <= x < w && 0 <= y < h ==> f(x, y) == if x0 <= x <= x1 && y0 <= y <= y1 then c else 0
    ensures SumCells(f, w, h) == c * (x1 - x0 + 1) * (y1 - y0 + 1)
  {
    var a := c * (x1 - x0 + 1);
    if h - 1 > y1 {
      SumCellsBox(f, x0, x1, y0, y1, c, w, h - 1);
      SumRowZero(f, w, h - 1);
    } else if y0 < y1 {
      SumCellsBox(f, x0, x1, y0, y1 - 1, c, w, h - 1);
      SumRowBox(f, x0, x1, c, w, h - 1);
      assert a * (y1 - y0 + 1) == a * (y1 - 1 - y0 + 1) + a;
    } else {
      SumCellsZero(f, w, h - 1);
      SumRowBox(f, x0, x1, c, w, h - 1);
    }
  }

  /** One on the inclusive box `x0..x1` by `y0..y1`, zero elsewhere. */
  function Box(x0: int, x1: int, y0: int, y1: int): (int, int) -> int
  {
    (x, y) => if x0 <= x <= x1 && y0 <= y <= y1 then 1 else 0
  }

  /** The number of lit switches after `cmds` on a dark `w` by `h` grid. */
  ghost function Lit(cmds: seq<Command>, w: nat, h: nat): int
  {
    SumCells(LitCells(cmds), w, h)
  }

  /** One at the cells that `cmds` leave lit, starting dark. */
  function LitCells(cmds: seq<Command>): (int, int) -> int
  {
    (x, y) => if SwitchFrom(cmds, 0, x, y, false) then 1 else 0
  }

  /** The lit switches in the first `w` cells of row `y` of the grid. */
  ghost function RowLit(grid: array2<bool>, w: nat, y: int): int
    reads grid
    requires w <= grid.Length0 && 0 <= y < grid.Length1
  {
    if w == 0 then 0 else RowLit(grid, w - 1, y) + (if grid[w - 1, y] then 1 else 0)
  }

  /** The lit switches in the first `h` rows of the grid. */
  ghost function GridLit(grid: array2<bool>, h: nat): int
    reads grid
    requires h <= grid.Length1
  {
    if h == 0 then 0 else GridLit(grid, h - 1) + RowLit(grid, grid.Length0, h - 1)
  }

  /** `map.iter().filter(|light| **light).count()` in `part1`. */
  method CountLit(grid: array2<bool>) returns (n: int)
    ensures n == GridLit(grid, grid.Length1)
  {
    n := 0;
    for y := 0 to grid.Length1
      invariant n == GridLit(grid, y)
    {
      var row := 0;
      for x := 0 to grid.Length0
        invariant row == RowLit(grid, x, y)
      {
        if grid[x, y] {
          row := row + 1;
        }
      }
      n := n + row;
    }
  }

  lemma {:induction false} RowLitIsLit(grid: array2<bool>, cmds: seq<Command>, w: nat, y: int)
    requires w <= grid.Length0 && 0 <= y < grid.Length1
    requires forall x :: 0 <= x < w ==> grid[x, y] == SwitchFrom(cmds, 0, x, y, false)
    ensures RowLit(grid, w, y) == SumRow(LitCells(cmds), w, y)
  {
    if w > 0 {
      RowLitIsLit(grid, cmds, w - 1, y);
    }
  }

  /** A grid that holds the switches `cmds` leave, from dark, has as many
      lit as `Lit` counts. */
  lemma {:induction false} GridLitIsLit(grid: array2<bool>, cmds: seq<Command>, h: nat)
    requires h <= grid.Length1
    requires forall x, y :: 0 <= x < grid.Length0 && 0 <= y < grid.Length1 ==>
      grid[x, y] == SwitchFrom(cmds, 0, x, y, false)
    ensures GridLit(grid, h) == Lit(cmds, grid.Length0, h)
  {
    if h > 0 {
      GridLitIsLit(grid, cmds, h - 1);
      RowLitIsLit(grid, cmds, grid.Length0, h - 1);
    }
  }

  // The test sequence of the switch grid, on any grid at least 1000 by
  // 1000: the cells past the commands' corners stay dark.

  const ToggleFirstRow := Command(Toggle, Point(0, 0), Point(999, 0))
  const TurnOnAll := Command(TurnOn, Point(0, 0), Point(999, 999))
  const TurnOffMiddle := Command(TurnOff, Point(499, 499), Point(500, 500))

  /** The switch at each cell after each prefix of the test sequence. */
  lemma TestSwitches(x: int, y: int)
    ensures var all := 0 <= x <= 999 && 0 <= y <= 999;
      && SwitchFrom([ToggleFirstRow], 0, x, y, false) == (all && y == 0)
      && SwitchFrom([ToggleFirstRow, TurnOnAll], 0, x, y, false) == all
      && SwitchFrom([ToggleFirstRow, TurnOnAll, ToggleFirstRow], 0, x, y, false) == (all && y != 0)
      && SwitchFrom([ToggleFirstRow, TurnOnAll, ToggleFirstRow, TurnOffMiddle], 0, x, y, false) ==
        (all && y != 0 && !(499 <= x <= 500 && 499 <= y <= 500))
  {
    var all := 0 <= x <= 999 && 0 <= y <= 999;
    var first := all && y == 0;
    var third := all && y != 0;
    var c1 := [ToggleFirstRow];
    assert SwitchFrom(c1, 1, x, y, first) == first;
    var c2 := [ToggleFirstRow, TurnOnAll];
    assert SwitchFrom(c2, 1, x, y, first) == SwitchFrom(c2, 2, x, y, all);
    var c3 := [ToggleFirstRow, TurnOnAll, ToggleFirstRow];
    assert SwitchFrom(c3, 2, x, y, all) == SwitchFrom(c3, 3, x, y, third);
    assert SwitchFrom(c3, 1, x, y, first) == SwitchFrom(c3, 2, x, y, all);
    var c4 := [ToggleFirstRow, TurnOnAll, ToggleFirstRow, TurnOffMiddle];
    var last := third && !(499 <= x <= 500 && 499 <= y <= 500);
    assert SwitchFrom(c4, 3, x, y, third) == SwitchFrom(c4, 4, x, y, last);
    assert SwitchFrom(c4, 2, x, y, all) == SwitchFrom(c4, 3, x, y, third);
    assert SwitchFrom(c4, 1, x, y, first) == SwitchFrom(c4, 2, x, y, all);
  }

  lemma LitAfterFirstToggle(w: nat, h: nat)
    requires w >= 1000 && h >= 1000
    ensures Lit([ToggleFirstRow], w, h) == 1000
  {
    var lit := LitCells([ToggleFirstRow]);
    forall x, y
      ensures lit(x, y) == Box(0, 999, 0, 0)(x, y)
    {
      TestSwitches(x, y);
    }
    SumCellsBox(lit, 0, 999, 0, 0, 1, w, h);
  }

  lemma LitAfterTurnOn(w: nat, h: nat)
    requires w >= 1000 && h >= 1000
    ensures Lit([ToggleFirstRow, TurnOnAll], w, h) == 1000000
  {
    var lit := LitCells([ToggleFirstRow, TurnOnAll]);
    forall x, y
      ensures lit(x, y) == Box(0, 999, 0, 999)(x, y)
    {
      TestSwitches(x, y);
    }
    SumCellsBox(lit, 0, 999, 0, 999, 1, w, h);
  }

  lemma LitAfterSecondToggle(w: nat, h: nat)
    requires w >= 1000 && h >= 1000
    ensures Lit([ToggleFirstRow, TurnOnAll, ToggleFirstRow], w, h) == 999000
  {
    var lit := LitCells([ToggleFirstRow, TurnOnAll, ToggleFirstRow]);
    var all, row := Box(0, 999, 0, 999), Box(0, 999, 0, 0);
    forall x, y
      ensures all(x, y) == lit(x, y) + row(x, y)
    {
      TestSwitches(x, y);
    }
    SumCellsBox(all, 0, 999, 0, 999, 1, w, h);
    SumCellsBox(row, 0, 999, 0, 0, 1, w, h);
    SumCellsAdd(lit, row, all, w, h);
  }

  lemma LitAfterTurnOff(w: nat, h: nat)
    requires w >= 1000 && h >= 1000
    ensures Lit([ToggleFirstRow, TurnOnAll, ToggleFirstRow, TurnOffMiddle], w, h) == 998996
  {
    var lit := LitCells([ToggleFirstRow, TurnOnAll, ToggleFirstRow, TurnOffMiddle]);
    var all, row, middle := Box(0, 999, 0, 999), Box(0, 999, 0, 0), Box(499, 500, 499, 500);
    var dark := (x: int, y: int) => row(x, y) + middle(x, y);
    forall x, y
      ensures all(x, y) == lit(x, y) + dark(x, y)
    {
      TestSwitches(x, y);
    }
    SumCellsBox(all, 0, 999, 0, 999, 1, w, h);
    SumCellsBox(row, 0, 999, 0, 0, 1, w, h);
    SumCellsBox(middle, 499, 500, 499, 500, 1, w, h);
    SumCellsAdd(row, middle, dark, w, h);
    SumCellsAdd(lit, dark, all, w, h);
  }

  /** The level at each cell after `cmds`, starting dark; zero at a cell
      where some command would overflow. */
  function LevelCells(cmds: seq<Command>): (int, int) -> int
  {
    (x, y) => if FitsFrom(cmds, 0, x, y, 0) then LevelFrom(cmds, 0, x, y, 0) else 0
  }

  /** The total brightness after `cmds` on a dark `w` by `h` grid. */
  ghost function Brightness(cmds: seq<Command>, w: nat, h: nat): int
  {
    SumCells(LevelCells(cmds), w, h)
  }

  /** The sum of the first `w` levels of row `y`. */
  ghost function RowLevel(grid: array2<int>, w: nat, y: int): int
    reads grid
    requires w <= grid.Length0 && 0 <= y < grid.Length1
  {
    if w == 0 then 0 else RowLevel(grid, w - 1, y) + grid[w - 1, y]
  }

  /** The sum of the levels of the first `h` rows. */
  ghost function GridLevel(grid: array2<int>, h: nat): int
    reads grid
    requires h <= grid.Length1
  {
    if h == 0 then 0 else GridLevel(grid, h - 1) + RowLevel(grid, grid.Length0, h - 1)
  }

  /** `map.iter().map(|light| *light as u64).sum()` in `part2`. */
  method SumLevels(grid: array2<int>) returns (n: int)
    ensures n == GridLevel(grid, grid.Length1)
  {
    n := 0;
    for y := 0 to grid.Length1
      invariant n == GridLevel(grid, y)
    {
      var row := 0;
      for x := 0 to grid.Length0
        invariant row == RowLevel(grid, x, y)
      {
        row := row + grid[x, y];
      }
      n := n + row;
    }
  }

  lemma {:induction false} RowLevelIsBrightness(grid: array2<int>, cmds: seq<Command>, w: nat, y: int)
    requires w <= grid.Length0 && 0 <= y < grid.Length1
    requires forall x :: 0 <= x < w ==> FitsFrom(cmds, 0, x, y, 0) && grid[x, y] == LevelFrom(cmds, 0, x, y, 0)
    ensures RowLevel(grid, w, y) == SumRow(LevelCells(cmds), w, y)
  {
    if w > 0 {
      RowLevelIsBrightness(grid, cmds, w - 1, y);
    }
  }

  /** A grid that holds the levels `cmds` leave, from dark, sums to
      `Brightness`. */
  lemma {:induction false} GridLevelIsBrightness(grid: array2<int>, cmds: seq<Command>, h: nat)
    requires h <= grid.Length1
    requires forall x, y :: 0 <= x < grid.Length0 && 0 <= y < grid.Length1 ==>
      FitsFrom(cmds, 0, x, y, 0) && grid[x, y] == LevelFrom(cmds, 0, x, y, 0)
    ensures GridLevel(grid, h) == Brightness(cmds, grid.Length0, h)
  {
    if h > 0 {
      GridLevelIsBrightness(grid, cmds, h - 1);
      RowLevelIsBrightness(grid, cmds, grid.Length0, h - 1);
    }
  }

  // The test sequence of the brightness grid.

  const TurnOnCorner := Command(TurnOn, Point(0, 0), Point(0, 0))
  const ToggleAll := Command(Toggle, Point(0, 0), Point(999, 999))

  /** The level at each cell after the brightness test sequence; no cell
      overflows. */
  lemma TestLevels(x: int, y: int)
    ensures FitsFrom([TurnOnCorner], 0, x, y, 0)
    ensures FitsFrom([TurnOnCorner, ToggleAll], 0, x, y, 0)
    ensures LevelFrom([TurnOnCorner], 0, x, y, 0) == Box(0, 0, 0, 0)(x, y)
    ensures LevelFrom([TurnOnCorner, ToggleAll], 0, x, y, 0) ==
      Box(0, 0, 0, 0)(x, y) + 2 * Box(0, 999, 0, 999)(x, y)
  {
    var c2 := [TurnOnCorner, ToggleAll];
    var first := Box(0, 0, 0, 0)(x, y);
    var second := first + 2 * Box(0, 999, 0, 999)(x, y);
    assert FitsFrom(c2, 2, x, y, second) && LevelFrom(c2, 2, x, y, second) == second;
    assert FitsFrom(c2, 1, x, y, first) && LevelFrom(c2, 1, x, y, first) == second;
  }

  lemma BrightnessAfterCorner(w: nat, h: nat)
    requires w >= 1000 && h >= 1000
    ensures Brightness([TurnOnCorner], w, h) == 1
  {
    var level := LevelCells([TurnOnCorner]);
    forall x, y
      ensures level(x, y) == Box(0, 0, 0, 0)(x, y)
    {
      TestLevels(x, y);
    }
    SumCellsBox(level, 0, 0, 0, 0, 1, w, h);
  }

  lemma BrightnessAfterToggle(w: nat, h: nat)
    requires w >= 1000 && h >= 1000
    ensures Brightness([TurnOnCorner, ToggleAll], w, h) == 2000001
  {
    var level := LevelCells([TurnOnCorner, ToggleAll]);
    var corner, all := Box(0, 0, 0, 0), Box(0, 999, 0, 999);
    var two := (x: int, y: int) => 2 * all(x, y);
    forall x, y
      ensures level(x, y) == corner(x, y) + two(x, y)
    {
      TestLevels(x, y);
    }
    SumCellsBox(corner, 0, 0, 0, 0, 1, w, h);
    SumCellsBox(two, 0, 999, 0, 999, 2, w, h);
    SumCellsAdd(corner, two, level, w, h);
  }

  // ---------------------------------------------------------------------
  // The two puzzle answers, on the 1000 by 1000 grid.

  /** `part1`: the commands on a dark grid of switches, then the count of
      the lit ones. */
  method Part1(cmds: seq<Command>) returns (lit: int)
    requires forall k :: 0 <= k < |cmds| ==> InRange(cmds[k])
    ensures lit == Lit(cmds, 1000, 1000)
  {
    var grid := new bool[1000, 1000]((x, y) => false);
    RunSwitches(cmds, grid);
    lit := CountLit(grid);
    GridLitIsLit(grid, cmds, 1000);
  }

  /** `part2`: the commands on a dark grid of levels, then their sum. */
  method Part2(cmds: seq<Command>) returns (brightness: int)
    requires forall k :: 0 <= k < |cmds| ==> InRange(cmds[k])
    requires forall x, y :: FitsFrom(cmds, 0, x, y, 0)
    ensures brightness == Brightness(cmds, 1000, 1000)
  {
    var grid := new int[1000, 1000]((x, y) => 0);
    RunLevels(cmds, grid);
    brightness := SumLevels(grid);
    GridLevelIsBrightness(grid, cmds, 1000);
  }

  /** Both corners lie on the 1000 by 1000 grid. */
  predicate InRange(c: Command)
  {
    0 <= Min(c.from.x, c.to.x) && Max(c.from.x, c.to.x) < 1000 &&
    0 <= Min(c.from.y, c.to.y) && Max(c.from.y, c.to.y) < 1000
  }
}
