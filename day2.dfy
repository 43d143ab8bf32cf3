// Day 2 (first generation): a box that caches its face areas, and the
// parser of its `LxWxH` notation.

module Day2 {
  import opened Text
  import Day02

  /** The three dimensions and the three cached face areas. */
  datatype GiftBox = GiftBox(x: int, y: int, z: int, xy: int, xz: int, yz: int)

  datatype Error = WrongFieldCount | NotAnInteger | NonPositive

  datatype Result<T> = Ok(value: T) | Err(error: Error)

  /** `GiftBox::new`: positive dimensions, with their face areas cached. */
  function New(x: int, y: int, z: int): (r: Result<GiftBox>)
    ensures r.Ok? <==> x > 0 && y > 0 && z > 0
    ensures r.Err? ==> r.error == NonPositive
    ensures r.Ok? ==> var b := r.value;
      b.x == x && b.y == y && b.z == z && b.xy == x * y && b.xz == x * z && b.yz == y * z
  {
    if x > 0 && y > 0 && z > 0 then Ok(GiftBox(x, y, z, x * y, x * z, y * z))
    else Err(NonPositive)
  }

  /** `GiftBox::parse`: exactly three `x`-separated fields, each an `i32`,
      then `new`. */
  function Parse(input: string): (r: Result<GiftBox>)
    ensures |Split(input, "x")| != 3 ==> r == Err(WrongFieldCount)
  {
    var fields := Split(input, "x");
    if |fields| != 3 then Err(WrongFieldCount)
    else
      match (ParseI32(fields[0]), ParseI32(fields[1]), ParseI32(fields[2]))
      case (Some(x), Some(y), Some(z)) => New(x, y, z)
      case _ => Err(NotAnInteger)
  }

  /** `surface_area`: twice the cached face areas, so at least six times
      the smallest, and even. */
  function SurfaceArea(b: GiftBox): (r: int)
    ensures r >= 6 * SmallestSide(b)
    ensures r % 2 == 0
  {
    2 * (b.xz + b.xy + b.yz)
  }

  /** `smallest_side`: the least of the cached face areas. */
  function SmallestSide(b: GiftBox): (r: int)
    ensures r <= b.xy && r <= b.xz && r <= b.yz
    ensures r == b.xy || r == b.xz || r == b.yz
  {
    if b.xy <= (if b.xz <= b.yz then b.xz else b.yz) then b.xy
    else if b.xz <= b.yz then b.xz else b.yz
  }

  /** `paper`: the surface plus the smallest face as slack, which is at
      most a sixth of the surface. */
  function Paper(b: GiftBox): (r: int)
    ensures r - SurfaceArea(b) <= b.xy && r - SurfaceArea(b) <= b.xz && r - SurfaceArea(b) <= b.yz
    ensures r - SurfaceArea(b) == b.xy || r - SurfaceArea(b) == b.xz || r - SurfaceArea(b) == b.yz
    ensures 6 * r <= 7 * SurfaceArea(b)
  {
    SurfaceArea(b) + SmallestSide(b)
  }

  /** The cached box agrees with the second generation's on every
      measure: the same surface, slack and paper. */
  lemma AgreesWithDay02(x: int, y: int, z: int)
    requires x > 0 && y > 0 && z > 0
    ensures var b := New(x, y, z).value; var c := Day02.GiftBox(x, y, z);
      SurfaceArea(b) == Day02.SurfaceArea(c) && SmallestSide(b) == Day02.SmallestSide(c) &&
      Paper(b) == Day02.Paper(c)
  {
  }

  /** The text `{x}x{y}x{z}` that the second generation displays a box as. */
  function Format(x: nat, y: nat, z: nat): string
  {
    DecimalString(x) + "x" + DecimalString(y) + "x" + DecimalString(z)
  }

  /** The three fields of a formatted box. */
  lemma SplitFormat(x: nat, y: nat, z: nat)
    ensures Split(Format(x, y, z), "x") == [DecimalString(x), DecimalString(y), DecimalString(z)]
  {
    var a, b, c := DecimalString(x), DecimalString(y), DecimalString(z);
    var bc := b + ['x'] + c;
    assert Format(x, y, z) == a + ['x'] + bc;
    SplitAtChar(a, 'x', bc);
    SplitAtChar(b, 'x', c);
    SplitNoSeparator(c, 'x');
    assert Split(bc, "x") == [b, c];
  }

  /** Parsing undoes formatting: any three dimensions an `i32` holds parse
      back to the box `new` builds from them, and the zero ones are
      refused. */
  lemma ParseFormat(x: nat, y: nat, z: nat)
    requires x <= I32_MAX && y <= I32_MAX && z <= I32_MAX
    ensures Parse(Format(x, y, z)) == New(x, y, z)
  {
    SplitFormat(x, y, z);
    ParseI32Decimal(x);
    ParseI32Decimal(y);
    ParseI32Decimal(z);
  }

  /** `test_parse`: the three fixture strings parse to the fixture boxes. */
  lemma ParseExampleCube()
    ensures Parse("1x1x1") == New(1, 1, 1)
  {
    assert Format(1, 1, 1) == "1x1x1";
    ParseFormat(1, 1, 1);
  }

  lemma ParseExampleBox()
    ensures Parse("2x3x4") == New(2, 3, 4)
  {
    assert Format(2, 3, 4) == "2x3x4";
    ParseFormat(2, 3, 4);
  }

  lemma ParseExampleLong()
    ensures Parse("1x1x10") == New(1, 1, 10)
  {
    assert DecimalString(10) == "10";
    assert Format(1, 1, 10) == "1x1x10";
    ParseFormat(1, 1, 10);
  }

  /** A missing or extra field is reported before any number is read. */
  lemma FieldCountExamples()
    ensures Parse("2x3") == Err(WrongFieldCount)
    ensures Parse("2x3x4x5") == Err(WrongFieldCount)
  {
    SplitAtChar("2", 'x', "3");
    SplitNoSeparator("3", 'x');
    assert "2" + ['x'] + "3" == "2x3";
    SplitAtChar("4", 'x', "5");
    SplitNoSeparator("5", 'x');
    assert "4" + ['x'] + "5" == "4x5";
    SplitAtChar("3", 'x', "4x5");
    assert "3" + ['x'] + "4x5" == "3x4x5";
    SplitAtChar("2", 'x', "3x4x5");
    assert "2" + ['x'] + "3x4x5" == "2x3x4x5";
  }
}
