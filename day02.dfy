// Day 2 (second generation): wrapping paper and ribbon for a box.

module Day02 {
  import opened Text

  /** A box with positive dimensions. */
  datatype GiftBox = GiftBox(x: int, y: int, z: int)
  {
    ghost predicate Valid() { x > 0 && y > 0 && z > 0 }
  }

  /** `GiftBox::new`: refuses any dimension that is zero or negative. */
  function New(x: int, y: int, z: int): (r: Option<GiftBox>)
    ensures r.Some? <==> x > 0 && y > 0 && z > 0
    ensures r.Some? ==> r.value == GiftBox(x, y, z) && r.value.Valid()
  {
    if x > 0 && y > 0 && z > 0 then Some(GiftBox(x, y, z)) else None
  }

  function Min3(a: int, b: int, c: int): (m: int)
    ensures m <= a && m <= b && m <= c
    ensures m == a || m == b || m == c
  {
    if a <= b && a <= c then a else if b <= c then b else c
  }

  function Max3(a: int, b: int, c: int): (m: int)
    ensures m >= a && m >= b && m >= c
    ensures m == a || m == b || m == c
  {
    if a >= b && a >= c then a else if b >= c then b else c
  }

  /** `surface_area`: twice the three face areas, so at least six times
      the smallest face, and even. */
  function SurfaceArea(b: GiftBox): (r: int)
    ensures r >= 6 * SmallestSide(b)
    ensures r % 2 == 0
  {
    2 * (b.x * b.z + b.x * b.y + b.y * b.z)
  }

  /** `smallest_side`: the area of the smallest face. */
  function SmallestSide(b: GiftBox): (r: int)
    ensures r <= b.x * b.z && r <= b.x * b.y && r <= b.y * b.z
    ensures r == b.x * b.z || r == b.x * b.y || r == b.y * b.z
  {
    Min3(b.x * b.z, b.x * b.y, b.y * b.z)
  }

  /** `paper`: the surface plus the smallest face as slack, which is at
      most a sixth of the surface. */
  function Paper(b: GiftBox): (r: int)
    ensures r - SurfaceArea(b) <= b.x * b.z && r - SurfaceArea(b) <= b.x * b.y && r - SurfaceArea(b) <= b.y * b.z
    ensures r - SurfaceArea(b) == b.x * b.z || r - SurfaceArea(b) == b.x * b.y || r - SurfaceArea(b) == b.y * b.z
    ensures 6 * r <= 7 * SurfaceArea(b)
  {
    SurfaceArea(b) + SmallestSide(b)
  }

  function Volume(b: GiftBox): int
  {
    b.x * b.y * b.z
  }

  /** `largest_dimension`: the largest of the three. */
  function LargestDimension(b: GiftBox): (r: int)
    ensures r >= b.x && r >= b.y && r >= b.z
    ensures r == b.x || r == b.y || r == b.z
  {
    Max3(b.x, b.y, b.z)
  }

  function SmallestSidePerimeter(b: GiftBox): int
  {
    2 * (b.x + b.y + b.z - LargestDimension(b))
  }

  /** `ribbon`: the volume for the bow plus the perimeter of the face
      with the smallest perimeter, which is no more than any face's. */
  function Ribbon(b: GiftBox): (r: int)
    ensures r <= Volume(b) + 2 * (b.x + b.y) && r <= Volume(b) + 2 * (b.x + b.z) && r <= Volume(b) + 2 * (b.y + b.z)
    ensures r == Volume(b) + 2 * (b.x + b.y) || r == Volume(b) + 2 * (b.x + b.z) || r == Volume(b) + 2 * (b.y + b.z)
  {
    Volume(b) + SmallestSidePerimeter(b)
  }

  /** The slack is at most a sixth of the surface, since the surface is
      twice the sum of three faces each at least the smallest. */
  lemma PaperBounds(b: GiftBox)
    requires b.Valid()
    ensures SurfaceArea(b) < Paper(b)
    ensures 6 * Paper(b) <= 7 * SurfaceArea(b)
  {
    assert b.x * b.z > 0 && b.x * b.y > 0 && b.y * b.z > 0;
  }

  /** Dropping the largest dimension leaves the two that bound the face of
      smallest perimeter. */
  lemma SmallestSidePerimeterIsMinimal(b: GiftBox)
    ensures SmallestSidePerimeter(b) == Min3(2 * (b.x + b.y), 2 * (b.x + b.z), 2 * (b.y + b.z))
  {
  }

  /** The smallest face is the one spanned by the two smaller dimensions. */
  lemma SmallestSideOfSmallerDimensions(b: GiftBox)
    requires b.Valid()
    ensures b.z == LargestDimension(b) ==> SmallestSide(b) == b.x * b.y
    ensures b.y == LargestDimension(b) ==> SmallestSide(b) == b.x * b.z
    ensures b.x == LargestDimension(b) ==> SmallestSide(b) == b.y * b.z
  {
    FaceOrder(b.x, b.y, b.z);
    FaceOrder(b.x, b.z, b.y);
    FaceOrder(b.y, b.z, b.x);
  }

  /** With `c` the largest, the face `a*b` is no larger than the others. */
  lemma FaceOrder(a: int, b: int, c: int)
    requires a > 0 && b > 0 && c > 0
    ensures c >= a && c >= b ==> a * b <= a * c && a * b <= b * c
  {
    if c >= a && c >= b {
      MulMonotone(a, b, c);
      MulMonotone(b, a, c);
      assert b * a == a * b && b * c == c * b;
    }
  }

  lemma MulMonotone(a: int, b: int, c: int)
    requires a > 0 && b <= c
    ensures a * b <= a * c
  {
  }

  /** The three boxes of the test module. */
  lemma Examples()
    ensures var b := GiftBox(1, 1, 1);
      SurfaceArea(b) == 6 && SmallestSide(b) == 1 && Paper(b) == 7 &&
      Volume(b) == 1 && SmallestSidePerimeter(b) == 4 && Ribbon(b) == 5
    ensures var b := GiftBox(2, 3, 4);
      SurfaceArea(b) == 52 && SmallestSide(b) == 6 && Paper(b) == 58 &&
      Volume(b) == 24 && SmallestSidePerimeter(b) == 10 && Ribbon(b) == 34
    ensures var b := GiftBox(1, 1, 10);
      SurfaceArea(b) == 42 && SmallestSide(b) == 1 && Paper(b) == 43 &&
      Volume(b) == 10 && SmallestSidePerimeter(b) == 4 && Ribbon(b) == 14
  {
  }
}
