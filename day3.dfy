// Day 3 (first generation): Santa's trail of houses on an infinite grid.
// A char that is not one of `^v<>` leaves Santa where he is.

module Day3 {
  import opened Text

  datatype Point = Point(x: int, y: int)
  {
    function North(): Point { Point(x, y + 1) }
    function South(): Point { Point(x, y - 1) }
    function East(): Point { Point(x + 1, y) }
    function West(): Point { Point(x - 1, y) }

    /** `Point::move_from_char`: one step for `^v><`, no step otherwise. */
    function MoveFromChar(ch: char): Point
    {
      match ch
      case '^' => North()
      case 'v' => South()
      case '>' => East()
      case '<' => West()
      case _ => this
    }
  }

  const Origin := Point(0, 0)

  predicate IsMove(ch: char) { ch == '^' || ch == 'v' || ch == '>' || ch == '<' }

  /** A direction moves Santa by exactly one house along one axis; any other
      char leaves him in place. */
  lemma Moves(p: Point, ch: char)
    ensures IsMove(ch) ==> p.MoveFromChar(ch) != p
    ensures !IsMove(ch) ==> p.MoveFromChar(ch) == p
    ensures var q := p.MoveFromChar(ch);
      (q.x == p.x && (q.y == p.y + 1 || q.y == p.y - 1)) ||
      (q.y == p.y && (q.x == p.x + 1 || q.x == p.x - 1)) || q == p
    ensures ch == '^' ==> p.MoveFromChar(ch) == Point(p.x, p.y + 1)
    ensures ch == 'v' ==> p.MoveFromChar(ch) == Point(p.x, p.y - 1)
    ensures ch == '>' ==> p.MoveFromChar(ch) == Point(p.x + 1, p.y)
    ensures ch == '<' ==> p.MoveFromChar(ch) == Point(p.x - 1, p.y)
  {
  }

  // ---------------------------------------------------------------------
  // The walk, as a reference definition.

  /** Where Santa stands after following `path` from `p`. */
  function End(p: Point, path: string): Point
    decreases |path|
  {
    if path == [] then p else End(p.MoveFromChar(path[0]), path[1..])
  }

  /** The houses Santa delivers to after setting off from `p`: one per char
      that moves him. */
  function Deliveries(p: Point, path: string): seq<Point>
    decreases |path|
  {
    if path == [] then []
    else
      var q := p.MoveFromChar(path[0]);
      (if q == p then [] else [q]) + Deliveries(q, path[1..])
  }

  /** Every delivery, the one at the origin first. */
  function Houses(path: string): seq<Point>
  {
    [Origin] + Deliveries(Origin, path)
  }

  lemma {:induction false} WalkSnoc(p: Point, path: string, ch: char)
    ensures End(p, path + [ch]) == End(p, path).MoveFromChar(ch)
    ensures var e := End(p, path); var q := e.MoveFromChar(ch);
      Deliveries(p, path + [ch]) == Deliveries(p, path) + (if q == e then [] else [q])
    decreases |path|
  {
    if path == [] {
      assert [ch][1..] == [];
    } else {
      assert (path + [ch])[1..] == path[1..] + [ch];
      WalkSnoc(p.MoveFromChar(path[0]), path[1..], ch);
    }
  }

  /** A trail map that counts, for each house, how many deliveries went to
      it, and holds no other house. */
  ghost predicate Records(trail: map<Point, nat>, houses: seq<Point>)
  {
    (forall q :: q in trail <==> q in houses) &&
    (forall q :: q in trail ==> trail[q] == Count(houses, q))
  }

  lemma CountPositive(s: seq<Point>, q: Point)
    ensures q in s <==> Count(s, q) > 0
  {
    if s != [] {
      CountPositive(s[1..], q);
      assert q in s <==> q == s[0] || q in s[1..];
    }
  }

  /** One more delivery to `q` bumps its count, or enters it at 1. */
  lemma RecordsSnoc(trail: map<Point, nat>, houses: seq<Point>, q: Point)
    requires Records(trail, houses)
    ensures Records(trail[q := (if q in trail then trail[q] else 0) + 1], houses + [q])
  {
    forall r
      ensures Count(houses + [q], r) == Count(houses, r) + (if r == q then 1 else 0)
    {
      CountAppend(houses, [q], r);
    }
    CountPositive(houses, q);
  }

  // ---------------------------------------------------------------------
  // The state that the source updates in place.

  class CookieCrumbs {
    var santa: Point
    var trail: map<Point, nat>

    /** The state after following `path` from the origin. */
    ghost predicate Follows(path: string)
      reads this
    {
      santa == End(Origin, path) && Records(trail, Houses(path))
    }

    /** `CookieCrumbs::new`: Santa at the origin, which has had one present. */
    constructor()
      ensures santa == Origin && trail == map[Origin := 1]
      ensures Follows([])
    {
      santa := Origin;
      trail := map[Origin := 1];
    }

    /** `move_from_char`: a step to a new house delivers one present there;
        a char that does not move Santa changes nothing. */
    method MoveFromChar(ch: char)
      modifies this
      ensures santa == old(santa).MoveFromChar(ch)
      ensures santa == old(santa) ==> trail == old(trail)
      ensures santa != old(santa) ==>
        trail == old(trail)[santa := (if santa in old(trail) then old(trail)[santa] else 0) + 1]
    {
      var newPt := santa.MoveFromChar(ch);
      if newPt == santa {
        return;
      }
      santa := newPt;
      if santa in trail {
        trail := trail[santa := trail[santa] + 1];
      } else {
        trail := trail[santa := 1];
      }
    }
  }

  /** One more char keeps the state in step with the path. */
  lemma FollowsSnoc(path: string, ch: char, santa: Point, trail: map<Point, nat>)
    requires santa == End(Origin, path) && Records(trail, Houses(path))
    ensures var q := santa.MoveFromChar(ch);
      var trail' := if q == santa then trail else trail[q := (if q in trail then trail[q] else 0) + 1];
      q == End(Origin, path + [ch]) && Records(trail', Houses(path + [ch]))
  {
    WalkSnoc(Origin, path, ch);
    var q := santa.MoveFromChar(ch);
    if q == santa {
      assert Houses(path + [ch]) == Houses(path) + [];
      assert Houses(path) + [] == Houses(path);
    } else {
      assert Houses(path + [ch]) == Houses(path) + [q];
      RecordsSnoc(trail, Houses(path), q);
    }
  }

  /** `follow_santa`: a fresh trail driven through every char of the path. */
  method FollowSanta(path: string) returns (cc: CookieCrumbs)
    ensures fresh(cc) && cc.Follows(path)
  {
    cc := new CookieCrumbs();
    assert path[..0] == [];
    for i := 0 to |path|
      invariant cc.Follows(path[..i])
    {
      FollowsSnoc(path[..i], path[i], cc.santa, cc.trail);
      cc.MoveFromChar(path[i]);
      assert path[..i + 1] == path[..i] + [path[i]];
    }
    assert path[..|path|] == path;
  }

  // ---------------------------------------------------------------------
  // Several santas taking turns.

  /** The chars of `s` whose position, counted from `start`, is `k` modulo
      `n`: the directions the `k`-th of `n` santas receives. */
  function Every(s: string, n: nat, k: nat, start: nat := 0): (r: string)
    requires n > 0
    ensures |r| <= |s|
    decreases |s|
  {
    if s == [] then []
    else (if start % n == k then [s[0]] else []) + Every(s[1..], n, k, start + 1)
  }

  lemma {:induction false} EverySnoc(s: string, ch: char, n: nat, k: nat, start: nat)
    requires n > 0
    ensures Every(s + [ch], n, k, start) == Every(s, n, k, start) + (if (start + |s|) % n == k then [ch] else [])
    decreases |s|
  {
    if s == [] {
      assert [ch][1..] == [];
      assert s + [ch] == [ch];
    } else {
      var t := s + [ch];
      assert t[0] == s[0] && t[1..] == s[1..] + [ch];
      var here := if start % n == k then [s[0]] else [];
      var last := if (start + |s|) % n == k then [ch] else [];
      EverySnoc(s[1..], ch, n, k, start + 1);
      assert start + 1 + |s[1..]| == start + |s|;
      assert Every(t, n, k, start) == here + (Every(s[1..], n, k, start + 1) + last);
    }
  }

  /** Each char of the path goes to exactly one santa: the one whose turn
      it is. */
  lemma EveryStep(path: string, i: nat, n: nat)
    requires n > 0 && i < |path|
    ensures forall k :: 0 <= k < n ==>
      (Every(path[..i + 1], n, k) ==
       if k == i % n then Every(path[..i], n, k) + [path[i]] else Every(path[..i], n, k))
  {
    assert path[..i + 1] == path[..i] + [path[i]];
    forall k | 0 <= k < n
      ensures Every(path[..i + 1], n, k) ==
        if k == i % n then Every(path[..i], n, k) + [path[i]] else Every(path[..i], n, k)
    {
      EverySnoc(path[..i], path[i], n, k, 0);
    }
  }

  /** `n` fresh trails, all at the origin. */
  method NewCrumbs(n: nat) returns (vout: seq<CookieCrumbs>)
    ensures |vout| == n
    ensures forall j, k :: 0 <= j < k < n ==> vout[j] != vout[k]
    ensures forall k :: 0 <= k < n ==> fresh(vout[k]) && vout[k].Follows([])
  {
    vout := [];
    while |vout| < n
      invariant |vout| <= n
      invariant forall j, k :: 0 <= j < k < |vout| ==> vout[j] != vout[k]
      invariant forall k :: 0 <= k < |vout| ==> fresh(vout[k]) && vout[k].Follows([])
    {
      var cc := new CookieCrumbs();
      vout := vout + [cc];
    }
  }

  /** `follow_n_santas`: `n` fresh trails; char `i` moves santa `i % n`.
      With no santas the source divides by zero on the first char, so a
      non-empty path needs at least one. */
  method FollowNSantas(path: string, n: nat) returns (vout: seq<CookieCrumbs>)
    requires n > 0 || path == []
    ensures |vout| == n
    ensures forall j, k :: 0 <= j < k < n ==> vout[j] != vout[k]
    ensures forall k :: 0 <= k < n ==> fresh(vout[k]) && vout[k].Follows(Every(path, n, k))
  {
    vout := NewCrumbs(n);
    if n == 0 {
      return;
    }
    assert forall k :: 0 <= k < n ==> Every(path[..0], n, k) == [];
    for i := 0 to |path|
      invariant forall k :: 0 <= k < n ==> fresh(vout[k]) && vout[k].Follows(Every(path[..i], n, k))
    {
      var who := i % n;
      var cc := vout[who];
      EveryStep(path, i, n);
      FollowsSnoc(Every(path[..i], n, who), path[i], cc.santa, cc.trail);
      cc.MoveFromChar(path[i]);
      forall k | 0 <= k < n
        ensures vout[k].Follows(Every(path[..i + 1], n, k))
      {
        if k != who {
          assert vout[k] != cc;
        }
      }
    }
    assert path[..|path|] == path;
  }

  // ---------------------------------------------------------------------
  // Counting the houses.

  ghost function Footprint(v: seq<CookieCrumbs>): set<object>
  {
    set k | 0 <= k < |v| :: v[k]
  }

  /** Every house that one of the trails holds. */
  ghost function HouseSet(v: seq<CookieCrumbs>): set<Point>
    reads Footprint(v)
  {
    set k, q | 0 <= k < |v| && q in v[k].trail :: q
  }

  /** `unique_houses`: the number of distinct houses across all trails. */
  method UniqueHouses(v: seq<CookieCrumbs>) returns (r: nat)
    ensures r == |HouseSet(v)|
  {
    var houses: set<Point> := {};
    for i := 0 to |v|
      invariant houses == set k, q | 0 <= k < i && q in v[k].trail :: q
    {
      houses := houses + v[i].trail.Keys;
    }
    r := |houses|;
  }

  /** The houses of `n` santas sharing `path`: the union of their own
      delivery lists. */
  function SharedHouses(path: string, n: nat): set<Point>
    requires n > 0
  {
    set k, q | 0 <= k < n && q in Houses(Every(path, n, k)) :: q
  }

  /** The trails that `follow_n_santas` builds hold exactly the shared houses,
      so `unique_houses` of them is the size of `SharedHouses`. */
  lemma HouseSetOfFollowers(v: seq<CookieCrumbs>, path: string, n: nat)
    requires n > 0 && |v| == n
    requires forall k :: 0 <= k < n ==> v[k].Follows(Every(path, n, k))
    ensures HouseSet(v) == SharedHouses(path, n)
  {
  }

  /** The distinct houses in a delivery list. */
  function Distinct(houses: seq<Point>): set<Point>
  {
    set q | q in houses
  }

  /** The examples of `follow_santa`'s documentation. */
  lemma FollowSantaEast()
    ensures |Distinct(Houses(">"))| == 2
  {
    assert Houses(">") == [Origin, Point(1, 0)];
    assert Distinct(Houses(">")) == {Origin, Point(1, 0)};
  }

  lemma FollowSantaSquare()
    ensures |Distinct(Houses("^>v<"))| == 4
  {
    assert Houses("^>v<") == [Origin, Point(0, 1), Point(1, 1), Point(1, 0), Origin];
    assert Distinct(Houses("^>v<")) == {Origin, Point(0, 1), Point(1, 1), Point(1, 0)};
  }

  lemma FollowSantaBackAndForth()
    ensures |Distinct(Houses("^v^v^v^v^v"))| == 2
  {
    var h := Houses("^v^v^v^v^v");
    assert h == [Origin, Point(0, 1), Origin, Point(0, 1), Origin, Point(0, 1),
                 Origin, Point(0, 1), Origin, Point(0, 1), Origin];
    assert Distinct(h) == {Origin, Point(0, 1)};
  }

  /** The examples of `follow_n_santas`'s documentation, with two santas. */
  lemma TwoSantasOpposite()
    ensures |SharedHouses("^v", 2)| == 3
  {
    OppositeTurns();
    OneNorth();
    OneSouth();
    TwoSantaCount("^v", {Origin, Point(0, 1)}, {Origin, Point(0, -1)});
    assert {Origin, Point(0, 1)} + {Origin, Point(0, -1)} == {Origin, Point(0, 1), Point(0, -1)};
  }

  lemma OppositeTurns()
    ensures Every("^v", 2, 0) == "^" && Every("^v", 2, 1) == "v"
  {
    assert Every("v", 2, 0, 1) == "";
    assert Every("v", 2, 1, 1) == "v";
  }

  lemma OneNorth()
    ensures Distinct(Houses("^")) == {Origin, Point(0, 1)}
  {
    assert Houses("^") == [Origin, Point(0, 1)];
  }

  lemma OneSouth()
    ensures Distinct(Houses("v")) == {Origin, Point(0, -1)}
  {
    assert Houses("v") == [Origin, Point(0, -1)];
  }

  lemma SquareTurns()
    ensures Every("^>v<", 2, 0) == "^v" && Every("^>v<", 2, 1) == "><"
  {
    assert Every("<", 2, 0, 3) == "";
    assert Every("v<", 2, 0, 2) == "v";
    assert Every(">v<", 2, 0, 1) == "v";
    assert Every("^>v<", 2, 0, 0) == "^v";
    assert Every("<", 2, 1, 3) == "<";
    assert Every("v<", 2, 1, 2) == "<";
    assert Every(">v<", 2, 1, 1) == "><";
    assert Every("^>v<", 2, 1, 0) == "><";
  }

  lemma TwoSantasSquare()
    ensures |SharedHouses("^>v<", 2)| == 3
  {
    SquareTurns();
    NorthAndBack();
    EastAndBack();
    TwoSantaCount("^>v<", {Origin, Point(0, 1)}, {Origin, Point(1, 0)});
    ThreeHouses();
  }

  lemma ThreeHouses()
    ensures |{Origin, Point(0, 1)} + {Origin, Point(1, 0)}| == 3
  {
    assert {Origin, Point(0, 1)} + {Origin, Point(1, 0)} == {Origin, Point(0, 1), Point(1, 0)};
  }

  lemma NorthAndBack()
    ensures Distinct(Houses("^v")) == {Origin, Point(0, 1)}
  {
    assert Houses("^v") == [Origin, Point(0, 1), Origin];
  }

  lemma EastAndBack()
    ensures Distinct(Houses("><")) == {Origin, Point(1, 0)}
  {
    assert Houses("><") == [Origin, Point(1, 0), Origin];
  }

  lemma ApartTurns()
    ensures Every("^v^v^v^v^v", 2, 0) == "^^^^^" && Every("^v^v^v^v^v", 2, 1) == "vvvvv"
  {
    ApartNorth();
    ApartSouth();
  }

  lemma ApartNorth()
    ensures Every("^v^v^v^v^v", 2, 0) == "^^^^^"
  {
    assert Every("v", 2, 0, 9) == "";
    assert Every("^v", 2, 0, 8) == "^";
    assert Every("v^v", 2, 0, 7) == "^";
    assert Every("^v^v", 2, 0, 6) == "^^";
    assert Every("v^v^v", 2, 0, 5) == "^^";
    assert Every("^v^v^v", 2, 0, 4) == "^^^";
    assert Every("v^v^v^v", 2, 0, 3) == "^^^";
    assert Every("^v^v^v^v", 2, 0, 2) == "^^^^";
    assert Every("v^v^v^v^v", 2, 0, 1) == "^^^^";
    assert Every("^v^v^v^v^v", 2, 0, 0) == "^^^^^";
  }

  lemma ApartSouth()
    ensures Every("^v^v^v^v^v", 2, 1) == "vvvvv"
  {
    assert Every("v", 2, 1, 9) == "v";
    assert Every("^v", 2, 1, 8) == "v";
    assert Every("v^v", 2, 1, 7) == "vv";
    assert Every("^v^v", 2, 1, 6) == "vv";
    assert Every("v^v^v", 2, 1, 5) == "vvv";
    assert Every("^v^v^v", 2, 1, 4) == "vvv";
    assert Every("v^v^v^v", 2, 1, 3) == "vvvv";
    assert Every("^v^v^v^v", 2, 1, 2) == "vvvv";
    assert Every("v^v^v^v^v", 2, 1, 1) == "vvvvv";
    assert Every("^v^v^v^v^v", 2, 1, 0) == "vvvvv";
  }

  lemma TwoSantasApart()
    ensures |SharedHouses("^v^v^v^v^v", 2)| == 11
  {
    ApartTurns();
    FiveNorth();
    FiveSouth();
    TwoSantaCount("^v^v^v^v^v", FiveNorthHouses, FiveSouthHouses);
    ElevenHouses();
  }

  const FiveNorthHouses := {Origin, Point(0, 1), Point(0, 2), Point(0, 3), Point(0, 4), Point(0, 5)}
  const FiveSouthHouses := {Origin, Point(0, -1), Point(0, -2), Point(0, -3), Point(0, -4), Point(0, -5)}

  lemma ElevenHouses()
    ensures |FiveNorthHouses + FiveSouthHouses| == 11
  {
    assert FiveNorthHouses + FiveSouthHouses ==
      {Origin, Point(0, 1), Point(0, 2), Point(0, 3), Point(0, 4), Point(0, 5),
       Point(0, -1), Point(0, -2), Point(0, -3), Point(0, -4), Point(0, -5)};
  }

  lemma FiveNorth()
    ensures Distinct(Houses("^^^^^")) == FiveNorthHouses
  {
    assert Houses("^^^^^") == [Origin, Point(0, 1), Point(0, 2), Point(0, 3), Point(0, 4), Point(0, 5)];
  }

  lemma FiveSouth()
    ensures Distinct(Houses("vvvvv")) == FiveSouthHouses
  {
    assert Houses("vvvvv") == [Origin, Point(0, -1), Point(0, -2), Point(0, -3), Point(0, -4), Point(0, -5)];
  }

  lemma TwoSantaCount(path: string, a: set<Point>, b: set<Point>)
    requires Distinct(Houses(Every(path, 2, 0))) == a && Distinct(Houses(Every(path, 2, 1))) == b
    ensures |SharedHouses(path, 2)| == |a + b|
  {
    SharedOfTwo(path);
  }

  /** Two santas between them visit the houses of each. */
  lemma SharedOfTwo(path: string)
    ensures SharedHouses(path, 2) ==
      Distinct(Houses(Every(path, 2, 0))) + Distinct(Houses(Every(path, 2, 1)))
  {
  }
}
