// Day 9: the shortest and the longest route that visits every place once,
// found by trying every ordering of the places.

module Day09 {
  import opened Text
  import opened Permutations

  datatype Edge = Edge(from: string, to: string, distance: nat)

  datatype Route = Route(stops: seq<string>, dist: nat)

  datatype Ordering = Less | Equal | Greater

  function Cmp(a: nat, b: nat): (r: Ordering)
    ensures r == Less <==> a < b
    ensures r == Greater <==> a > b
  {
    if a < b then Less else if a > b then Greater else Equal
  }

  type DistMap = map<(string, string), nat>

  /** The distance table after inserting every edge in both directions;
      a later edge between the same two places overwrites an earlier one. */
  function DistMapOf(edges: seq<Edge>): (m: DistMap)
    ensures Symmetric(m)
  {
    if edges == [] then map[]
    else
      var e := edges[|edges| - 1];
      DistMapOf(edges[..|edges| - 1])[(e.from, e.to) := e.distance][(e.to, e.from) := e.distance]
  }

  /** Every endpoint of every edge. */
  function PlacesOf(edges: seq<Edge>): (r: set<string>)
    ensures forall p :: p in r <==> exists e :: e in edges && (p == e.from || p == e.to)
  {
    if edges == [] then {}
    else
      var e := edges[|edges| - 1];
      assert edges == edges[..|edges| - 1] + [e];
      PlacesOf(edges[..|edges| - 1]) + {e.from, e.to}
  }

  /** A pair of places has a distance exactly when some edge joins them,
      and it is the distance of the last such edge. */
  lemma {:induction false} DistMapLast(edges: seq<Edge>, a: string, b: string)
    ensures (a, b) in DistMapOf(edges) <==>
      exists k :: 0 <= k < |edges| && Joins(edges[k], a, b)
    ensures (a, b) in DistMapOf(edges) ==>
      exists k :: 0 <= k < |edges| && Joins(edges[k], a, b)
        && DistMapOf(edges)[(a, b)] == edges[k].distance
        && forall j :: k < j < |edges| ==> !Joins(edges[j], a, b)
  {
    if edges != [] {
      var init := edges[..|edges| - 1];
      DistMapLast(init, a, b);
      forall k | 0 <= k < |init|
        ensures init[k] == edges[k]
      {
      }
    }
  }

  predicate Joins(e: Edge, a: string, b: string)
  {
    (e.from == a && e.to == b) || (e.from == b && e.to == a)
  }

  /** Every consecutive pair of stops has a distance: the lookup's
      `unwrap` does not panic. */
  predicate HasLegs(m: DistMap, p: seq<string>)
  {
    forall i :: 0 <= i < |p| - 1 ==> (p[i], p[i + 1]) in m
  }

  /** The length of a route: the sum of its legs. */
  function RouteDist(m: DistMap, p: seq<string>): (r: nat)
    requires HasLegs(m, p)
  {
    if |p| < 2 then 0 else m[(p[0], p[1])] + RouteDist(m, p[1..])
  }

  /** The table holds every distance both ways. */
  ghost predicate Symmetric(m: DistMap)
  {
    forall a, b :: (a, b) in m ==> (b, a) in m && m[(b, a)] == m[(a, b)]
  }

  lemma LegsReverse(m: DistMap, p: seq<string>)
    requires HasLegs(m, p) && Symmetric(m)
    ensures HasLegs(m, Reverse(p))
  {
    var r := Reverse(p);
    forall i | 0 <= i < |r| - 1
      ensures (r[i], r[i + 1]) in m
    {
      assert (p[|p| - 2 - i], p[|p| - 1 - i]) in m;
    }
  }

  /** A route read backwards has the same length. */
  lemma {:induction false} RouteDistReverse(m: DistMap, p: seq<string>)
    requires HasLegs(m, p) && Symmetric(m)
    ensures HasLegs(m, Reverse(p)) && RouteDist(m, Reverse(p)) == RouteDist(m, p)
    decreases |p|
  {
    LegsReverse(m, p);
    if |p| >= 2 {
      var q := p[..|p| - 1];
      RouteDistSnoc(m, p);
      RouteDistReverse(m, q);
      var r := Reverse(p);
      assert r[1..] == Reverse(q);
      assert r[0] == p[|p| - 1] && r[1] == p[|p| - 2];
      assert RouteDist(m, r) == m[(r[0], r[1])] + RouteDist(m, r[1..]);
    }
  }

  /** Splitting off the last leg. */
  lemma {:induction false} RouteDistSnoc(m: DistMap, p: seq<string>)
    requires HasLegs(m, p) && |p| >= 2
    ensures HasLegs(m, p[..|p| - 1])
    ensures RouteDist(m, p) == RouteDist(m, p[..|p| - 1]) + m[(p[|p| - 2], p[|p| - 1])]
    decreases |p|
  {
    if |p| > 2 {
      RouteDistSnoc(m, p[1..]);
      assert p[1..][..|p[1..]| - 1] == p[..|p| - 1][1..];
    }
  }

  /** `order` lists every place once: the places collected into a vector. */
  predicate Lists(order: seq<string>, places: set<string>)
  {
    (forall i, j :: 0 <= i < j < |order| ==> order[i] != order[j])
    && (forall p :: p in places ==> p in order)
    && (forall i :: 0 <= i < |order| ==> order[i] in places)
  }

  class Routes {
    var distMap: DistMap
    var places: set<string>

    /** `Routes::from_iter`. */
    constructor FromIter(edges: seq<Edge>)
      ensures distMap == DistMapOf(edges)
      ensures places == PlacesOf(edges)
    {
      var m: DistMap := map[];
      var ps: set<string> := {};
      for i := 0 to |edges|
        invariant m == DistMapOf(edges[..i])
        invariant ps == PlacesOf(edges[..i])
      {
        var e := edges[i];
        assert edges[..i + 1][..i] == edges[..i];
        m := m[(e.from, e.to) := e.distance];
        m := m[(e.to, e.from) := e.distance];
        ps := ps + {e.from, e.to};
      }
      assert edges[..|edges|] == edges;
      distMap := m;
      places := ps;
    }

    /** `find_extreme`: visits the candidate orderings and keeps a route
        only when it compares strictly as `order` against the best so far,
        starting from an empty route of length `default`. */
    method FindExtreme(order: Ordering, default: nat, perms: seq<seq<string>>) returns (route: Route)
      requires forall p :: p in perms ==> HasLegs(distMap, p)
      ensures order == Less ==>
        forall p :: p in perms ==> route.dist <= RouteDist(distMap, p)
      ensures order == Greater ==>
        forall p :: p in perms ==> route.dist >= RouteDist(distMap, p)
      ensures order == Less ==> route.dist <= default
      ensures order == Greater ==> route.dist >= default
      ensures route == Route([], default)
        || (route.stops in perms && HasLegs(distMap, route.stops) && route.dist == RouteDist(distMap, route.stops))
    {
      route := Route([], default);
      for i := 0 to |perms|
        invariant order == Less ==>
          forall p :: p in perms[..i] ==> route.dist <= RouteDist(distMap, p)
        invariant order == Greater ==>
          forall p :: p in perms[..i] ==> route.dist >= RouteDist(distMap, p)
        invariant order == Less ==> route.dist <= default
        invariant order == Greater ==> route.dist >= default
        invariant route == Route([], default)
          || (route.stops in perms && HasLegs(distMap, route.stops) && route.dist == RouteDist(distMap, route.stops))
      {
        assert perms[..i + 1] == perms[..i] + [perms[i]];
        var thisDist := RouteDist(distMap, perms[i]);
        if Cmp(thisDist, route.dist) == order {
          route := Route(perms[i], thisDist);
        }
      }
      assert perms[..|perms|] == perms;
    }

    /** `find_shortest`: the shortest route over every ordering of the
        places, unless none is shorter than `!0`. */
    method FindShortest(order: seq<string>, perms: seq<seq<string>>) returns (route: Route)
      requires Lists(order, places)
      requires forall p :: p in perms <==> multiset(p) == multiset(order)
      requires forall p :: p in perms ==> HasLegs(distMap, p)
      ensures forall p :: multiset(p) == multiset(order) ==> route.dist <= RouteDist(distMap, p)
      ensures route == Route([], U32_MAX)
        || (multiset(route.stops) == multiset(order) && route.dist == RouteDist(distMap, route.stops))
    {
      route := FindExtreme(Less, U32_MAX, perms);
    }

    /** `find_longest`: the longest route over every ordering of the
        places, or the empty route of length 0 when there are none. */
    method FindLongest(order: seq<string>, perms: seq<seq<string>>) returns (route: Route)
      requires Lists(order, places)
      requires forall p :: p in perms <==> multiset(p) == multiset(order)
      requires forall p :: p in perms ==> HasLegs(distMap, p)
      ensures forall p :: multiset(p) == multiset(order) ==> route.dist >= RouteDist(distMap, p)
      ensures route == Route([], 0)
        || (multiset(route.stops) == multiset(order) && route.dist == RouteDist(distMap, route.stops))
    {
      route := FindExtreme(Greater, 0, perms);
    }
  }

  // The worked example: London to Dublin 464, London to Belfast 518,
  // Dublin to Belfast 141.

  const ExampleEdges := [Edge("London", "Dublin", 464), Edge("London", "Belfast", 518), Edge("Dublin", "Belfast", 141)]
  const ExampleOrder := ["London", "Dublin", "Belfast"]

  /** Three places and the distances between them, both ways. */
  predicate Triangle(m: DistMap, a: string, b: string, c: string, ab: nat, ac: nat, bc: nat)
  {
    && (a, b) in m && m[(a, b)] == ab && (b, a) in m && m[(b, a)] == ab
    && (a, c) in m && m[(a, c)] == ac && (c, a) in m && m[(c, a)] == ac
    && (b, c) in m && m[(b, c)] == bc && (c, b) in m && m[(c, b)] == bc
  }

  lemma RouteDistThree(m: DistMap, x: string, y: string, z: string)
    requires (x, y) in m && (y, z) in m
    ensures HasLegs(m, [x, y, z]) && RouteDist(m, [x, y, z]) == m[(x, y)] + m[(y, z)]
  {
    assert [x, y, z][1..] == [y, z] && [y, z][1..] == [z];
    assert RouteDist(m, [z]) == 0;
    assert RouteDist(m, [y, z]) == m[(y, z)];
  }

  /** Each route through three places skips exactly one of the three legs. */
  lemma TriangleRoutes(m: DistMap, a: string, b: string, c: string, ab: nat, ac: nat, bc: nat, p: seq<string>)
    requires Triangle(m, a, b, c, ab, ac, bc) && a != b && b != c && a != c
    requires multiset(p) == multiset([a, b, c])
    ensures HasLegs(m, p)
    ensures p == [a, b, c] || p == [c, b, a] ==> RouteDist(m, p) == ab + bc
    ensures p == [a, c, b] || p == [b, c, a] ==> RouteDist(m, p) == ac + bc
    ensures p == [b, a, c] || p == [c, a, b] ==> RouteDist(m, p) == ab + ac
  {
    ThreeOrderings(a, b, c, p);
    RouteDistThree(m, p[0], p[1], p[2]);
    assert p == [p[0], p[1], p[2]];
  }

  lemma ExampleTable()
    ensures Triangle(DistMapOf(ExampleEdges), "London", "Dublin", "Belfast", 464, 518, 141)
  {
    var e := ExampleEdges;
    assert e[..2][..1] == e[..1] && e[..1][..0] == [];
    assert e[..3][..2] == e[..2] && e[..3] == e;
  }

  lemma ExamplePlaces()
    ensures Lists(ExampleOrder, PlacesOf(ExampleEdges))
  {
    var e := ExampleEdges;
    assert e[..2][..1] == e[..1] && e[..1][..0] == [];
    assert e[..3][..2] == e[..2] && e[..3] == e;
    assert PlacesOf(e[..1]) == {"London", "Dublin"};
    assert PlacesOf(e[..2]) == {"London", "Dublin"} + {"London", "Belfast"};
    assert PlacesOf(e) == {"London", "Dublin", "Belfast"} + {"Dublin", "Belfast"};
  }

  /** The six routes of the example and their lengths: 605 for London,
      Dublin, Belfast and its reverse, 982 for Dublin, London, Belfast and
      its reverse, 659 for the other two. */
  lemma ExampleRoutes(m: DistMap, p: seq<string>)
    requires Triangle(m, "London", "Dublin", "Belfast", 464, 518, 141)
    requires multiset(p) == multiset(ExampleOrder)
    ensures HasLegs(m, p)
    ensures 605 <= RouteDist(m, p) <= 982
    ensures RouteDist(m, p) == 605 <==>
      p == ["London", "Dublin", "Belfast"] || p == ["Belfast", "Dublin", "London"]
    ensures RouteDist(m, p) == 982 <==>
      p == ["Dublin", "London", "Belfast"] || p == ["Belfast", "London", "Dublin"]
  {
    TriangleRoutes(m, "London", "Dublin", "Belfast", 464, 518, 141, p);
    ThreeOrderings("London", "Dublin", "Belfast", p);
  }

  lemma ExampleLegs(m: DistMap)
    requires Triangle(m, "London", "Dublin", "Belfast", 464, 518, 141)
    ensures forall p :: multiset(p) == multiset(ExampleOrder) ==> HasLegs(m, p)
  {
    forall p | multiset(p) == multiset(ExampleOrder)
      ensures HasLegs(m, p)
    {
      ExampleRoutes(m, p);
    }
  }

  /** A route no longer than any ordering of the places is 605 long and
      runs London, Dublin, Belfast or back. */
  lemma ExampleShortest(m: DistMap, route: Route)
    requires Triangle(m, "London", "Dublin", "Belfast", 464, 518, 141)
    requires forall p :: multiset(p) == multiset(ExampleOrder) ==> HasLegs(m, p) && route.dist <= RouteDist(m, p)
    requires route == Route([], U32_MAX)
      || (multiset(route.stops) == multiset(ExampleOrder) && HasLegs(m, route.stops) && route.dist == RouteDist(m, route.stops))
    ensures route.dist == 605
    ensures route.stops == ["London", "Dublin", "Belfast"] || route.stops == ["Belfast", "Dublin", "London"]
  {
    ExampleRoutes(m, ExampleOrder);
    if route != Route([], U32_MAX) {
      ExampleRoutes(m, route.stops);
    }
  }

  /** A route no shorter than any ordering of the places is 982 long and
      runs Dublin, London, Belfast or back. */
  lemma ExampleLongest(m: DistMap, route: Route)
    requires Triangle(m, "London", "Dublin", "Belfast", 464, 518, 141)
    requires forall p :: multiset(p) == multiset(ExampleOrder) ==> HasLegs(m, p) && route.dist >= RouteDist(m, p)
    requires route == Route([], 0)
      || (multiset(route.stops) == multiset(ExampleOrder) && HasLegs(m, route.stops) && route.dist == RouteDist(m, route.stops))
    ensures route.dist == 982
    ensures route.stops == ["Dublin", "London", "Belfast"] || route.stops == ["Belfast", "London", "Dublin"]
  {
    var dlb := ["Dublin", "London", "Belfast"];
    assert multiset(dlb) == multiset(ExampleOrder);
    ExampleRoutes(m, dlb);
    if route != Route([], 0) {
      ExampleRoutes(m, route.stops);
    }
  }

  /** The worked example through the class: shortest 605, longest 982. */
  method Examples()
  {
    var routes := new Routes.FromIter(ExampleEdges);
    ExampleTable();
    ExamplePlaces();
    ExampleLegs(routes.distMap);
    var perms := AllOrderings(ExampleOrder);
    var shortest := routes.FindShortest(ExampleOrder, perms);
    ExampleShortest(routes.distMap, shortest);
    var longest := routes.FindLongest(ExampleOrder, perms);
    ExampleLongest(routes.distMap, longest);
  }
}
