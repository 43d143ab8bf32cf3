// Day 13: seating everyone at a round table so that the total change in
// happiness is as large as possible, by trying every ordering.

module Day13 {
  import opened Text
  import opened Permutations

  const I32_MIN_VALUE: int := -0x8000_0000

  datatype Modify = Gain | Lose

  /** `Modify::modify`: a gain counts as itself, a loss as its negation. */
  function Apply(m: Modify, n: int): (r: int)
    ensures m == Gain ==> r == n
    ensures m == Lose ==> r + n == 0
  {
    match m
    case Gain => n
    case Lose => -n
  }

  /** One line of the input: `who` would gain or lose `qty` by sitting
      next to `other`. */
  datatype Edge = Edge(who: string, change: Modify, qty: int, other: string)

  /** People are named by their position in the graph's index. */
  type Person = nat
  type Relationships = map<(Person, Person), int>
  type Named = map<(string, string), int>

  /** The relations by name after inserting every edge in turn; a later
      edge for the same pair overwrites an earlier one. */
  function NamedOf(edges: seq<Edge>): Named
  {
    if edges == [] then map[]
    else
      var e := edges[|edges| - 1];
      NamedOf(edges[..|edges| - 1])[(e.who, e.other) := Apply(e.change, e.qty)]
  }

  /** A pair has a relation exactly when some edge names it, and it is the
      relation of the last such edge. */
  lemma {:induction false} NamedLast(edges: seq<Edge>, a: string, b: string)
    ensures (a, b) in NamedOf(edges) <==>
      exists k :: 0 <= k < |edges| && edges[k].who == a && edges[k].other == b
    ensures (a, b) in NamedOf(edges) ==>
      exists k :: 0 <= k < |edges| && edges[k].who == a && edges[k].other == b
        && NamedOf(edges)[(a, b)] == Apply(edges[k].change, edges[k].qty)
        && forall j :: k < j < |edges| ==> !(edges[j].who == a && edges[j].other == b)
  {
    if edges != [] {
      var init := edges[..|edges| - 1];
      NamedLast(init, a, b);
      forall k | 0 <= k < |init|
        ensures init[k] == edges[k]
      {
      }
    }
  }

  /** Everyone named on either side of an edge. */
  function PeopleOf(edges: seq<Edge>): (r: set<string>)
    ensures forall p :: p in r <==> exists e :: e in edges && (p == e.who || p == e.other)
  {
    if edges == [] then {}
    else
      var e := edges[|edges| - 1];
      assert edges == edges[..|edges| - 1] + [e];
      PeopleOf(edges[..|edges| - 1]) + {e.who, e.other}
  }

  lemma NamedInPeople(edges: seq<Edge>, a: string, b: string)
    requires (a, b) in NamedOf(edges)
    ensures a in PeopleOf(edges) && b in PeopleOf(edges)
  {
    NamedLast(edges, a, b);
    var k :| 0 <= k < |edges| && edges[k].who == a && edges[k].other == b;
    assert edges[k] in edges;
  }

  // ---------------------------------------------------------------------
  // The index: the people in sorted order

  predicate Sorted(s: seq<string>)
  {
    forall i, j :: 0 <= i < j < |s| ==> StrLess(s[i], s[j])
  }

  lemma SortedDistinct(s: seq<string>, i: nat, j: nat)
    requires Sorted(s) && i < |s| && j < |s| && i != j
    ensures s[i] != s[j]
  {
    if i < j {
      StrLessIrreflexive(s[i]);
    } else {
      StrLessIrreflexive(s[j]);
    }
  }

  /** Puts `x` into its place in a sorted list, unless it is there already. */
  function Insert(s: seq<string>, x: string): seq<string>
  {
    if s == [] then [x]
    else if x == s[0] then s
    else if StrLess(x, s[0]) then [x] + s
    else [s[0]] + Insert(s[1..], x)
  }

  lemma {:induction false} InsertSorted(s: seq<string>, x: string)
    requires Sorted(s)
    ensures Sorted(Insert(s, x))
    ensures forall y :: y in Insert(s, x) <==> y in s || y == x
    decreases |s|
  {
    if s != [] && x != s[0] {
      if StrLess(x, s[0]) {
        var r := [x] + s;
        forall i, j | 0 <= i < j < |r|
          ensures StrLess(r[i], r[j])
        {
          if i == 0 && j > 1 {
            StrLessTransitive(x, s[0], s[j - 1]);
          }
        }
      } else {
        StrLessTotal(x, s[0]);
        InsertSorted(s[1..], x);
        var t := Insert(s[1..], x);
        var r := [s[0]] + t;
        assert forall y :: y in s <==> y == s[0] || y in s[1..] by {
          assert s == [s[0]] + s[1..];
        }
        forall i, j | 0 <= i < j < |r|
          ensures StrLess(r[i], r[j])
        {
          if i == 0 {
            assert r[j] == t[j - 1];
            assert t[j - 1] in t;
            if r[j] != x {
              var k :| 0 <= k < |s[1..]| && s[1..][k] == r[j];
              assert s[k + 1] == r[j];
            }
          }
        }
      }
    }
  }

  /** Two sorted lists of the same names are the same list: the index does
      not depend on the order in which the set hands out its names. */
  lemma {:induction false} SortedUnique(a: seq<string>, b: seq<string>)
    requires Sorted(a) && Sorted(b)
    requires forall y :: y in a <==> y in b
    ensures a == b
    decreases |a|
  {
    if a != [] {
      assert a[0] in b;
    }
    if b != [] {
      assert b[0] in a;
    }
    if a != [] && b != [] {
      var i :| 0 <= i < |a| && a[i] == b[0];
      var j :| 0 <= j < |b| && b[j] == a[0];
      if a[0] != b[0] {
        assert i > 0 && j > 0;
        StrLessAsymmetric(a[0], b[0]);
        assert false;
      }
      forall y
        ensures y in a[1..] <==> y in b[1..]
      {
        if y in a[1..] {
          var k :| 0 <= k < |a[1..]| && a[1..][k] == y;
          SortedDistinct(a, 0, k + 1);
          assert y in b;
          var m :| 0 <= m < |b| && b[m] == y;
          assert m != 0;
          assert b[1..][m - 1] == y;
        }
        if y in b[1..] {
          var k :| 0 <= k < |b[1..]| && b[1..][k] == y;
          SortedDistinct(b, 0, k + 1);
          assert y in a;
          var m :| 0 <= m < |a| && a[m] == y;
          assert m != 0;
          assert a[1..][m - 1] == y;
        }
      }
      SortedUnique(a[1..], b[1..]);
      assert a == [a[0]] + a[1..] && b == [b[0]] + b[1..];
    }
  }

  /** `index.sort()` on the collected set of people. */
  method SortedIndex(people: set<string>) returns (index: seq<string>)
    ensures Sorted(index)
    ensures forall p :: p in index <==> p in people
  {
    index := [];
    var rest := people;
    while rest != {}
      invariant rest <= people
      invariant Sorted(index)
      invariant forall p :: p in index <==> p in people && p !in rest
      decreases |rest|
    {
      var p :| p in rest;
      InsertSorted(index, p);
      index := Insert(index, p);
      rest := rest - {p};
    }
  }

  /** The relations of `named` whose pair of names is not in `todo`,
      re-keyed by position. */
  ghost predicate RekeyedBut(rel: Relationships, named: Named, index: seq<string>, todo: set<(string, string)>)
  {
    (forall i: nat, j: nat :: (i, j) in rel <==>
      (i < |index| && j < |index| && (index[i], index[j]) in named && (index[i], index[j]) !in todo))
    && (forall i: nat, j: nat :: (i, j) in rel ==>
      i < |index| && j < |index| && rel[(i, j)] == named[(index[i], index[j])])
  }

  /** `rel` is `named` with each name replaced by its position. */
  ghost predicate Rekeyed(rel: Relationships, named: Named, index: seq<string>)
  {
    RekeyedBut(rel, named, index, {})
  }

  /** No relation names the person `g`. */
  predicate Absent(g: Person, rel: Relationships)
  {
    forall k :: k in rel ==> k.0 != g && k.1 != g
  }

  /** Nobody past the end of the index has a relation: this is the extra
      guest of the second part. */
  lemma RekeyedAbsent(rel: Relationships, named: Named, index: seq<string>, g: Person)
    requires Rekeyed(rel, named, index) && g >= |index|
    ensures Absent(g, rel)
  {
    forall k | k in rel
      ensures k.0 != g && k.1 != g
    {
      assert (k.0, k.1) in rel;
    }
  }

  /** The loop over the edges: every name goes into the set of people and
      every relation into the map, the later one for a pair winning. */
  method Collect(edges: seq<Edge>) returns (people: set<string>, named: Named)
    ensures people == PeopleOf(edges)
    ensures named == NamedOf(edges)
  {
    people := {};
    named := map[];
    for i := 0 to |edges|
      invariant people == PeopleOf(edges[..i])
      invariant named == NamedOf(edges[..i])
    {
      var e := edges[i];
      assert edges[..i + 1][..i] == edges[..i];
      people := people + {e.who, e.other};
      named := named[(e.who, e.other) := Apply(e.change, e.qty)];
    }
    assert edges[..|edges|] == edges;
  }

  /** `index_of`: each name's position in the index. */
  method PositionsOf(index: seq<string>) returns (indexOf: map<string, Person>)
    ensures forall p :: p in indexOf <==> p in index
    ensures forall p :: p in indexOf ==> indexOf[p] < |index| && index[indexOf[p]] == p
  {
    indexOf := map[];
    for k := 0 to |index|
      invariant forall p :: p in indexOf <==> p in index[..k]
      invariant forall p :: p in indexOf ==> indexOf[p] < k && index[indexOf[p]] == p
    {
      indexOf := indexOf[index[k] := k];
    }
    assert index[..|index|] == index;
  }

  /** Moving one pair out of `todo` and into `rel` under its positions. */
  lemma RekeyStep(rel: Relationships, named: Named, index: seq<string>, todo: set<(string, string)>,
                  key: (string, string), a: nat, b: nat)
    requires Sorted(index) && RekeyedBut(rel, named, index, todo)
    requires key in todo && key in named
    requires a < |index| && b < |index| && index[a] == key.0 && index[b] == key.1
    ensures RekeyedBut(rel[(a, b) := named[key]], named, index, todo - {key})
  {
    forall i: nat, j: nat | i < |index| && j < |index| && (i, j) != (a, b)
      ensures (index[i], index[j]) != key
    {
      if i != a {
        SortedDistinct(index, i, a);
      } else {
        SortedDistinct(index, j, b);
      }
    }
  }

  /** Re-keys every relation by the positions of its two names. */
  method Rekey(named: Named, index: seq<string>, indexOf: map<string, Person>) returns (rel: Relationships)
    requires Sorted(index)
    requires forall p :: p in indexOf <==> p in index
    requires forall p :: p in indexOf ==> indexOf[p] < |index| && index[indexOf[p]] == p
    requires forall k :: k in named ==> k.0 in index && k.1 in index
    ensures Rekeyed(rel, named, index)
  {
    rel := map[];
    var todo := named.Keys;
    RekeyStart(named, index);
    while todo != {}
      invariant todo <= named.Keys
      invariant RekeyedBut(rel, named, index, todo)
      decreases |todo|
    {
      var key :| key in todo;
      var a, b := indexOf[key.0], indexOf[key.1];
      RekeyStep(rel, named, index, todo, key, a, b);
      rel := rel[(a, b) := named[key]];
      Shrink(todo, key);
      todo := todo - {key};
    }
  }

  /** Nothing re-keyed yet, everything still to do. */
  lemma RekeyStart(named: Named, index: seq<string>)
    ensures RekeyedBut(map[], named, index, named.Keys)
  {
  }

  lemma Shrink<T>(s: set<T>, x: T)
    requires x in s
    ensures |s - {x}| < |s|
  {
    assert s == (s - {x}) + {x};
  }

  class Graph {
    var relationships: Relationships
    var index: seq<string>

    /** `Graph::from_iter`: collects the people and the relations by name,
        sorts the people into the index and re-keys the relations by index
        position. */
    constructor FromIter(edges: seq<Edge>)
      ensures Sorted(index)
      ensures forall p :: p in index <==> p in PeopleOf(edges)
      ensures Rekeyed(relationships, NamedOf(edges), index)
      ensures Absent(|index|, relationships)
    {
      var people, named := Collect(edges);
      var idx := SortedIndex(people);
      var indexOf := PositionsOf(idx);
      forall k | k in named
        ensures k.0 in idx && k.1 in idx
      {
        NamedInPeople(edges, k.0, k.1);
      }
      var rel := Rekey(named, idx, indexOf);
      RekeyedAbsent(rel, named, idx, |idx|);
      relationships := rel;
      index := idx;
    }
  }

  // ---------------------------------------------------------------------
  // Happiness of a seating

  /** A missing pair counts 0. */
  function Get(rel: Relationships, who: Person, other: Person): int
  {
    if (who, other) in rel then rel[(who, other)] else 0
  }

  /** The neighbours at a round table: the first and the last sit together. */
  function Left(o: seq<Person>, i: nat): Person
    requires i < |o|
  {
    o[if i > 0 then i - 1 else |o| - 1]
  }

  function Right(o: seq<Person>, i: nat): Person
    requires i < |o|
  {
    o[if i < |o| - 1 then i + 1 else 0]
  }

  /** What the person in seat `i` feels about both neighbours. */
  function Seat(o: seq<Person>, rel: Relationships, i: nat): int
    requires i < |o|
  {
    Get(rel, o[i], Left(o, i)) + Get(rel, o[i], Right(o, i))
  }

  function Seats(o: seq<Person>, rel: Relationships): (r: seq<int>)
    ensures |r| == |o| && forall i :: 0 <= i < |o| ==> r[i] == Seat(o, rel, i)
  {
    seq(|o|, i requires 0 <= i < |o| => Seat(o, rel, i))
  }

  /** The total change in happiness of a seating. */
  function Happiness(o: seq<Person>, rel: Relationships): int
  {
    Sum(Seats(o, rel))
  }

  /** `evaluate_ordering`: adds up each person's relation to the left and
      to the right neighbour. */
  method EvaluateOrdering(ordering: seq<Person>, relationships: Relationships) returns (totalHappiness: int)
    ensures totalHappiness == Happiness(ordering, relationships)
  {
    totalHappiness := 0;
    ghost var seats := Seats(ordering, relationships);
    for i := 0 to |ordering|
      invariant totalHappiness == Sum(seats[..i])
    {
      var person := ordering[i];
      var left := ordering[if i > 0 then i - 1 else |ordering| - 1];
      var right := ordering[if i < |ordering| - 1 then i + 1 else 0];
      var l := if (person, left) in relationships then relationships[(person, left)] else 0;
      var r := if (person, right) in relationships then relationships[(person, right)] else 0;
      assert seats[..i + 1] == seats[..i] + [seats[i]];
      SumSnoc(seats[..i], seats[i]);
      totalHappiness := totalHappiness + (l + r);
    }
    assert seats[..|ordering|] == seats;
  }

  /** A round table has no head: moving everyone one seat along keeps the
      total. */
  lemma HappinessRotate(o: seq<Person>, rel: Relationships)
    requires o != []
    ensures Happiness(o[1..] + [o[0]], rel) == Happiness(o, rel)
  {
    var r := o[1..] + [o[0]];
    var s := Seats(o, rel);
    var t := Seats(r, rel);
    forall i | 0 <= i < |o|
      ensures t[i] == (s[1..] + [s[0]])[i]
    {
      if i < |o| - 1 {
        assert r[i] == o[i + 1];
        assert Left(r, i) == Left(o, i + 1);
        assert Right(r, i) == Right(o, i + 1);
      } else {
        assert r[i] == o[0];
        assert Left(r, i) == Left(o, 0);
        assert Right(r, i) == Right(o, 0);
      }
    }
    assert t == s[1..] + [s[0]];
    SumAppend(s[1..], [s[0]]);
    assert Sum([s[0]]) == s[0] + Sum([]);
    assert s == [s[0]] + s[1..];
    SumAppend([s[0]], s[1..]);
  }

  /** Nor a direction: seating everyone in reverse order keeps the total,
      since each person swaps a left for a right neighbour. */
  lemma HappinessReverse(o: seq<Person>, rel: Relationships)
    ensures Happiness(Reverse(o), rel) == Happiness(o, rel)
  {
    var r := Reverse(o);
    var s := Seats(o, rel);
    var t := Seats(r, rel);
    var n := |o|;
    forall i | 0 <= i < n
      ensures t[i] == Reverse(s)[i]
    {
      var j := n - 1 - i;
      assert r[i] == o[j];
      assert Left(r, i) == Right(o, j);
      assert Right(r, i) == Left(o, j);
    }
    assert t == Reverse(s);
    SumReverse(s);
  }

  /** Why the extra guest of the second part needs no relations: seated
      first, a person nobody has a relation with breaks exactly the link
      between the last and the first of the others. */
  lemma GuestBreaksOneLink(g: Person, o: seq<Person>, rel: Relationships)
    requires Absent(g, rel) && o != []
    ensures Happiness([g] + o, rel)
      == Happiness(o, rel) - Get(rel, o[0], o[|o| - 1]) - Get(rel, o[|o| - 1], o[0])
  {
    var m := |o|;
    var s := Seats(o, rel);
    var d := s[0 := s[0] - Get(rel, o[0], o[m - 1])];
    var u := d[m - 1 := d[m - 1] - Get(rel, o[m - 1], o[0])];
    GuestSeats(g, o, rel, u);
    SumUpdate(s, 0, s[0] - Get(rel, o[0], o[m - 1]));
    SumUpdate(d, m - 1, d[m - 1] - Get(rel, o[m - 1], o[0]));
    SumAppend([0], u);
  }

  /** The guest's seat adds nothing; the two beside it each lose the
      neighbour they had across the guest. */
  lemma GuestSeats(g: Person, o: seq<Person>, rel: Relationships, u: seq<int>)
    requires Absent(g, rel) && o != []
    requires var m, s := |o|, Seats(o, rel);
      var d := s[0 := s[0] - Get(rel, o[0], o[m - 1])];
      u == d[m - 1 := d[m - 1] - Get(rel, o[m - 1], o[0])]
    ensures Seats([g] + o, rel) == [0] + u
  {
    var m := |o|;
    var t := Seats([g] + o, rel);
    forall k | 0 <= k < m
      ensures t[k + 1] == u[k]
    {
      GuestSeat(g, o, rel, k);
    }
    assert t[0] == 0;
  }

  lemma GuestSeat(g: Person, o: seq<Person>, rel: Relationships, k: nat)
    requires Absent(g, rel) && k < |o|
    ensures Seat([g] + o, rel, k + 1) == Seat(o, rel, k)
      - (if k == 0 then Get(rel, o[0], o[|o| - 1]) else 0)
      - (if k == |o| - 1 then Get(rel, o[|o| - 1], o[0]) else 0)
  {
    var w := [g] + o;
    assert w[k + 1] == o[k];
    if k > 0 {
      assert Left(w, k + 1) == Left(o, k);
    }
    if k < |o| - 1 {
      assert Right(w, k + 1) == Right(o, k);
    }
  }

  // ---------------------------------------------------------------------
  // The best seating

  /** `0..n_people` collected into a vector. */
  function Range(n: nat): (r: seq<Person>)
    ensures |r| == n && forall i :: 0 <= i < n ==> r[i] == i
  {
    seq(n, i => i)
  }

  /** `find_best_ordering`: visits every ordering of the people and keeps
      one only when it is strictly happier than the best so far, starting
      from an empty ordering valued at `i32::MIN`. */
  method FindBestOrdering(nPeople: nat, relationships: Relationships, perms: seq<seq<Person>>)
    returns (bestOrdering: seq<Person>)
    requires forall p: seq<Person> :: p in perms <==> multiset(p) == multiset(Range(nPeople))
    ensures forall p: seq<Person> :: multiset(p) == multiset(Range(nPeople)) ==>
      Happiness(p, relationships) <= Happiness(bestOrdering, relationships)
      || (bestOrdering == [] && Happiness(p, relationships) <= I32_MIN_VALUE)
    ensures (multiset(bestOrdering) == multiset(Range(nPeople))
             && Happiness(bestOrdering, relationships) > I32_MIN_VALUE)
      || (bestOrdering == []
          && forall p: seq<Person> :: multiset(p) == multiset(Range(nPeople)) ==> Happiness(p, relationships) <= I32_MIN_VALUE)
  {
    bestOrdering := [];
    var curHappiness := I32_MIN_VALUE;
    for i := 0 to |perms|
      invariant forall p :: p in perms[..i] ==> Happiness(p, relationships) <= curHappiness
      invariant curHappiness >= I32_MIN_VALUE
      invariant (bestOrdering in perms && curHappiness > I32_MIN_VALUE
                 && curHappiness == Happiness(bestOrdering, relationships))
        || (bestOrdering == [] && curHappiness == I32_MIN_VALUE)
    {
      assert perms[..i + 1] == perms[..i] + [perms[i]];
      var thisHappiness := EvaluateOrdering(perms[i], relationships);
      if thisHappiness > curHappiness {
        curHappiness := thisHappiness;
        bestOrdering := perms[i];
      }
    }
    assert perms[..|perms|] == perms;
  }
}
