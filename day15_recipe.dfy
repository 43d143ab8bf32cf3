// Day 15: a cookie recipe of 100 teaspoons, its score, and the recipes one
// teaspoon away from it, as the first version of the neighbour iterator
// walks them.

module Day15Recipe {
  import opened Text
  import opened Day15Ingredient

  /** `TOTAL_INGREDIENTS`: the teaspoons in a recipe. */
  const TotalIngredients: nat := 100

  /** A recipe's `HashMap<Ingredient, quantity>`, as its entries in the
      map's iteration order. */
  type Entries = seq<(Ingredient, nat)>

  /** A map holds each key once. */
  predicate Distinct(r: Entries)
  {
    forall a, b :: 0 <= a < b < |r| ==> r[a].0 != r[b].0
  }

  predicate HasKey(r: Entries, x: Ingredient)
  {
    exists k :: 0 <= k < |r| && r[k].0 == x
  }

  /** `HashMap::get`. */
  function Lookup(r: Entries, x: Ingredient): Option<nat>
  {
    if r == [] then None else if r[0].0 == x then Some(r[0].1) else Lookup(r[1..], x)
  }

  /** `HashMap::insert`: a key already there keeps its place and takes the
      new quantity; a new key is added. */
  function Insert(r: Entries, x: Ingredient, q: nat): Entries
  {
    if r == [] then [(x, q)]
    else if r[0].0 == x then [(x, q)] + r[1..]
    else [r[0]] + Insert(r[1..], x, q)
  }

  /** The teaspoons in a recipe. */
  function Total(r: Entries): nat
  {
    if r == [] then 0 else r[0].1 + Total(r[1..])
  }

  // ---------------------------------------------------------------------
  // The map laws of the entry list

  /** After an insert the key maps to the new quantity and every other key
      to what it did. */
  lemma {:induction false} InsertLookup(r: Entries, x: Ingredient, q: nat, y: Ingredient)
    ensures Lookup(Insert(r, x, q), y) == if y == x then Some(q) else Lookup(r, y)
    decreases |r|
  {
    if r != [] && r[0].0 != x {
      InsertLookup(r[1..], x, q, y);
      assert Insert(r, x, q)[1..] == Insert(r[1..], x, q);
    }
  }

  lemma {:induction false} LookupHasKey(r: Entries, x: Ingredient)
    ensures Lookup(r, x).Some? <==> HasKey(r, x)
    decreases |r|
  {
    if r != [] {
      LookupHasKey(r[1..], x);
      if HasKey(r, x) && r[0].0 != x {
        var k :| 0 <= k < |r| && r[k].0 == x;
        assert r[1..][k - 1].0 == x;
      }
      if HasKey(r[1..], x) {
        var k :| 0 <= k < |r[1..]| && r[1..][k].0 == x;
        assert r[k + 1].0 == x;
      }
    }
  }

  /** Inserting a key already present replaces its entry in place. */
  lemma {:induction false} InsertAt(r: Entries, k: nat, q: nat)
    requires Distinct(r) && k < |r|
    ensures Insert(r, r[k].0, q) == r[k := (r[k].0, q)]
    decreases k
  {
    if k > 0 {
      InsertAt(r[1..], k - 1, q);
      assert r[k := (r[k].0, q)] == [r[0]] + r[1..][k - 1 := (r[k].0, q)];
    }
  }

  /** Inserting a new key appends it. */
  lemma {:induction false} InsertNew(r: Entries, x: Ingredient, q: nat)
    requires !HasKey(r, x)
    ensures Insert(r, x, q) == r + [(x, q)]
    decreases |r|
  {
    if r != [] {
      assert r[0].0 != x;
      assert !HasKey(r[1..], x) by {
        forall k | 0 <= k < |r[1..]| ensures r[1..][k].0 != x {
          assert r[1..][k] == r[k + 1];
        }
      }
      InsertNew(r[1..], x, q);
      assert r == [r[0]] + r[1..];
    }
  }

  lemma InsertKeys(r: Entries, x: Ingredient, q: nat)
    requires Distinct(r)
    ensures Distinct(Insert(r, x, q))
    ensures forall y :: HasKey(Insert(r, x, q), y) <==> HasKey(r, y) || y == x
  {
    if HasKey(r, x) {
      var k :| 0 <= k < |r| && r[k].0 == x;
      InsertAt(r, k, q);
      var s := Insert(r, x, q);
      forall y | HasKey(s, y) ensures HasKey(r, y) {
        var j :| 0 <= j < |s| && s[j].0 == y;
        assert r[j].0 == y;
      }
      forall y | HasKey(r, y) ensures HasKey(s, y) {
        var j :| 0 <= j < |r| && r[j].0 == y;
        assert s[j].0 == y;
      }
    } else {
      InsertNew(r, x, q);
      var s := Insert(r, x, q);
      assert s[|r|].0 == x;
      forall y | HasKey(s, y) ensures HasKey(r, y) || y == x {
        var j :| 0 <= j < |s| && s[j].0 == y;
        if j < |r| { assert r[j].0 == y; }
      }
      forall y | HasKey(r, y) ensures HasKey(s, y) {
        var j :| 0 <= j < |r| && r[j].0 == y;
        assert s[j].0 == y;
      }
    }
  }

  /** An insert adds its quantity and takes away the one it replaces. */
  lemma {:induction false} InsertTotal(r: Entries, x: Ingredient, q: nat)
    ensures Total(Insert(r, x, q)) + (match Lookup(r, x) case Some(v) => v case None => 0) == Total(r) + q
    decreases |r|
  {
    if r == [] {
      assert Total([(x, q)]) == q + Total([]);
    } else if r[0].0 == x {
      assert ([(x, q)] + r[1..])[1..] == r[1..];
    } else {
      InsertTotal(r[1..], x, q);
      assert Insert(r, x, q)[1..] == Insert(r[1..], x, q);
    }
  }

  /** Changing one quantity changes the total by the difference. */
  lemma {:induction false} TotalUpdate(r: Entries, k: nat, q: nat)
    requires k < |r|
    ensures Total(r[k := (r[k].0, q)]) + r[k].1 == Total(r) + q
    decreases k
  {
    if k > 0 {
      TotalUpdate(r[1..], k - 1, q);
      assert r[k := (r[k].0, q)][1..] == r[1..][k - 1 := (r[k].0, q)];
    }
  }

  // ---------------------------------------------------------------------
  // Recipe::new

  /** `default_qty`: 100 over the number of ingredients, which is cast to
      `u16` first and so taken modulo 65536. */
  function DefaultQty(count: nat): (d: nat)
    requires count % 0x1_0000 != 0
    ensures d <= TotalIngredients
    ensures count < 0x1_0000 ==> count * d <= TotalIngredients
    ensures count % 0x1_0000 == 1 ==> d == TotalIngredients
  {
    TotalIngredients / (count % 0x1_0000)
  }

  /** The map `new` has built, and the teaspoons it has handed out, after
      the ingredients `ings`: each gets `d`, or what is left of 100 when
      that is less. */
  function Filled(ings: seq<Ingredient>, d: nat): (f: (Entries, nat))
    ensures f.1 <= TotalIngredients
  {
    if ings == [] then ([], 0)
    else
      var prev := Filled(ings[..|ings| - 1], d);
      var qty := if d <= TotalIngredients - prev.1 then d else TotalIngredients - prev.1;
      (Insert(prev.0, ings[|ings| - 1], qty), prev.1 + qty)
  }

  /** `Recipe::new`. An empty list, or one whose length is a multiple of
      65536, divides by zero. */
  method New(ings: seq<Ingredient>) returns (r: Entries)
    requires |ings| % 0x1_0000 != 0
    ensures r == Filled(ings, DefaultQty(|ings|)).0
  {
    var defaultQty := TotalIngredients / (|ings| % 0x1_0000);
    var used: nat := 0;
    r := [];
    for k := 0 to |ings|
      invariant (r, used) == Filled(ings[..k], defaultQty)
    {
      assert ings[..k + 1][..k] == ings[..k];
      var qty := if defaultQty <= TotalIngredients - used then defaultQty else TotalIngredients - used;
      r := Insert(r, ings[k], qty);
      used := used + qty;
    }
    assert ings[..|ings|] == ings;
  }

  /** The map holds exactly the listed ingredients, each once. */
  lemma {:induction false} FilledMap(ings: seq<Ingredient>, d: nat)
    ensures Distinct(Filled(ings, d).0)
    ensures forall x :: HasKey(Filled(ings, d).0, x) <==> x in ings
    decreases |ings|
  {
    if ings != [] {
      var init, last := ings[..|ings| - 1], ings[|ings| - 1];
      FilledMap(init, d);
      InsertKeys(Filled(init, d).0, last, Filled(ings, d).1 - Filled(init, d).1);
      assert ings == init + [last];
      assert forall x :: x in ings <==> x in init || x == last;
    }
  }

  /** The map holds no more teaspoons than were handed out. */
  lemma {:induction false} FilledTotal(ings: seq<Ingredient>, d: nat)
    ensures Total(Filled(ings, d).0) <= Filled(ings, d).1
    decreases |ings|
  {
    if ings != [] {
      var init, last := ings[..|ings| - 1], ings[|ings| - 1];
      FilledTotal(init, d);
      InsertTotal(Filled(init, d).0, last, Filled(ings, d).1 - Filled(init, d).1);
    }
  }

  /** A recipe never holds more than 100 teaspoons. */
  lemma NewTotal(ings: seq<Ingredient>)
    requires |ings| % 0x1_0000 != 0
    ensures Total(Filled(ings, DefaultQty(|ings|)).0) <= TotalIngredients
  {
    FilledTotal(ings, DefaultQty(|ings|));
  }

  predicate Unique(ings: seq<Ingredient>)
  {
    forall a, b :: 0 <= a < b < |ings| ==> ings[a] != ings[b]
  }

  lemma {:induction false} FilledEven(ings: seq<Ingredient>, d: nat)
    requires Unique(ings) && |ings| * d <= TotalIngredients
    ensures |Filled(ings, d).0| == |ings| && Filled(ings, d).1 == |ings| * d
    ensures forall k :: 0 <= k < |ings| ==> Filled(ings, d).0[k] == (ings[k], d)
    decreases |ings|
  {
    if ings != [] {
      var n := |ings|;
      var init := ings[..n - 1];
      assert (n - 1) * d + d == n * d;
      FilledEven(init, d);
      FilledMap(init, d);
      var prev := Filled(init, d);
      assert ings[n - 1] !in init;
      InsertNew(prev.0, ings[n - 1], d);
    }
  }

  /** Distinct ingredients, fewer than 65536, each get 100 / n teaspoons,
      in the order they were listed. */
  lemma NewEven(ings: seq<Ingredient>)
    requires Unique(ings) && 0 < |ings| < 0x1_0000
    ensures var r := Filled(ings, DefaultQty(|ings|)).0;
      |r| == |ings| && forall k :: 0 <= k < |ings| ==> r[k] == (ings[k], TotalIngredients / |ings|)
  {
    FilledEven(ings, DefaultQty(|ings|));
  }

  lemma {:induction false} FilledFull(ings: seq<Ingredient>)
    requires Unique(ings) && ings != []
    ensures var f := Filled(ings, TotalIngredients);
      f.1 == TotalIngredients && |f.0| == |ings| && f.0[0] == (ings[0], TotalIngredients)
      && forall k :: 1 <= k < |ings| ==> f.0[k] == (ings[k], 0)
    decreases |ings|
  {
    var n := |ings|;
    if n > 1 {
      var init := ings[..n - 1];
      FilledFull(init);
      FilledMap(init, TotalIngredients);
      assert ings[n - 1] !in init;
      InsertNew(Filled(init, TotalIngredients).0, ings[n - 1], 0);
    }
  }

  /** With 65536 k + 1 ingredients the cast makes `default_qty` 100: the
      first ingredient takes everything and the rest get nothing. */
  lemma NewTruncated(ings: seq<Ingredient>)
    requires Unique(ings) && |ings| % 0x1_0000 == 1
    ensures var r := Filled(ings, DefaultQty(|ings|)).0;
      |r| == |ings| && r[0] == (ings[0], TotalIngredients)
      && forall k :: 1 <= k < |ings| ==> r[k] == (ings[k], 0)
  {
    FilledFull(ings);
  }

  // ---------------------------------------------------------------------
  // Recipe::goodness

  datatype Property = Capacity | Durability | Flavor | Texture | Calories

  function Score(ing: Ingredient, p: Property): int
  {
    match p
    case Capacity => ing.capacity
    case Durability => ing.durability
    case Flavor => ing.flavor
    case Texture => ing.texture
    case Calories => ing.calories
  }

  /** The quantity-weighted sum of one property, over the entries in
      iteration order. */
  function Weighted(r: Entries, p: Property): int
  {
    if r == [] then 0 else Weighted(r[..|r| - 1], p) + r[|r| - 1].1 * Score(r[|r| - 1].0, p)
  }

  /** What `goodness` returns: the product of the four weighted sums as the
      sums stand, since the clamp works on a copy, taken modulo 2^32 as the
      wrapping `i32` arithmetic and the `as u32` cast leave it. */
  function GoodnessOf(r: Entries): nat
  {
    (Weighted(r, Capacity) * Weighted(r, Durability) * Weighted(r, Flavor) * Weighted(r, Texture))
      % 0x1_0000_0000
  }

  /** The first loop of `goodness`: the four quantity-weighted sums. */
  method Sums(r: Entries) returns (capacity: int, durability: int, flavor: int, texture: int)
    ensures capacity == Weighted(r, Capacity) && durability == Weighted(r, Durability)
    ensures flavor == Weighted(r, Flavor) && texture == Weighted(r, Texture)
  {
    capacity, durability, flavor, texture := 0, 0, 0, 0;
    for k := 0 to |r|
      invariant capacity == Weighted(r[..k], Capacity) && durability == Weighted(r[..k], Durability)
      invariant flavor == Weighted(r[..k], Flavor) && texture == Weighted(r[..k], Texture)
    {
      assert r[..k + 1][..k] == r[..k];
      var (ing, qty) := r[k];
      capacity := capacity + qty * ing.capacity;
      durability := durability + qty * ing.durability;
      flavor := flavor + qty * ing.flavor;
      texture := texture + qty * ing.texture;
    }
    assert r[..|r|] == r;
  }

  /** `Recipe::goodness`. */
  method Goodness(r: Entries) returns (g: nat)
    ensures g == GoodnessOf(r)
  {
    var capacity, durability, flavor, texture := Sums(r);
    // The clamp writes to a fresh array, not to the four sums.
    var qualities := new int[] [capacity, durability, flavor, texture];
    for k := 0 to qualities.Length {
      if qualities[k] < 0 {
        qualities[k] := 0;
      }
    }
    g := (capacity * durability * flavor * texture) % 0x1_0000_0000;
  }

  lemma {:induction false} WeightedAppend(a: Entries, b: Entries, p: Property)
    ensures Weighted(a + b, p) == Weighted(a, p) + Weighted(b, p)
    decreases |b|
  {
    if b == [] {
      assert a + b == a;
    } else {
      var init := b[..|b| - 1];
      WeightedAppend(a, init, p);
      assert (a + b)[..|a + b| - 1] == a + init;
    }
  }

  lemma WeightedSingle(e: (Ingredient, nat), p: Property)
    ensures Weighted([e], p) == e.1 * Score(e.0, p)
  {
    assert [e][..0] == [];
  }

  lemma MultisetRemove(a: Entries, b: Entries, k: nat)
    requires multiset(a) == multiset(b) && a != [] && k < |b| && b[k] == a[|a| - 1]
    ensures multiset(a[..|a| - 1]) == multiset(b[..k] + b[k + 1..])
  {
    var init, last, front, back := a[..|a| - 1], a[|a| - 1], b[..k], b[k + 1..];
    assert a == init + [last];
    assert b == front + [last] + back;
    assert multiset(b[..k] + b[k + 1..]) == multiset(b) - multiset{last};
  }

  /** Taking one entry out of a list takes its term out of the sum. */
  lemma WeightedRemove(b: Entries, k: nat, p: Property)
    requires k < |b|
    ensures Weighted(b, p) == Weighted(b[..k] + b[k + 1..], p) + b[k].1 * Score(b[k].0, p)
  {
    var front, back := b[..k], b[k + 1..];
    assert b == front + [b[k]] + back;
    WeightedAppend(front + [b[k]], back, p);
    WeightedAppend(front, [b[k]], p);
    WeightedAppend(front, back, p);
    WeightedSingle(b[k], p);
  }

  /** The iteration order of the map does not change a weighted sum. */
  lemma {:induction false} WeightedPermutation(a: Entries, b: Entries, p: Property)
    requires multiset(a) == multiset(b)
    ensures Weighted(a, p) == Weighted(b, p)
    decreases |a|
  {
    if a == [] {
      assert |b| == |multiset(b)| == 0;
    } else {
      assert a[|a| - 1] in multiset(b);
      var k :| 0 <= k < |b| && b[k] == a[|a| - 1];
      MultisetRemove(a, b, k);
      WeightedPermutation(a[..|a| - 1], b[..k] + b[k + 1..], p);
      WeightedRemove(b, k, p);
    }
  }

  /** The score does not depend on the map's iteration order. */
  lemma GoodnessOrderFree(a: Entries, b: Entries)
    requires multiset(a) == multiset(b)
    ensures GoodnessOf(a) == GoodnessOf(b)
  {
    WeightedPermutation(a, b, Capacity);
    WeightedPermutation(a, b, Durability);
    WeightedPermutation(a, b, Flavor);
    WeightedPermutation(a, b, Texture);
  }

  /** Two lists of entries that differ at most in calories. */
  predicate SameButCalories(a: Entries, b: Entries)
  {
    |a| == |b| && forall k :: 0 <= k < |a| ==> a[k].1 == b[k].1 && a[k].0.(calories := 0) == b[k].0.(calories := 0)
  }

  lemma {:induction false} WeightedButCalories(a: Entries, b: Entries, p: Property)
    requires SameButCalories(a, b) && p != Calories
    ensures Weighted(a, p) == Weighted(b, p)
    decreases |a|
  {
    if a != [] {
      var n := |a|;
      assert a[n - 1].0.(calories := 0) == b[n - 1].0.(calories := 0);
      assert Score(a[n - 1].0, p) == Score(a[n - 1].0.(calories := 0), p);
      assert Score(b[n - 1].0, p) == Score(b[n - 1].0.(calories := 0), p);
      WeightedButCalories(a[..n - 1], b[..n - 1], p);
    }
  }

  /** Calories play no part in the score. */
  lemma CaloriesUnused(a: Entries, b: Entries)
    requires SameButCalories(a, b)
    ensures GoodnessOf(a) == GoodnessOf(b)
  {
    WeightedButCalories(a, b, Capacity);
    WeightedButCalories(a, b, Durability);
    WeightedButCalories(a, b, Flavor);
    WeightedButCalories(a, b, Texture);
  }

  function Clamp(x: int): nat
  {
    if x < 0 then 0 else x
  }

  /** The score the puzzle asks for: each sum below zero counts as zero. */
  function ClampedScore(r: Entries): nat
  {
    Clamp(Weighted(r, Capacity)) * Clamp(Weighted(r, Durability)) * Clamp(Weighted(r, Flavor))
      * Clamp(Weighted(r, Texture))
  }

  /** `goodness` with the clamp applied to the sums themselves: a recipe
      with any sum below zero scores nothing, and otherwise the score is
      the product of the sums. */
  method ClampedGoodness(r: Entries) returns (g: nat)
    ensures g == ClampedScore(r)
    ensures (Weighted(r, Capacity) < 0 || Weighted(r, Durability) < 0
             || Weighted(r, Flavor) < 0 || Weighted(r, Texture) < 0) ==> g == 0
    ensures (Weighted(r, Capacity) >= 0 && Weighted(r, Durability) >= 0
             && Weighted(r, Flavor) >= 0 && Weighted(r, Texture) >= 0) ==>
      g == Weighted(r, Capacity) * Weighted(r, Durability) * Weighted(r, Flavor) * Weighted(r, Texture)
  {
    var capacity, durability, flavor, texture := Sums(r);
    if capacity < 0 { capacity := 0; }
    if durability < 0 { durability := 0; }
    if flavor < 0 { flavor := 0; }
    if texture < 0 { texture := 0; }
    g := capacity * durability * flavor * texture;
  }

  /** When no sum is negative and the product fits in 32 bits, `goodness`
      is the puzzle's score. */
  lemma GoodnessAgrees(r: Entries)
    requires Weighted(r, Capacity) >= 0 && Weighted(r, Durability) >= 0
    requires Weighted(r, Flavor) >= 0 && Weighted(r, Texture) >= 0
    requires ClampedScore(r) < 0x1_0000_0000
    ensures GoodnessOf(r) == ClampedScore(r)
  {
  }

  /** Two negative sums make a positive score where the puzzle's is zero,
      and one negative sum wraps to nearly 2^32. */
  lemma UnclampedSums(name: string)
    ensures var r := [(Ingredient(name, -1, -1, 1, 1, 0), 1)];
      GoodnessOf(r) == 1 && ClampedScore(r) == 0
    ensures var r := [(Ingredient(name, -1, 1, 1, 1, 0), 1)];
      GoodnessOf(r) == 0xFFFF_FFFF && ClampedScore(r) == 0
  {
    WeightedSingle((Ingredient(name, -1, -1, 1, 1, 0), 1), Capacity);
    WeightedSingle((Ingredient(name, -1, -1, 1, 1, 0), 1), Durability);
    WeightedSingle((Ingredient(name, -1, -1, 1, 1, 0), 1), Flavor);
    WeightedSingle((Ingredient(name, -1, -1, 1, 1, 0), 1), Texture);
    WeightedSingle((Ingredient(name, -1, 1, 1, 1, 0), 1), Capacity);
    WeightedSingle((Ingredient(name, -1, 1, 1, 1, 0), 1), Durability);
    WeightedSingle((Ingredient(name, -1, 1, 1, 1, 0), 1), Flavor);
    WeightedSingle((Ingredient(name, -1, 1, 1, 1, 0), 1), Texture);
  }

  lemma WeightedPair(a: (Ingredient, nat), b: (Ingredient, nat), p: Property)
    ensures Weighted([a, b], p) == a.1 * Score(a.0, p) + b.1 * Score(b.0, p)
  {
    assert [a, b][..1] == [a];
    WeightedSingle(a, p);
  }

  /** The puzzle's example: 44 teaspoons of butterscotch and 56 of cinnamon
      score 62842880. */
  lemma ExampleScore(butterscotch: string, cinnamon: string)
    ensures var r := [(Ingredient(butterscotch, -1, -2, 6, 3, 8), 44), (Ingredient(cinnamon, 2, 3, -2, -1, 3), 56)];
      GoodnessOf(r) == 62842880 == ClampedScore(r)
  {
    var a, b := (Ingredient(butterscotch, -1, -2, 6, 3, 8), 44), (Ingredient(cinnamon, 2, 3, -2, -1, 3), 56);
    WeightedPair(a, b, Capacity);
    WeightedPair(a, b, Durability);
    WeightedPair(a, b, Flavor);
    WeightedPair(a, b, Texture);
  }

  // ---------------------------------------------------------------------
  // Neighbours: the recipes with one teaspoon moved

  /** Moving a teaspoon from position `p.1` to position `p.0`. */
  predicate Move(r: Entries, p: (nat, nat))
  {
    p.0 < |r| && p.1 < |r| && r[p.0].0 != r[p.1].0 && r[p.0].1 + 1 <= TotalIngredients && r[p.1].1 >= 1
  }

  /** The neighbour the iterator builds for a move: the recipe with the
      increased quantity and then the decreased one inserted. */
  function Bump(r: Entries, p: (nat, nat)): Entries
    requires p.0 < |r| && p.1 < |r| && r[p.1].1 >= 1
  {
    Insert(Insert(r, r[p.0].0, r[p.0].1 + 1), r[p.1].0, r[p.1].1 - 1)
  }

  /** Changing a quantity keeps the keys distinct. */
  lemma DistinctUpdate(r: Entries, k: nat, q: nat)
    requires Distinct(r) && k < |r|
    ensures Distinct(r[k := (r[k].0, q)])
  {
    var s := r[k := (r[k].0, q)];
    assert forall a :: 0 <= a < |r| ==> s[a].0 == r[a].0;
  }

  /** On distinct keys the two inserts update the two entries in place. */
  lemma BumpInPlace(r: Entries, p: (nat, nat))
    requires Distinct(r) && Move(r, p)
    ensures Bump(r, p) == r[p.0 := (r[p.0].0, r[p.0].1 + 1)][p.1 := (r[p.1].0, r[p.1].1 - 1)]
  {
    var up := r[p.0 := (r[p.0].0, r[p.0].1 + 1)];
    InsertAt(r, p.0, r[p.0].1 + 1);
    DistinctUpdate(r, p.0, r[p.0].1 + 1);
    InsertAt(up, p.1, r[p.1].1 - 1);
  }

  /** A neighbour differs from the recipe in exactly the two entries of the
      move, by one teaspoon up and one down, and keeps the total. */
  lemma BumpChanges(r: Entries, p: (nat, nat))
    requires Distinct(r) && Move(r, p)
    ensures Distinct(Bump(r, p)) && |Bump(r, p)| == |r|
    ensures Bump(r, p)[p.0] == (r[p.0].0, r[p.0].1 + 1) && Bump(r, p)[p.1] == (r[p.1].0, r[p.1].1 - 1)
    ensures forall k :: 0 <= k < |r| && k != p.0 && k != p.1 ==> Bump(r, p)[k] == r[k]
    ensures Total(Bump(r, p)) == Total(r)
  {
    BumpInPlace(r, p);
    var up := r[p.0 := (r[p.0].0, r[p.0].1 + 1)];
    DistinctUpdate(r, p.0, r[p.0].1 + 1);
    DistinctUpdate(up, p.1, r[p.1].1 - 1);
    TotalUpdate(r, p.0, r[p.0].1 + 1);
    TotalUpdate(up, p.1, r[p.1].1 - 1);
  }

  /** The moves into position `i` that the decrease iterator finds from
      position `j` on: a position holding the same ingredient, or no
      teaspoon, is passed over. */
  function RowFrom(r: Entries, i: nat, j: nat): (s: seq<(nat, nat)>)
    requires i < |r|
    ensures s != [] ==> s[0].0 == i && j <= s[0].1 < |r| && r[s[0].1].0 != r[i].0 && r[s[0].1].1 >= 1
    decreases |r| - j
  {
    if j >= |r| then []
    else (if r[j].0 != r[i].0 && r[j].1 >= 1 then [(i, j)] else []) + RowFrom(r, i, j + 1)
  }

  /** All moves into position `i`: none when its quantity is already 100. */
  function Row(r: Entries, i: nat): (s: seq<(nat, nat)>)
    requires i < |r|
    ensures s != [] ==> Move(r, s[0]) && s[0].0 == i
  {
    if r[i].1 + 1 > TotalIngredients then [] else RowFrom(r, i, 0)
  }

  /** What this iterator yields from increase position `i` on: the moves
      into the first position whose quantity is below 100 and nothing
      after, because the exhausted decrease iterator is never reset. */
  function FirstRow(r: Entries, i: nat): (s: seq<(nat, nat)>)
    ensures s != [] ==> Move(r, s[0]) && i <= s[0].0
    decreases |r| - i
  {
    if i >= |r| then []
    else if r[i].1 + 1 > TotalIngredients then FirstRow(r, i + 1)
    else Row(r, i)
  }

  /** The decrease candidates found from position `j` on are exactly the
      later positions with a different ingredient and a teaspoon to give. */
  lemma {:induction false} RowFromExactly(r: Entries, i: nat, j: nat, p: (nat, nat))
    requires i < |r|
    ensures p in RowFrom(r, i, j) <==> p.0 == i && j <= p.1 < |r| && r[p.1].0 != r[i].0 && r[p.1].1 >= 1
    decreases |r| - j
  {
    if j < |r| {
      var head := if r[j].0 != r[i].0 && r[j].1 >= 1 then [(i, j)] else [];
      assert RowFrom(r, i, j) == head + RowFrom(r, i, j + 1);
      assert p in RowFrom(r, i, j) <==> p in head || p in RowFrom(r, i, j + 1);
      RowFromExactly(r, i, j + 1, p);
    }
  }

  /** The first version's neighbours are exactly the moves into the first
      position with room for another teaspoon. */
  lemma {:induction false} FirstRowExactly(r: Entries, i: nat, p: (nat, nat))
    ensures p in FirstRow(r, i) <==>
      Move(r, p) && i <= p.0 && forall k :: i <= k < p.0 ==> r[k].1 + 1 > TotalIngredients
    decreases |r| - i
  {
    if i < |r| {
      if r[i].1 + 1 > TotalIngredients {
        FirstRowExactly(r, i + 1, p);
      } else {
        RowFromExactly(r, i, 0, p);
      }
    }
  }

  /** Where the two passes of a neighbour iterator stand: the entries each
      has handed out, and the ingredient held for increase with its
      quantity plus one. */
  datatype Cursor = Cursor(incrIt: nat, decrIt: nat, incrT: Option<(Ingredient, nat)>)

  /** The held ingredient is the last one the increase pass handed out. */
  predicate AtIncrease(r: Entries, c: Cursor)
  {
    c.incrIt <= |r| && c.decrIt <= |r|
    && (c.incrT.None? ==> c.incrIt == |r|)
    && (c.incrT.Some? ==> 1 <= c.incrIt && c.incrT.value == (r[c.incrIt - 1].0, r[c.incrIt - 1].1 + 1))
  }

  /** `increment_incr` on a cursor: the next entry of the pass with its
      quantity one higher, or `None` once the pass is over. */
  function Advance(r: Entries, c: Cursor): (a: Cursor)
    requires c.incrIt <= |r| && c.decrIt <= |r|
    ensures AtIncrease(r, a) && a.decrIt == c.decrIt
  {
    if c.incrIt < |r| then Cursor(c.incrIt + 1, c.decrIt, Some((r[c.incrIt].0, r[c.incrIt].1 + 1)))
    else c.(incrT := None)
  }

  /** The cursors this iterator reaches: an increase that would pass 100 is
      only ever held with the decrease pass unstarted or over. */
  predicate OldState(r: Entries, c: Cursor)
  {
    AtIncrease(r, c) && (c.incrT.Some? && c.incrT.value.1 > TotalIngredients ==> c.decrIt == 0 || c.decrIt == |r|)
  }

  /** `next` of this iterator on plain values: the move whose neighbour it
      returns, if any, and the cursor it leaves. */
  function OldNext(r: Entries, c: Cursor): (n: (Option<(nat, nat)>, Cursor))
    requires OldState(r, c)
    ensures OldState(r, n.1) && (n.0.Some? ==> Move(r, n.0.value))
    decreases |r| - c.incrIt + (if c.incrT.Some? then 1 else 0), |r| - c.decrIt
  {
    if c.incrT.None? then (None, c)
    else if c.incrT.value.1 > TotalIngredients || c.decrIt == |r| then OldNext(r, Advance(r, c))
    else if r[c.decrIt].0 != c.incrT.value.0 && r[c.decrIt].1 >= 1 then
      (Some((c.incrIt - 1, c.decrIt)), Cursor(c.incrIt, c.decrIt + 1, c.incrT))
    else OldNext(r, Cursor(c.incrIt, c.decrIt + 1, c.incrT))
  }

  /** The moves this iterator has still to yield from a cursor, in order. */
  function OldPending(r: Entries, c: Cursor): (s: seq<(nat, nat)>)
    requires OldState(r, c)
    ensures s != [] ==> Move(r, s[0])
  {
    if c.incrT.None? then []
    else if c.incrT.value.1 <= TotalIngredients then RowFrom(r, c.incrIt - 1, c.decrIt)
    else if c.decrIt == 0 then FirstRow(r, c.incrIt)
    else []
  }

  /** A fresh iterator has all of `FirstRow` to yield. */
  lemma OldStart(r: Entries)
    ensures OldState(r, Advance(r, Cursor(0, 0, None)))
    ensures OldPending(r, Advance(r, Cursor(0, 0, None))) == FirstRow(r, 0)
  {
  }

  /** Moving on to the next increase, when the current one would pass 100
      or the decrease pass is over, loses no pending move. */
  lemma OldAdvance(r: Entries, c: Cursor)
    requires OldState(r, c) && c.incrT.Some?
    requires c.incrT.value.1 > TotalIngredients || c.decrIt == |r|
    ensures OldState(r, Advance(r, c)) && OldPending(r, Advance(r, c)) == OldPending(r, c)
  {
  }

  /** One step of the decrease pass yields the move it finds, if any. */
  lemma OldDecrease(r: Entries, c: Cursor)
    requires OldState(r, c) && c.incrT.Some?
    requires c.incrT.value.1 <= TotalIngredients && c.decrIt < |r|
    ensures OldState(r, Cursor(c.incrIt, c.decrIt + 1, c.incrT))
    ensures var before, after := OldPending(r, c), OldPending(r, Cursor(c.incrIt, c.decrIt + 1, c.incrT));
      if r[c.decrIt].0 != c.incrT.value.0 && r[c.decrIt].1 >= 1
      then before != [] && before[0] == (c.incrIt - 1, c.decrIt) && after == before[1..]
      else after == before
  {
    var i, j := c.incrIt - 1, c.decrIt;
    assert RowFrom(r, i, j)
      == (if r[j].0 != r[i].0 && r[j].1 >= 1 then [(i, j)] else []) + RowFrom(r, i, j + 1);
  }

  /** The neighbour for a move, if there is one. */
  function Neighbour(r: Entries, m: Option<(nat, nat)>): Option<Entries>
    requires m.Some? ==> Move(r, m.value)
  {
    match m
    case None => None
    case Some(p) => Some(Bump(r, p))
  }

  /** One call of `next` as the pending moves see it: with none left it
      makes no move and none are left; otherwise it makes the first and
      drops it. */
  predicate YieldsFirst(before: seq<(nat, nat)>, after: seq<(nat, nat)>, m: Option<(nat, nat)>)
  {
    if before == [] then m == None && after == [] else m == Some(before[0]) && after == before[1..]
  }

  /** Each call of `next` yields the first pending move. */
  lemma {:induction false} OldNextPending(r: Entries, c: Cursor)
    requires OldState(r, c)
    ensures YieldsFirst(OldPending(r, c), OldPending(r, OldNext(r, c).1), OldNext(r, c).0)
    decreases |r| - c.incrIt + (if c.incrT.Some? then 1 else 0), |r| - c.decrIt, 1
  {
    if c.incrT.None? {
    } else if c.incrT.value.1 > TotalIngredients || c.decrIt == |r| {
      OldSkipPending(r, c);
    } else if r[c.decrIt].0 != c.incrT.value.0 && r[c.decrIt].1 >= 1 {
      OldFoundPending(r, c);
    } else {
      OldPassPending(r, c);
    }
  }

  lemma {:induction false} OldSkipPending(r: Entries, c: Cursor)
    requires OldState(r, c) && c.incrT.Some?
    requires c.incrT.value.1 > TotalIngredients || c.decrIt == |r|
    ensures YieldsFirst(OldPending(r, c), OldPending(r, OldNext(r, c).1), OldNext(r, c).0)
    decreases |r| - c.incrIt + 1, |r| - c.decrIt, 0
  {
    var c' := Advance(r, c);
    OldAdvance(r, c);
    assert OldNext(r, c) == OldNext(r, c');
    OldNextPending(r, c');
  }

  lemma OldFoundPending(r: Entries, c: Cursor)
    requires OldState(r, c) && c.incrT.Some?
    requires c.incrT.value.1 <= TotalIngredients && c.decrIt < |r|
    requires r[c.decrIt].0 != c.incrT.value.0 && r[c.decrIt].1 >= 1
    ensures YieldsFirst(OldPending(r, c), OldPending(r, OldNext(r, c).1), OldNext(r, c).0)
  {
    OldDecrease(r, c);
    var p: (nat, nat) := (c.incrIt - 1, c.decrIt);
    assert OldPending(r, c)[0] == p;
    assert OldNext(r, c) == (Some(p), Cursor(c.incrIt, c.decrIt + 1, c.incrT));
  }

  lemma {:induction false} OldPassPending(r: Entries, c: Cursor)
    requires OldState(r, c) && c.incrT.Some?
    requires c.incrT.value.1 <= TotalIngredients && c.decrIt < |r|
    requires !(r[c.decrIt].0 != c.incrT.value.0 && r[c.decrIt].1 >= 1)
    ensures YieldsFirst(OldPending(r, c), OldPending(r, OldNext(r, c).1), OldNext(r, c).0)
    decreases |r| - c.incrIt + 1, |r| - c.decrIt, 0
  {
    var c' := Cursor(c.incrIt, c.decrIt + 1, c.incrT);
    OldDecrease(r, c);
    assert OldNext(r, c) == OldNext(r, c');
    OldNextPending(r, c');
  }

  /** The first version of the neighbour iterator over a recipe: the
      ingredient to increase comes from one pass over the map, the one to
      decrease from another. */
  class Neighbors {
    const recipe: Entries
    /** Entries the increase iterator has handed out. */
    var incrIt: nat
    /** Entries the decrease iterator has handed out. */
    var decrIt: nat
    /** The ingredient to increase and its increased quantity. */
    var incrT: Option<(Ingredient, nat)>

    function Position(): Cursor
      reads this
    {
      Cursor(incrIt, decrIt, incrT)
    }

    ghost predicate Valid()
      reads this
    {
      OldState(recipe, Position())
    }

    /** The moves the iterator has still to yield, in order. */
    ghost function Pending(): seq<(nat, nat)>
      reads this
      requires Valid()
    {
      OldPending(recipe, Position())
    }

    /** `Neighbors::new`: both passes start, and the first ingredient is
        taken for increase. */
    constructor (recipe: Entries)
      ensures Valid() && this.recipe == recipe
      ensures Pending() == FirstRow(recipe, 0)
    {
      this.recipe := recipe;
      incrIt := 0;
      decrIt := 0;
      incrT := None;
      new;
      IncrementIncr();
      OldStart(recipe);
    }

    /** `increment_incr`. */
    method IncrementIncr()
      requires incrIt <= |recipe| && decrIt <= |recipe|
      modifies this
      ensures Position() == Advance(recipe, old(Position()))
    {
      if incrIt < |recipe| {
        incrT := Some((recipe[incrIt].0, recipe[incrIt].1 + 1));
        incrIt := incrIt + 1;
      } else {
        incrT := None;
      }
    }

    /** `Iterator::next`: the neighbour for the move `OldNext` makes, which
        `OldNextPending` shows to be the first pending one. */
    method Next() returns (n: Option<Entries>)
      requires Valid()
      modifies this
      ensures n == Neighbour(recipe, OldNext(recipe, old(Position())).0)
      ensures Position() == OldNext(recipe, old(Position())).1
      decreases |recipe| - incrIt + (if incrT.Some? then 1 else 0), |recipe| - decrIt
    {
      if incrT.None? {
        return None;
      }
      var (incr, incQ) := incrT.value;
      if incQ > TotalIngredients || decrIt == |recipe| {
        // An increase past 100 is skipped; and once the decrease pass is
        // over it stays over.
        IncrementIncr();
        n := Next();
        return;
      }
      var (decr, decQ) := recipe[decrIt];
      decrIt := decrIt + 1;
      if decr == incr {
        n := Next();
        return;
      }
      if decQ >= 1 {
        return Some(Bump(recipe, (incrIt - 1, decrIt - 1)));
      } else {
        n := Next();
      }
    }
  }
}
