// Day 24, `configurator.rs`, `packing_list.rs` and `compartment.rs`: the
// sleigh configured with the layout generator. The packages are sorted
// largest first in place; every footwell of the side weight for which a
// left saddle can be found is completed (with the trunk, a right saddle
// too) and the slots still empty go to the remaining compartment. The best
// packing list has the fewest footwell packages, then the smallest
// footwell entanglement.

module Day24Configurator {
  import opened Text
  import Day17
  import Day24
  import Gen = Day24Layout

  datatype Compartment = Footwell | LeftSaddle | RightSaddle | Trunk

  /** `Compartment::default`. */
  function DefaultCompartment(): Compartment
  {
    Footwell
  }

  /** A package's slot: a compartment, or none yet. */
  type Layout = seq<Option<Compartment>>

  /** The place of a slot in the derived order: no compartment first, then
      the compartments in the order they are declared. */
  function Rank(c: Option<Compartment>): nat
  {
    match c
    case None => 0
    case Some(Footwell) => 1
    case Some(LeftSaddle) => 2
    case Some(RightSaddle) => 3
    case Some(Trunk) => 4
  }

  /** The derived order is strict in declaration order, `None` below every
      compartment, and tells different slots apart. */
  lemma RankOrder()
    ensures Rank(None) < Rank(Some(DefaultCompartment())) < Rank(Some(LeftSaddle))
      < Rank(Some(RightSaddle)) < Rank(Some(Trunk))
    ensures forall a, b :: Rank(a) == Rank(b) ==> a == b
  {
  }

  // ---------------------------------------------------------------------
  // The configurator

  datatype Configurator = Configurator(packages: seq<nat>, sideWeight: nat, useTrunk: bool)

  /** `Configurator::new` on the packages it is given: `None` when the
      total does not split into equal groups (three, or four with the
      trunk), when there is no package, or when the biggest does not fit a
      group; otherwise the packages largest first with the group weight. */
  function Configure(pk: seq<nat>, useTrunk: bool): Option<Configurator>
  {
    var spaces := Day24.Spaces(useTrunk);
    Day24.SumNonNegative(pk);
    if Sum(pk) % spaces != 0 then None
    else
      var sorted := Day17.SortDescending(pk);
      if sorted == [] || sorted[0] > Sum(pk) / spaces then None
      else Some(Configurator(sorted, Sum(pk) / spaces, useTrunk))
  }

  /** A configurator is made exactly when the total splits evenly, there
      are packages and none is heavier than a group; it holds the same
      packages, largest first, and the groups make up the total. */
  lemma ConfigureAccepts(pk: seq<nat>, useTrunk: bool)
    ensures Configure(pk, useTrunk).Some? <==>
      Sum(pk) % Day24.Spaces(useTrunk) == 0 && pk != []
      && forall i :: 0 <= i < |pk| ==> pk[i] <= Sum(pk) / Day24.Spaces(useTrunk)
    ensures Configure(pk, useTrunk).Some? ==>
      var cfg := Configure(pk, useTrunk).value;
      Day17.NonIncreasing(cfg.packages) && multiset(cfg.packages) == multiset(pk)
      && cfg.sideWeight * Day24.Spaces(useTrunk) == Sum(pk) && cfg.useTrunk == useTrunk
  {
    var sorted := Day17.SortDescending(pk);
    if pk == [] {
      assert |multiset(sorted)| == 0;
    } else {
      SortedHead(pk);
      var side := Sum(pk) / Day24.Spaces(useTrunk);
      assert sorted[0] <= side <==> forall i :: 0 <= i < |pk| ==> pk[i] <= side;
    }
  }

  /** The first of the packages sorted largest first is one of them, and
      none is larger. */
  lemma SortedHead(pk: seq<nat>)
    requires pk != []
    ensures var sorted := Day17.SortDescending(pk);
      sorted != [] && (exists k :: 0 <= k < |pk| && pk[k] == sorted[0])
      && forall i :: 0 <= i < |pk| ==> pk[i] <= sorted[0]
  {
    var sorted := Day17.SortDescending(pk);
    assert pk[0] in multiset(pk);
    assert sorted != [];
    assert sorted[0] in multiset(sorted);
    var k :| 0 <= k < |pk| && pk[k] == sorted[0];
    forall i | 0 <= i < |pk|
      ensures pk[i] <= sorted[0]
    {
      assert pk[i] in multiset(sorted);
      Day17.HeadIsLargest(sorted, pk[i]);
    }
  }

  /** `Configurator::new`: sums the packages, refuses an uneven total
      before touching them, sorts them largest first in place, then refuses
      an empty list or one whose biggest package does not fit a group. */
  method New(packages: array<nat>, useTrunk: bool) returns (r: Option<Configurator>)
    modifies packages
    ensures r == Configure(old(packages[..]), useTrunk)
    ensures Sum(old(packages[..])) % Day24.Spaces(useTrunk) != 0 ==> packages[..] == old(packages[..])
    ensures Sum(old(packages[..])) % Day24.Spaces(useTrunk) == 0 ==>
      packages[..] == Day17.SortDescending(old(packages[..]))
  {
    var spaces := if useTrunk then 4 else 3;
    var total := Total(packages);
    if total % spaces != 0 {
      return None;
    }
    var side := total / spaces;
    SortLargestFirst(packages);
    if packages.Length == 0 {
      return None;
    }
    if packages[0] > side {
      return None;
    }
    return Some(Configurator(packages[..], side, useTrunk));
  }

  /** `packages.iter().sum()`. */
  method Total(a: array<nat>) returns (total: nat)
    ensures total == Sum(a[..])
  {
    total := 0;
    for i := 0 to a.Length
      invariant total == Sum(a[..i])
    {
      SumSnoc(a[..i], a[i]);
      assert a[..i + 1] == a[..i] + [a[i]];
      total := total + a[i];
    }
    assert a[..] == a[..a.Length];
  }

  /** `sort_unstable_by_key(Reverse)`: the array receives its packages
      largest first. */
  method SortLargestFirst(a: array<nat>)
    modifies a
    ensures a[..] == Day17.SortDescending(old(a[..]))
  {
    var sorted := SortedCopy(a[..]);
    for i := 0 to a.Length
      invariant forall j :: 0 <= j < i ==> a[j] == sorted[j]
    {
      a[i] := sorted[i];
    }
  }

  /** The packages largest first, as many as there are. */
  function SortedCopy(s: seq<nat>): (r: seq<nat>)
    ensures r == Day17.SortDescending(s) && |r| == |s|
  {
    var r := Day17.SortDescending(s);
    assert |multiset(r)| == |r| && |multiset(s)| == |s|;
    r
  }

  // ---------------------------------------------------------------------
  // Packing lists

  datatype PackingList = PackingList(configurator: Configurator, compartments: Layout)
  {
    /** `PackingList::packages_in`. */
    function PackagesIn(want: Compartment): seq<nat>
    {
      Assigned(configurator.packages, compartments, want)
    }

    /** `PackingList::qe`: the product of the weights in a compartment. */
    function Qe(c: Compartment): nat
    {
      Day24.Qe(PackagesIn(c))
    }
  }

  /** The packages, walked beside their slots until either runs out, whose
      slot holds `want`. */
  function Assigned(pk: seq<nat>, comps: Layout, want: Compartment): (r: seq<nat>)
    ensures |r| <= |pk| && |r| <= |comps|
    decreases |pk|
  {
    if pk == [] || comps == [] then []
    else (if comps[0] == Some(want) then [pk[0]] else []) + Assigned(pk[1..], comps[1..], want)
  }

  /** The packages in a compartment keep their order, and weigh what the
      layout tags with that compartment. */
  lemma {:induction false} AssignedWeight(pk: seq<nat>, comps: Layout, want: Compartment, i: nat)
    requires i <= |pk| <= |comps|
    ensures Day24.Picks(Assigned(pk[i..], comps[i..], want), pk[i..])
    ensures Sum(Assigned(pk[i..], comps[i..], want)) == Gen.TaggedSum(pk, comps, want, i)
    decreases |pk| - i
  {
    if i < |pk| {
      AssignedWeight(pk, comps, want, i + 1);
      assert pk[i..][1..] == pk[i + 1..] && comps[i..][1..] == comps[i + 1..];
      var rest := Assigned(pk[i + 1..], comps[i + 1..], want);
      if comps[i] == Some(want) {
        assert Assigned(pk[i..], comps[i..], want) == [pk[i]] + rest;
        assert ([pk[i]] + rest)[1..] == rest;
      } else {
        assert Assigned(pk[i..], comps[i..], want) == rest;
        PicksSkipOne(rest, pk[i..]);
      }
    } else {
      assert pk[i..] == [];
    }
  }

  /** A pick from the tail is a pick from the whole. */
  lemma PicksSkipOne(c: seq<nat>, m: seq<nat>)
    requires m != [] && Day24.Picks(c, m[1..])
    ensures Day24.Picks(c, m)
  {
  }

  /** No slot is empty after filling, and no compartment's slot is lost. */
  function Filled(s: Layout, fill: Compartment): (r: Layout)
    ensures |r| == |s|
    ensures forall j :: 0 <= j < |r| ==> r[j].Some? && (s[j].Some? ==> r[j] == s[j])
  {
    seq(|s|, j requires 0 <= j < |s| => if s[j].None? then Some(fill) else s[j])
  }

  /** `partial.iter_mut().for_each(...)`: every empty slot gets the
      remaining compartment. */
  method Fill(partial: array<Option<Compartment>>, fill: Compartment)
    modifies partial
    ensures partial[..] == Filled(old(partial[..]), fill)
  {
    for i := 0 to partial.Length
      invariant forall j :: 0 <= j < i ==> partial[j] == Filled(old(partial[..]), fill)[j]
      invariant forall j :: i <= j < partial.Length ==> partial[j] == old(partial[j])
    {
      if partial[i].None? {
        partial[i] := Some(fill);
      }
    }
  }

  /** Filling leaves what every other compartment holds unchanged. */
  lemma {:induction false} FilledKeeps(pk: seq<nat>, s: Layout, fill: Compartment, c: Compartment, i: nat)
    requires i <= |pk| <= |s| && c != fill
    ensures Gen.TaggedSum(pk, Filled(s, fill), c, i) == Gen.TaggedSum(pk, s, c, i)
    decreases |pk| - i
  {
    if i < |pk| {
      FilledKeeps(pk, s, fill, c, i + 1);
    }
  }

  // ---------------------------------------------------------------------
  // Generating packing lists

  /** A layout with every slot empty. */
  function Empty(n: nat): (r: Layout)
    ensures |r| == n && forall j :: 0 <= j < n ==> r[j] == None
  {
    seq(n, _ => None)
  }

  function FirstOf<T>(s: seq<T>): Option<T>
  {
    if s == [] then None else Some(s[0])
  }

  /** The `filter_map` that keeps, for each partial layout, the first
      completion the generator finds for compartment `c`, and drops the
      partial layouts it finds none for. */
  function Completions(pk: seq<nat>, side: nat, c: Compartment, partials: seq<Layout>): (r: seq<Layout>)
    requires forall p :: p in partials ==> |p| == |pk|
    ensures forall x :: x in r ==> |x| == |pk|
  {
    if partials == [] then []
    else
      var sols := Gen.Run(pk, partials[0], 0, side, c).0;
      (if sols == [] then [] else (Gen.RunLength(pk, partials[0], 0, side, c, sols[0]); [sols[0]]))
      + Completions(pk, side, c, partials[1..])
  }

  /** Every completion comes from one of the partial layouts. */
  lemma {:induction false} CompletionFrom(pk: seq<nat>, side: nat, c: Compartment, partials: seq<Layout>, x: Layout)
    returns (p: Layout)
    requires forall p :: p in partials ==> |p| == |pk|
    requires x in Completions(pk, side, c, partials)
    ensures p in partials && x in Gen.Run(pk, p, 0, side, c).0
  {
    var sols := Gen.Run(pk, partials[0], 0, side, c).0;
    if sols != [] && x == sols[0] {
      p := partials[0];
    } else {
      p := CompletionFrom(pk, side, c, partials[1..], x);
    }
  }

  /** A partial layout with a completion gives one. */
  lemma {:induction false} CompletionOf(pk: seq<nat>, side: nat, c: Compartment, partials: seq<Layout>, p: Layout)
    requires forall p :: p in partials ==> |p| == |pk|
    requires p in partials && Gen.Run(pk, p, 0, side, c).0 != []
    ensures Gen.Run(pk, p, 0, side, c).0[0] in Completions(pk, side, c, partials)
  {
    if partials[0] != p {
      CompletionOf(pk, side, c, partials[1..], p);
    }
  }

  /** The footwells the generator finds on an empty layout. */
  function Footwells(cfg: Configurator): (r: seq<Layout>)
    ensures forall p :: p in r ==> |p| == |cfg.packages|
  {
    var pk := cfg.packages;
    var r := Gen.Run(pk, Empty(|pk|), 0, cfg.sideWeight, Footwell).0;
    assert forall p :: p in r ==> |p| == |pk| by {
      forall p | p in r
        ensures |p| == |pk|
      {
        Gen.RunLength(pk, Empty(|pk|), 0, cfg.sideWeight, Footwell, p);
      }
    }
    r
  }

  /** `generate_footwell_no_trunk`: each footwell with the first left
      saddle found for it. */
  function FootwellNoTrunk(cfg: Configurator): (r: seq<Layout>)
    ensures forall p :: p in r ==> |p| == |cfg.packages|
  {
    Completions(cfg.packages, cfg.sideWeight, LeftSaddle, Footwells(cfg))
  }

  /** `generate_footwell_with_trunk`: those with the first right saddle
      found as well. */
  function FootwellWithTrunk(cfg: Configurator): (r: seq<Layout>)
    ensures forall p :: p in r ==> |p| == |cfg.packages|
  {
    Completions(cfg.packages, cfg.sideWeight, RightSaddle, FootwellNoTrunk(cfg))
  }

  /** The compartment that takes whatever is left: the trunk when used,
      the right saddle otherwise. */
  function Rest(useTrunk: bool): Compartment
  {
    if useTrunk then Trunk else RightSaddle
  }

  /** `generate_footwell`. */
  function GenerateFootwell(cfg: Configurator): seq<Layout>
  {
    var partials := if cfg.useTrunk then FootwellWithTrunk(cfg) else FootwellNoTrunk(cfg);
    seq(|partials|, k requires 0 <= k < |partials| => Filled(partials[k], Rest(cfg.useTrunk)))
  }

  /** `packing_lists`. */
  function PackingLists(cfg: Configurator): seq<PackingList>
  {
    var g := GenerateFootwell(cfg);
    seq(|g|, k requires 0 <= k < |g| => PackingList(cfg, g[k]))
  }

  /** A layout made by tagging empty slots with `c` keeps what every other
      compartment holds, and holds no new other compartment. */
  lemma {:induction false} ExtendsKeeps(pk: seq<nat>, L: Layout, s: Layout, c: Compartment, d: Compartment, i: nat)
    requires i <= |pk| <= |L| && Gen.Extends(pk, L, s, c, 0) && c != d
    ensures Gen.TaggedSum(pk, s, d, i) == Gen.TaggedSum(pk, L, d, i)
    ensures Gen.Untagged(L, d, i, |pk|) ==> Gen.Untagged(s, d, i, |pk|)
    decreases |pk| - i
  {
    if i < |pk| {
      ExtendsKeeps(pk, L, s, c, d, i + 1);
    }
  }

  /** What a footwell and its left saddle hold. */
  lemma FootwellLeft(cfg: Configurator, x: Layout)
    requires x in FootwellNoTrunk(cfg)
    ensures var pk := cfg.packages;
      Gen.TaggedSum(pk, x, Footwell, 0) == cfg.sideWeight && Gen.TaggedSum(pk, x, LeftSaddle, 0) == cfg.sideWeight
      && Gen.Untagged(x, RightSaddle, 0, |pk|) && Gen.Untagged(x, Trunk, 0, |pk|)
  {
    var pk := cfg.packages;
    var E := Empty(|pk|);
    var p := CompletionFrom(pk, cfg.sideWeight, LeftSaddle, Footwells(cfg), x);
    Gen.RunSound(pk, E, 0, cfg.sideWeight, Footwell, p);
    ExtendsKeeps(pk, E, p, Footwell, LeftSaddle, 0);
    ExtendsKeeps(pk, E, p, Footwell, RightSaddle, 0);
    ExtendsKeeps(pk, E, p, Footwell, Trunk, 0);
    Gen.RunSound(pk, p, 0, cfg.sideWeight, LeftSaddle, x);
    ExtendsKeeps(pk, p, x, LeftSaddle, Footwell, 0);
    ExtendsKeeps(pk, p, x, LeftSaddle, RightSaddle, 0);
    ExtendsKeeps(pk, p, x, LeftSaddle, Trunk, 0);
  }

  /** What a footwell, its left and its right saddle hold. */
  lemma FootwellLeftRight(cfg: Configurator, x: Layout)
    requires x in FootwellWithTrunk(cfg)
    ensures var pk := cfg.packages;
      Gen.TaggedSum(pk, x, Footwell, 0) == cfg.sideWeight && Gen.TaggedSum(pk, x, LeftSaddle, 0) == cfg.sideWeight
      && Gen.TaggedSum(pk, x, RightSaddle, 0) == cfg.sideWeight
  {
    var pk := cfg.packages;
    var p := CompletionFrom(pk, cfg.sideWeight, RightSaddle, FootwellNoTrunk(cfg), x);
    FootwellLeft(cfg, p);
    Gen.RunSound(pk, p, 0, cfg.sideWeight, RightSaddle, x);
    ExtendsKeeps(pk, p, x, RightSaddle, Footwell, 0);
    ExtendsKeeps(pk, p, x, RightSaddle, LeftSaddle, 0);
  }

  /** Every packing list gives each package a compartment, and its
      footwell and left saddle, and with the trunk its right saddle, each
      weigh one group. */
  lemma PackingListsBalanced(cfg: Configurator, pl: PackingList)
    requires pl in PackingLists(cfg)
    ensures pl.configurator == cfg && |pl.compartments| == |cfg.packages|
    ensures forall j :: 0 <= j < |pl.compartments| ==> pl.compartments[j].Some?
    ensures Sum(pl.PackagesIn(Footwell)) == cfg.sideWeight
    ensures Sum(pl.PackagesIn(LeftSaddle)) == cfg.sideWeight
    ensures cfg.useTrunk ==> Sum(pl.PackagesIn(RightSaddle)) == cfg.sideWeight
    ensures Sum(cfg.packages) == Day24.Spaces(cfg.useTrunk) * cfg.sideWeight ==>
      Sum(pl.PackagesIn(Rest(cfg.useTrunk))) == cfg.sideWeight
  {
    var pk := cfg.packages;
    PackingListTags(cfg, pl);
    AssignedWeight(pk, pl.compartments, Footwell, 0);
    AssignedWeight(pk, pl.compartments, LeftSaddle, 0);
    AssignedWeight(pk, pl.compartments, RightSaddle, 0);
    AssignedWeight(pk, pl.compartments, Trunk, 0);
    TaggedTotal(pk, pl.compartments, 0);
    assert pk[0..] == pk && pl.compartments[0..] == pl.compartments;
    assert Day24.Spaces(cfg.useTrunk) * cfg.sideWeight
      == if cfg.useTrunk then 4 * cfg.sideWeight else 3 * cfg.sideWeight;
  }

  /** What a packing list's layout tags: one group's weight in the
      footwell, the left saddle and, with the trunk, the right saddle;
      nothing in the trunk when it is not used. */
  lemma PackingListTags(cfg: Configurator, pl: PackingList)
    requires pl in PackingLists(cfg)
    ensures pl.configurator == cfg && |pl.compartments| == |cfg.packages|
    ensures forall j :: 0 <= j < |pl.compartments| ==> pl.compartments[j].Some?
    ensures var pk, s := cfg.packages, pl.compartments;
      Gen.TaggedSum(pk, s, Footwell, 0) == cfg.sideWeight && Gen.TaggedSum(pk, s, LeftSaddle, 0) == cfg.sideWeight
      && (cfg.useTrunk ==> Gen.TaggedSum(pk, s, RightSaddle, 0) == cfg.sideWeight)
      && (!cfg.useTrunk ==> Gen.TaggedSum(pk, s, Trunk, 0) == 0)
  {
    var pk := cfg.packages;
    var g := GenerateFootwell(cfg);
    var k :| 0 <= k < |g| && pl == PackingList(cfg, g[k]);
    var partials := if cfg.useTrunk then FootwellWithTrunk(cfg) else FootwellNoTrunk(cfg);
    var x := partials[k];
    assert pl.compartments == Filled(x, Rest(cfg.useTrunk));
    if cfg.useTrunk {
      FootwellLeftRight(cfg, x);
      FilledKeeps(pk, x, Trunk, RightSaddle, 0);
    } else {
      FootwellLeft(cfg, x);
      FilledKeeps(pk, x, RightSaddle, Trunk, 0);
      Gen.TaggedNone(pk, x, Trunk, 0);
    }
    FilledKeeps(pk, x, Rest(cfg.useTrunk), Footwell, 0);
    FilledKeeps(pk, x, Rest(cfg.useTrunk), LeftSaddle, 0);
  }

  /** With every slot holding a compartment, the four compartments between
      them weigh all the packages. */
  lemma {:induction false} TaggedTotal(pk: seq<nat>, s: Layout, i: nat)
    requires i <= |pk| <= |s| && forall j :: i <= j < |pk| ==> s[j].Some?
    ensures Sum(pk[i..]) == Gen.TaggedSum(pk, s, Footwell, i) + Gen.TaggedSum(pk, s, LeftSaddle, i)
      + Gen.TaggedSum(pk, s, RightSaddle, i) + Gen.TaggedSum(pk, s, Trunk, i)
    decreases |pk| - i
  {
    if i < |pk| {
      TaggedTotal(pk, s, i + 1);
      assert pk[i..][1..] == pk[i + 1..];
      assert Sum(pk[i..]) == pk[i] + Sum(pk[i + 1..]);
      assert s[i] == Some(s[i].value);
      match s[i].value
      case Footwell =>
      case LeftSaddle =>
      case RightSaddle =>
      case Trunk =>
    } else {
      assert pk[i..] == [];
    }
  }

  /** Every footwell is tried: with positive packages and a positive group
      weight, any footwell of one group's weight for which some left saddle
      of one group's weight exists comes out of the search, with the first
      left saddle found for it. */
  lemma FootwellsExhaustive(cfg: Configurator, f: Layout, s: Layout) returns (x: Layout)
    requires forall j :: 0 <= j < |cfg.packages| ==> cfg.packages[j] > 0
    requires cfg.sideWeight > 0
    requires Gen.Extends(cfg.packages, Empty(|cfg.packages|), f, Footwell, 0)
    requires Gen.TaggedSum(cfg.packages, f, Footwell, 0) == cfg.sideWeight
    requires Gen.Extends(cfg.packages, f, s, LeftSaddle, 0)
    requires Gen.TaggedSum(cfg.packages, s, LeftSaddle, 0) == cfg.sideWeight
    ensures x in FootwellNoTrunk(cfg) && Gen.Extends(cfg.packages, f, x, LeftSaddle, 0)
  {
    var pk := cfg.packages;
    var E := Empty(|pk|);
    Gen.RunComplete(pk, E, 0, cfg.sideWeight, Footwell, f);
    ExtendsKeeps(pk, E, f, Footwell, LeftSaddle, 0);
    Gen.RunComplete(pk, f, 0, cfg.sideWeight, LeftSaddle, s);
    x := Gen.Run(pk, f, 0, cfg.sideWeight, LeftSaddle).0[0];
    CompletionOf(pk, cfg.sideWeight, LeftSaddle, Footwells(cfg), f);
    Gen.RunSound(pk, f, 0, cfg.sideWeight, LeftSaddle, x);
  }

  // ---------------------------------------------------------------------
  // The best packing list

  /** `Vec<Option<Compartment>>`'s derived order on ranks: lexicographic,
      a prefix first. */
  predicate LexLe(a: seq<nat>, b: seq<nat>)
    decreases |a|
  {
    a == [] || (b != [] && (a[0] < b[0] || (a[0] == b[0] && LexLe(a[1..], b[1..]))))
  }

  lemma {:induction false} LexTotal(a: seq<nat>, b: seq<nat>)
    ensures LexLe(a, b) || LexLe(b, a)
    decreases |a|
  {
    if a != [] && b != [] && a[0] == b[0] {
      LexTotal(a[1..], b[1..]);
    }
  }

  lemma {:induction false} LexTransitive(a: seq<nat>, b: seq<nat>, c: seq<nat>)
    requires LexLe(a, b) && LexLe(b, c)
    ensures LexLe(a, c)
    decreases |a|
  {
    if a != [] && a[0] == b[0] && b[0] == c[0] {
      LexTransitive(a[1..], b[1..], c[1..]);
    }
  }

  function Ranks(s: Layout): (r: seq<nat>)
    ensures |r| == |s| && forall j :: 0 <= j < |s| ==> r[j] == Rank(s[j])
  {
    seq(|s|, j requires 0 <= j < |s| => Rank(s[j]))
  }

  /** The key `best` minimises: the number of footwell packages, the
      footwell entanglement, then the packing list itself (whose
      configurator is shared, so its compartments decide). */
  predicate KeyLe(a: PackingList, b: PackingList)
  {
    var na, nb := |a.PackagesIn(Footwell)|, |b.PackagesIn(Footwell)|;
    na < nb || (na == nb && (a.Qe(Footwell) < b.Qe(Footwell)
      || (a.Qe(Footwell) == b.Qe(Footwell) && LexLe(Ranks(a.compartments), Ranks(b.compartments)))))
  }

  /** `min`: the first of the least. */
  function MinOf(lists: seq<PackingList>): Option<PackingList>
  {
    if lists == [] then None
    else
      match MinOf(lists[1..])
      case None => Some(lists[0])
      case Some(b) => if KeyLe(lists[0], b) then Some(lists[0]) else Some(b)
  }

  /** The least list is one of them and no other's key is below its own. */
  lemma {:induction false} MinOfLeast(lists: seq<PackingList>)
    ensures MinOf(lists).Some? <==> lists != []
    ensures MinOf(lists).Some? ==>
      MinOf(lists).value in lists && forall l :: l in lists ==> KeyLe(MinOf(lists).value, l)
  {
    if lists != [] {
      MinOfLeast(lists[1..]);
      var h := lists[0];
      assert KeyLe(h, h) by {
        LexTotal(Ranks(h.compartments), Ranks(h.compartments));
      }
      match MinOf(lists[1..])
      case None =>
        assert lists == [h];
      case Some(b) =>
        forall l | l in lists
          ensures KeyLe(MinOf(lists).value, l)
        {
          if l != h {
            assert l in lists[1..];
          }
          KeyTransitive(MinOf(lists).value, b, l);
          if !KeyLe(h, b) {
            KeyTotal(h, b);
          }
        }
    }
  }

  lemma KeyTotal(a: PackingList, b: PackingList)
    ensures KeyLe(a, b) || KeyLe(b, a)
  {
    LexTotal(Ranks(a.compartments), Ranks(b.compartments));
  }

  lemma KeyTransitive(a: PackingList, b: PackingList, c: PackingList)
    ensures KeyLe(a, b) && KeyLe(b, c) ==> KeyLe(a, c)
  {
    if KeyLe(a, b) && KeyLe(b, c) && |a.PackagesIn(Footwell)| == |c.PackagesIn(Footwell)|
      && a.Qe(Footwell) == c.Qe(Footwell) {
      LexTransitive(Ranks(a.compartments), Ranks(b.compartments), Ranks(c.compartments));
    }
  }

  /** `Configurator::best`. */
  function Best(cfg: Configurator): Option<PackingList>
  {
    MinOf(PackingLists(cfg))
  }

  /** The best packing list is one of the packing lists, there is one
      whenever there are any, and no packing list has fewer footwell
      packages, nor as many with a smaller entanglement. */
  lemma BestIsLeast(cfg: Configurator)
    ensures Best(cfg).Some? <==> PackingLists(cfg) != []
    ensures Best(cfg).Some? ==> Best(cfg).value in PackingLists(cfg)
    ensures Best(cfg).Some? ==> forall l :: l in PackingLists(cfg) ==>
      |Best(cfg).value.PackagesIn(Footwell)| <= |l.PackagesIn(Footwell)|
      && (|Best(cfg).value.PackagesIn(Footwell)| == |l.PackagesIn(Footwell)| ==>
            Best(cfg).value.Qe(Footwell) <= l.Qe(Footwell))
  {
    MinOfLeast(PackingLists(cfg));
  }
}
