// Day 24: balancing the sleigh. The packages are split into a footwell
// group, a left and a right saddle group, and with the trunk a fourth
// group, all of the same weight. `SleighConfigurations` walks the footwell
// candidates from `SummedSubsets`; for each it takes what is left, the
// first subset of it for the left saddle, and the rest for the right (or
// again the first subset for the right and the rest for the trunk).

module Day24 {
  import opened Text
  import opened Day24Subsets

  datatype Sleigh = Sleigh(foot: seq<nat>, left: seq<nat>, right: seq<nat>, trunk: seq<nat>)

  /** Quantum entanglement: the product of the weights, 1 for none. */
  function Qe(s: seq<nat>): nat
  {
    if s == [] then 1 else s[0] * Qe(s[1..])
  }

  function FootQe(s: Sleigh): nat
  {
    Qe(s.foot)
  }

  function FootWt(s: Sleigh): int
  {
    Sum(s.foot)
  }

  function LeftWt(s: Sleigh): int
  {
    Sum(s.left)
  }

  function RightWt(s: Sleigh): int
  {
    Sum(s.right)
  }

  /** The two sleighs of the puzzle's example: balanced, with footwell
      entanglements 99 and 90. */
  lemma ExampleSleighs()
    ensures var s := Sleigh([11, 9], [10, 8, 2], [7, 5, 4, 3, 1], []);
      FootWt(s) == LeftWt(s) == RightWt(s) == 20 && FootQe(s) == 99
    ensures var s := Sleigh([10, 9, 1], [11, 7, 2], [8, 5, 4, 3], []);
      FootWt(s) == LeftWt(s) == RightWt(s) == 20 && FootQe(s) == 90
  {
  }

  // ---------------------------------------------------------------------
  // Subtracting a sorted list from a sorted list

  /** `c` picks some of the positions of `m`, keeping their order (walked
      from the front). */
  predicate Picks(c: seq<nat>, m: seq<nat>)
    decreases |m|
  {
    if c == [] then true
    else if m == [] then false
    else (c[0] == m[0] && Picks(c[1..], m[1..])) || Picks(c, m[1..])
  }

  /** `list_set_subtract`: the minuend walked from the front; an item equal
      to the next item of the subtrahend is dropped and that item is used
      up, any other is kept. */
  function Subtract(m: seq<nat>, s: seq<nat>): seq<nat>
    decreases |m|
  {
    if m == [] then []
    else if s != [] && m[0] == s[0] then Subtract(m[1..], s[1..])
    else [m[0]] + Subtract(m[1..], s)
  }

  /** What is left is picked from the minuend. */
  lemma {:induction false} SubtractPicks(m: seq<nat>, s: seq<nat>)
    ensures Picks(Subtract(m, s), m)
    decreases |m|
  {
    if m != [] {
      if s != [] && m[0] == s[0] {
        SubtractPicks(m[1..], s[1..]);
        PicksSkip(Subtract(m, s), m);
      } else {
        SubtractPicks(m[1..], s);
        assert ([m[0]] + Subtract(m[1..], s))[1..] == Subtract(m[1..], s);
      }
    }
  }

  lemma PicksSkip(c: seq<nat>, m: seq<nat>)
    requires m != [] && Picks(c, m[1..])
    ensures Picks(c, m)
  {
  }

  /** A pick that starts at the front leaves a pick without its first
      item. */
  lemma {:induction false} PicksTail(c: seq<nat>, m: seq<nat>)
    requires c != [] && Picks(c, m)
    ensures Picks(c[1..], m)
    decreases |m|
  {
    if !(c[0] == m[0] && Picks(c[1..], m[1..])) {
      PicksTail(c, m[1..]);
    }
    if c[1..] != [] {
      PicksSkip(c[1..], m);
    }
  }

  /** When the subtrahend is picked from the minuend, every item of it is
      matched once: what is left and the subtrahend together are the
      minuend, as a multiset and by weight. */
  lemma {:induction false} SubtractParts(m: seq<nat>, s: seq<nat>)
    requires Picks(s, m)
    ensures multiset(Subtract(m, s)) + multiset(s) == multiset(m)
    ensures Sum(Subtract(m, s)) + Sum(s) == Sum(m)
    decreases |m|
  {
    if m != [] {
      assert m == [m[0]] + m[1..];
      if s != [] && m[0] == s[0] {
        if !Picks(s[1..], m[1..]) {
          PicksTail(s, m[1..]);
        }
        SubtractParts(m[1..], s[1..]);
        assert s == [s[0]] + s[1..];
      } else {
        SubtractParts(m[1..], s);
      }
    }
  }

  /** Anything picked from `m` is bounded below by what bounds `m`. */
  lemma {:induction false} PicksBound(c: seq<nat>, m: seq<nat>, b: nat)
    requires Picks(c, m) && forall i :: 0 <= i < |m| ==> b <= m[i]
    ensures forall i :: 0 <= i < |c| ==> b <= c[i]
    decreases |m|
  {
    if c != [] {
      if c[0] == m[0] && Picks(c[1..], m[1..]) {
        PicksBound(c[1..], m[1..], b);
        assert forall i :: 1 <= i < |c| ==> c[i] == c[1..][i - 1];
      } else {
        PicksBound(c, m[1..], b);
      }
    }
  }

  /** Anything picked from an ascending list is ascending. */
  lemma {:induction false} PicksAscending(c: seq<nat>, m: seq<nat>)
    requires Picks(c, m) && Ascending(m)
    ensures Ascending(c)
    decreases |m|
  {
    if c != [] {
      if c[0] == m[0] && Picks(c[1..], m[1..]) {
        PicksAscending(c[1..], m[1..]);
        PicksBound(c[1..], m[1..], m[0]);
        assert forall i :: 1 <= i < |c| ==> c[i] == c[1..][i - 1];
      } else {
        PicksAscending(c, m[1..]);
      }
    }
  }

  lemma {:induction false} PicksSnoc(c: seq<nat>, m: seq<nat>, x: nat)
    requires Picks(c, m)
    ensures Picks(c + [x], m + [x]) && Picks(c, m + [x])
    decreases |m|
  {
    if m == [] {
      assert c == [];
      assert ([] + [x])[1..] == [] && ([] + [x])[..0] == [];
    } else if c == [] {
      assert (m + [x])[1..] == m[1..] + [x];
      PicksSnoc(c, m[1..], x);
    } else {
      assert (m + [x])[1..] == m[1..] + [x];
      assert (c + [x])[1..] == c[1..] + [x];
      if c[0] == m[0] && Picks(c[1..], m[1..]) {
        PicksSnoc(c[1..], m[1..], x);
      } else {
        PicksSnoc(c, m[1..], x);
      }
    }
  }

  /** Picking from the end and from the front are the same thing. */
  lemma {:induction false} WithinPicks(c: seq<nat>, m: seq<nat>)
    requires Within(c, m)
    ensures Picks(c, m)
    decreases |m|
  {
    if c != [] {
      assert m == Init(m) + [Last(m)];
      if Last(c) == Last(m) && Within(Init(c), Init(m)) {
        WithinPicks(Init(c), Init(m));
        PicksSnoc(Init(c), Init(m), Last(m));
        assert c == Init(c) + [Last(c)];
      } else {
        WithinPicks(c, Init(m));
        PicksSnoc(c, Init(m), Last(m));
      }
    }
  }

  /** `list_set_subtract`, walking the minuend with a cursor into the
      subtrahend. */
  method ListSetSubtract(minuend: seq<nat>, subtrahend: seq<nat>) returns (ret: seq<nat>)
    ensures ret == Subtract(minuend, subtrahend)
  {
    ret := [];
    var j := 0;
    for i := 0 to |minuend|
      invariant j <= |subtrahend|
      invariant ret + Subtract(minuend[i..], subtrahend[j..]) == Subtract(minuend, subtrahend)
    {
      assert minuend[i..][0] == minuend[i] && minuend[i..][1..] == minuend[i + 1..];
      if j < |subtrahend| && minuend[i] == subtrahend[j] {
        assert subtrahend[j..][1..] == subtrahend[j + 1..];
        j := j + 1;
      } else {
        ret := ret + [minuend[i]];
      }
    }
  }

  // ---------------------------------------------------------------------
  // The configurations

  /** The number of equal groups: three, or four with the trunk. */
  function Spaces(useTrunk: bool): nat
  {
    if useTrunk then 4 else 3
  }

  /** The sleigh `next` builds around a footwell: the left saddle is the
      first subset of what is left with the side weight, and the right
      saddle the rest; with the trunk, the right saddle is the first subset
      of that rest and the trunk what remains. `None` when a subset is
      missing. */
  function Arrange(packages: seq<nat>, sideWt: nat, useTrunk: bool, foot: seq<nat>): Option<Sleigh>
  {
    var side := Subtract(packages, foot);
    match First(Subsets(SortAscending(side), sideWt))
    case None => None
    case Some(left) =>
      if !useTrunk then Some(Sleigh(foot, left, Subtract(side, left), []))
      else
        var rest := Subtract(side, left);
        match First(Subsets(SortAscending(rest), sideWt))
        case None => None
        case Some(right) => Some(Sleigh(foot, left, right, Subtract(rest, right)))
  }

  /** A sleigh whose groups all weigh the side weight and together hold
      exactly the packages. */
  predicate Balanced(s: Sleigh, packages: seq<nat>, sideWt: nat, useTrunk: bool)
  {
    Sum(s.foot) == sideWt && Sum(s.left) == sideWt && Sum(s.right) == sideWt
    && (if useTrunk then Sum(s.trunk) == sideWt else s.trunk == [])
    && multiset(s.foot) + multiset(s.left) + multiset(s.right) + multiset(s.trunk) == multiset(packages)
  }

  /** Taking a subset of the side weight out of an ascending list leaves
      an ascending list lighter by the side weight. */
  lemma TakeSubset(m: seq<nat>, sideWt: nat, c: seq<nat>)
    requires Ascending(m) && c in Subsets(m, sideWt)
    ensures Sum(c) == sideWt && Sum(Subtract(m, c)) == Sum(m) - sideWt
    ensures multiset(Subtract(m, c)) + multiset(c) == multiset(m)
    ensures Ascending(Subtract(m, c)) && SortAscending(Subtract(m, c)) == Subtract(m, c)
  {
    SubsetsSound(m, sideWt, c);
    WithinPicks(c, m);
    SubtractParts(m, c);
    SubtractPicks(m, c);
    PicksAscending(Subtract(m, c), m);
    SortSorted(Subtract(m, c));
  }

  /** Every sleigh `next` builds around a footwell candidate is balanced:
      each group weighs the side weight and the groups share out the
      packages. */
  lemma ArrangeBalanced(packages: seq<nat>, sideWt: nat, useTrunk: bool, foot: seq<nat>)
    requires Ascending(packages) && Sum(packages) == Spaces(useTrunk) * sideWt
    requires foot in Subsets(packages, sideWt) && Arrange(packages, sideWt, useTrunk, foot).Some?
    ensures Balanced(Arrange(packages, sideWt, useTrunk, foot).value, packages, sideWt, useTrunk)
  {
    TakeSubset(packages, sideWt, foot);
    var side := Subtract(packages, foot);
    var left := Subsets(side, sideWt)[0];
    TakeSubset(side, sideWt, left);
    var rest := Subtract(side, left);
    var s := Arrange(packages, sideWt, useTrunk, foot).value;
    assert s.foot == foot && s.left == left;
    if useTrunk {
      var right := Subsets(rest, sideWt)[0];
      TakeSubset(rest, sideWt, right);
      assert s.right == right && s.trunk == Subtract(rest, right);
    } else {
      assert s.right == rest && s.trunk == [];
    }
    ShareOut(s, packages, side, rest);
  }

  /** The groups share out the packages when each group taken out leaves
      the rest. */
  lemma ShareOut(s: Sleigh, packages: seq<nat>, side: seq<nat>, rest: seq<nat>)
    requires multiset(side) + multiset(s.foot) == multiset(packages)
    requires multiset(rest) + multiset(s.left) == multiset(side)
    requires multiset(s.trunk) + multiset(s.right) == multiset(rest)
    ensures multiset(s.foot) + multiset(s.left) + multiset(s.right) + multiset(s.trunk) == multiset(packages)
  {
  }

  /** The sleighs the iterator yields for the footwell candidates `feet`:
      one per candidate, until the first whose arrangement fails, where
      the iterator answers `None` and so ends. */
  function Sleighs(packages: seq<nat>, sideWt: nat, useTrunk: bool, feet: seq<seq<nat>>): seq<Sleigh>
  {
    if feet == [] then []
    else match Arrange(packages, sideWt, useTrunk, feet[0])
      case None => []
      case Some(s) => [s] + Sleighs(packages, sideWt, useTrunk, feet[1..])
  }

  /** Every footwell candidate in `feet` is a subset of the packages with
      the side weight. */
  ghost predicate FeetFit(feet: seq<seq<nat>>, packages: seq<nat>, sideWt: nat)
  {
    forall f :: f in feet ==> f in Subsets(packages, sideWt)
  }

  /** The candidates left once the first is taken still fit. */
  lemma FeetFitNext(feet: seq<seq<nat>>, rest: seq<seq<nat>>, packages: seq<nat>, sideWt: nat)
    requires FeetFit(feet, packages, sideWt)
    requires if feet == [] then rest == [] else rest == feet[1..]
    ensures FeetFit(rest, packages, sideWt)
  {
    if feet != [] {
      FeetFitTail(feet, packages, sideWt);
    }
  }

  lemma FeetFitTail(feet: seq<seq<nat>>, packages: seq<nat>, sideWt: nat)
    requires FeetFit(feet, packages, sideWt) && feet != []
    ensures FeetFit(feet[1..], packages, sideWt)
  {
    assert forall f :: f in feet[1..] ==> f in feet;
  }

  /** Every sleigh yielded is balanced. */
  lemma {:induction false} SleighsBalanced(packages: seq<nat>, sideWt: nat, useTrunk: bool, feet: seq<seq<nat>>, s: Sleigh)
    requires Ascending(packages) && Sum(packages) == Spaces(useTrunk) * sideWt
    requires FeetFit(feet, packages, sideWt)
    requires s in Sleighs(packages, sideWt, useTrunk, feet)
    ensures Balanced(s, packages, sideWt, useTrunk)
    decreases |feet|
  {
    assert feet[0] in feet;
    ArrangeBalanced(packages, sideWt, useTrunk, feet[0]);
    if s != Arrange(packages, sideWt, useTrunk, feet[0]).value {
      FeetFitTail(feet, packages, sideWt);
      SleighsBalanced(packages, sideWt, useTrunk, feet[1..], s);
    }
  }

  /** `a` beats `b`: fewer packages in the footwell, or as many with a
      smaller entanglement. */
  predicate Better(a: Sleigh, b: Sleigh)
  {
    |a.foot| < |b.foot| || (|a.foot| == |b.foot| && FootQe(a) < FootQe(b))
  }

  /** The loop of `best`: `cur` is replaced by each later sleigh that
      beats it. */
  function BestFrom(cur: Sleigh, rest: seq<Sleigh>): Sleigh
    decreases |rest|
  {
    if rest == [] then cur
    else BestFrom(if Better(rest[0], cur) then rest[0] else cur, rest[1..])
  }

  function BestOf(sleighs: seq<Sleigh>): Option<Sleigh>
  {
    if sleighs == [] then None else Some(BestFrom(sleighs[0], sleighs[1..]))
  }

  /** The sleigh `best` keeps is one of those seen, no sleigh beats it,
      and it beats every sleigh before it: the first of the best. */
  lemma {:induction false} BestFromFirstMinimum(cur: Sleigh, rest: seq<Sleigh>)
    ensures exists k :: FirstBest([cur] + rest, BestFrom(cur, rest), k)
    decreases |rest|
  {
    var b := BestFrom(cur, rest);
    var all := [cur] + rest;
    if rest == [] {
      assert FirstBest(all, b, 0);
    } else {
      var next := if Better(rest[0], cur) then rest[0] else cur;
      BestFromFirstMinimum(next, rest[1..]);
      var k :| FirstBest([next] + rest[1..], b, k);
      FirstBestCons(cur, rest, b, k);
    }
  }

  /** `b` sits at `k` in `all`, nothing in `all` beats it and it beats
      everything before `k`. */
  ghost predicate FirstBest(all: seq<Sleigh>, b: Sleigh, k: int)
  {
    0 <= k < |all| && all[k] == b
    && (forall i :: 0 <= i < |all| ==> !Better(all[i], b))
    && (forall i :: 0 <= i < k ==> Better(b, all[i]))
  }

  /** One step of `BestFrom` back: the first best of what is left after
      comparing `rest[0]` with `cur` is the first best of all of them. */
  lemma FirstBestCons(cur: Sleigh, rest: seq<Sleigh>, b: Sleigh, k: int)
    requires rest != []
    requires FirstBest([if Better(rest[0], cur) then rest[0] else cur] + rest[1..], b, k)
    ensures FirstBest([cur] + rest, b, if k == 0 && !Better(rest[0], cur) then 0 else k + 1)
  {
    var next := if Better(rest[0], cur) then rest[0] else cur;
    var tail := [next] + rest[1..];
    var all := [cur] + rest;
    assert tail[0] == next;
    assert !Better(next, b);
    assert forall i :: 2 <= i < |all| ==> all[i] == tail[i - 1];
    if Better(rest[0], cur) {
      assert !Better(cur, b);
      if k == 0 {
        assert all[1] == b;
        assert Better(b, cur);
      } else {
        assert all[k + 1] == b;
        assert Better(b, cur);
        assert forall i :: 1 <= i < k + 1 ==> all[i] == tail[i - 1];
      }
    } else {
      assert !Better(rest[0], b);
      if k == 0 {
        assert all[0] == b;
      } else {
        assert all[k + 1] == b;
        assert Better(b, cur);
        assert Better(b, rest[0]) by {
          assert !Better(rest[0], cur);
        }
        assert forall i :: 2 <= i < k + 1 ==> all[i] == tail[i - 1];
      }
    }
  }

  /** Whether `new` gives up: the total does not divide into the groups,
      or some package is heavier than a group. */
  predicate Refused(packages: seq<nat>, useTrunk: bool)
  {
    Sum(packages) % Spaces(useTrunk) != 0
    || exists i :: 0 <= i < |packages| && packages[i] > Sum(packages) / Spaces(useTrunk)
  }

  /** The sleigh `best` picks, when `new` does not give up. */
  function BestSleigh(packages: seq<nat>, useTrunk: bool): Option<Sleigh>
  {
    if Refused(packages, useTrunk) then None
    else
      BestAmong(SortAscending(packages), Sum(packages) / Spaces(useTrunk), useTrunk)
  }

  /** The best of the sleighs built around the footwell candidates of the
      sorted packages. */
  function BestAmong(sorted: seq<nat>, sideWt: nat, useTrunk: bool): Option<Sleigh>
  {
    BestOf(Sleighs(sorted, sideWt, useTrunk, Subsets(sorted, sideWt)))
  }

  /** What `best` returns is balanced: its groups each weigh a side's
      share and together hold exactly the packages. */
  lemma BestSleighBalanced(packages: seq<nat>, useTrunk: bool)
    requires BestSleigh(packages, useTrunk).Some?
    ensures var b := BestSleigh(packages, useTrunk).value;
      Balanced(b, SortAscending(packages), Sum(packages) / Spaces(useTrunk), useTrunk)
      && multiset(b.foot) + multiset(b.left) + multiset(b.right) + multiset(b.trunk) == multiset(packages)
  {
    var sorted := SortAscending(packages);
    var sideWt := Sum(packages) / Spaces(useTrunk);
    var all := Sleighs(sorted, sideWt, useTrunk, Subsets(sorted, sideWt));
    var b := BestSleigh(packages, useTrunk).value;
    BestOfFirstMinimum(all);
    assert b in all;
    SortedTotal(packages, useTrunk);
    SleighsBalanced(sorted, sideWt, useTrunk, Subsets(sorted, sideWt), b);
  }

  /** No sleigh beats the one `best` keeps, and every one before it is
      worse: the first of the best. */
  lemma BestOfFirstMinimum(all: seq<Sleigh>)
    requires BestOf(all).Some?
    ensures var b := BestOf(all).value;
      exists k :: 0 <= k < |all| && all[k] == b
        && (forall i :: 0 <= i < |all| ==> !Better(all[i], b))
        && (forall i :: 0 <= i < k ==> Better(b, all[i]))
  {
    BestFromFirstMinimum(all[0], all[1..]);
    assert [all[0]] + all[1..] == all;
    var k :| FirstBest(all, BestOf(all).value, k);
  }

  /** Once `new` accepts, the sorted packages weigh exactly the groups'
      total. */
  lemma SortedTotal(packages: seq<nat>, useTrunk: bool)
    requires !Refused(packages, useTrunk)
    ensures var sorted := SortAscending(packages);
      Ascending(sorted) && multiset(sorted) == multiset(packages)
      && Sum(sorted) == Spaces(useTrunk) * (Sum(packages) / Spaces(useTrunk))
  {
    SumSorted(packages);
  }

  /** Sorting does not change the total weight. */
  lemma {:induction false} SumSorted(s: seq<nat>)
    ensures Sum(SortAscending(s)) == Sum(s)
    decreases |s|
  {
    if s != [] {
      SumSorted(Init(s));
      SumInsert(SortAscending(Init(s)), Last(s));
      SumInitLast(s);
    }
  }

  lemma SumInitLast(s: seq<nat>)
    requires s != []
    ensures Sum(s) == Sum(Init(s)) + Last(s)
  {
    assert s == Init(s) + [Last(s)];
    SumSnoc(Init(s), Last(s));
  }

  lemma {:induction false} SumInsert(s: seq<nat>, x: nat)
    requires Ascending(s)
    ensures Sum(Insert(s, x)) == Sum(s) + x
    decreases |s|
  {
    if s == [] || x >= Last(s) {
      SumSnoc(s, x);
    } else {
      AscendingInit(s);
      SumInsert(Init(s), x);
      SumSnoc(Insert(Init(s), x), Last(s));
      SumInitLast(s);
    }
  }

  lemma {:induction false} SumNonNegative(s: seq<nat>)
    ensures Sum(s) >= 0
    decreases |s|
  {
    if s != [] {
      SumNonNegative(s[1..]);
    }
  }

  /** `new`'s test on the sorted packages: the last of them is the
      biggest. */
  lemma RefusedSorted(packages: seq<nat>, useTrunk: bool)
    requires Sum(packages) % Spaces(useTrunk) == 0
    ensures var sorted := SortAscending(packages); var side := Sum(packages) / Spaces(useTrunk);
      Refused(packages, useTrunk) <==> sorted != [] && Last(sorted) > side
  {
    var sorted := SortAscending(packages);
    SumNonNegative(packages);
    var side := Sum(packages) / Spaces(useTrunk);
    PermutedBound(sorted, packages, side);
    if sorted != [] {
      LastIsBiggest(sorted, side);
    }
  }

  /** The biggest package of an ascending list is its last. */
  lemma LastIsBiggest(s: seq<nat>, t: nat)
    requires s != [] && Ascending(s)
    ensures Last(s) > t <==> exists i :: 0 <= i < |s| && s[i] > t
  {
  }

  // ---------------------------------------------------------------------
  // The generator

  class SleighConfigurations {
    var packages: seq<nat>
    var sideWt: nat
    var footIter: SummedSubsets
    var useTrunk: bool
    ghost var Repr: set<object>

    /** The packages are sorted and weigh the groups' total; every footwell
        still to come is a subset of them with the side weight. */
    ghost predicate Valid()
      reads this, Repr
    {
      this in Repr && footIter in Repr && footIter.Repr <= Repr && this !in footIter.Repr
      && footIter.Valid() && footIter.target == sideWt
      && Ascending(packages) && Sum(packages) == Spaces(useTrunk) * sideWt
      && FeetFit(footIter.Remaining(), packages, sideWt)
    }

    /** The footwells still to come. */
    ghost function Feet(): seq<seq<nat>>
      reads this, Repr
      requires Valid()
    {
      footIter.Remaining()
    }

    /** The sleighs still to come. */
    ghost function Yields(): seq<Sleigh>
      reads this, Repr
      requires Valid()
    {
      Sleighs(packages, sideWt, useTrunk, Feet())
    }

    constructor Make(packages: seq<nat>, sideWt: nat, footIter: SummedSubsets, useTrunk: bool)
      requires footIter.Valid() && footIter.target == sideWt
      requires Ascending(packages) && Sum(packages) == Spaces(useTrunk) * sideWt
      requires footIter.Remaining() == Subsets(packages, sideWt)
      ensures Valid() && fresh(Repr - footIter.Repr)
      ensures this.packages == packages && this.sideWt == sideWt && this.useTrunk == useTrunk
      ensures this.footIter == footIter && Feet() == Subsets(packages, sideWt)
    {
      this.packages := packages;
      this.sideWt := sideWt;
      this.footIter := footIter;
      this.useTrunk := useTrunk;
      Repr := {this} + footIter.Repr;
    }

    /** `SleighConfigurations::new`: `None` when the total does not divide
        into the groups or the biggest package is heavier than a group;
        otherwise the packages sorted and a footwell iterator over them. */
    static method New(packages: seq<nat>, useTrunk: bool) returns (r: SleighConfigurations?)
      ensures r == null <==> Refused(packages, useTrunk)
      ensures r != null ==> r.Valid() && fresh(r.Repr)
      ensures r != null ==>
        r.packages == SortAscending(packages) && r.useTrunk == useTrunk
        && r.sideWt == Sum(packages) / Spaces(useTrunk) && r.Feet() == Subsets(r.packages, r.sideWt)
    {
      var spaces := Spaces(useTrunk);
      var total := Sum(packages);
      SumNonNegative(packages);
      if total % spaces != 0 {
        return null;
      }
      var sorted := SortAscending(packages);
      RefusedSorted(packages, useTrunk);
      if sorted != [] && sorted[|sorted| - 1] > total / spaces {
        return null;
      }
      r := Build(packages, useTrunk, sorted, total / spaces);
    }

    /** The accepting end of `new`: a footwell iterator over the sorted
        packages. */
    static method Build(packages: seq<nat>, useTrunk: bool, sorted: seq<nat>, side: nat) returns (r: SleighConfigurations)
      requires !Refused(packages, useTrunk)
      requires sorted == SortAscending(packages) && side == Sum(packages) / Spaces(useTrunk)
      ensures r.Valid() && fresh(r.Repr)
      ensures r.packages == sorted && r.useTrunk == useTrunk
      ensures r.sideWt == side && r.Feet() == Subsets(sorted, side)
    {
      SortedTotal(packages, useTrunk);
      SortSorted(sorted);
      var feet := new SummedSubsets(sorted, side);
      r := new SleighConfigurations.Make(sorted, side, feet, useTrunk);
    }

    /** `Iterator::next`: the sleigh around the next footwell, `None` once
        the footwells run out or when the saddles cannot be filled. */
    method Next() returns (o: Option<Sleigh>)
      requires Valid()
      modifies Repr
      ensures Valid() && fresh(Repr - old(Repr))
      ensures packages == old(packages) && sideWt == old(sideWt) && useTrunk == old(useTrunk)
      ensures old(Feet()) == [] ==> o == None && Feet() == []
      ensures old(Feet()) != [] ==>
        o == Arrange(packages, sideWt, useTrunk, old(Feet())[0]) && Feet() == old(Feet())[1..]
      ensures o.None? ==> old(Yields()) == []
      ensures o.Some? ==> old(Yields()) == [o.value] + Yields()
    {
      var foot := NextFoot();
      if foot.None? {
        return None;
      }
      o := Arrangement(packages, sideWt, useTrunk, foot.value);
    }

    /** The footwell iterator moves on by one. */
    method NextFoot() returns (foot: Option<seq<nat>>)
      requires Valid()
      modifies Repr
      ensures Valid() && fresh(Repr - old(Repr))
      ensures packages == old(packages) && sideWt == old(sideWt) && useTrunk == old(useTrunk)
      ensures old(Feet()) == [] ==> foot == None && Feet() == []
      ensures old(Feet()) != [] ==> foot == Some(old(Feet())[0]) && Feet() == old(Feet())[1..]
    {
      ghost var feet := footIter.Remaining();
      ghost var pk, sw := packages, sideWt;
      foot := footIter.Next();
      Repr := Repr + footIter.Repr;
      FeetFitNext(feet, footIter.Remaining(), pk, sw);
    }

    /** The body of `next` once the footwell is chosen: the first subset of
        what is left for the left saddle, and so on. */
    static method Arrangement(packages: seq<nat>, sideWt: nat, useTrunk: bool, foot: seq<nat>) returns (o: Option<Sleigh>)
      ensures o == Arrange(packages, sideWt, useTrunk, foot)
    {
      var side := ListSetSubtract(packages, foot);
      var left := FirstSubset(side, sideWt);
      if left.None? {
        return None;
      }
      var right, trunk;
      if !useTrunk {
        right := ListSetSubtract(side, left.value);
        trunk := [];
      } else {
        var rightRear := ListSetSubtract(side, left.value);
        var rightMaybe := FirstSubset(rightRear, sideWt);
        if rightMaybe.None? {
          return None;
        }
        right := rightMaybe.value;
        trunk := ListSetSubtract(rightRear, right);
      }
      o := Some(Sleigh(foot, left.value, right, trunk));
    }

    /** `SleighConfigurations::best`: the first sleigh that no later one
        beats, scanning until the iterator answers `None`. */
    static method Best(packages: seq<nat>, useTrunk: bool) returns (best: Option<Sleigh>)
      ensures best == BestSleigh(packages, useTrunk)
    {
      var sc := New(packages, useTrunk);
      if sc == null {
        return None;
      }
      assert BestSleigh(packages, useTrunk) == BestOf(sc.Yields());
      best := sc.Pick();
    }

    /** The body of `best` once the iterator exists: the first sleigh, then
        the scan over the rest. */
    method Pick() returns (best: Option<Sleigh>)
      requires Valid()
      modifies Repr
      ensures best == BestOf(old(Yields()))
    {
      var first := Next();
      if first.None? {
        return None;
      }
      var b := Scan(first.value);
      return Some(b);
    }

    /** The loop of `best`: each sleigh the iterator yields replaces `b`
        when it beats it, until the iterator answers `None`. */
    method Scan(first: Sleigh) returns (b: Sleigh)
      requires Valid()
      modifies Repr
      ensures b == BestFrom(first, old(Yields()))
    {
      ghost var rest := Yields();
      b := first;
      while true
        invariant Valid() && fresh(Repr - old(Repr))
        invariant BestFrom(b, Yields()) == BestFrom(first, rest)
        decreases |Feet()|
      {
        var sleigh := Next();
        if sleigh.None? {
          break;
        }
        if |sleigh.value.foot| < |b.foot| {
          b := sleigh.value;
        } else if |sleigh.value.foot| == |b.foot| && FootQe(sleigh.value) < FootQe(b) {
          b := sleigh.value;
        }
      }
    }
  }

  /** `SummedSubsets::new(items, target).next()`: the first subset of the
      items with the target weight, if any. */
  method FirstSubset(items: seq<nat>, target: nat) returns (o: Option<seq<nat>>)
    ensures o == First(Subsets(SortAscending(items), target))
  {
    var it := new SummedSubsets(items, target);
    o := it.Next();
  }

  function First(ss: seq<seq<nat>>): Option<seq<nat>>
  {
    if ss == [] then None else Some(ss[0])
  }

  /** A bound on every element carries over to a reordering. */
  lemma PermutedBound(a: seq<nat>, b: seq<nat>, t: nat)
    requires multiset(a) == multiset(b)
    ensures (exists i :: 0 <= i < |a| && a[i] > t) <==> (exists i :: 0 <= i < |b| && b[i] > t)
  {
    if exists i :: 0 <= i < |a| && a[i] > t {
      var i :| 0 <= i < |a| && a[i] > t;
      assert a[i] in multiset(b);
      var k :| 0 <= k < |b| && b[k] == a[i];
    }
    if exists i :: 0 <= i < |b| && b[i] > t {
      var i :| 0 <= i < |b| && b[i] > t;
      assert b[i] in multiset(a);
      var k :| 0 <= k < |a| && a[k] == b[i];
    }
  }
}
