// Day 24: the two `best` tests. Over the weights 1 to 5 and 7 to 11 the
// iterator's first footwell candidate is already a lightest-possible one:
// [9, 11] for three groups of 20, [4, 11] for four groups of 15. Every
// balanced sleigh needs at least two packages in the footwell, since no
// package reaches a group's weight, so the best sleigh has two, and the
// first candidate bounds their entanglement from above.

module Day24Best {
  import opened Text
  import opened Day24Subsets
  import opened Day24

  // ---------------------------------------------------------------------
  // The first subsets the iterator finds

  /** With the last weight skipped, the subsets are those of the rest. */
  lemma DropLast(items: seq<nat>, target: nat, rest: seq<nat>)
    requires items != [] && Init(items) == rest && Skipped(Last(items), target)
    ensures Subsets(items, target) == Subsets(rest, target)
  {
    SubsetsUnfold(items, target);
  }

  /** A last weight that is the target itself comes first, alone. */
  lemma TakeLastAlone(items: seq<nat>, target: nat)
    requires items != [] && Last(items) == target && target > 0
    ensures Subsets(items, target) != [] && Subsets(items, target)[0] == [target]
  {
    SubsetsUnfold(items, target);
  }

  /** A last weight below the target comes first, after the first subset
      of the rest that makes up the difference. */
  lemma TakeLastWith(items: seq<nat>, target: nat, rest: seq<nat>, first: seq<nat>)
    requires items != [] && Init(items) == rest && 0 < Last(items) < target
    requires Subsets(rest, target - Last(items)) != [] && Subsets(rest, target - Last(items))[0] == first
    ensures Subsets(items, target) != [] && Subsets(items, target)[0] == first + [Last(items)]
  {
    SubsetsUnfold(items, target);
  }

  /** Weights past the target add no subsets. */
  lemma {:induction false} SkipSuffix(prefix: seq<nat>, suffix: seq<nat>, target: nat)
    requires forall k :: 0 <= k < |suffix| ==> Skipped(suffix[k], target)
    ensures Subsets(prefix + suffix, target) == Subsets(prefix, target)
    decreases |suffix|
  {
    if suffix == [] {
      assert prefix + suffix == prefix;
    } else {
      var items := prefix + suffix;
      assert Last(items) == Last(suffix);
      assert Init(items) == prefix + Init(suffix);
      SubsetsUnfold(items, target);
      SkipSuffix(prefix, Init(suffix), target);
    }
  }

  /** The first subset found ends with the last weight `y` when it is
      below the target, everything between `p` and `y` is too heavy to go
      with it, and `p` has a subset making up the difference. */
  lemma FirstThroughSkips(s: seq<nat>, p: seq<nat>, q: seq<nat>, y: nat, first: seq<nat>, target: nat)
    requires s == p + q + [y] && 0 < y < target
    requires Subsets(p, target - y) != [] && Subsets(p, target - y)[0] == first
    requires forall k :: 0 <= k < |q| ==> Skipped(q[k], target - y)
    ensures Subsets(s, target) != [] && Subsets(s, target)[0] == first + [y]
  {
    SkipSuffix(p, q, target - y);
    assert Init(s) == p + q && Last(s) == y;
    TakeLastWith(s, target, p + q, first);
  }

  /** The first subset found is `[x, y]` when `x` ends `p`, `y` ends the
      whole list, everything between them is skipped and `x + y` is the
      target. */
  lemma FirstPair(s: seq<nat>, p: seq<nat>, q: seq<nat>, x: nat, y: nat, target: nat)
    requires s == p + q + [y] && p != [] && Last(p) == x && 0 < x && 0 < y && x + y == target
    requires forall k :: 0 <= k < |q| ==> Skipped(q[k], x)
    ensures Subsets(s, target) != [] && Subsets(s, target)[0] == [x, y]
  {
    TakeLastAlone(p, x);
    FirstThroughSkips(s, p, q, y, [x], target);
  }

  /** The first subset of 1 to 5 and 7 to 11 weighing 20 is [9, 11]. */
  lemma FirstFootTwenty(s: seq<nat>)
    requires s == [1, 2, 3, 4, 5, 7, 8, 9, 10, 11]
    ensures Subsets(s, 20) != [] && Subsets(s, 20)[0] == [9, 11]
  {
    FirstPair(s, [1, 2, 3, 4, 5, 7, 8, 9], [10], 9, 11, 20);
  }

  /** The first subset of 1 to 5 and 7 to 11 weighing 15 is [4, 11]. */
  lemma FirstFootFifteen(s: seq<nat>)
    requires s == [1, 2, 3, 4, 5, 7, 8, 9, 10, 11]
    ensures Subsets(s, 15) != [] && Subsets(s, 15)[0] == [4, 11]
  {
    FirstPair(s, [1, 2, 3, 4], [5, 7, 8, 9, 10], 4, 11, 15);
  }

  /** The first subset of 1, 2, 3, 4, 5, 7, 8, 10 weighing 20 exists. */
  lemma LeftTwenty(side: seq<nat>)
    requires side == [1, 2, 3, 4, 5, 7, 8, 10]
    ensures Subsets(side, 20) != []
  {
    FirstPair([1, 2, 3, 4, 5, 7, 8], [1, 2], [3, 4, 5, 7], 2, 8, 10);
    assert Init(side) == [1, 2, 3, 4, 5, 7, 8] && Last(side) == 10;
    TakeLastWith(side, 20, [1, 2, 3, 4, 5, 7, 8], [2, 8]);
  }

  /** The first subset of 1, 2, 3, 5, 7, 8, 9, 10 weighing 15 is [5, 10]. */
  lemma LeftFifteen(side: seq<nat>)
    requires side == [1, 2, 3, 5, 7, 8, 9, 10]
    ensures Subsets(side, 15) != [] && Subsets(side, 15)[0] == [5, 10]
  {
    FirstPair(side, [1, 2, 3, 5], [7, 8, 9], 5, 10, 15);
  }

  /** The first subset of 1, 2, 3 weighing 6 is all of them. */
  lemma AllOfThree(s: seq<nat>)
    requires s == [1, 2, 3]
    ensures Subsets(s, 6) != [] && Subsets(s, 6)[0] == [1, 2, 3]
  {
    TakeLastAlone([1], 1);
    assert Init([1, 2]) == [1] && Last([1, 2]) == 2;
    TakeLastWith([1, 2], 3, [1], [1]);
    assert Init(s) == [1, 2] && Last(s) == 3;
    TakeLastWith(s, 6, [1, 2], [1, 2]);
  }

  /** The first subset of 1, 2, 3, 7, 8, 9 weighing 15 exists. */
  lemma RightFifteen(rest: seq<nat>)
    requires rest == [1, 2, 3, 7, 8, 9]
    ensures Subsets(rest, 15) != []
  {
    var three, heavy := rest[..3], rest[3..5];
    assert rest == three + heavy + [9];
    AllOfThree(three);
    FirstThroughSkips(rest, three, heavy, 9, three, 15);
  }

  // ---------------------------------------------------------------------
  // From the first sleigh to the best one

  /** When the first footwell candidate can be arranged, `best` finds a
      sleigh, and nothing it keeps is beaten by that first one. */
  lemma FirstSleighBounds(sorted: seq<nat>, sideWt: nat, useTrunk: bool, foot: seq<nat>)
    requires Subsets(sorted, sideWt) != [] && Subsets(sorted, sideWt)[0] == foot
    requires Arrange(sorted, sideWt, useTrunk, foot).Some?
    ensures BestAmong(sorted, sideWt, useTrunk).Some?
    ensures var b := BestAmong(sorted, sideWt, useTrunk).value;
      |b.foot| < |foot| || (|b.foot| == |foot| && FootQe(b) <= Qe(foot))
  {
    var feet := Subsets(sorted, sideWt);
    var all := Sleighs(sorted, sideWt, useTrunk, feet);
    var s0 := Arrange(sorted, sideWt, useTrunk, foot).value;
    assert all[0] == s0 && s0.foot == foot;
    BestOfFirstMinimum(all);
  }

  /** A footwell of at most one package, drawn from packages each lighter
      than the side weight, is lighter than the side weight. */
  lemma SmallFootLight(foot: seq<nat>, packages: seq<nat>, sideWt: nat)
    requires sideWt > 0 && multiset(foot) <= multiset(packages)
    requires forall i :: 0 <= i < |packages| ==> packages[i] < sideWt
    ensures |foot| <= 1 ==> Sum(foot) < sideWt
  {
    if |foot| == 1 {
      assert foot[0] in multiset(packages);
      assert Sum(foot) == foot[0];
    }
  }

  /** A footwell weighing the side weight, drawn from packages each
      lighter than that, holds at least two of them. */
  lemma AtLeastTwo(foot: seq<nat>, packages: seq<nat>, sideWt: nat)
    requires Sum(foot) == sideWt && sideWt > 0 && multiset(foot) <= multiset(packages)
    requires forall i :: 0 <= i < |packages| ==> packages[i] < sideWt
    ensures |foot| >= 2
  {
    SmallFootLight(foot, packages, sideWt);
  }

  /** The entanglement of a two-package footwell is the product of the two. */
  lemma QePair(foot: seq<nat>)
    requires |foot| == 2
    ensures Qe(foot) == foot[0] * foot[1]
  {
    var tail := foot[1..];
    assert tail[1..] == [];
    assert Qe(tail) == tail[0] * Qe(tail[1..]);
  }

  /** Whether `best` finds a sleigh and, if so, its footwell size and
      entanglement. */
  predicate BestIs(packages: seq<nat>, useTrunk: bool, size: nat, qe: nat)
  {
    BestSleigh(packages, useTrunk).Some?
    && |BestSleigh(packages, useTrunk).value.foot| == size
    && FootQe(BestSleigh(packages, useTrunk).value) == qe
  }

  /** When no package reaches the side weight and the first footwell
      candidate has two packages and can be arranged, the best sleigh has
      two packages in the footwell, together weighing the side weight,
      and is no more entangled than that candidate. */
  lemma BestPair(items: seq<nat>, useTrunk: bool, sideWt: nat, foot: seq<nat>)
    requires Ascending(items) && sideWt > 0
    requires Sum(items) % Spaces(useTrunk) == 0 && Sum(items) / Spaces(useTrunk) == sideWt
    requires forall i :: 0 <= i < |items| ==> items[i] < sideWt
    requires Subsets(items, sideWt) != [] && Subsets(items, sideWt)[0] == foot
    requires |foot| == 2 && Arrange(items, sideWt, useTrunk, foot).Some?
    ensures BestSleigh(items, useTrunk).Some?
    ensures var f := BestSleigh(items, useTrunk).value.foot;
      |f| == 2 && Qe(f) <= Qe(foot) && f[0] in items && f[1] in items && f[0] + f[1] == sideWt
  {
    assert !Refused(items, useTrunk);
    SortSorted(items);
    assert BestSleigh(items, useTrunk) == BestAmong(items, sideWt, useTrunk);
    FirstSleighBounds(items, sideWt, useTrunk, foot);
    var b := BestSleigh(items, useTrunk).value;
    BestSleighBalanced(items, useTrunk);
    assert multiset(b.foot) <= multiset(items);
    AtLeastTwo(b.foot, items, sideWt);
    SumPair(b.foot);
    assert b.foot[0] in multiset(items) && b.foot[1] in multiset(items);
  }

  /** Adding that no two packages making up the side weight are less
      entangled than the first candidate pins the best sleigh down. */
  lemma BestOfPairs(items: seq<nat>, useTrunk: bool, sideWt: nat, foot: seq<nat>, qe: nat)
    requires Ascending(items) && sideWt > 0
    requires Sum(items) % Spaces(useTrunk) == 0 && Sum(items) / Spaces(useTrunk) == sideWt
    requires forall i :: 0 <= i < |items| ==> items[i] < sideWt
    requires Subsets(items, sideWt) != [] && Subsets(items, sideWt)[0] == foot
    requires |foot| == 2 && foot[0] * foot[1] == qe && Arrange(items, sideWt, useTrunk, foot).Some?
    requires forall x, y :: x in items && y in items && x + y == sideWt ==> x * y >= qe
    ensures BestIs(items, useTrunk, 2, qe)
  {
    BestPair(items, useTrunk, sideWt, foot);
    QePair(foot);
    var f := BestSleigh(items, useTrunk).value.foot;
    QePair(f);
    assert f[0] * f[1] >= qe;
  }

  /** The weight of a two-package footwell is the sum of the two. */
  lemma SumPair(foot: seq<nat>)
    requires |foot| == 2
    ensures Sum(foot) == foot[0] + foot[1]
  {
    var tail := foot[1..];
    assert tail[1..] == [];
    assert Sum(tail) == tail[0] + Sum(tail[1..]);
  }

  // ---------------------------------------------------------------------
  // The example: 1 to 5 and 7 to 11

  /** A list whose neighbours never step down is ascending. */
  lemma {:induction false} StepsAscending(s: seq<nat>)
    requires forall i :: 0 < i < |s| ==> s[i - 1] <= s[i]
    ensures Ascending(s)
    decreases |s|
  {
    if |s| >= 2 {
      var t := Init(s);
      assert forall i :: 0 <= i < |t| ==> t[i] == s[i];
      StepsAscending(t);
      forall i, j | 0 <= i < j < |s|
        ensures s[i] <= s[j]
      {
        if j < |t| {
          assert t[i] <= t[j];
        } else if i < |t| - 1 {
          assert t[i] <= t[|t| - 1];
        }
      }
    }
  }

  /** Taking out a package that is not among those before it keeps those
      and carries on after it. */
  lemma {:induction false} SubtractAt(pre: seq<nat>, x: nat, post: seq<nat>, rest: seq<nat>)
    requires x !in pre
    ensures Subtract(pre + [x] + post, [x] + rest) == pre + Subtract(post, rest)
    decreases |pre|
  {
    var m, s := pre + [x] + post, [x] + rest;
    assert s != [] && s[0] == x && s[1..] == rest;
    if pre == [] {
      assert m[0] == x && m[1..] == post;
    } else {
      SubtractAt(pre[1..], x, post, rest);
      assert m[0] == pre[0] != x && m[1..] == pre[1..] + [x] + post;
      assert Subtract(m, s) == [pre[0]] + Subtract(m[1..], s);
      assert pre == [pre[0]] + pre[1..];
    }
  }

  /** The example's weights add up to 60, ascending, each below 15. */
  lemma ExampleWeights(items: seq<nat>)
    requires items == [1, 2, 3, 4, 5, 7, 8, 9, 10, 11]
    ensures Ascending(items) && forall i :: 0 <= i < |items| ==> items[i] < 15
    ensures Sum(items) % Spaces(false) == 0 && Sum(items) / Spaces(false) == 20
    ensures Sum(items) % Spaces(true) == 0 && Sum(items) / Spaces(true) == 15
  {
    SumExample(items);
    StepsAscending(items);
  }

  /** The example's weights add up to 60. */
  lemma SumExample(items: seq<nat>)
    requires items == [1, 2, 3, 4, 5, 7, 8, 9, 10, 11]
    ensures Sum(items) == 60
  {
    assert Sum([1, 2, 3, 4, 5, 7, 8, 9, 10, 11]) == 60;
  }

  /** Taking out two packages, each missing from what comes before it. */
  lemma SubtractTwo(m: seq<nat>, pre: seq<nat>, x: nat, mid: seq<nat>, y: nat)
    requires m == pre + [x] + mid + [y] && x !in pre && y !in mid
    ensures Subtract(m, [x, y]) == pre + mid
  {
    SubtractAt(mid, y, [], []);
    assert mid + [y] + [] == mid + [y] && [y] + [] == [y];
    SubtractAt(pre, x, mid + [y], [y]);
    assert m == pre + [x] + (mid + [y]) && [x, y] == [x] + [y];
    assert Subtract([], []) == [];
  }

  /** What is left of the example's weights around the footwell [9, 11]. */
  lemma SideTwenty(items: seq<nat>)
    requires items == [1, 2, 3, 4, 5, 7, 8, 9, 10, 11]
    ensures Subtract(items, [9, 11]) == [1, 2, 3, 4, 5, 7, 8, 10]
  {
    var pre, mid := items[..7], items[8..9];
    assert pre == [1, 2, 3, 4, 5, 7, 8] && mid == [10];
    assert items == pre + [9] + mid + [11];
    SubtractTwo(items, pre, 9, mid, 11);
  }

  /** What is left of the example's weights around the footwell [4, 11]. */
  lemma SideFifteen(items: seq<nat>)
    requires items == [1, 2, 3, 4, 5, 7, 8, 9, 10, 11]
    ensures Subtract(items, [4, 11]) == [1, 2, 3, 5, 7, 8, 9, 10]
  {
    var pre, mid := items[..3], items[4..9];
    assert pre == [1, 2, 3] && mid == [5, 7, 8, 9, 10];
    assert items == pre + [4] + mid + [11];
    SubtractTwo(items, pre, 4, mid, 11);
  }

  /** What is left for the trunk once the left saddle [5, 10] is out. */
  lemma RestFifteen(side: seq<nat>)
    requires side == [1, 2, 3, 5, 7, 8, 9, 10]
    ensures Subtract(side, [5, 10]) == [1, 2, 3, 7, 8, 9]
  {
    var pre, mid := side[..3], side[4..7];
    assert pre == [1, 2, 3] && mid == [7, 8, 9];
    assert side == pre + [5] + mid + [10];
    SubtractTwo(side, pre, 5, mid, 10);
  }

  /** Without the trunk, a footwell is arranged once what is left of the
      packages has a subset of the side weight. */
  lemma ArrangeThree(packages: seq<nat>, sideWt: nat, foot: seq<nat>, side: seq<nat>)
    requires Subtract(packages, foot) == side && Ascending(side) && Subsets(side, sideWt) != []
    ensures Arrange(packages, sideWt, false, foot).Some?
  {
    SortSorted(side);
  }

  /** With the trunk, what is left after the left saddle must have a
      subset of the side weight too. */
  lemma ArrangeFour(packages: seq<nat>, sideWt: nat, foot: seq<nat>, side: seq<nat>, left: seq<nat>, rest: seq<nat>)
    requires Subtract(packages, foot) == side && Ascending(side)
    requires Subsets(side, sideWt) != [] && Subsets(side, sideWt)[0] == left
    requires Subtract(side, left) == rest && Ascending(rest) && Subsets(rest, sideWt) != []
    ensures Arrange(packages, sideWt, true, foot).Some?
  {
    SortSorted(side);
    SortSorted(rest);
  }

  /** The footwell [9, 11] of the example can be arranged in three groups. */
  lemma ArrangeTwenty(items: seq<nat>)
    requires items == [1, 2, 3, 4, 5, 7, 8, 9, 10, 11]
    ensures Arrange(items, 20, false, [9, 11]).Some?
  {
    SideTwenty(items);
    var side := items[..7] + items[8..9];
    assert items[..7] == [1, 2, 3, 4, 5, 7, 8] && items[8..9] == [10];
    assert side == [1, 2, 3, 4, 5, 7, 8, 10];
    StepsAscending(side);
    LeftTwenty(side);
    ArrangeThree(items, 20, [9, 11], side);
  }

  /** The footwell [4, 11] of the example can be arranged in four groups. */
  lemma ArrangeFifteen(items: seq<nat>)
    requires items == [1, 2, 3, 4, 5, 7, 8, 9, 10, 11]
    ensures Arrange(items, 15, true, [4, 11]).Some?
  {
    var side := SaddlesFifteen(items);
    var rest := TrunkFifteen(side);
    ArrangeFour(items, 15, [4, 11], side, [5, 10], rest);
  }

  /** Around the footwell [4, 11], the first left saddle is [5, 10]. */
  lemma SaddlesFifteen(items: seq<nat>) returns (side: seq<nat>)
    requires items == [1, 2, 3, 4, 5, 7, 8, 9, 10, 11]
    ensures side == [1, 2, 3, 5, 7, 8, 9, 10]
    ensures Subtract(items, [4, 11]) == side && Ascending(side)
    ensures Subsets(side, 15) != [] && Subsets(side, 15)[0] == [5, 10]
  {
    SideFifteen(items);
    side := items[..3] + items[4..9];
    assert items[..3] == [1, 2, 3] && items[4..9] == [5, 7, 8, 9, 10];
    StepsAscending(side);
    LeftFifteen(side);
  }

  /** Once the left saddle [5, 10] is out, the trunk still balances. */
  lemma TrunkFifteen(side: seq<nat>) returns (rest: seq<nat>)
    requires side == [1, 2, 3, 5, 7, 8, 9, 10]
    ensures Subtract(side, [5, 10]) == rest && Ascending(rest) && Subsets(rest, 15) != []
  {
    RestFifteen(side);
    rest := side[..3] + side[4..7];
    assert side[..3] == [1, 2, 3] && side[4..7] == [7, 8, 9];
    StepsAscending(rest);
    RightFifteen(rest);
  }

  /** `test_example` without the trunk: the best sleigh carries two
      packages in the footwell, with entanglement 99. */
  lemma BestThreeGroups(items: seq<nat>)
    requires items == [1, 2, 3, 4, 5, 7, 8, 9, 10, 11]
    ensures BestIs(items, false, 2, 99)
  {
    ExampleWeights(items);
    FirstFootTwenty(items);
    ArrangeTwenty(items);
    PairsAtLeast(items, 20, 99);
    BestOfPairs(items, false, 20, [9, 11], 99);
  }

  /** `test_example` with the trunk: the best sleigh carries two packages
      in the footwell, with entanglement 44. */
  lemma BestFourGroups(items: seq<nat>)
    requires items == [1, 2, 3, 4, 5, 7, 8, 9, 10, 11]
    ensures BestIs(items, true, 2, 44)
  {
    ExampleWeights(items);
    FirstFootFifteen(items);
    ArrangeFifteen(items);
    PairsAtLeast(items, 15, 44);
    BestOfPairs(items, true, 15, [4, 11], 44);
  }

  /** Two of the weights 1 to 5 and 7 to 11 that make up 20 multiply to at
      least 99, and two that make up 15 to at least 44. */
  lemma PairsAtLeast(items: seq<nat>, target: nat, least: nat)
    requires items == [1, 2, 3, 4, 5, 7, 8, 9, 10, 11]
    requires (target == 20 && least == 99) || (target == 15 && least == 44)
    ensures forall x, y :: x in items && y in items && x + y == target ==> x * y >= least
  {
    forall x, y | x in items && y in items && x + y == target
      ensures x * y >= least
    {
      assert x == 1 || x == 2 || x == 3 || x == 4 || x == 5 || x == 7 || x == 8 || x == 9 || x == 10 || x == 11;
    }
  }
}
