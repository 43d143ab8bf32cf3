// Day 24: `SummedSubsets`, an iterator over the subsets of a list of
// package weights that add up to a target. The weights are kept sorted
// ascending and taken from the end, largest first; each weight that fits
// but falls short of the target gets a sub-iterator over the smaller
// weights for what it leaves.

module Day24Subsets {
  import opened Text

  // ---------------------------------------------------------------------
  // Sorting, smallest first

  predicate Ascending(s: seq<nat>)
  {
    forall i, j :: 0 <= i < j < |s| ==> s[i] <= s[j]
  }

  function Last(s: seq<nat>): nat
    requires s != []
  {
    s[|s| - 1]
  }

  function Init(s: seq<nat>): seq<nat>
    requires s != []
  {
    s[..|s| - 1]
  }

  /** A value no smaller than anything in an ascending list can follow it. */
  lemma AppendLargest(r: seq<nat>, x: nat)
    requires Ascending(r) && forall i :: 0 <= i < |r| ==> r[i] <= x
    ensures Ascending(r + [x])
  {
  }

  lemma AscendingInit(s: seq<nat>)
    requires s != [] && Ascending(s)
    ensures Ascending(Init(s)) && forall i :: 0 <= i < |Init(s)| ==> Init(s)[i] <= Last(s)
  {
  }

  /** Puts `x` into an ascending list, walking in from the end. */
  function Insert(s: seq<nat>, x: nat): (r: seq<nat>)
    requires Ascending(s)
    ensures Ascending(r) && multiset(r) == multiset(s) + multiset{x}
    decreases |s|
  {
    if s == [] || x >= Last(s) then
      s + [x]
    else
      AscendingInit(s);
      var rest := Insert(Init(s), x);
      assert s == Init(s) + [Last(s)];
      InsertBound(rest, Init(s), x, Last(s));
      AppendLargest(rest, Last(s));
      rest + [Last(s)]
  }

  lemma InitLast(s: seq<nat>)
    requires s != []
    ensures Init(s) + [Last(s)] == s
  {
  }

  /** A value no smaller than the last goes at the end. */
  lemma InsertLargest(s: seq<nat>, x: nat)
    requires Ascending(s) && forall i :: 0 <= i < |s| ==> s[i] <= x
    ensures Insert(s, x) == s + [x]
  {
    if s != [] {
      assert Last(s) <= x;
    }
  }

  /** What the insertion yields is bounded by what bounds its inputs. */
  lemma InsertBound(r: seq<nat>, s: seq<nat>, x: nat, b: nat)
    requires multiset(r) == multiset(s) + multiset{x} && x <= b
    requires forall i :: 0 <= i < |s| ==> s[i] <= b
    ensures forall i :: 0 <= i < |r| ==> r[i] <= b
  {
    forall i | 0 <= i < |r| ensures r[i] <= b {
      assert r[i] in multiset(r);
      if r[i] != x {
        assert r[i] in multiset(s);
        var k :| 0 <= k < |s| && s[k] == r[i];
      }
    }
  }

  /** `items.sort()`: the weights, smallest first. */
  function SortAscending(s: seq<nat>): (r: seq<nat>)
    ensures Ascending(r) && multiset(r) == multiset(s)
    decreases |s|
  {
    if s == [] then []
    else
      assert s == Init(s) + [Last(s)];
      Insert(SortAscending(Init(s)), Last(s))
  }

  /** Sorting a sorted list leaves it as it is. */
  lemma {:induction false} SortSorted(s: seq<nat>)
    requires Ascending(s)
    ensures SortAscending(s) == s
    decreases |s|
  {
    if s != [] {
      var t := Init(s);
      AscendingInit(s);
      SortSorted(t);
      InsertLargest(t, Last(s));
      InitLast(s);
      calc {
        SortAscending(s);
        Insert(SortAscending(t), Last(s));
        Insert(t, Last(s));
        t + [Last(s)];
        s;
      }
    }
  }

  // ---------------------------------------------------------------------
  // The subsets, in the order the iterator yields them

  /** A weight that cannot be part of a subset: 0, or above the target. */
  predicate Skipped(v: nat, target: nat)
  {
    v == 0 || v > target
  }

  /** Where `next_value` stops popping: the last position holding a weight
      that is not skipped, or -1 when there is none. */
  function PopAt(items: seq<nat>, target: nat): (n: int)
    ensures -1 <= n < |items|
    ensures n >= 0 ==> !Skipped(items[n], target)
    ensures forall k :: n < k < |items| ==> Skipped(items[k], target)
    decreases |items|
  {
    if items == [] then -1
    else if Skipped(Last(items), target) then PopAt(Init(items), target)
    else |items| - 1
  }

  /** `next_value` on a list: what is left of it and the weight popped,
      which is 0 once the list has run out. */
  function Popped(items: seq<nat>, target: nat): (seq<nat>, nat)
  {
    var n := PopAt(items, target);
    if n < 0 then ([], 0) else (items[..n], items[n])
  }

  /** Appends `x` to every sequence of `ps`. */
  function Extend(ps: seq<seq<nat>>, x: nat): (r: seq<seq<nat>>)
    ensures |r| == |ps|
    ensures forall k :: 0 <= k < |r| ==> r[k] == ps[k] + [x]
  {
    if ps == [] then [] else [ps[0] + [x]] + Extend(ps[1..], x)
  }

  /** The subsets found once `v` is popped: `v` alone when it is the
      target, or else every subset of the smaller weights adding up to the
      rest, each followed by `v`. */
  function WithPopped(rest: seq<nat>, v: nat, target: nat): seq<seq<nat>>
    requires 0 < v <= target
    decreases |rest|, 1
  {
    if v == target then [[v]] else Extend(Subsets(rest, target - v), v)
  }

  /** The subsets of `items` adding up to `target`, in the iterator's
      order: those with the weight `next_value` finds, then those of the
      weights left. */
  function Subsets(items: seq<nat>, target: nat): seq<seq<nat>>
    decreases |items|, 0
  {
    var (rest, v) := Popped(items, target);
    if v == 0 then [] else WithPopped(rest, v, target) + Subsets(rest, target)
  }

  /** `Subsets` peeled one weight at a time from the end. */
  lemma SubsetsUnfold(items: seq<nat>, target: nat)
    requires items != []
    ensures Skipped(Last(items), target) ==> Subsets(items, target) == Subsets(Init(items), target)
    ensures !Skipped(Last(items), target) ==>
      Subsets(items, target) == WithPopped(Init(items), Last(items), target) + Subsets(Init(items), target)
  {
    var n := PopAt(items, target);
    if Skipped(Last(items), target) && n >= 0 {
      assert items[..n] == Init(items)[..n];
    }
  }

  /** `c` picks some of the positions of `s`, keeping their order. */
  predicate Within(c: seq<nat>, s: seq<nat>)
    decreases |s|
  {
    if c == [] then true
    else if s == [] then false
    else (Last(c) == Last(s) && Within(Init(c), Init(s))) || Within(c, Init(s))
  }

  lemma WithinSkip(c: seq<nat>, s: seq<nat>, x: nat)
    requires Within(c, s)
    ensures Within(c, s + [x])
  {
    assert Init(s + [x]) == s;
  }

  lemma WithinTake(c: seq<nat>, s: seq<nat>, x: nat)
    requires Within(c, s)
    ensures Within(c + [x], s + [x])
  {
    assert Init(s + [x]) == s && Init(c + [x]) == c;
  }

  /** A list picks all of itself. */
  lemma {:induction false} WithinSelf(s: seq<nat>)
    ensures Within(s, s)
    decreases |s|
  {
    if s != [] {
      WithinSelf(Init(s));
      WithinTake(Init(s), Init(s), Last(s));
      assert Init(s) + [Last(s)] == s;
    }
  }

  /** Everything picked from `s` is bounded by what bounds `s`. */
  lemma {:induction false} WithinBound(c: seq<nat>, s: seq<nat>, b: nat)
    requires Within(c, s) && forall i :: 0 <= i < |s| ==> s[i] <= b
    ensures forall i :: 0 <= i < |c| ==> c[i] <= b
    decreases |s|
  {
    if c != [] {
      if Last(c) == Last(s) && Within(Init(c), Init(s)) {
        WithinBound(Init(c), Init(s), b);
        assert forall i :: 0 <= i < |c| - 1 ==> c[i] == Init(c)[i];
      } else {
        WithinBound(c, Init(s), b);
      }
    }
  }

  lemma InExtend(ps: seq<seq<nat>>, x: nat, c: seq<nat>)
    requires c in Extend(ps, x)
    ensures c != [] && Last(c) == x && Init(c) in ps && c == Init(c) + [x]
  {
    var k :| 0 <= k < |ps| && Extend(ps, x)[k] == c;
    assert Init(c) == ps[k];
  }

  lemma ExtendHas(ps: seq<seq<nat>>, x: nat, c: seq<nat>)
    requires c in ps
    ensures c + [x] in Extend(ps, x)
  {
    var k :| 0 <= k < |ps| && ps[k] == c;
    assert Extend(ps, x)[k] == c + [x];
  }

  /** Every yielded subset is non-empty, adds up to the target, is sorted
      ascending, and picks each position of the weights at most once. */
  lemma {:induction false} SubsetsSound(items: seq<nat>, target: nat, c: seq<nat>)
    requires Ascending(items) && c in Subsets(items, target)
    ensures c != [] && Sum(c) == target && Ascending(c) && Within(c, items)
    decreases |items|
  {
    SubsetsUnfold(items, target);
    AscendingInit(items);
    if Skipped(Last(items), target) || c in Subsets(Init(items), target) {
      SubsetsSound(Init(items), target, c);
    } else {
      PoppedSound(items, target, c);
    }
  }

  /** The soundness step for a subset holding the popped weight. */
  lemma {:induction false} PoppedSound(items: seq<nat>, target: nat, c: seq<nat>)
    requires Ascending(items) && items != [] && !Skipped(Last(items), target)
    requires c in WithPopped(Init(items), Last(items), target)
    ensures c != [] && Sum(c) == target && Ascending(c) && Within(c, items)
    decreases |items|, 0
  {
    var v := Last(items);
    AscendingInit(items);
    if v == target {
      assert c == [] + [v];
      SumSnoc([], v);
    } else {
      InExtend(Subsets(Init(items), target - v), v, c);
      SubsetsSound(Init(items), target - v, Init(c));
      SumSnoc(Init(c), v);
      WithinBound(Init(c), Init(items), v);
      AppendLargest(Init(c), v);
    }
  }

  /** The subsets come in descending order of their largest weight. */
  lemma {:induction false} SubsetsOrder(items: seq<nat>, target: nat, i: nat, j: nat)
    requires Ascending(items) && i < j < |Subsets(items, target)|
    ensures Subsets(items, target)[i] != [] && Subsets(items, target)[j] != []
    ensures Last(Subsets(items, target)[i]) >= Last(Subsets(items, target)[j])
    decreases |items|
  {
    var s := Subsets(items, target);
    SubsetsUnfold(items, target);
    AscendingInit(items);
    var tail := Subsets(Init(items), target);
    if Skipped(Last(items), target) {
      SubsetsOrder(Init(items), target, i, j);
    } else {
      var block := WithPopped(Init(items), Last(items), target);
      assert s == block + tail;
      if j < |block| {
        PoppedLast(items, target, s[i]);
        PoppedLast(items, target, s[j]);
      } else if i < |block| {
        PoppedLast(items, target, s[i]);
        assert s[j] == tail[j - |block|];
        TailBelow(items, target, s[j]);
      } else {
        assert s[i] == tail[i - |block|] && s[j] == tail[j - |block|];
        SubsetsOrder(Init(items), target, i - |block|, j - |block|);
      }
    }
  }

  /** The subsets of the weights left after a pop end in a weight no
      larger than the popped one. */
  lemma TailBelow(items: seq<nat>, target: nat, c: seq<nat>)
    requires Ascending(items) && items != [] && c in Subsets(Init(items), target)
    ensures c != [] && Last(c) <= Last(items)
  {
    AscendingInit(items);
    SubsetsSound(Init(items), target, c);
    WithinBound(c, Init(items), Last(items));
  }

  /** The subsets found for a popped weight all end in it. */
  lemma PoppedLast(items: seq<nat>, target: nat, c: seq<nat>)
    requires items != [] && !Skipped(Last(items), target)
    requires c in WithPopped(Init(items), Last(items), target)
    ensures c != [] && Last(c) == Last(items)
  {
    if Last(items) != target {
      InExtend(Subsets(Init(items), target - Last(items)), Last(items), c);
    }
  }

  lemma {:induction false} SumPositive(c: seq<nat>)
    requires forall i :: 0 <= i < |c| ==> c[i] > 0
    ensures c != [] ==> Sum(c) >= Last(c) && Sum(c) > 0
    ensures Sum(c) >= 0
    decreases |c|
  {
    if c != [] {
      assert c == Init(c) + [Last(c)];
      SumSnoc(Init(c), Last(c));
      SumPositive(Init(c));
    }
  }

  /** Every non-empty pick of positive weights adding up to the target is
      yielded: the weights `next_value` skips cannot be in it. */
  lemma {:induction false} SubsetsComplete(items: seq<nat>, target: nat, c: seq<nat>)
    requires c != [] && Within(c, items) && Sum(c) == target
    requires forall i :: 0 <= i < |c| ==> c[i] > 0
    ensures c in Subsets(items, target)
    decreases |items|, 1
  {
    SumPositive(c);
    SubsetsUnfold(items, target);
    if Last(c) == Last(items) && Within(Init(c), Init(items)) {
      PickedComplete(items, target, c);
    } else {
      SubsetsComplete(Init(items), target, c);
    }
  }

  /** The completeness step for a pick that takes the last weight. */
  lemma {:induction false} PickedComplete(items: seq<nat>, target: nat, c: seq<nat>)
    requires c != [] && items != [] && Last(c) == Last(items) && Within(Init(c), Init(items))
    requires Sum(c) == target && forall i :: 0 <= i < |c| ==> c[i] > 0
    ensures c in Subsets(items, target)
    decreases |items|, 0
  {
    var v := Last(items);
    var ic := Init(c);
    InitLast(c);
    SumSnoc(ic, v);
    assert forall i :: 0 <= i < |ic| ==> ic[i] == c[i];
    SumPositive(ic);
    assert 0 < v <= target;
    SubsetsUnfold(items, target);
    var rest := Subsets(Init(items), target);
    if ic == [] {
      assert c == [v] && WithPopped(Init(items), v, target) == [[v]];
    } else {
      SubsetsComplete(Init(items), target - v, ic);
      ExtendHas(Subsets(Init(items), target - v), v, ic);
      assert c in WithPopped(Init(items), v, target);
    }
    InFront(c, WithPopped(Init(items), v, target), rest);
  }

  lemma InFront(c: seq<nat>, front: seq<seq<nat>>, back: seq<seq<nat>>)
    requires c in front
    ensures c in front + back
  {
  }

  /** `c` from position `j` on can be picked, in order, from `s` from
      position `k` on, taking each match as early as it comes. */
  predicate EarlyPick(c: seq<nat>, s: seq<nat>, j: nat, k: nat)
    requires j <= |c| && k <= |s|
    decreases |s| - k
  {
    if j == |c| then true
    else if k == |s| then false
    else if c[j] == s[k] then EarlyPick(c, s, j + 1, k + 1)
    else EarlyPick(c, s, j, k + 1)
  }

  /** What can be picked early from the front can be picked from the end. */
  lemma {:induction false} EarlyPickWithin(c: seq<nat>, s: seq<nat>, j: nat, k: nat)
    requires j <= |c| && k <= |s| && EarlyPick(c, s, j, k) && Within(c[..j], s[..k])
    ensures Within(c, s)
    decreases |s| - k
  {
    if k == |s| {
      assert c[..j] == c && s[..k] == s;
    } else if j < |c| && c[j] == s[k] {
      WithinTake(c[..j], s[..k], s[k]);
      assert c[..j] + [c[j]] == c[..j + 1] && s[..k] + [s[k]] == s[..k + 1];
      EarlyPickWithin(c, s, j + 1, k + 1);
    } else {
      WithinSkip(c[..j], s[..k], s[k]);
      assert s[..k] + [s[k]] == s[..k + 1];
      EarlyPickWithin(c, s, j, k + 1);
    }
  }

  /** A non-empty list of positive weights adding up to the target that can
      be picked from the weights is one of their subsets. */
  lemma EarlyPickSubset(s: seq<nat>, target: nat, c: seq<nat>)
    requires c != [] && EarlyPick(c, s, 0, 0) && Sum(c) == target
    requires forall i :: 0 <= i < |c| ==> c[i] > 0
    ensures c in Subsets(s, target)
  {
    assert c[..0] == [] && s[..0] == [];
    EarlyPickWithin(c, s, 0, 0);
    SubsetsComplete(s, target, c);
  }

  /** The subsets the unit test expects among those of 1 to 5 and 7 to 11
      adding up to 20. */
  function ExpectedSubsets(): seq<seq<nat>>
  {
    [
      [9, 11],
      [1, 8, 11],
      [2, 7, 11],
      [1, 9, 10],
      [2, 8, 10],
      [3, 7, 10],
      [1, 4, 5, 10],
      [2, 3, 5, 10],
      [1, 2, 3, 4, 10],
      [3, 8, 9],
      [4, 7, 9],
      [2, 4, 5, 9],
      [5, 7, 8],
      [3, 4, 5, 8],
      [1, 3, 4, 5, 7]
    ]
  }

  /** The `k`-th expected subset is yielded. */
  lemma ExpectedYielded(s: seq<nat>, k: nat)
    requires s == [1, 2, 3, 4, 5, 7, 8, 9, 10, 11] && k < |ExpectedSubsets()|
    ensures ExpectedSubsets()[k] in Subsets(s, 20)
  {
    if k < 5 {
      ExpectedFirstFive(s, k);
    } else if k < 10 {
      ExpectedMiddleFive(s, k);
    } else {
      ExpectedLastFive(s, k);
    }
  }

  /** Of the expected subsets, the first five are yielded. */
  lemma ExpectedFirstFive(s: seq<nat>, k: nat)
    requires s == [1, 2, 3, 4, 5, 7, 8, 9, 10, 11] && 0 <= k < 5
    ensures ExpectedSubsets()[k] in Subsets(s, 20)
  {
    var c := ExpectedSubsets()[k];
    if k == 0 {
      assert c == [9, 11] && EarlyPick([9, 11], [1, 2, 3, 4, 5, 7, 8, 9, 10, 11], 0, 0);
    } else if k == 1 {
      assert c == [1, 8, 11] && EarlyPick([1, 8, 11], [1, 2, 3, 4, 5, 7, 8, 9, 10, 11], 0, 0);
    } else if k == 2 {
      assert c == [2, 7, 11] && EarlyPick([2, 7, 11], [1, 2, 3, 4, 5, 7, 8, 9, 10, 11], 0, 0);
    } else if k == 3 {
      assert c == [1, 9, 10] && EarlyPick([1, 9, 10], [1, 2, 3, 4, 5, 7, 8, 9, 10, 11], 0, 0);
    } else {
      assert c == [2, 8, 10] && EarlyPick([2, 8, 10], [1, 2, 3, 4, 5, 7, 8, 9, 10, 11], 0, 0);
    }
    EarlyPickSubset(s, 20, c);
  }

  /** Of the expected subsets, the next five are yielded. */
  lemma ExpectedMiddleFive(s: seq<nat>, k: nat)
    requires s == [1, 2, 3, 4, 5, 7, 8, 9, 10, 11] && 5 <= k < 10
    ensures ExpectedSubsets()[k] in Subsets(s, 20)
  {
    var c := ExpectedSubsets()[k];
    if k == 5 {
      assert c == [3, 7, 10] && EarlyPick([3, 7, 10], [1, 2, 3, 4, 5, 7, 8, 9, 10, 11], 0, 0);
    } else if k == 6 {
      assert c == [1, 4, 5, 10] && EarlyPick([1, 4, 5, 10], [1, 2, 3, 4, 5, 7, 8, 9, 10, 11], 0, 0);
    } else if k == 7 {
      assert c == [2, 3, 5, 10] && EarlyPick([2, 3, 5, 10], [1, 2, 3, 4, 5, 7, 8, 9, 10, 11], 0, 0);
    } else if k == 8 {
      assert c == [1, 2, 3, 4, 10] && EarlyPick([1, 2, 3, 4, 10], [1, 2, 3, 4, 5, 7, 8, 9, 10, 11], 0, 0);
    } else {
      assert c == [3, 8, 9] && EarlyPick([3, 8, 9], [1, 2, 3, 4, 5, 7, 8, 9, 10, 11], 0, 0);
    }
    EarlyPickSubset(s, 20, c);
  }

  /** Of the expected subsets, the last five are yielded. */
  lemma ExpectedLastFive(s: seq<nat>, k: nat)
    requires s == [1, 2, 3, 4, 5, 7, 8, 9, 10, 11] && 10 <= k < 15
    ensures ExpectedSubsets()[k] in Subsets(s, 20)
  {
    var c := ExpectedSubsets()[k];
    if k == 10 {
      assert c == [4, 7, 9] && EarlyPick([4, 7, 9], [1, 2, 3, 4, 5, 7, 8, 9, 10, 11], 0, 0);
    } else if k == 11 {
      assert c == [2, 4, 5, 9] && EarlyPick([2, 4, 5, 9], [1, 2, 3, 4, 5, 7, 8, 9, 10, 11], 0, 0);
    } else if k == 12 {
      assert c == [5, 7, 8] && EarlyPick([5, 7, 8], [1, 2, 3, 4, 5, 7, 8, 9, 10, 11], 0, 0);
    } else if k == 13 {
      assert c == [3, 4, 5, 8] && EarlyPick([3, 4, 5, 8], [1, 2, 3, 4, 5, 7, 8, 9, 10, 11], 0, 0);
    } else {
      assert c == [1, 3, 4, 5, 7] && EarlyPick([1, 3, 4, 5, 7], [1, 2, 3, 4, 5, 7, 8, 9, 10, 11], 0, 0);
    }
    EarlyPickSubset(s, 20, c);
  }

  /** The unit test: every subset it expects is among those the iterator
      yields for 1 to 5 and 7 to 11 and the target 20. */
  lemma ExampleSubsets(s: seq<nat>)
    requires s == [1, 2, 3, 4, 5, 7, 8, 9, 10, 11]
    ensures forall c :: c in ExpectedSubsets() ==> c in Subsets(s, 20)
  {
    forall c | c in ExpectedSubsets()
      ensures c in Subsets(s, 20)
    {
      var k :| 0 <= k < |ExpectedSubsets()| && ExpectedSubsets()[k] == c;
      ExpectedYielded(s, k);
    }
  }

  // ---------------------------------------------------------------------
  // The iterator

  class SummedSubsets {
    var items: seq<nat>
    var target: nat
    var currentSum: nat
    var subIterator: SummedSubsets?
    ghost var Repr: set<object>

    /** The weights stay sorted; a sub-iterator is never over more weights
        than this one. */
    ghost predicate Valid()
      reads this, Repr
      decreases Repr
    {
      this in Repr && Ascending(items)
      && (subIterator != null ==>
            subIterator in Repr && subIterator.Repr <= Repr && this !in subIterator.Repr
            && subIterator.Valid() && |subIterator.items| <= |items|)
    }

    /** The length of the chain of sub-iterators. */
    ghost function Depth(): nat
      reads this, Repr
      requires Valid()
      decreases Repr
    {
      if subIterator == null then 0 else 1 + subIterator.Depth()
    }

    /** The subsets still to be yielded: the rest of the sub-iterator's,
        each followed by the current weight, then those of the weights not
        yet popped. */
    ghost function Remaining(): seq<seq<nat>>
      reads this, Repr
      requires Valid()
      decreases Repr
    {
      if subIterator == null then Subsets(items, target)
      else Extend(subIterator.Remaining(), currentSum) + Subsets(items, target)
    }

    /** `SummedSubsets::new`: the weights are sorted, nothing is popped
        yet. */
    constructor (items: seq<nat>, target: nat)
      ensures Valid() && fresh(Repr)
      ensures this.items == SortAscending(items) && this.target == target && subIterator == null
      ensures Remaining() == Subsets(this.items, target)
    {
      this.items := SortAscending(items);
      this.target := target;
      currentSum := 0;
      subIterator := null;
      Repr := {this};
    }

    /** `Iterator::next`: the next subset, or `None` once all are
        yielded. */
    method Next() returns (o: Option<seq<nat>>)
      requires Valid()
      modifies Repr
      ensures Valid() && fresh(Repr - old(Repr)) && target == old(target)
      ensures |items| <= old(|items|)
      ensures old(Remaining()) == [] ==> o == None && Remaining() == []
      ensures old(Remaining()) != [] ==> o == Some(old(Remaining())[0]) && Remaining() == old(Remaining())[1..]
      decreases |items|, Depth(), 3
    {
      if subIterator != null {
        o := Descend();
      } else {
        o := Restart();
      }
    }

    /** The part of `next` that runs without a sub-iterator: the next
        weight is popped, and unless that settles the call a sub-iterator
        is asked in turn. */
    method Restart() returns (o: Option<seq<nat>>)
      requires Valid() && subIterator == null
      modifies Repr
      ensures Valid() && fresh(Repr - old(Repr)) && target == old(target)
      ensures |items| <= old(|items|)
      ensures old(Remaining()) == [] ==> o == None && Remaining() == []
      ensures old(Remaining()) != [] ==> o == Some(old(Remaining())[0]) && Remaining() == old(Remaining())[1..]
      decreases |items|, Depth(), 2
    {
      var more;
      o, more := Choose();
      if more {
        o := Descend();
      }
    }

    /** Pops the next weight. None left, the answer is `None`; exactly the
        target, it is yielded alone; smaller, a sub-iterator is started
        (`more`) and the subsets still to come are unchanged. */
    method Choose() returns (o: Option<seq<nat>>, more: bool)
      requires Valid() && subIterator == null
      modifies this
      ensures Valid() && fresh(Repr - old(Repr)) && |items| <= old(|items|) && target == old(target)
      ensures more ==> subIterator != null && |items| < old(|items|) && Remaining() == Subsets(old(items), target)
      ensures !more ==> subIterator == null
      ensures !more && Subsets(old(items), target) == [] ==> o == None && Subsets(items, target) == []
      ensures !more && Subsets(old(items), target) != [] ==>
        o == Some(Subsets(old(items), target)[0]) && Subsets(items, target) == Subsets(old(items), target)[1..]
    {
      NextValue();
      if currentSum == 0 {
        return None, false;
      }
      if currentSum == target {
        assert Subsets(old(items), target) == [[currentSum]] + Subsets(items, target);
        return Some([currentSum]), false;
      }
      StartSubIterator();
      return None, true;
    }

    /** The rest of `next` with a sub-iterator going: its next subset
        followed by the current weight, or, when it has none left, a fresh
        start from the next weight. */
    method Descend() returns (o: Option<seq<nat>>)
      requires Valid() && subIterator != null
      modifies Repr
      ensures Valid() && fresh(Repr - old(Repr)) && target == old(target)
      ensures |items| <= old(|items|)
      ensures old(Remaining()) == [] ==> o == None && Remaining() == []
      ensures old(Remaining()) != [] ==> o == Some(old(Remaining())[0]) && Remaining() == old(Remaining())[1..]
      decreases |items|, Depth(), 1
    {
      ghost var rest := subIterator.Remaining();
      var sub := Advance();
      if sub.Some? {
        ExtendStep(rest, currentSum, Subsets(items, target));
        return Some(sub.value + [currentSum]);
      }
      subIterator := null;
      o := Restart();
    }

    /** The sub-iterator moves on by one subset. */
    method Advance() returns (sub: Option<seq<nat>>)
      requires Valid() && subIterator != null
      modifies Repr
      ensures Valid() && fresh(Repr - old(Repr)) && subIterator != null
      ensures items == old(items) && target == old(target) && currentSum == old(currentSum)
      ensures old(subIterator.Remaining()) == [] ==> sub == None && subIterator.Remaining() == []
      ensures old(subIterator.Remaining()) != [] ==>
        sub == Some(old(subIterator.Remaining())[0]) && subIterator.Remaining() == old(subIterator.Remaining())[1..]
      decreases |items|, Depth(), 0
    {
      sub := subIterator.Next();
      Repr := Repr + subIterator.Repr;
    }

    /** `next_value`: pop weights off the end until one is neither 0 nor
        above the target, leaving 0 when they run out. */
    method NextValue()
      requires Valid() && subIterator == null
      modifies this`items, this`currentSum
      ensures Valid() && (items, currentSum) == Popped(old(items), target)
    {
      ghost var seen := items;
      currentSum := 0;
      while currentSum == 0 || currentSum > target
        invariant |items| <= |seen| && items == seen[..|items|]
        invariant currentSum == 0 ==> |items| == |seen| || seen[|items|] == 0
        invariant currentSum != 0 ==> |items| < |seen| && seen[|items|] == currentSum
        invariant forall k :: |items| < k < |seen| ==> Skipped(seen[k], target)
        decreases |items|, if currentSum == 0 then 1 else 0
      {
        if items == [] {
          currentSum := 0;
          break;
        }
        currentSum := items[|items| - 1];
        items := items[..|items| - 1];
      }
      PopAtUnique(seen, target, if currentSum == 0 then -1 else |items|);
    }

    /** A sub-iterator is made over the remaining weights for what the
        current weight leaves of the target. */
    method StartSubIterator()
      requires Valid() && subIterator == null && 0 < currentSum < target
      modifies this
      ensures Valid() && fresh(Repr - old(Repr)) && subIterator != null && Depth() == 1
      ensures items == old(items) && target == old(target) && currentSum == old(currentSum)
      ensures Remaining() == Extend(Subsets(items, target - currentSum), currentSum) + Subsets(items, target)
    {
      SortSorted(items);
      var s := new SummedSubsets(items, target - currentSum);
      subIterator := s;
      Repr := Repr + s.Repr;
    }
  }

  /** `PopAt` is the only position with its two properties. */
  lemma {:induction false} PopAtUnique(items: seq<nat>, target: nat, n: int)
    requires -1 <= n < |items| && (n >= 0 ==> !Skipped(items[n], target))
    requires forall k :: n < k < |items| ==> Skipped(items[k], target)
    ensures PopAt(items, target) == n
    decreases |items|
  {
    if items != [] && n < |items| - 1 {
      PopAtUnique(Init(items), target, n);
    }
  }

  /** The first of the extended subsets, and what is left after it. */
  lemma ExtendStep(ps: seq<seq<nat>>, x: nat, rest: seq<seq<nat>>)
    requires ps != []
    ensures (Extend(ps, x) + rest)[0] == ps[0] + [x]
    ensures (Extend(ps, x) + rest)[1..] == Extend(ps[1..], x) + rest
  {
  }
}
