// Day 24, the `bounded-permutation-generation` crate: a generator that
// tags packages with a compartment in a shared layout so that the tagged
// packages weigh a target. Slots already holding another compartment are
// left alone, which lets several generators fill one layout in turn.

module Day24Layout {
  import opened Text

  datatype Error = PackagesNotSorted | CompartmentLayoutTooSmall

  datatype Result<T, E> = Ok(value: T) | Err(error: E)

  /** The packages are sorted largest first. */
  predicate NonIncreasing(pk: seq<nat>)
  {
    forall i :: 0 < i < |pk| ==> pk[i] <= pk[i - 1]
  }

  /** The weight of the packages from position `i` on whose slot holds
      `c`. */
  function TaggedSum<C(==)>(pk: seq<nat>, s: seq<Option<C>>, c: C, i: nat): nat
    requires i <= |pk| <= |s|
    decreases |pk| - i
  {
    if i == |pk| then 0
    else (if s[i] == Some(c) then pk[i] else 0) + TaggedSum(pk, s, c, i + 1)
  }

  /** No slot from position `i` up to the last package holds `c`. */
  predicate Untagged<C(==)>(L: seq<Option<C>>, c: C, i: nat, n: nat)
    requires n <= |L|
  {
    forall j :: i <= j < n ==> L[j] != Some(c)
  }

  /** `L` with every slot from `i` up to `n` that holds `c` emptied. */
  function Cleared<C(==)>(L: seq<Option<C>>, c: C, i: nat, n: nat): (r: seq<Option<C>>)
    ensures |r| == |L|
    ensures forall j :: 0 <= j < |L| ==> r[j] == (if i <= j < n && L[j] == Some(c) then None else L[j])
  {
    seq(|L|, j requires 0 <= j < |L| => if i <= j < n && L[j] == Some(c) then None else L[j])
  }

  /** What the generator does from position `i` with no child, asked for
      `c` until it runs out: the layouts it yields, in order, and the layout
      it leaves. A slot holding `c` is emptied and one holding another
      compartment passed over; a package heavier than the target is
      skipped; one of exactly the target is tagged and the layout yielded
      (the tag is emptied on the next call); a lighter one is tagged and a
      child looks for the rest after it, and once the child runs out the
      tag is emptied and the search goes on. */
  function Run<C(==)>(pk: seq<nat>, L: seq<Option<C>>, i: nat, t: nat, c: C): (r: (seq<seq<Option<C>>>, seq<Option<C>>))
    requires i <= |pk| <= |L|
    ensures |r.1| == |L|
    decreases |pk| - i
  {
    if i == |pk| then ([], L)
    else match L[i]
      case Some(e) => Run(pk, if e == c then L[i := None] else L, i + 1, t, c)
      case None =>
        if pk[i] > t then Run(pk, L, i + 1, t, c)
        else if pk[i] == t then
          var (S, F) := Run(pk, L, i + 1, t, c);
          ([L[i := Some(c)]] + S, F)
        else
          var (S, F) := Run(pk, L[i := Some(c)], i + 1, t - pk[i], c);
          var (S2, F2) := Run(pk, F[i := None], i + 1, t, c);
          (S + S2, F2)
  }

  /** Once it runs out, the generator has emptied every slot from its
      start that held `c`, and changed nothing else. */
  lemma {:induction false} RunLeaves<C>(pk: seq<nat>, L: seq<Option<C>>, i: nat, t: nat, c: C)
    requires i <= |pk| <= |L|
    ensures Run(pk, L, i, t, c).1 == Cleared(L, c, i, |pk|)
    decreases |pk| - i
  {
    if i < |pk| {
      match L[i]
      case Some(e) =>
        var L' := if e == c then L[i := None] else L;
        RunLeaves(pk, L', i + 1, t, c);
        assert Cleared(L', c, i + 1, |pk|) == Cleared(L, c, i, |pk|);
      case None =>
        RunLeaves(pk, L, i + 1, t, c);
        assert Cleared(L, c, i + 1, |pk|) == Cleared(L, c, i, |pk|);
        if pk[i] < t {
          var F := Run(pk, L[i := Some(c)], i + 1, t - pk[i], c).1;
          RunLeaves(pk, L[i := Some(c)], i + 1, t - pk[i], c);
          RunLeaves(pk, F[i := None], i + 1, t, c);
          assert Cleared(F[i := None], c, i + 1, |pk|) == Cleared(L, c, i, |pk|);
        }
    }
  }

  /** Every layout yielded is as long as the one the generator works on. */
  lemma {:induction false} RunLength<C>(pk: seq<nat>, L: seq<Option<C>>, i: nat, t: nat, c: C, s: seq<Option<C>>)
    requires i <= |pk| <= |L| && s in Run(pk, L, i, t, c).0
    ensures |s| == |L|
    decreases |pk| - i
  {
    match L[i]
    case Some(e) =>
      RunLength(pk, if e == c then L[i := None] else L, i + 1, t, c, s);
    case None =>
      if pk[i] > t {
        RunLength(pk, L, i + 1, t, c, s);
      } else if pk[i] == t {
        if s != L[i := Some(c)] {
          RunLength(pk, L, i + 1, t, c, s);
        }
      } else {
        var (S, F) := Run(pk, L[i := Some(c)], i + 1, t - pk[i], c);
        if s in S {
          RunLength(pk, L[i := Some(c)], i + 1, t - pk[i], c, s);
        } else {
          RunLength(pk, F[i := None], i + 1, t, c, s);
        }
      }
  }

  /** Every layout yielded tags with `c` some of the empty slots from the
      start, keeps every other slot, and the packages it tags there weigh
      the target, provided no slot there held `c` to begin with. */
  lemma {:induction false} RunSound<C>(pk: seq<nat>, L: seq<Option<C>>, i: nat, t: nat, c: C, s: seq<Option<C>>)
    requires i <= |pk| <= |L| && Untagged(L, c, i, |pk|)
    requires s in Run(pk, L, i, t, c).0
    ensures |s| == |L| && TaggedSum(pk, s, c, i) == t
    ensures forall j :: 0 <= j < |L| ==> s[j] == L[j] || (i <= j < |pk| && L[j] == None && s[j] == Some(c))
    decreases |pk| - i
  {
    match L[i]
    case Some(e) =>
      RunSound(pk, L, i + 1, t, c, s);
    case None =>
      if pk[i] > t {
        RunSound(pk, L, i + 1, t, c, s);
      } else if pk[i] == t {
        if s == L[i := Some(c)] {
          TaggedNone(pk, s, c, i + 1);
        } else {
          RunSound(pk, L, i + 1, t, c, s);
        }
      } else {
        var L' := L[i := Some(c)];
        var (S, F) := Run(pk, L', i + 1, t - pk[i], c);
        if s in S {
          RunSound(pk, L', i + 1, t - pk[i], c, s);
        } else {
          RunLeaves(pk, L', i + 1, t - pk[i], c);
          assert F[i := None] == L;
          RunSound(pk, L, i + 1, t, c, s);
        }
      }
  }

  /** A layout with no `c` from `i` on tags no weight there. */
  lemma {:induction false} TaggedNone<C>(pk: seq<nat>, s: seq<Option<C>>, c: C, i: nat)
    requires i <= |pk| <= |s| && Untagged(s, c, i, |pk|)
    ensures TaggedSum(pk, s, c, i) == 0
    decreases |pk| - i
  {
    if i < |pk| {
      TaggedNone(pk, s, c, i + 1);
    }
  }

  /** `s` tags with `c` some of the empty slots of `L` from `i` up to the
      last package, and keeps every other slot. */
  predicate Extends<C(==)>(pk: seq<nat>, L: seq<Option<C>>, s: seq<Option<C>>, c: C, i: nat)
  {
    |s| == |L| && forall j :: 0 <= j < |L| ==> s[j] == L[j] || (i <= j < |pk| && L[j] == None && s[j] == Some(c))
  }

  /** With positive packages, every way of tagging empty slots whose
      packages weigh the (positive) target is yielded. */
  lemma {:induction false} RunComplete<C>(pk: seq<nat>, L: seq<Option<C>>, i: nat, t: nat, c: C, s: seq<Option<C>>)
    requires i <= |pk| <= |L| && Untagged(L, c, i, |pk|)
    requires forall j :: 0 <= j < |pk| ==> pk[j] > 0
    requires Extends(pk, L, s, c, i) && TaggedSum(pk, s, c, i) == t && t > 0
    ensures s in Run(pk, L, i, t, c).0
    decreases |pk| - i
  {
    match L[i]
    case Some(e) =>
      assert s[i] == L[i];
      RunComplete(pk, L, i + 1, t, c, s);
    case None =>
      if s[i] == Some(c) {
        if pk[i] == t {
          assert Untagged(s, c, i + 1, |pk|) by {
            TaggedZero(pk, s, c, i + 1);
          }
          assert s == L[i := Some(c)];
        } else {
          RunComplete(pk, L[i := Some(c)], i + 1, t - pk[i], c, s);
        }
      } else {
        RunComplete(pk, L, i + 1, t, c, s);
        if pk[i] < t {
          var L' := L[i := Some(c)];
          var F := Run(pk, L', i + 1, t - pk[i], c).1;
          RunLeaves(pk, L', i + 1, t - pk[i], c);
          assert F[i := None] == L;
        }
      }
  }

  /** With positive packages, tagging no weight means tagging nothing. */
  lemma {:induction false} TaggedZero<C>(pk: seq<nat>, s: seq<Option<C>>, c: C, i: nat)
    requires i <= |pk| <= |s| && TaggedSum(pk, s, c, i) == 0
    requires forall j :: 0 <= j < |pk| ==> pk[j] > 0
    ensures Untagged(s, c, i, |pk|)
    decreases |pk| - i
  {
    if i < |pk| {
      TaggedZero(pk, s, c, i + 1);
    }
  }

  // ---------------------------------------------------------------------
  // The generator

  class Inner<C(==)> {
    var packages: seq<nat>
    var layout: array<Option<C>>
    var idx: nat
    var target: nat
    var child: Inner?<C>
    ghost var Repr: set<object>

    /** A child shares the packages and the layout and starts after this
        generator's position, whose slot it leaves tagged. */
    ghost predicate Valid()
      reads this, Repr, layout
      decreases Repr
    {
      this in Repr && idx <= |packages| <= layout.Length
      && (child != null ==>
            child in Repr && child.Repr <= Repr && this !in child.Repr && child.layout == layout
            && child.Valid() && child.packages == packages
            && idx < child.idx && layout[idx].Some?)
    }

    /** The layouts still to be yielded when asked for `c` from now on,
        and the layout left once they run out: the child's, then this
        generator's from its position on. */
    ghost function Rem(c: C): (r: (seq<seq<Option<C>>>, seq<Option<C>>))
      reads this, Repr, layout
      requires Valid()
      ensures |r.1| == layout.Length
      decreases Repr
    {
      if child == null then Run(packages, layout[..], idx, target, c)
      else
        var (S, F) := child.Rem(c);
        var (S2, F2) := Run(packages, F, idx, target, c);
        (S + S2, F2)
    }

    /** The generator a new `BoundedPermutationGenerator` holds, and the
        child `Inner::child` makes: from `idx`, for `target`, with no
        child. */
    constructor (packages: seq<nat>, layout: array<Option<C>>, idx: nat, target: nat)
      requires idx <= |packages| <= layout.Length
      ensures Valid() && fresh(Repr) && child == null
      ensures this.packages == packages && this.layout == layout && this.idx == idx && this.target == target
    {
      this.packages := packages;
      this.layout := layout;
      this.idx := idx;
      this.target := target;
      child := null;
      Repr := {this};
    }

    /** The measure of one round of the loop at a position: a fresh
        position first, then its child, then the emptying of its tag. */
    ghost function Phase(): nat
      reads this, layout
    {
      if child != null then 1 else if idx < |packages| <= layout.Length && layout[idx].None? then 2 else 0
    }

    /** `Inner::next_solution_for`: the next layout tagging `c` packages of
        the target weight, or `None` once there is none. */
    method NextSolutionFor(c: C) returns (solution: Option<seq<Option<C>>>)
      requires Valid()
      modifies Repr, layout
      ensures Valid() && fresh(Repr - old(Repr))
      ensures packages == old(packages) && layout == old(layout) && old(idx) <= idx
      ensures forall j :: 0 <= j < old(idx) ==> layout[j] == old(layout[j])
      ensures forall j :: 0 <= j < layout.Length && old(layout[j]).Some? && old(layout[j]).value != c ==>
        layout[j] == old(layout[j])
      ensures old(Rem(c)).0 == [] ==> solution == None && Rem(c) == old(Rem(c)) && layout[..] == old(Rem(c)).1
      ensures old(Rem(c)).0 != [] ==>
        solution == Some(old(Rem(c)).0[0]) && Rem(c) == (old(Rem(c)).0[1..], old(Rem(c)).1)
        && layout[..] == solution.value
      decreases |packages| - idx, 1
    {
      solution := None;
      while solution.None?
        invariant Valid() && fresh(Repr - old(Repr))
        invariant packages == old(packages) && layout == old(layout) && old(idx) <= idx
        invariant forall j :: 0 <= j < old(idx) ==> layout[j] == old(layout[j])
        invariant forall j :: 0 <= j < layout.Length && old(layout[j]).Some? && old(layout[j]).value != c ==>
          layout[j] == old(layout[j])
        invariant solution.None? ==> Rem(c) == old(Rem(c))
        invariant solution.Some? ==>
          old(Rem(c)).0 != [] && solution == Some(old(Rem(c)).0[0]) && Rem(c) == (old(Rem(c)).0[1..], old(Rem(c)).1)
          && layout[..] == solution.value
        decreases |packages| - idx, if solution.None? then 1 else 0, Phase()
      {
        if child == null {
          if idx >= |packages| {
            break;
          }
          solution := Examine(c);
        } else {
          solution := Descend(c);
        }
      }
    }

    /** One round of the loop with no child: the slot and the package at
        the current position decide. */
    method Examine(c: C) returns (solution: Option<seq<Option<C>>>)
      requires Valid() && child == null && idx < |packages|
      modifies this, layout
      ensures Valid() && fresh(Repr - old(Repr))
      ensures packages == old(packages) && layout == old(layout)
      ensures forall j :: 0 <= j < old(idx) ==> layout[j] == old(layout[j])
      ensures forall j :: 0 <= j < layout.Length && old(layout[j]).Some? && old(layout[j]).value != c ==>
        layout[j] == old(layout[j])
      ensures solution.None? ==> Rem(c) == old(Rem(c))
      ensures solution.None? ==> idx == old(idx) + 1 || (idx == old(idx) && child != null && old(layout[idx]).None?)
      ensures solution.Some? ==>
        old(Rem(c)).0 != [] && solution == Some(old(Rem(c)).0[0]) && Rem(c) == (old(Rem(c)).0[1..], old(Rem(c)).1)
        && layout[..] == solution.value && idx == old(idx)
    {
      ghost var L := layout[..];
      match layout[idx]
      case Some(existing) =>
        if existing == c {
          layout[idx] := None;
        }
        assert layout[..] == if existing == c then L[idx := None] else L;
        idx := idx + 1;
        return None;
      case None =>
        if packages[idx] > target {
          idx := idx + 1;
          return None;
        } else if packages[idx] == target {
          layout[idx] := Some(c);
          solution := Some(layout[..]);
          assert layout[..] == L[idx := Some(c)];
          assert layout[..][idx := None] == L;
          return;
        } else {
          layout[idx] := Some(c);
          assert layout[..] == L[idx := Some(c)];
          var next := new Inner(packages, layout, idx + 1, target - packages[idx]);
          child := next;
          Repr := Repr + next.Repr;
          RunLeaves(packages, L[idx := Some(c)], idx + 1, target - packages[idx], c);
          return None;
        }
    }

    /** One round of the loop with a child: its next layout is passed on;
        once it has none, it is dropped. */
    method Descend(c: C) returns (solution: Option<seq<Option<C>>>)
      requires Valid() && child != null
      modifies Repr, layout
      ensures Valid() && fresh(Repr - old(Repr))
      ensures packages == old(packages) && layout == old(layout) && idx == old(idx) && idx < |packages|
      ensures forall j :: 0 <= j <= idx ==> layout[j] == old(layout[j])
      ensures forall j :: 0 <= j < layout.Length && old(layout[j]).Some? && old(layout[j]).value != c ==>
        layout[j] == old(layout[j])
      ensures solution.None? ==> Rem(c) == old(Rem(c)) && child == null && layout[idx].Some?
      ensures solution.Some? ==>
        old(Rem(c)).0 != [] && solution == Some(old(Rem(c)).0[0]) && Rem(c) == (old(Rem(c)).0[1..], old(Rem(c)).1)
        && layout[..] == solution.value
      decreases |packages| - idx, 0
    {
      ghost var (S, F) := child.Rem(c);
      ghost var (S2, F2) := Run(packages, F, idx, target, c);
      assert old(Rem(c)) == (S + S2, F2);
      var inner := child.NextSolutionFor(c);
      Repr := Repr + child.Repr;
      if inner.Some? {
        assert child.Rem(c) == (S[1..], F);
        assert (S + S2)[1..] == S[1..] + S2;
        return inner;
      }
      assert S == [] && layout[..] == F;
      assert S + S2 == S2;
      child := null;
      return None;
    }
  }

  // ---------------------------------------------------------------------
  // The public generator and its iterator

  class BoundedPermutationGenerator<C(==)> {
    const inner: Inner<C>

    ghost predicate Valid()
      reads this, inner, inner.Repr, inner.layout
    {
      inner.Valid()
    }

    constructor Wrap(inner: Inner<C>)
      requires inner.Valid()
      ensures Valid() && this.inner == inner
    {
      this.inner := inner;
    }

    /** `BoundedPermutationGenerator::next_solution_for`, passed on to the
        inner generator. */
    method NextSolutionFor(c: C) returns (solution: Option<seq<Option<C>>>)
      requires Valid()
      modifies inner.Repr, inner.layout
      ensures Valid() && fresh(inner.Repr - old(inner.Repr)) && inner.layout == old(inner.layout)
      ensures old(inner.Rem(c)).0 == [] ==> solution == None && inner.Rem(c) == old(inner.Rem(c))
      ensures old(inner.Rem(c)).0 != [] ==>
        solution == Some(old(inner.Rem(c)).0[0]) && inner.Rem(c) == (old(inner.Rem(c)).0[1..], old(inner.Rem(c)).1)
    {
      solution := inner.NextSolutionFor(c);
    }

    /** `BoundedPermutationGenerator::new`: the packages must be sorted
        largest first and the layout at least as long; the generator starts
        at the first package with the whole target. */
    static method New(packages: seq<nat>, layout: array<Option<C>>, target: nat)
      returns (r: Result<BoundedPermutationGenerator<C>, Error>)
      ensures !NonIncreasing(packages) ==> r == Err(PackagesNotSorted)
      ensures NonIncreasing(packages) && layout.Length < |packages| ==> r == Err(CompartmentLayoutTooSmall)
      ensures NonIncreasing(packages) && layout.Length >= |packages| ==>
        r.Ok? && fresh(r.value) && fresh(r.value.inner.Repr) && r.value.Valid()
        && r.value.inner.layout == layout && r.value.inner.packages == packages
        && r.value.inner.idx == 0 && r.value.inner.target == target && r.value.inner.child == null
    {
      var sorted := SortedDown(packages);
      if !sorted {
        return Err(PackagesNotSorted);
      }
      if layout.Length < |packages| {
        return Err(CompartmentLayoutTooSmall);
      }
      var i := new Inner(packages, layout, 0, target);
      var g := new BoundedPermutationGenerator.Wrap(i);
      return Ok(g);
    }
  }

  /** `BoundedPermutationGenerator::iter`: the generator asked, call after
      call, for one compartment. */
  class Iter<C(==)> {
    const generator: BoundedPermutationGenerator<C>
    const compartment: C

    ghost predicate Valid()
      reads this, generator, generator.inner, generator.inner.Repr, generator.inner.layout
    {
      generator.Valid()
    }

    /** The layouts the iterator has still to yield. */
    ghost function Remaining(): seq<seq<Option<C>>>
      reads this, generator, generator.inner, generator.inner.Repr, generator.inner.layout
      requires Valid()
    {
      generator.inner.Rem(compartment).0
    }

    constructor (generator: BoundedPermutationGenerator<C>, compartment: C)
      requires generator.Valid()
      ensures Valid() && this.generator == generator && this.compartment == compartment
    {
      this.generator := generator;
      this.compartment := compartment;
    }

    /** `Iterator::next`: the first remaining layout, which is then gone. */
    method Next() returns (o: Option<seq<Option<C>>>)
      requires Valid()
      modifies generator.inner.Repr, generator.inner.layout
      ensures Valid() && fresh(generator.inner.Repr - old(generator.inner.Repr))
      ensures generator.inner.layout == old(generator.inner.layout)
      ensures old(Remaining()) == [] ==> o == None && Remaining() == []
      ensures old(Remaining()) != [] ==> o == Some(old(Remaining())[0]) && Remaining() == old(Remaining())[1..]
    {
      o := generator.NextSolutionFor(compartment);
    }
  }

  // ---------------------------------------------------------------------
  // The crate's examples, over packages 5, 3, 2 and 1 and compartments
  // numbered from 0

  /** Weight 8: 5 and 3, then 5, 2 and 1, then nothing; the layout is left
      empty. */
  lemma ExampleEight(L: seq<Option<int>>)
    requires L == [None, None, None, None]
    ensures Run([5, 3, 2, 1], L, 0, 8, 0)
      == ([[Some(0), Some(0), None, None], [Some(0), None, Some(0), Some(0)]], L)
  {
    var pk: seq<nat> := [5, 3, 2, 1];
    var A := L[0 := Some(0)];
    var B := A[2 := Some(0)];
    EightWithFive(L);
    EightWithoutFive(L);
    assert A[0 := None] == L;
    assert A[1 := Some(0)] == [Some(0), Some(0), None, None];
    assert B[3 := Some(0)] == [Some(0), None, Some(0), Some(0)];
    var sols := [A[1 := Some(0)]] + [B[3 := Some(0)]];
    assert sols + [] == sols;
    assert Run(pk, L, 0, 8, 0) == (sols, L);
    assert sols == [[Some(0), Some(0), None, None], [Some(0), None, Some(0), Some(0)]];
  }

  /** With 5 tagged, the remaining 3 is made by 3 alone and by 2 and 1. */
  lemma EightWithFive(L: seq<Option<int>>)
    requires L == [None, None, None, None]
    ensures var A := L[0 := Some(0)];
      Run([5, 3, 2, 1], A, 1, 3, 0) == ([A[1 := Some(0)]] + [A[2 := Some(0)][3 := Some(0)]], A)
  {
    var pk: seq<nat> := [5, 3, 2, 1];
    var A := L[0 := Some(0)];
    var B := A[2 := Some(0)];
    assert |pk| == 4 && pk[3] == 1 && B[3] == None;
    assert Run(pk, B, 4, 1, 0) == ([], B);
    assert [B[3 := Some(0)]] + [] == [B[3 := Some(0)]];
    assert Run(pk, B, 3, 1, 0) == ([B[3 := Some(0)]], B);
    assert Run(pk, A, 3, 3, 0) == ([], A) by {
      assert A[3] == None && pk[3] < 3;
      assert Run(pk, A[3 := Some(0)], 4, 2, 0) == ([], A[3 := Some(0)]);
      assert A[3 := Some(0)][3 := None] == A;
      assert Run(pk, A, 4, 3, 0) == ([], A);
      var none: seq<seq<Option<int>>> := [];
      assert none + none == none;
    }
    assert B[2 := None] == A;
    assert Run(pk, A, 2, 3, 0) == ([B[3 := Some(0)]], A);
    assert A[1] == None && pk[1] == 3;
    assert Run(pk, A, 1, 3, 0) == ([A[1 := Some(0)]] + [B[3 := Some(0)]], A);
  }

  /** Without 5, nothing among 3, 2 and 1 makes 8. */
  lemma EightWithoutFive(L: seq<Option<int>>)
    requires L == [None, None, None, None]
    ensures Run([5, 3, 2, 1], L, 1, 8, 0) == ([], L)
  {
    var pk: seq<nat> := [5, 3, 2, 1];
    var C := L[1 := Some(0)];
    var D := C[2 := Some(0)];
    assert |pk| == 4 && pk[3] == 1 && D[3] == None;
    var none: seq<seq<Option<int>>> := [];
    assert none + none == none;
    assert Run(pk, D, 3, 3, 0) == ([], D) by {
      assert Run(pk, D[3 := Some(0)], 4, 2, 0).1[3 := None] == D;
    }
    assert D[2 := None] == C;
    assert Run(pk, C, 3, 5, 0) == ([], C) by {
      assert Run(pk, C[3 := Some(0)], 4, 4, 0).1[3 := None] == C;
    }
    assert Run(pk, C, 2, 5, 0) == ([], C);
    assert C[1 := None] == L;
    var E := L[2 := Some(0)];
    assert Run(pk, E, 3, 6, 0) == ([], E) by {
      assert Run(pk, E[3 := Some(0)], 4, 5, 0).1[3 := None] == E;
    }
    assert E[2 := None] == L;
    assert Run(pk, L, 3, 8, 0) == ([], L) by {
      assert Run(pk, L[3 := Some(0)], 4, 7, 0).1[3 := None] == L;
    }
    assert Run(pk, L, 2, 8, 0) == ([], L);
    assert Run(pk, L, 1, 8, 0) == ([], L);
  }

  /** Weight 6: 5 and 1, then 3, 2 and 1, then nothing; the layout is left
      empty. */
  lemma ExampleSix(L: seq<Option<int>>)
    requires L == [None, None, None, None]
    ensures Run([5, 3, 2, 1], L, 0, 6, 0)
      == ([[Some(0), None, None, Some(0)], [None, Some(0), Some(0), Some(0)]], L)
  {
    var pk: seq<nat> := [5, 3, 2, 1];
    var A := L[0 := Some(0)];
    SixWithFive(L);
    SixWithoutFive(L);
    assert Run(pk, A, 1, 1, 0) == ([A[3 := Some(0)]], A);
    assert A[0 := None] == L;
    assert Run(pk, L, 1, 6, 0) == ([[None, Some(0), Some(0), Some(0)]], L);
    assert L[0] == None && pk[0] == 5;
    var sols := [A[3 := Some(0)]] + [[None, Some(0), Some(0), Some(0)]];
    assert Run(pk, L, 0, 6, 0) == (sols, L);
    assert A[3 := Some(0)] == [Some(0), None, None, Some(0)];
    assert sols == [[Some(0), None, None, Some(0)], [None, Some(0), Some(0), Some(0)]];
  }

  /** `collect` on the iterator: every layout it yields, in order, until
      it runs out. */
  method Collect<C(==)>(it: Iter<C>) returns (solutions: seq<seq<Option<C>>>)
    requires it.Valid()
    modifies it.generator.inner.Repr, it.generator.inner.layout
    ensures it.Valid() && solutions == old(it.Remaining()) && it.Remaining() == []
  {
    ghost var all := it.Remaining();
    solutions := [];
    var o := it.Next();
    while o.Some?
      invariant it.Valid() && it.generator.inner.layout == old(it.generator.inner.layout)
      invariant fresh(it.generator.inner.Repr - old(it.generator.inner.Repr))
      invariant solutions + (if o.Some? then [o.value] else []) + it.Remaining() == all
      invariant o.None? ==> it.Remaining() == []
      decreases |it.Remaining()| + (if o.Some? then 1 else 0)
    {
      solutions := solutions + [o.value];
      o := it.Next();
    }
  }

  /** `test_iteration_6`: a generator over 5, 3, 2, 1 for weight 6 on an
      empty layout, its iterator for compartment 0 collected, yields 5 with
      1, then 3, 2 and 1. */
  method IterationSix() returns (solutions: seq<seq<Option<int>>>)
    ensures solutions == [[Some(0), None, None, Some(0)], [None, Some(0), Some(0), Some(0)]]
  {
    var layout := new Option<int>[4](_ => None);
    assert layout[..] == [None, None, None, None];
    ExampleSix(layout[..]);
    var r := BoundedPermutationGenerator.New([5, 3, 2, 1], layout, 6);
    var it := new Iter(r.value, 0);
    solutions := Collect(it);
  }

  /** With 5 tagged, the remaining 1 is made by 1 alone. */
  lemma SixWithFive(L: seq<Option<int>>)
    requires L == [None, None, None, None]
    ensures var A := L[0 := Some(0)];
      Run([5, 3, 2, 1], A, 1, 1, 0) == ([A[3 := Some(0)]], A)
  {
    var pk: seq<nat> := [5, 3, 2, 1];
    var A := L[0 := Some(0)];
    assert |pk| == 4 && pk[3] == 1 && A[3] == None;
    assert Run(pk, A, 4, 1, 0) == ([], A);
    assert [A[3 := Some(0)]] + [] == [A[3 := Some(0)]];
    assert Run(pk, A, 3, 1, 0) == ([A[3 := Some(0)]], A);
    assert A[2] == None && pk[2] == 2;
    assert Run(pk, A, 2, 1, 0) == ([A[3 := Some(0)]], A);
    assert A[1] == None && pk[1] == 3;
  }

  /** Without 5, 3, 2 and 1 make 6, and nothing else among them does. */
  lemma SixWithoutFive(L: seq<Option<int>>)
    requires L == [None, None, None, None]
    ensures Run([5, 3, 2, 1], L, 1, 6, 0) == ([[None, Some(0), Some(0), Some(0)]], L)
  {
    var pk: seq<nat> := [5, 3, 2, 1];
    var C := L[1 := Some(0)];
    var D := C[2 := Some(0)];
    assert |pk| == 4 && pk[3] == 1 && D[3] == None;
    var none: seq<seq<Option<int>>> := [];
    assert none + none == none;
    assert Run(pk, D, 4, 1, 0) == ([], D);
    assert [D[3 := Some(0)]] + none == [D[3 := Some(0)]];
    assert Run(pk, D, 3, 1, 0) == ([D[3 := Some(0)]], D);
    assert D[2 := None] == C;
    assert Run(pk, C, 3, 3, 0) == ([], C) by {
      assert Run(pk, C[3 := Some(0)], 4, 2, 0).1[3 := None] == C;
    }
    assert [D[3 := Some(0)]] + none == [D[3 := Some(0)]];
    assert Run(pk, C, 2, 3, 0) == ([D[3 := Some(0)]], C);
    assert C[1 := None] == L;
    var E := L[2 := Some(0)];
    assert Run(pk, E, 3, 4, 0) == ([], E) by {
      assert Run(pk, E[3 := Some(0)], 4, 3, 0).1[3 := None] == E;
    }
    assert E[2 := None] == L;
    assert Run(pk, L, 3, 6, 0) == ([], L) by {
      assert Run(pk, L[3 := Some(0)], 4, 5, 0).1[3 := None] == L;
    }
    assert Run(pk, L, 2, 6, 0) == ([], L);
    assert D[3 := Some(0)] == [None, Some(0), Some(0), Some(0)];
    assert Run(pk, L, 1, 6, 0) == ([D[3 := Some(0)]] + none, L);
  }

  /** A layout left holding compartment 0 on the 5 is kept by a generator
      for compartment 1 at weight 5, whose one layout adds 3 and 2; after
      it that generator yields nothing. */
  lemma ExampleExistingData(L: seq<Option<int>>, E: seq<Option<int>>)
    requires E == [None, None, None, None] && L == E[0 := Some(0)]
    ensures Run([5, 3, 2, 1], E, 0, 5, 0).0[0] == L
    ensures Run([5, 3, 2, 1], L, 0, 5, 1).0 == [[Some(0), Some(1), Some(1), None]]
  {
    var pk: seq<nat> := [5, 3, 2, 1];
    var A := L[1 := Some(1)];
    ThreeWithFive(L, A);
    WithoutThree(L);
    assert A[1 := None] == L;
    var R := Run(pk, L, 2, 5, 1);
    assert Run(pk, L, 1, 5, 1).0 == [A[2 := Some(1)]] + R.0;
    assert Run(pk, L, 0, 5, 1) == Run(pk, L, 1, 5, 1);
    assert A[2 := Some(1)] == [Some(0), Some(1), Some(1), None];
  }

  /** With the 3 tagged for compartment 1, only the 2 makes up the
      weight, and the layout comes back as it was. */
  lemma ThreeWithFive(L: seq<Option<int>>, A: seq<Option<int>>)
    requires L == [Some(0), None, None, None] && A == L[1 := Some(1)]
    ensures Run([5, 3, 2, 1], A, 2, 2, 1) == ([A[2 := Some(1)]], A)
  {
    var pk: seq<nat> := [5, 3, 2, 1];
    var D := A[3 := Some(1)];
    assert A[3] == None && pk[3] < 2;
    assert Run(pk, D, 4, 1, 1) == ([], D);
    assert D[3 := None] == A;
    assert Run(pk, A, 4, 2, 1) == ([], A);
    assert Run(pk, A, 3, 2, 1) == ([] + [], A);
    assert A[2] == None && pk[2] == 2;
    var R := Run(pk, A, 3, 2, 1);
    assert Run(pk, A, 2, 2, 1) == ([A[2 := Some(1)]] + R.0, R.1);
    assert [A[2 := Some(1)]] + R.0 == [A[2 := Some(1)]];
  }

  /** Without the 3, nothing among 2 and 1 makes 5. */
  lemma WithoutThree(L: seq<Option<int>>)
    requires L == [Some(0), None, None, None]
    ensures Run([5, 3, 2, 1], L, 2, 5, 1).0 == []
  {
    var pk: seq<nat> := [5, 3, 2, 1];
    var B := L[2 := Some(1)];
    assert Run(pk, B, 3, 3, 1).0 == [];
    var F := Run(pk, B, 3, 3, 1).1;
    assert Run(pk, F[2 := None], 3, 5, 1).0 == [];
  }

  /** `packages.windows(2).all(...)`. */
  method SortedDown(packages: seq<nat>) returns (b: bool)
    ensures b == NonIncreasing(packages)
  {
    b := true;
    var i := 1;
    while i < |packages|
      invariant 1 <= i <= |packages| || |packages| == 0
      invariant b == forall k :: 0 < k < i && k < |packages| ==> packages[k] <= packages[k - 1]
    {
      if packages[i] > packages[i - 1] {
        return false;
      }
      i := i + 1;
    }
  }
}
