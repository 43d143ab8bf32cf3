// Day 24, `bounded_permutation_generator.rs`: the first form of the
// package generator. It walks packages sorted largest first and collects
// the picked ones in a queue shared by the whole chain of generators;
// every selection of the target weight comes out as a copy of the queue
// with its last package added.

module Day24Queue {
  import opened Text
  import opened Day24
  import Day24Layout

  /** The selections the generator yields from position `i`, for target
      `t`, with the queue holding `q`: a package heavier than the target is
      passed over, one of exactly the target completes a selection, and a
      lighter one is pushed while a child searches the rest; then the search
      goes on without it. */
  function Sols(pk: seq<nat>, q: seq<nat>, i: nat, t: nat): seq<seq<nat>>
    requires i <= |pk|
    decreases |pk| - i
  {
    if i == |pk| then []
    else if pk[i] > t then Sols(pk, q, i + 1, t)
    else if pk[i] == t then [q + [pk[i]]] + Sols(pk, q, i + 1, t)
    else Sols(pk, q + [pk[i]], i + 1, t - pk[i]) + Sols(pk, q, i + 1, t)
  }

  /** What `next_solution` yields as written: a package heavier than the
      target ends the search at that level for good (lines 88-94), though
      the packages after it are lighter. */
  function SolsAsWritten(pk: seq<nat>, q: seq<nat>, i: nat, t: nat): seq<seq<nat>>
    requires i <= |pk|
    decreases |pk| - i
  {
    if i == |pk| then []
    else if pk[i] > t then []
    else if pk[i] == t then [q + [pk[i]]] + SolsAsWritten(pk, q, i + 1, t)
    else SolsAsWritten(pk, q + [pk[i]], i + 1, t - pk[i]) + SolsAsWritten(pk, q, i + 1, t)
  }

  /** As written, 5, 3 and 1 give nothing for weight 4, though 3 and 1
      weigh 4; the corrected search finds them. */
  lemma BreakMissesSolution(pk: seq<nat>)
    requires pk == [5, 3, 1]
    ensures Day24Layout.NonIncreasing(pk)
    ensures SolsAsWritten(pk, [], 0, 4) == []
    ensures [3, 1] in Sols(pk, [], 0, 4)
  {
    assert |pk| == 3 && pk[1] == 3 && pk[2] == 1;
    assert [3] + [pk[2]] == [3, 1] && [] + [pk[1]] == [3];
    assert Sols(pk, [3], 3, 1) == [];
    assert Sols(pk, [3], 2, 1) == [[3, 1]] + [];
    assert Sols(pk, [], 1, 4) == Sols(pk, [3], 2, 1) + Sols(pk, [], 2, 4);
    assert SolsAsWritten(pk, [], 0, 4) == [];
  }

  /** Every selection yielded is the queue followed by packages picked in
      order from position `i` on, at least one, weighing the target. */
  lemma {:induction false} SolsSound(pk: seq<nat>, q: seq<nat>, i: nat, t: nat, s: seq<nat>)
    requires i <= |pk| && s in Sols(pk, q, i, t)
    ensures |s| > |q| && s[..|q|] == q
    ensures Sum(s[|q|..]) == t && Picks(s[|q|..], pk[i..])
    decreases |pk| - i
  {
    var m := pk[i..];
    assert m[1..] == pk[i + 1..];
    if pk[i] > t {
      SolsSound(pk, q, i + 1, t, s);
    } else if pk[i] == t && s == q + [pk[i]] {
      assert s[|q|..] == [pk[i]];
      assert Sum([pk[i]]) == pk[i] + Sum([]);
      assert Picks([pk[i]][1..], m[1..]);
    } else if pk[i] < t && s in Sols(pk, q + [pk[i]], i + 1, t - pk[i]) {
      SolsSound(pk, q + [pk[i]], i + 1, t - pk[i], s);
      var c := s[|q|..];
      assert c[0] == pk[i] && c[1..] == s[|q| + 1..];
    } else {
      SolsSound(pk, q, i + 1, t, s);
    }
  }

  /** With positive packages, the queue followed by any selection picked
      in order from position `i` on that weighs the (positive) target is
      yielded. */
  lemma {:induction false} SolsComplete(pk: seq<nat>, q: seq<nat>, i: nat, t: nat, c: seq<nat>)
    requires i <= |pk| && forall j :: 0 <= j < |pk| ==> pk[j] > 0
    requires c != [] && Picks(c, pk[i..]) && Sum(c) == t
    ensures q + c in Sols(pk, q, i, t)
    decreases |pk| - i
  {
    var m := pk[i..];
    assert m[1..] == pk[i + 1..];
    if Picks(c, m[1..]) {
      SolsComplete(pk, q, i + 1, t, c);
    } else {
      SumNonNegative(c[1..]);
      if pk[i] == t {
        if c[1..] != [] {
          PickedWeight(c[1..], m[1..]);
        }
        assert c == [pk[i]];
      } else {
        PickedWeight(c[1..], m[1..]);
        SolsComplete(pk, q + [pk[i]], i + 1, t - pk[i], c[1..]);
        assert q + [pk[i]] + c[1..] == q + c;
      }
    }
  }

  /** Packages picked from positive ones weigh something. */
  lemma PickedWeight(c: seq<nat>, m: seq<nat>)
    requires c != [] && Picks(c, m) && forall j :: 0 <= j < |m| ==> m[j] > 0
    ensures Sum(c) > 0
  {
    PicksBound(c, m, 1);
    SumNonNegative(c[1..]);
  }

  // ---------------------------------------------------------------------
  // The borrow held across the match

  datatype Outcome = Exhausted | Yield(selection: seq<nat>) | Panic

  /** The first `next_solution` on a fresh generator, as written: the
      `match` on `self.child.borrow()` (line 78) keeps the child borrowed
      through every arm, so the `self.child.replace` of a lighter package
      (line 109) finds it borrowed and panics. */
  function FirstCallAsWritten(pk: seq<nat>, t: nat): Outcome
  {
    if pk == [] || pk[0] > t then Exhausted
    else if pk[0] == t then Yield([pk[0]])
    else Panic
  }

  /** 3 and 1 for weight 4: as written the first call panics; the
      generator with the borrow ended before the child is replaced yields
      them. */
  lemma BorrowPanics(pk: seq<nat>)
    requires pk == [3, 1]
    ensures FirstCallAsWritten(pk, 4) == Panic
    ensures Sols(pk, [], 0, 4) == [[3, 1]]
  {
    assert |pk| == 2 && pk[0] == 3 && pk[1] == 1;
    assert [3] + [pk[1]] == [3, 1] && [] + [pk[0]] == [3] && [] + [pk[1]] == [1];
    assert Sols(pk, [3], 2, 1) == [] && Sols(pk, [1], 2, 3) == [] && Sols(pk, [], 2, 4) == [];
    assert Sols(pk, [3], 1, 1) == [[3, 1]] + [];
    assert Sols(pk, [], 1, 4) == [] + [];
    assert Sols(pk, [], 0, 4) == [[3, 1]] + [];
  }

  // ---------------------------------------------------------------------
  // The generator

  /** The queue the chain of generators shares. */
  class Queue {
    var items: seq<nat>

    constructor ()
      ensures items == []
    {
      items := [];
    }
  }

  class BoundedPermutationGenerator {
    var packages: seq<nat>
    var queue: Queue
    var packageIdx: nat
    var targetSum: nat
    var child: BoundedPermutationGenerator?
    /** What the queue held when this generator was made. */
    ghost var base: seq<nat>
    ghost var Repr: set<object>

    /** With no child the queue holds this generator's base; a child shares
        the packages and the queue, starts after this generator's package,
        with that package pushed and its weight taken off the target. */
    ghost predicate Valid()
      reads this, Repr, queue
      decreases Repr
    {
      this in Repr && packageIdx <= |packages|
      && (child == null ==> queue.items == base)
      && (child != null ==>
            child in Repr && child.Repr <= Repr && this !in child.Repr && child.queue == queue
            && child.Valid() && child.packages == packages
            && packageIdx < |packages| && packageIdx < child.packageIdx
            && child.base == base + [packages[packageIdx]]
            && child.targetSum + packages[packageIdx] == targetSum)
    }

    /** The selections still to be yielded: the child's, then this
        generator's from the package after the child's. */
    ghost function Remaining(): seq<seq<nat>>
      reads this, Repr, queue
      requires Valid()
      decreases Repr
    {
      if child == null then Sols(packages, base, packageIdx, targetSum)
      else child.Remaining() + Sols(packages, base, packageIdx + 1, targetSum)
    }

    /** `new_rc`: a generator over packages sorted largest first, with a
        queue of its own, from the first package. */
    constructor NewRc(packages: seq<nat>, targetSum: nat)
      requires Day24Layout.NonIncreasing(packages)
      ensures Valid() && fresh(Repr) && fresh(queue)
      ensures Remaining() == Sols(packages, [], 0, targetSum)
    {
      this.packages := packages;
      queue := new Queue();
      packageIdx := 0;
      this.targetSum := targetSum;
      child := null;
      base := [];
      Repr := {this};
    }

    /** A generator sharing the queue, which holds `base`. */
    constructor Sharing(packages: seq<nat>, queue: Queue, packageIdx: nat, targetSum: nat, ghost base: seq<nat>)
      requires packageIdx <= |packages| && queue.items == base
      ensures Valid() && fresh(Repr) && child == null
      ensures this.packages == packages && this.queue == queue && this.packageIdx == packageIdx
      ensures this.targetSum == targetSum && this.base == base
    {
      this.packages := packages;
      this.queue := queue;
      this.packageIdx := packageIdx;
      this.targetSum := targetSum;
      child := null;
      this.base := base;
      Repr := {this};
    }

    /** `child`: a generator for the rest of the target after the current
        package, from the next package, sharing packages and queue. */
    method Child() returns (c: BoundedPermutationGenerator)
      requires packageIdx < |packages| && packages[packageIdx] < targetSum
      requires queue.items == base + [packages[packageIdx]]
      ensures fresh(c) && fresh(c.Repr) && c.Valid() && c.child == null
      ensures c.packages == packages && c.queue == queue && c.packageIdx == packageIdx + 1
      ensures c.targetSum == targetSum - packages[packageIdx] && c.base == base + [packages[packageIdx]]
    {
      c := new BoundedPermutationGenerator.Sharing(packages, queue, packageIdx + 1,
        targetSum - packages[packageIdx], base + [packages[packageIdx]]);
    }

    ghost function Phase(): nat
      reads this
    {
      if child != null then 0 else 1
    }

    /** `next_solution`: the next selection of the target weight, or
        `None` once there is none. A package heavier than the target is
        passed over (the source stops there, see `SolsAsWritten`), and the
        child is replaced only once the borrow of the `match` has ended
        (the source panics there, see `FirstCallAsWritten`). */
    method NextSolution() returns (solution: Option<seq<nat>>)
      requires Valid()
      modifies Repr, queue
      ensures Valid() && fresh(Repr - old(Repr))
      ensures packages == old(packages) && queue == old(queue) && base == old(base)
      ensures targetSum == old(targetSum) && old(packageIdx) <= packageIdx
      ensures old(Remaining()) == [] ==> solution == None && Remaining() == []
      ensures old(Remaining()) != [] ==> solution == Some(old(Remaining())[0]) && Remaining() == old(Remaining())[1..]
      ensures solution.None? ==> child == null
      decreases |packages| - packageIdx, 1
    {
      solution := None;
      while solution.None?
        invariant Valid() && fresh(Repr - old(Repr))
        invariant packages == old(packages) && queue == old(queue) && base == old(base)
        invariant targetSum == old(targetSum) && old(packageIdx) <= packageIdx
        invariant solution.None? ==> Remaining() == old(Remaining())
        invariant solution.Some? ==>
          old(Remaining()) != [] && solution == Some(old(Remaining())[0]) && Remaining() == old(Remaining())[1..]
        decreases |packages| - packageIdx, if solution.None? then 1 else 0, Phase()
      {
        if child == null {
          if packageIdx >= |packages| {
            break;
          }
          solution := Examine();
        } else {
          solution := Descend();
        }
      }
    }

    /** One round of the loop with no child. */
    method Examine() returns (solution: Option<seq<nat>>)
      requires Valid() && child == null && packageIdx < |packages|
      modifies this, queue
      ensures Valid() && fresh(Repr - old(Repr))
      ensures packages == old(packages) && queue == old(queue) && base == old(base) && targetSum == old(targetSum)
      ensures solution.None? ==> Remaining() == old(Remaining())
      ensures solution.None? ==> packageIdx == old(packageIdx) + 1 || (packageIdx == old(packageIdx) && child != null)
      ensures solution.Some? ==>
        old(Remaining()) != [] && solution == Some(old(Remaining())[0]) && Remaining() == old(Remaining())[1..]
        && packageIdx == old(packageIdx) + 1
    {
      solution := None;
      var package := packages[packageIdx];
      if package > targetSum {
        packageIdx := packageIdx + 1;
      } else if package == targetSum {
        solution := Some(queue.items + [package]);
        packageIdx := packageIdx + 1;
      } else {
        queue.items := queue.items + [package];
        var next := Child();
        child := next;
        Repr := Repr + next.Repr;
      }
    }

    /** One round of the loop with a child: its selections are passed on;
        once it has none it is dropped, its package popped and the index
        moved on. */
    method Descend() returns (solution: Option<seq<nat>>)
      requires Valid() && child != null
      modifies Repr, queue
      ensures Valid() && fresh(Repr - old(Repr))
      ensures packages == old(packages) && queue == old(queue) && base == old(base) && targetSum == old(targetSum)
      ensures solution.None? ==> Remaining() == old(Remaining()) && packageIdx == old(packageIdx) + 1
      ensures solution.Some? ==>
        old(Remaining()) != [] && solution == Some(old(Remaining())[0]) && Remaining() == old(Remaining())[1..]
        && packageIdx == old(packageIdx)
      decreases |packages| - packageIdx, 0
    {
      ghost var rest := Sols(packages, base, packageIdx + 1, targetSum);
      ghost var mine := child.Remaining();
      var inner := child.NextSolution();
      Repr := Repr + child.Repr;
      if inner.Some? {
        assert (mine + rest)[1..] == mine[1..] + rest;
        return inner;
      }
      assert mine + rest == rest;
      child := null;
      queue.items := queue.items[..|queue.items| - 1];
      packageIdx := packageIdx + 1;
      return None;
    }

    /** `Iterator::next`. */
    method Next() returns (o: Option<seq<nat>>)
      requires Valid()
      modifies Repr, queue
      ensures Valid()
      ensures old(Remaining()) == [] ==> o == None && Remaining() == []
      ensures old(Remaining()) != [] ==> o == Some(old(Remaining())[0]) && Remaining() == old(Remaining())[1..]
    {
      o := NextSolution();
    }
  }
}
