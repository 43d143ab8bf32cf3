// Day 17: the ways of pouring the eggnog into containers so that the chosen
// containers are filled exactly. `EggnogFiller` is an iterator that yields
// the combinations one at a time; it keeps a chain of sub-iterators, each
// filling what is left once the current biggest container is chosen.

module Day17 {
  import opened Text
  import opened Permutations

  // ---------------------------------------------------------------------
  // The combinations, in the order the iterator yields them

  /** The combinations of the containers `s` that hold `from` exactly, in
      the iterator's order: those with the first container (when it fits)
      before those without it. A container exactly the size of `from` is a
      combination on its own; none is looked for after it. */
  function Combos(from: nat, s: seq<nat>): seq<seq<nat>>
    decreases |s|
  {
    if s == [] then []
    else
      var e := s[0];
      (if e > from then [] else if e == from then [[e]] else Prefix(e, Combos(from - e, s[1..])))
      + Combos(from, s[1..])
  }

  /** `c` picks some of the positions of `s`, keeping their order. */
  predicate Picks(c: seq<nat>, s: seq<nat>)
    decreases |s|
  {
    if c == [] then true
    else if s == [] then false
    else (c[0] == s[0] && Picks(c[1..], s[1..])) || Picks(c, s[1..])
  }

  predicate NonIncreasing(s: seq<nat>)
  {
    forall i, j :: 0 <= i < j < |s| ==> s[i] >= s[j]
  }

  lemma InPrefix(x: nat, ps: seq<seq<nat>>, c: seq<nat>)
    requires c in Prefix(x, ps)
    ensures c != [] && c[0] == x && c[1..] in ps
  {
    var k :| 0 <= k < |ps| && Prefix(x, ps)[k] == c;
    assert c[1..] == ps[k];
  }

  lemma PrefixHas(x: nat, ps: seq<seq<nat>>, c: seq<nat>)
    requires c in ps
    ensures [x] + c in Prefix(x, ps)
  {
    var k :| 0 <= k < |ps| && ps[k] == c;
    assert Prefix(x, ps)[k] == [x] + c;
  }

  /** Every combination is non-empty, fills `from` exactly, and picks
      positions of `s`. */
  lemma {:induction false} CombosSound(from: nat, s: seq<nat>, c: seq<nat>)
    requires c in Combos(from, s)
    ensures c != [] && Sum(c) == from && Picks(c, s)
    decreases |s|
  {
    var e := s[0];
    var with := if e > from then [] else if e == from then [[e]] else Prefix(e, Combos(from - e, s[1..]));
    if c in with {
      if e == from {
        assert c == [e] && c[1..] == [];
      } else {
        InPrefix(e, Combos(from - e, s[1..]), c);
        CombosSound(from - e, s[1..], c[1..]);
      }
    } else {
      assert c in Combos(from, s[1..]);
      CombosSound(from, s[1..], c);
      PicksSkip(c, s);
    }
  }

  lemma PicksSkip(c: seq<nat>, s: seq<nat>)
    requires s != [] && Picks(c, s[1..])
    ensures Picks(c, s)
  {
  }

  /** A pick from a non-increasing list is non-increasing, and its first
      element is no bigger than the list's first. */
  lemma {:induction false} PicksNonIncreasing(c: seq<nat>, s: seq<nat>)
    requires Picks(c, s) && NonIncreasing(s)
    ensures NonIncreasing(c)
    ensures c != [] ==> s != [] && c[0] <= s[0]
    decreases |s|
  {
    if c != [] {
      assert NonIncreasing(s[1..]);
      if c[0] == s[0] && Picks(c[1..], s[1..]) {
        PicksNonIncreasing(c[1..], s[1..]);
        if |c| > 1 {
          PicksElement(c[1..], s[1..], 0);
        }
        forall i, j | 0 <= i < j < |c|
          ensures c[i] >= c[j]
        {
          if i == 0 {
            PicksElement(c[1..], s[1..], j - 1);
          } else {
            assert c[i] == c[1..][i - 1] && c[j] == c[1..][j - 1];
          }
        }
      } else {
        PicksNonIncreasing(c, s[1..]);
      }
    }
  }

  /** Every element of a pick from a non-increasing list is no bigger than
      the list's first. */
  lemma {:induction false} PicksElement(c: seq<nat>, s: seq<nat>, k: nat)
    requires Picks(c, s) && k < |c|
    ensures s != [] && c[k] <= Max(s)
    decreases |s|
  {
    if c[0] == s[0] && Picks(c[1..], s[1..]) {
      if k > 0 {
        PicksElement(c[1..], s[1..], k - 1);
        assert c[k] == c[1..][k - 1];
      }
    } else {
      PicksElement(c, s[1..], k);
    }
  }

  /** The largest element of a non-empty list. */
  function Max(s: seq<nat>): (m: nat)
    requires s != []
    ensures m in s && forall i :: 0 <= i < |s| ==> s[i] <= m
  {
    if |s| == 1 then s[0]
    else
      var rest := Max(s[1..]);
      assert forall i :: 1 <= i < |s| ==> s[i] == s[1..][i - 1];
      if s[0] >= rest then s[0] else rest
  }

  /** From a non-increasing list every combination is non-increasing too. */
  lemma CombosNonIncreasing(from: nat, s: seq<nat>, c: seq<nat>)
    requires NonIncreasing(s) && c in Combos(from, s)
    ensures NonIncreasing(c)
  {
    CombosSound(from, s, c);
    PicksNonIncreasing(c, s);
  }

  /** With containers that all hold something, every non-empty pick that
      fills `from` is among the combinations. */
  lemma {:induction false} CombosComplete(from: nat, s: seq<nat>, c: seq<nat>)
    requires forall i :: 0 <= i < |s| ==> s[i] > 0
    requires c != [] && Picks(c, s) && Sum(c) == from
    ensures c in Combos(from, s)
    decreases |s|, 1
  {
    if c[0] == s[0] && Picks(c[1..], s[1..]) {
      CompleteWithFirst(from, s, c);
    } else {
      CompleteWithoutFirst(from, s, c);
    }
  }

  lemma {:induction false} CompleteWithFirst(from: nat, s: seq<nat>, c: seq<nat>)
    requires forall i :: 0 <= i < |s| ==> s[i] > 0
    requires c != [] && s != [] && c[0] == s[0] && Picks(c[1..], s[1..]) && Sum(c) == from
    ensures c in Combos(from, s)
    decreases |s|, 0
  {
    var e := s[0];
    TailPositive(s);
    PicksPositive(c[1..], s[1..]);
    SumPositive(c[1..]);
    if c[1..] == [] {
      assert c == [e];
    } else {
      CombosComplete(from - e, s[1..], c[1..]);
      PrefixHas(e, Combos(from - e, s[1..]), c[1..]);
      assert c == [e] + c[1..];
    }
  }

  lemma {:induction false} CompleteWithoutFirst(from: nat, s: seq<nat>, c: seq<nat>)
    requires forall i :: 0 <= i < |s| ==> s[i] > 0
    requires c != [] && s != [] && Picks(c, s[1..]) && Sum(c) == from
    ensures c in Combos(from, s)
    decreases |s|, 0
  {
    TailPositive(s);
    CombosComplete(from, s[1..], c);
  }

  lemma TailPositive(s: seq<nat>)
    requires s != [] && forall i :: 0 <= i < |s| ==> s[i] > 0
    ensures forall i :: 0 <= i < |s[1..]| ==> s[1..][i] > 0
  {
  }

  lemma {:induction false} PicksPositive(c: seq<nat>, s: seq<nat>)
    requires Picks(c, s) && forall i :: 0 <= i < |s| ==> s[i] > 0
    ensures forall i :: 0 <= i < |c| ==> c[i] > 0
    decreases |s|
  {
    if c != [] {
      assert forall i :: 0 <= i < |s| - 1 ==> s[1..][i] == s[i + 1];
      if c[0] == s[0] && Picks(c[1..], s[1..]) {
        PicksPositive(c[1..], s[1..]);
        assert forall i :: 1 <= i < |c| ==> c[i] == c[1..][i - 1];
      } else {
        PicksPositive(c, s[1..]);
      }
    }
  }

  lemma {:induction false} SumPositive(c: seq<nat>)
    requires forall i :: 0 <= i < |c| ==> c[i] > 0
    ensures c != [] <==> Sum(c) > 0
    ensures Sum(c) >= 0
    decreases |c|
  {
    if c != [] {
      assert forall i :: 0 <= i < |c| - 1 ==> c[1..][i] == c[i + 1];
      SumPositive(c[1..]);
    }
  }

  // ---------------------------------------------------------------------
  // Sorting, largest first

  /** A value no smaller than the head of a non-increasing list can go in
      front of it. */
  lemma ConsNonIncreasing(a: nat, r: seq<nat>)
    requires NonIncreasing(r) && (r != [] ==> a >= r[0])
    ensures NonIncreasing([a] + r)
  {
    forall i, j | 0 <= i < j < |[a] + r|
      ensures ([a] + r)[i] >= ([a] + r)[j]
    {
      if i == 0 && j > 1 {
        assert r[0] >= r[j - 1];
      }
    }
  }

  function InsertDescending(s: seq<nat>, x: nat): (r: seq<nat>)
    requires NonIncreasing(s)
    ensures multiset(r) == multiset(s) + multiset{x}
    ensures NonIncreasing(r)
    ensures r[0] == x || (s != [] && r[0] == s[0])
    decreases |s|
  {
    if s == [] || x >= s[0] then
      ConsNonIncreasing(x, s);
      [x] + s
    else
      assert NonIncreasing(s[1..]);
      var rest := InsertDescending(s[1..], x);
      assert s == [s[0]] + s[1..];
      assert |s| > 1 ==> s[0] >= s[1] && s[1..][0] == s[1];
      ConsNonIncreasing(s[0], rest);
      [s[0]] + rest
  }

  /** `into.sort(); into.reverse()`: the containers, largest first. */
  function SortDescending(s: seq<nat>): (r: seq<nat>)
    ensures NonIncreasing(r) && multiset(r) == multiset(s)
    decreases |s|
  {
    if s == [] then []
    else
      assert s == s[..|s| - 1] + [s[|s| - 1]];
      InsertDescending(SortDescending(s[..|s| - 1]), s[|s| - 1])
  }

  /** Whatever a non-increasing list holds is no bigger than its head. */
  lemma HeadIsLargest(b: seq<nat>, x: nat)
    requires NonIncreasing(b) && x in multiset(b)
    ensures b != [] && x <= b[0]
  {
    var i :| 0 <= i < |b| && b[i] == x;
  }

  lemma TailMultiset(a: seq<nat>)
    requires a != []
    ensures multiset(a[1..]) == multiset(a) - multiset{a[0]}
  {
    assert a == [a[0]] + a[1..];
  }

  lemma TailNonIncreasing(a: seq<nat>)
    requires a != [] && NonIncreasing(a)
    ensures NonIncreasing(a[1..])
  {
  }

  /** Two non-increasing orders of a multiset start alike, and what
      follows is again two non-increasing orders of one multiset. */
  lemma SameHead(a: seq<nat>, b: seq<nat>)
    requires NonIncreasing(a) && NonIncreasing(b) && multiset(a) == multiset(b) && a != []
    ensures b != [] && a[0] == b[0]
    ensures NonIncreasing(a[1..]) && NonIncreasing(b[1..]) && multiset(a[1..]) == multiset(b[1..])
  {
    HeadIsLargest(b, a[0]);
    HeadIsLargest(a, b[0]);
    TailMultiset(a);
    TailMultiset(b);
    TailNonIncreasing(a);
    TailNonIncreasing(b);
  }

  lemma ConsEqual(a: seq<nat>, b: seq<nat>)
    requires a != [] && b != [] && a[0] == b[0] && a[1..] == b[1..]
    ensures a == b
  {
    assert a == [a[0]] + a[1..] && b == [b[0]] + b[1..];
  }

  /** A multiset has one non-increasing order. */
  lemma {:induction false} DescendingUnique(a: seq<nat>, b: seq<nat>)
    requires NonIncreasing(a) && NonIncreasing(b) && multiset(a) == multiset(b)
    ensures a == b
    decreases |a|
  {
    if a != [] {
      SameHead(a, b);
      DescendingUnique(a[1..], b[1..]);
      ConsEqual(a, b);
    }
  }

  /** Sorting forgets the order it was given. */
  lemma SortForgetsOrder(a: seq<nat>, b: seq<nat>)
    requires multiset(a) == multiset(b)
    ensures SortDescending(a) == SortDescending(b)
  {
    DescendingUnique(SortDescending(a), SortDescending(b));
  }

  // ---------------------------------------------------------------------
  // The iterator

  class EggnogFiller {
    var from: nat
    var into: seq<nat>
    var biggest: nat
    var recursor: EggnogFiller?
    var preserveBiggest: bool
    ghost var Repr: set<object>

    /** A sub-iterator exactly while the biggest container is kept; it is
        never over more containers than this one. */
    ghost predicate Valid()
      reads this, Repr
      decreases Repr
    {
      this in Repr
      && (preserveBiggest <==> recursor != null)
      && (preserveBiggest ==> |into| > 0)
      && (recursor != null ==>
            recursor in Repr && recursor.Repr <= Repr && this !in recursor.Repr
            && recursor.Valid() && |recursor.into| <= |into|)
    }

    /** The length of the chain of sub-iterators. */
    ghost function Depth(): nat
      reads this, Repr
      requires Valid()
      decreases Repr
    {
      if recursor == null then 0 else 1 + recursor.Depth()
    }

    /** The combinations still to be yielded: the rest of the
        sub-iterator's, each after the kept biggest container, then those of
        the containers not yet tried. */
    ghost function Remaining(): seq<seq<nat>>
      reads this, Repr
      requires Valid()
      decreases Repr
    {
      if recursor == null then Combos(from, into)
      else Prefix(biggest, recursor.Remaining()) + Combos(from, into)
    }

    /** `EggnogFiller::new_given_sorted`. */
    constructor GivenSorted(from: nat, into: seq<nat>)
      ensures Valid() && fresh(Repr)
      ensures this.from == from && this.into == into && recursor == null
      ensures Remaining() == Combos(from, into)
    {
      this.from := from;
      this.into := into;
      biggest := 0;
      recursor := null;
      preserveBiggest := false;
      Repr := {this};
    }

    /** `EggnogFiller::new`: the containers are sorted largest first. */
    constructor New(from: nat, into: seq<nat>)
      ensures Valid() && fresh(Repr)
      ensures this.from == from && this.into == SortDescending(into)
      ensures Remaining() == Combos(from, SortDescending(into))
    {
      this.from := from;
      this.into := SortDescending(into);
      biggest := 0;
      recursor := null;
      preserveBiggest := false;
      Repr := {this};
    }

    /** `Iterator::next`: the next combination, or `None` once they are
        all yielded. */
    method Next() returns (o: Option<seq<nat>>)
      requires Valid()
      modifies Repr
      ensures Valid() && fresh(Repr - old(Repr))
      ensures |into| <= old(|into|)
      ensures old(Remaining()) == [] ==> o == None && Remaining() == []
      ensures old(Remaining()) != [] ==> o == Some(old(Remaining())[0]) && Remaining() == old(Remaining())[1..]
      decreases |into|, Depth(), 3
    {
      if |into| == 0 {
        return None;
      }
      if !preserveBiggest {
        o := Restart();
        return;
      }
      o := Descend();
    }

    /** The part of `next` that runs when no biggest container is kept: a
        new biggest is taken; exactly what is left, it is yielded alone;
        smaller, a sub-iterator is started for what it leaves. */
    method Restart() returns (o: Option<seq<nat>>)
      requires Valid() && recursor == null && |into| > 0
      modifies Repr
      ensures Valid() && fresh(Repr - old(Repr))
      ensures |into| <= old(|into|)
      ensures old(Remaining()) == [] ==> o == None && Remaining() == []
      ensures old(Remaining()) != [] ==> o == Some(old(Remaining())[0]) && Remaining() == old(Remaining())[1..]
      decreases |into|, Depth(), 2
    {
      var more;
      o, more := Choose();
      if more {
        o := Descend();
      }
    }

    /** Takes the new biggest container. Unless that settles the call
        (`more` false, `o` its answer), a sub-iterator is started and the
        combinations still to come are unchanged. */
    method Choose() returns (o: Option<seq<nat>>, more: bool)
      requires Valid() && recursor == null && |into| > 0
      modifies this
      ensures Valid() && fresh(Repr - old(Repr)) && |into| < old(|into|) && from == old(from)
      ensures more ==> recursor != null && Remaining() == Combos(from, old(into))
      ensures !more ==> recursor == null
      ensures !more && Combos(from, old(into)) == [] ==> o == None && Combos(from, into) == []
      ensures !more && Combos(from, old(into)) != [] ==>
        o == Some(Combos(from, old(into))[0]) && Combos(from, into) == Combos(from, old(into))[1..]
    {
      var found := TakeBiggest();
      if !found {
        return None, false;
      }
      if biggest == from {
        CombosExact(from, into);
        return Some([biggest]), false;
      }
      CombosFits(from, biggest, into);
      if |into| == 0 {
        return None, false;
      }
      StartRecursor();
      return None, true;
    }

    /** The rest of `next` once the biggest container is kept: the
        sub-iterator's next combination after the biggest container, or,
        when it has none left, a fresh start from the next biggest. */
    method Descend() returns (o: Option<seq<nat>>)
      requires Valid() && recursor != null
      modifies Repr
      ensures Valid() && fresh(Repr - old(Repr))
      ensures |into| <= old(|into|)
      ensures old(Remaining()) == [] ==> o == None && Remaining() == []
      ensures old(Remaining()) != [] ==> o == Some(old(Remaining())[0]) && Remaining() == old(Remaining())[1..]
      decreases |into|, Depth(), 1
    {
      ghost var rest := recursor.Remaining();
      var sub := Advance();
      if sub.Some? {
        PrefixStep(biggest, rest, Combos(from, into));
        return Some([biggest] + sub.value);
      }
      o := MoveOn();
    }

    /** The sub-iterator has run out: it is dropped, and `next` starts again
        with the containers not yet tried. */
    method MoveOn() returns (o: Option<seq<nat>>)
      requires Valid() && recursor != null && recursor.Remaining() == []
      modifies Repr
      ensures Valid() && fresh(Repr - old(Repr))
      ensures |into| <= old(|into|)
      ensures old(Remaining()) == [] ==> o == None && Remaining() == []
      ensures old(Remaining()) != [] ==> o == Some(old(Remaining())[0]) && Remaining() == old(Remaining())[1..]
      decreases |into|, 0, 4
    {
      assert Remaining() == Combos(from, into);
      preserveBiggest := false;
      recursor := null;
      o := Next();
    }

    /** A sub-iterator is made for what is left once the biggest container
        is kept. */
    method StartRecursor()
      requires Valid() && recursor == null && |into| > 0 && biggest < from
      modifies this
      ensures Valid() && fresh(Repr - old(Repr)) && recursor != null && Depth() == 1
      ensures from == old(from) && into == old(into) && biggest == old(biggest)
      ensures Remaining() == Prefix(biggest, Combos(from - biggest, into)) + Combos(from, into)
    {
      preserveBiggest := true;
      var r := new EggnogFiller.GivenSorted(from - biggest, into);
      recursor := r;
      Repr := Repr + r.Repr;
    }

    /** The sub-iterator moves on by one combination. */
    method Advance() returns (sub: Option<seq<nat>>)
      requires Valid() && recursor != null
      modifies Repr
      ensures Valid() && fresh(Repr - old(Repr)) && recursor != null
      ensures from == old(from) && into == old(into) && biggest == old(biggest)
      ensures old(recursor.Remaining()) == [] ==> sub == None && recursor.Remaining() == []
      ensures old(recursor.Remaining()) != [] ==>
        sub == Some(old(recursor.Remaining())[0]) && recursor.Remaining() == old(recursor.Remaining())[1..]
      decreases |into|, Depth(), 0
    {
      sub := recursor.Next();
      Repr := Repr + recursor.Repr;
    }

    /** The first part of `next` when no biggest container is kept: the
        containers are taken from the front until one fits. Found, it is
        the biggest and the combinations are unchanged; not found, none is
        left. */
    method TakeBiggest() returns (found: bool)
      requires Valid() && recursor == null && |into| > 0
      modifies this
      ensures Valid() && Repr == old(Repr) && recursor == null && !preserveBiggest
      ensures from == old(from) && |into| < old(|into|)
      ensures found ==> biggest <= from && Combos(from, old(into)) == Combos(from, [biggest] + into)
      ensures !found ==> into == [] && Combos(from, old(into)) == []
    {
      biggest := into[0];
      into := into[1..];
      while biggest > from
        invariant Valid() && Repr == old(Repr) && recursor == null && !preserveBiggest
        invariant from == old(from) && |into| < old(|into|)
        invariant Combos(from, old(into)) == Combos(from, [biggest] + into)
        decreases |into|
      {
        CombosSkip(from, biggest, into);
        if |into| == 0 {
          return false;
        }
        biggest := into[0];
        into := into[1..];
      }
      return true;
    }
  }

  /** The first of the prefixed combinations, and what is left after it. */
  lemma PrefixStep(x: nat, ps: seq<seq<nat>>, rest: seq<seq<nat>>)
    requires ps != []
    ensures (Prefix(x, ps) + rest)[0] == [x] + ps[0]
    ensures (Prefix(x, ps) + rest)[1..] == Prefix(x, ps[1..]) + rest
  {
  }

  /** A container too big for what is left adds no combination. */
  lemma CombosSkip(from: nat, e: nat, s: seq<nat>)
    requires e > from
    ensures Combos(from, [e] + s) == Combos(from, s)
  {
    assert ([e] + s)[1..] == s;
  }

  /** A container exactly what is left is a combination on its own. */
  lemma CombosExact(from: nat, s: seq<nat>)
    ensures Combos(from, [from] + s) == [[from]] + Combos(from, s)
  {
    assert ([from] + s)[1..] == s;
  }

  /** A container smaller than what is left comes first in the
      combinations, then the rest go without it. */
  lemma CombosFits(from: nat, e: nat, s: seq<nat>)
    requires e < from
    ensures Combos(from, [e] + s) == Prefix(e, Combos(from - e, s)) + Combos(from, s)
  {
    assert ([e] + s)[1..] == s;
  }

  /** The containers of the iterator's tests, sorted. */
  lemma ExampleSorted(s: seq<nat>)
    requires multiset(s) == multiset([20, 15, 10, 5, 5])
    ensures SortDescending(s) == [20, 15, 10, 5, 5]
  {
    var sorted := [20, 15, 10, 5, 5];
    assert NonIncreasing(sorted);
    DescendingUnique(SortDescending(s), sorted);
  }

  /** The iterator's tests: 25 litres go into 20 and either 5, into 15
      and 10, or into 15 and both 5s, in that order. */
  lemma ExampleCombos(s: seq<nat>)
    requires s == [20, 15, 10, 5, 5]
    ensures Combos(25, s) == [[20, 5], [20, 5], [15, 10], [15, 5, 5]]
  {
    var rest := s[1..];
    assert rest == [15, 10, 5, 5];
    ExampleFive(rest);
    ExampleFifteen(rest);
    assert Combos(25, s) == Prefix(20, Combos(5, rest)) + Combos(25, rest);
    var p := Prefix(20, [[5], [5]]);
    assert [20] + [5] == [20, 5];
    assert p[0] == [20, 5] && p[1] == [20, 5];
  }

  /** 5 litres go into either 5. */
  lemma ExampleFive(s: seq<nat>)
    requires s == [15, 10, 5, 5]
    ensures Combos(5, s) == [[5], [5]]
  {
    assert s[1..] == [10, 5, 5] && s[2..] == [5, 5] && s[3..] == [5] && s[4..] == [];
    assert Combos(5, s[3..]) == [[5]];
    assert Combos(5, s[2..]) == [[5], [5]];
  }

  /** 10 litres go into 10, or into both 5s. */
  lemma ExampleTen(s: seq<nat>)
    requires s == [10, 5, 5]
    ensures Combos(10, s) == [[10], [5, 5]]
  {
    var two, one := s[1..], s[2..];
    assert two == [5, 5] && one == [5] && two[1..] == one;
    CombosShort(10, one);
    CombosExact(5, []);
    assert [5] + [] == one;
    assert Combos(10, two) == Prefix(5, Combos(5, one)) + Combos(10, one);
    assert [5] + [5] == [5, 5];
    assert Combos(10, s) == [[10]] + Combos(10, two);
  }

  /** A single container smaller than what is left holds none of it. */
  lemma CombosShort(from: nat, s: seq<nat>)
    requires |s| == 1 && s[0] < from
    ensures Combos(from, s) == []
  {
    assert Combos(from - s[0], s[1..]) == [];
  }

  /** 25 litres do not fit in 10, 5 and 5. */
  lemma ExampleNone(s: seq<nat>)
    requires s == [10, 5, 5]
    ensures Combos(25, s) == []
  {
    var two, one := s[1..], s[2..];
    assert two == [5, 5] && one == [5] && two[1..] == one;
    CombosShort(10, one);
    CombosShort(15, one);
    CombosShort(20, one);
    CombosShort(25, one);
    assert Combos(15, two) == Prefix(5, Combos(10, one)) + Combos(15, one);
    assert Combos(25, two) == Prefix(5, Combos(20, one)) + Combos(25, one);
  }

  /** Without 20, 25 litres go into 15 and 10, or into 15 and both 5s. */
  lemma ExampleFifteen(s: seq<nat>)
    requires s == [15, 10, 5, 5]
    ensures Combos(25, s) == [[15, 10], [15, 5, 5]]
  {
    var rest := s[1..];
    assert rest == [10, 5, 5];
    ExampleTen(rest);
    ExampleNone(rest);
    assert Combos(25, s) == Prefix(15, Combos(10, rest)) + Combos(25, rest);
    var p := Prefix(15, [[10], [5, 5]]);
    assert [15] + [10] == [15, 10] && [15] + [5, 5] == [15, 5, 5];
    assert p[0] == [15, 10] && p[1] == [15, 5, 5];
  }

  /** Five containers as a bag. */
  lemma Display5(a: nat, b: nat, c: nat, d: nat, e: nat)
    ensures multiset([a, b, c, d, e]) == multiset{a, b, c, d, e}
  {
  }

  /** The same four combinations whatever the order the containers are
      given in. */
  lemma ExampleReversed()
    ensures SortDescending([5, 5, 10, 15, 20]) == [20, 15, 10, 5, 5]
  {
    Display5(5, 5, 10, 15, 20);
    Display5(20, 15, 10, 5, 5);
    assert multiset{5, 5, 10, 15, 20} == multiset{20, 15, 10, 5, 5};
    ExampleSorted([5, 5, 10, 15, 20]);
  }

  lemma ExampleMunged()
    ensures SortDescending([5, 10, 20, 15, 5]) == [20, 15, 10, 5, 5]
  {
    Display5(5, 10, 20, 15, 5);
    Display5(20, 15, 10, 5, 5);
    assert multiset{5, 10, 20, 15, 5} == multiset{20, 15, 10, 5, 5};
    ExampleSorted([5, 10, 20, 15, 5]);
  }
}
