// Day 19: how many distinct molecules one replacement makes. The
// `CountDistinct` extension puts every item an iterator yields into a hash
// set and answers the set's size.

module Day19Count {
  import opened Text
  import opened Day19

  /** The items of `xs`, each once. */
  function Distinct(xs: seq<string>): (r: set<string>)
    ensures forall x :: x in r <==> x in xs
  {
    set x | x in xs
  }

  /** Nothing yielded, nothing counted. */
  lemma DistinctEmpty()
    ensures |Distinct([])| == 0
  {
    assert Distinct([]) == {};
  }

  /** One more item adds itself, unless it was seen before. */
  lemma DistinctSnoc(xs: seq<string>, x: string)
    ensures Distinct(xs + [x]) == Distinct(xs) + {x}
    ensures x in xs ==> Distinct(xs + [x]) == Distinct(xs)
    ensures x !in xs ==> |Distinct(xs + [x])| == |Distinct(xs)| + 1
  {
    assert Distinct(xs + [x]) == Distinct(xs) + {x};
  }

  /** There are never more distinct items than items. */
  lemma {:induction false} DistinctBound(xs: seq<string>)
    ensures |Distinct(xs)| <= |xs|
    decreases |xs|
  {
    if xs != [] {
      var init := xs[..|xs| - 1];
      assert xs == init + [xs[|xs| - 1]];
      DistinctBound(init);
      DistinctSnoc(init, xs[|xs| - 1]);
    }
  }

  /** Every item different: each is counted. */
  lemma {:induction false} DistinctAllDifferent(xs: seq<string>)
    requires forall i, j :: 0 <= i < j < |xs| ==> xs[i] != xs[j]
    ensures |Distinct(xs)| == |xs|
    decreases |xs|
  {
    if xs != [] {
      var init := xs[..|xs| - 1];
      var x := xs[|xs| - 1];
      assert xs == init + [x];
      DistinctAllDifferent(init);
      forall i | 0 <= i < |init|
        ensures init[i] != x
      {
        assert init[i] == xs[i];
      }
      DistinctSnoc(init, x);
    }
  }

  /** `count_distinct` on a `TransformEnumerator`: it runs the enumerator
      to the end and answers how many different molecules it yielded. */
  method CountDistinct(te: TransformEnumerator) returns (n: nat)
    requires te.Valid()
    modifies te, te.ct
    ensures n == |Distinct(old(te.Remaining()))|
  {
    var items: set<string> := {};
    ghost var all := te.Remaining();
    ghost var seen: seq<string> := [];
    while true
      invariant te.Valid() && all == seen + te.Remaining()
      invariant items == Distinct(seen)
      invariant te.ct == old(te.ct) || fresh(te.ct)
      decreases |te.Remaining()|
    {
      ghost var rest := te.Remaining();
      var o := te.Next();
      if o.None? {
        assert seen == all;
        break;
      }
      Taken(all, seen, rest, o.value, te.Remaining());
      items := items + {o.value};
      seen := seen + [o.value];
    }
    n := |items|;
  }

  /** One more item taken from what was left. */
  lemma Taken(all: seq<string>, seen: seq<string>, rest: seq<string>, x: string, rest': seq<string>)
    requires all == seen + rest && rest != [] && x == rest[0] && rest' == rest[1..]
    ensures all == (seen + [x]) + rest'
    ensures Distinct(seen + [x]) == Distinct(seen) + {x}
  {
    assert rest == [x] + rest';
    DistinctSnoc(seen, x);
  }

  /** The count does not depend on the order in which the map gives its
      keys: both orders yield the same molecules. */
  lemma CountAnyOrder(m: map<string, seq<string>>, o1: seq<string>, o2: seq<string>, input: string)
    requires Listing(m, o1) && Listing(m, o2)
    ensures Distinct(Enumeration(m, o1, input)) == Distinct(Enumeration(m, o2, input))
  {
    forall x | x in Enumeration(m, o1, input)
      ensures x in Enumeration(m, o2, input)
    {
      EnumerationMember(m, o1, input, x);
      EnumerationMember(m, o2, input, x);
    }
    forall x | x in Enumeration(m, o2, input)
      ensures x in Enumeration(m, o1, input)
    {
      EnumerationMember(m, o1, input, x);
      EnumerationMember(m, o2, input, x);
    }
  }

  /** The molecules counted are exactly those some replacement makes. */
  lemma CountedMolecules(m: map<string, seq<string>>, order: seq<string>, input: string, x: string)
    requires Listing(m, order)
    ensures x in Distinct(Enumeration(m, order, input)) <==>
      exists from, to :: from in m && to in m[from] && x in Outputs(from, to, input)
  {
    EnumerationMember(m, order, input, x);
  }
}
