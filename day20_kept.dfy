// Day 20's `factorize` as its doc comment promises it: all factors of the
// number. Trial division in `factorize_prime` stops at the square root, so
// a prime factor above it is left over; keeping that prime as one more
// factor makes the prefix products of every ordering, with their
// complements, exactly the divisors, and the sieve's presents agree with
// the elves' deliveries at every house.

module Day20Kept {
  import opened Day20Primes
  import opened Day20
  import opened Day20Divisors
  import opened Day20Houses
  import opened Permutations

  /** `factorize_prime` with the prime left over after trial division
      kept as the last factor. */
  function FactorizePrimeKept(num: nat): seq<nat>
  {
    if num < 2 then FactorizePrimeOf(num)
    else FactorizePrimeOf(num) + (if Leftover(num) == 1 then [] else [Leftover(num)])
  }

  /** The factors kept are primes whose product is the number. */
  lemma FactorizePrimeKeptSound(num: nat)
    requires num >= 2
    ensures Product(FactorizePrimeKept(num)) == num
    ensures forall i :: 0 <= i < |FactorizePrimeKept(num)| ==> IsPrime(FactorizePrimeKept(num)[i])
  {
    KeptProduct(num);
    KeptPrimes(num);
  }

  lemma KeptProduct(num: nat)
    requires num >= 2
    ensures Product(FactorizePrimeKept(num)) == num
  {
    var pf, l := FactorizePrimeOf(num), Leftover(num);
    FactorizePrimeSound(num);
    var tail := if l == 1 then [] else [l];
    ProductAppend(pf, tail);
    assert Product(tail) == l by {
      if l != 1 {
        assert tail[1..] == [];
      }
    }
  }

  lemma KeptPrimes(num: nat)
    requires num >= 2
    ensures forall i :: 0 <= i < |FactorizePrimeKept(num)| ==> IsPrime(FactorizePrimeKept(num)[i])
  {
    var pf, l := FactorizePrimeOf(num), Leftover(num);
    FactorizePrimeSound(num);
    LeftoverPrime(num);
    var tail := if l == 1 then [] else [l];
    forall i | 0 <= i < |pf + tail|
      ensures IsPrime((pf + tail)[i])
    {
      if i < |pf| {
        assert (pf + tail)[i] in pf;
      }
    }
  }

  /** What the corrected `factorize` collects: the kept prime factors, the
      prefix products of their orderings and 1. */
  function CollectedKept(num: nat): set<nat>
  {
    var pf := FactorizePrimeKept(num);
    (set x | x in pf) + PrefixProducts(pf) + {1}
  }

  /** The corrected `factorize`, as a set: what was collected and the
      number divided by each of it. */
  function FactorSetKept(num: nat): set<nat>
  {
    var found := CollectedKept(num);
    found + set c | c in found && c >= 1 :: Complement(num, c)
  }

  /** Everything collected divides the number. */
  lemma CollectedKeptDivides(num: nat, d: nat)
    requires num >= 2 && d in CollectedKept(num)
    ensures d >= 1 && num % d == 0
  {
    var pf := FactorizePrimeKept(num);
    FactorizePrimeKeptSound(num);
    if d in pf {
      var i :| 0 <= i < |pf| && pf[i] == d;
      ElementDivides(pf, i, num);
    } else if d in PrefixProducts(pf) {
      var o, k :| o in Perms(pf) && |o| == |pf| && 2 <= k < |pf| && d == Product(o[..k]);
      PermsSound(pf, o);
      OrderingPrefixDivides(pf, o, k, num);
    }
  }

  /** Each factor divides the product. */
  lemma ElementDivides(pf: seq<nat>, i: nat, num: nat)
    requires i < |pf| && Product(pf) == num && num >= 1
    ensures pf[i] >= 1 && num % pf[i] == 0
  {
    ProductSplit(pf, i);
    FirstFactor(pf[i], Product(RemoveAt(pf, i)), num);
  }

  lemma FirstFactor(a: nat, b: nat, n: nat)
    requires a * b == n && n >= 1
    ensures a >= 1 && n % a == 0
  {
    Factor(b, a, n);
  }

  /** The product of the first `k` factors of a rearrangement divides the
      product. */
  lemma OrderingPrefixDivides(pf: seq<nat>, o: seq<nat>, k: nat, num: nat)
    requires multiset(o) == multiset(pf) && k <= |o| && Product(pf) == num && num >= 1
    ensures Product(o[..k]) >= 1 && num % Product(o[..k]) == 0
  {
    ProductPerm(o, pf);
    assert Product(o) * 1 == num;
    PrefixDivides(o, k, 1, num);
  }

  /** Every divisor is collected or the complement of something
      collected. */
  lemma DivisorKept(num: nat, d: nat)
    requires num >= 2 && d >= 1 && num % d == 0
    ensures d in FactorSetKept(num)
  {
    var pf := FactorizePrimeKept(num);
    FactorizePrimeKeptSound(num);
    var m, rest := DivisorSplit(pf, d);
    var o := m + rest;
    assert |o| == |pf| by {
      assert |multiset(o)| == |o| && |multiset(pf)| == |pf|;
    }
    if |m| == 0 {
      assert d == 1;
    } else if |m| == |pf| {
      assert rest == [] && o == m;
      ProductPerm(m, pf);
      assert 1 in CollectedKept(num) && num / 1 == d;
    } else if |m| == 1 {
      assert m[0] in multiset(o) by {
        assert o[0] == m[0];
      }
      assert m[0] in pf;
      ProductOne(m);
    } else {
      PermsComplete(pf, o);
      assert o[..|m|] == m;
      assert Product(o[..|m|]) in PrefixProducts(pf);
    }
  }

  lemma ProductOne(m: seq<nat>)
    requires |m| == 1
    ensures Product(m) == m[0]
  {
    assert m[1..] == [];
  }

  /** With the leftover prime kept, `factorize` lists exactly the
      divisors of every positive number. */
  lemma FactorSetKeptExactly(num: nat)
    requires num >= 1
    ensures FactorSetKept(num) == Divisors(num)
  {
    if num == 1 {
      assert FactorizePrimeKept(1) == [1];
      assert PrefixProducts([1]) == {};
      assert CollectedKept(1) == {1};
      forall d | d in Divisors(1)
        ensures d == 1
      {
        DivisorAtMost(1, d);
      }
    } else {
      var found := CollectedKept(num);
      forall d | d in FactorSetKept(num)
        ensures d in Divisors(num)
      {
        if d in found {
          CollectedKeptDivides(num, d);
        } else {
          var c :| c in found && c >= 1 && d == Complement(num, c);
          CollectedKeptDivides(num, c);
          ComplementDivides(num, c);
        }
        DivisorAtMost(num, d);
      }
      forall d | d in Divisors(num)
        ensures d in FactorSetKept(num)
      {
        DivisorKept(num, d);
      }
    }
  }

  /** With the leftover prime kept, `presents_at` gives every house the
      presents the elves deliver. */
  lemma PresentsKept(house: nat)
    requires house >= 1
    ensures 10 * SumBelow(FactorSetKept(house), house + 2) == Presents(house, 10, Unlimited)
  {
    FactorSetKeptExactly(house);
    SumBelowSkip(Divisors(house), house + 1, house + 2);
    PresentsAreDivisorSums(house);
  }

  /** House 28, where the sieve as written finds 450 presents, gets the
      560 the elves deliver. */
  lemma HouseTwentyEightKept()
    ensures 10 * SumBelow(FactorSetKept(28), 30) == 560
  {
    PresentsKept(28);
    HouseTwentyEightDelivered();
  }
}
