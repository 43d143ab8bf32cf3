// Day 20: when `factorize_prime` leaves nothing over, `factorize` lists
// every divisor. A divisor of a product of primes is the product of some of
// them (Euclid's lemma); putting those primes first gives an ordering whose
// prefix product is the divisor, and `factorize` collects the prefix
// products of every ordering.

module Day20Divisors {
  import opened Day20Primes
  import opened Day20
  import opened Permutations

  // ---------------------------------------------------------------------
  // Euclid's lemma

  lemma MulCancel(q: nat, x: int, y: int)
    requires q > 0 && q * x == q * y
    ensures x == y
  {
    if x < y {
      MulAway(q, y - x);
    } else if x > y {
      MulAway(q, x - y);
    }
  }

  /** A multiple of `p` leaves no remainder. */
  lemma Multiple(p: nat, m: int, n: nat)
    requires p > 0 && n == p * m
    ensures n % p == 0
  {
    if m < 0 {
      MulAway(p, m);
    }
    var k: nat := m;
    ModOfProduct(p, k);
  }

  /** The descent behind Euclid's lemma: if the prime `p` divides `r * b`
      for some `0 < r < p`, it divides `b`. Dividing `p` by `r` leaves a
      smaller remainder `t > 0` with `p` dividing `t * b` too. */
  lemma {:induction false} EuclidDescent(p: nat, r: nat, b: nat)
    requires IsPrime(p) && 0 < r < p && (r * b) % p == 0
    ensures b % p == 0
    decreases r
  {
    if r > 1 {
      var s, t := p / r, p % r;
      assert p == r * s + t;
      assert p % r != 0;
      var k := (r * b) / p;
      assert r * b == p * k;
      calc {
        t * b;
        (p - r * s) * b;
        p * b - s * (r * b);
        p * b - s * (p * k);
        p * (b - s * k);
      }
      Multiple(p, b - s * k, t * b);
      EuclidDescent(p, t, b);
    }
  }

  /** Euclid's lemma: a prime that divides a product divides one of its
      factors. */
  lemma Euclid(p: nat, a: nat, b: nat)
    requires IsPrime(p) && (a * b) % p == 0
    ensures a % p == 0 || b % p == 0
  {
    if a % p != 0 {
      var q, r := a / p, a % p;
      assert a == p * q + r;
      var k := (a * b) / p;
      assert a * b == p * k;
      calc {
        r * b;
        (a - p * q) * b;
        a * b - p * (q * b);
        p * (k - q * b);
      }
      Multiple(p, k - q * b, r * b);
      EuclidDescent(p, r, b);
    }
  }

  /** A prime factor of a number that is not prime. */
  lemma SomePrimeFactor(d: nat) returns (q: nat)
    requires d >= 2
    ensures IsPrime(q) && d % q == 0
  {
    if IsPrime(d) {
      q := d;
      ModOfProduct(d, 1);
    } else {
      q := LeastPrimeFactor(d);
    }
  }

  /** A prime that divides a prime is that prime. */
  lemma PrimeDividesPrime(q: nat, p: nat)
    requires IsPrime(q) && IsPrime(p) && p % q == 0
    ensures q == p
  {
    DivisorAtMost(p, q);
  }

  /** Taking the common factor `q` out of `d` and `x` keeps `d` dividing
      `p * x`. */
  lemma Reduce(p: nat, d: nat, x: nat, q: nat) returns (d': nat, x': nat)
    requires p >= 1 && d >= 1 && q >= 2 && d % q == 0 && x % q == 0 && (p * x) % d == 0
    requires d % p != 0
    ensures d == q * d' && x == q * x' && 1 <= d' < d && (p * x') % d' == 0
    ensures d' % p != 0
  {
    d', x' := d / q, x / q;
    assert d == q * d' && x == q * x';
    var k := (p * x) / d;
    assert p * x == d * k;
    assert q * (p * x') == q * (d' * k);
    MulCancel(q, p * x', d' * k);
    Multiple(d', k, p * x');
    MulAway(d', q - 1);
    if d' % p == 0 {
      Multiple(d', q, d);
      DivTrans(p, d', d);
    }
  }

  /** Multiplying both by `q` keeps divisibility. */
  lemma Grow(d: nat, x: nat, q: nat, d': nat, x': nat)
    requires d == q * d' && x == q * x' && d' >= 1 && q >= 1 && x' % d' == 0
    ensures x % d == 0
  {
    var j := x' / d';
    assert x' == d' * j;
    assert x == d * j;
    Multiple(d, j, x);
  }

  /** A divisor of `p * x` that the prime `p` does not divide divides `x`. */
  lemma {:induction false} CoprimeDivides(p: nat, d: nat, x: nat)
    requires IsPrime(p) && d >= 1 && d % p != 0 && (p * x) % d == 0
    ensures x % d == 0
    decreases d
  {
    if d == 1 {
      Multiple(1, x, x);
    } else {
      var q := SomePrimeFactor(d);
      DivTransMaybe(q, d, p * x);
      Euclid(q, p, x);
      if p % q == 0 {
        PrimeDividesPrime(q, p);
        assert false;
      }
      var d', x' := Reduce(p, d, x, q);
      CoprimeDivides(p, d', x');
      Grow(d, x, q, d', x');
    }
  }

  // ---------------------------------------------------------------------
  // Divisors of a product of primes

  /** A divisor of a product of primes is the product of some of them:
      `m` holds those, `rest` the others. */
  lemma {:induction false} DivisorSplit(pf: seq<nat>, d: nat) returns (m: seq<nat>, rest: seq<nat>)
    requires forall i :: 0 <= i < |pf| ==> IsPrime(pf[i])
    requires d >= 1 && Product(pf) % d == 0
    ensures multiset(m + rest) == multiset(pf) && Product(m) == d
    decreases |pf|
  {
    if pf == [] {
      DivisorAtMost(1, d);
      m, rest := [], [];
    } else {
      var p, tail := pf[0], pf[1..];
      var x := Product(tail);
      if d % p == 0 {
        DividedDivisor(p, d, x);
        var m', rest' := DivisorSplit(tail, d / p);
        m, rest := [p] + m', rest';
        TakeFirst(pf, d, m', rest');
      } else {
        CoprimeDivides(p, d, x);
        var m', rest' := DivisorSplit(tail, d);
        m, rest := m', [p] + rest';
        SkipFirst(pf, m', rest');
      }
    }
  }

  /** The first prime goes with the divisor. */
  lemma TakeFirst(pf: seq<nat>, d: nat, m': seq<nat>, rest': seq<nat>)
    requires pf != [] && pf[0] >= 1 && d % pf[0] == 0
    requires multiset(m' + rest') == multiset(pf[1..]) && Product(m') == d / pf[0]
    ensures multiset([pf[0]] + m' + rest') == multiset(pf) && Product([pf[0]] + m') == d
  {
    TakeFirstProduct(pf[0], d, m');
    assert pf == [pf[0]] + pf[1..];
    assert [pf[0]] + m' + rest' == [pf[0]] + (m' + rest');
  }

  lemma TakeFirstProduct(p: nat, d: nat, m': seq<nat>)
    requires p >= 1 && d % p == 0 && Product(m') == d / p
    ensures Product([p] + m') == d
  {
    assert ([p] + m')[1..] == m';
  }

  /** The first prime goes with the rest. */
  lemma SkipFirst(pf: seq<nat>, m': seq<nat>, rest': seq<nat>)
    requires pf != [] && multiset(m' + rest') == multiset(pf[1..])
    ensures multiset(m' + ([pf[0]] + rest')) == multiset(pf)
  {
    assert pf == [pf[0]] + pf[1..];
  }

  /** Dividing a divisor of `p * x` by `p` leaves a divisor of `x`. */
  lemma DividedDivisor(p: nat, d: nat, x: nat)
    requires p >= 1 && d >= 1 && d % p == 0 && (p * x) % d == 0
    ensures d / p >= 1 && x % (d / p) == 0
  {
    var d' := d / p;
    assert d == p * d';
    var k := (p * x) / d;
    assert p * x == d * k;
    assert p * x == p * (d' * k);
    MulCancel(p, x, d' * k);
    Multiple(d', k, x);
  }

  // ---------------------------------------------------------------------
  // Every divisor is listed

  /** When `factorize_prime` leaves nothing over (or `num` is 1), every
      divisor of `num` is among the factors `factorize` lists. */
  lemma FactorSetComplete(num: nat, d: nat)
    requires num >= 1 && d >= 1 && num % d == 0
    requires num == 1 || Leftover(num) == 1
    ensures d in FactorSet(num)
  {
    FactorSetDivides(num);
    if num == 1 {
      DivisorAtMost(1, d);
    } else {
      var pf := FactorizePrimeOf(num);
      FactorizePrimeSound(num);
      assert forall i :: 0 <= i < |pf| ==> IsPrime(pf[i]) by {
        forall i | 0 <= i < |pf|
          ensures IsPrime(pf[i])
        {
          assert pf[i] in pf;
        }
      }
      var m, rest := DivisorSplit(pf, d);
      ListedPrefix(num, pf, m, rest);
    }
  }

  /** The product of the first `|m|` primes of the ordering `m + rest` is
      among the factors listed. */
  lemma ListedPrefix(num: nat, pf: seq<nat>, m: seq<nat>, rest: seq<nat>)
    requires num >= 2 && pf == FactorizePrimeOf(num) && Product(pf) == num
    requires multiset(m + rest) == multiset(pf)
    ensures Product(m) in FactorSet(num)
  {
    var o := m + rest;
    assert |o| == |pf| by {
      assert |multiset(o)| == |o| && |multiset(pf)| == |pf|;
    }
    if |m| == 0 || |m| == |pf| {
      FactorSetDivides(num);
      if |m| == |pf| {
        assert rest == [] && o == m;
        ProductPerm(m, pf);
      }
    } else if |m| == 1 {
      SingleListed(num, pf, m, rest);
    } else {
      PrefixListed(num, pf, m, rest);
    }
  }

  lemma SingleListed(num: nat, pf: seq<nat>, m: seq<nat>, rest: seq<nat>)
    requires pf == FactorizePrimeOf(num)
    requires multiset(m + rest) == multiset(pf) && |m| == 1
    ensures Product(m) in Collected(num)
  {
    assert m[0] in multiset(m + rest) by {
      assert (m + rest)[0] == m[0];
    }
    assert m[0] in pf;
    assert Product(m) == m[0] * Product(m[1..]) && m[1..] == [];
  }

  lemma PrefixListed(num: nat, pf: seq<nat>, m: seq<nat>, rest: seq<nat>)
    requires pf == FactorizePrimeOf(num)
    requires multiset(m + rest) == multiset(pf) && |m + rest| == |pf| && 2 <= |m| < |pf|
    ensures Product(m) in Collected(num)
  {
    var o, k := m + rest, |m|;
    PermsComplete(pf, o);
    assert o[..k] == m;
    assert Product(o[..k]) in PrefixProducts(pf);
  }

  /** Both directions: with nothing left over, `factorize` lists exactly
      the divisors. */
  lemma FactorSetExactly(num: nat)
    requires num >= 1 && (num == 1 || Leftover(num) == 1)
    ensures forall d :: d in FactorSet(num) <==> d >= 1 && num % d == 0
  {
    FactorSetDivides(num);
    forall d | d >= 1 && num % d == 0
      ensures d in FactorSet(num)
    {
      FactorSetComplete(num, d);
    }
  }

  // ---------------------------------------------------------------------
  // The factors of 360

  /** A prime that divides a product of primes is one of them. */
  lemma {:induction false} PrimeDividesProduct(l: nat, xs: seq<nat>)
    requires IsPrime(l) && forall i :: 0 <= i < |xs| ==> IsPrime(xs[i])
    requires Product(xs) % l == 0
    ensures l in xs
    decreases |xs|
  {
    if xs != [] {
      Euclid(l, xs[0], Product(xs[1..]));
      if xs[0] % l == 0 {
        PrimeDividesPrime(l, xs[0]);
      } else {
        PrimeDividesProduct(l, xs[1..]);
      }
    }
  }

  /** When `num` is a product of primes that `prime_factors` all lists,
      `factorize_prime` leaves nothing over: the leftover is 1 or a prime
      dividing `num`, hence one of them, which was divided out. */
  lemma NothingLeftOver(num: nat, xs: seq<nat>)
    requires num >= 2 && Product(xs) == num
    requires forall i :: 0 <= i < |xs| ==> xs[i] in PrimeFactorsOf(num)
    ensures Leftover(num) == 1
  {
    var pf, l := PrimeFactorsOf(num), Leftover(num);
    LeftoverPrime(num);
    assert forall i :: 0 <= i < |xs| ==> IsPrime(xs[i]) by {
      forall i | 0 <= i < |xs|
        ensures IsPrime(xs[i])
      {
        var j :| 0 <= j < |pf| && pf[j] == xs[i];
      }
    }
    if l != 1 {
      ExpandDivides(pf, num);
      PrimeDividesProduct(l, xs);
      var i :| 0 <= i < |xs| && xs[i] == l;
      var j :| 0 <= j < |pf| && pf[j] == l;
      ExpandRest(pf, num);
      assert false;
    }
  }

  /** 360 is 2 * 2 * 2 * 3 * 3 * 5, and 2, 3 and 5 are listed by
      `prime_factors`, so nothing is left over. */
  lemma LeftoverThreeSixty(num: nat)
    requires num == 360
    ensures Leftover(num) == 1
  {
    var xs := [2, 2, 2, 3, 3, 5];
    ProductThreeSixty();
    ListedThreeSixty(num);
    AllListed(xs, PrimeFactorsOf(num), 2, 3, 5);
    NothingLeftOver(num, xs);
  }

  lemma AllListed(xs: seq<nat>, ps: seq<nat>, a: nat, b: nat, c: nat)
    requires xs == [a, a, a, b, b, c] && a in ps && b in ps && c in ps
    ensures forall i :: 0 <= i < |xs| ==> xs[i] in ps
  {
  }

  lemma ProductThreeSixty()
    ensures Product([2, 2, 2, 3, 3, 5]) == 360
  {
  }

  lemma ListedThreeSixty(num: nat)
    requires num == 360
    ensures 2 in PrimeFactorsOf(num) && 3 in PrimeFactorsOf(num) && 5 in PrimeFactorsOf(num)
  {
    SmallPrime(2);
    SmallPrime(3);
    SmallPrime(5);
    PrimeFactorsMember(num, 2);
    PrimeFactorsMember(num, 3);
    PrimeFactorsMember(num, 5);
  }

  /** The `factorize` test: 360 leaves nothing over, so what `factorize`
      returns for it is exactly the divisors of 360, the 24 numbers from 1
      to 360 the test expects among them, and no other number. */
  lemma FactorizeThreeSixty(r: seq<nat>, num: nat)
    requires num == 360
    requires forall x :: x in r <==> x in FactorSet(num)
    ensures forall x :: x in r <==> x >= 1 && num % x == 0
    ensures 1 in r && 2 in r && 3 in r && 4 in r && 5 in r && 6 in r && 8 in r && 9 in r
    ensures 10 in r && 12 in r && 15 in r && 18 in r && 20 in r && 24 in r && 30 in r && 36 in r
    ensures 40 in r && 45 in r && 60 in r && 72 in r && 90 in r && 120 in r && 180 in r && 360 in r
    ensures 7 !in r && 16 !in r && 27 !in r && 25 !in r
  {
    LeftoverThreeSixty(num);
    FactorSetExactly(num);
  }
}
