// Day 20: the presents each house gets. Elf number `e` visits every house
// whose number is a multiple of `e` and leaves ten times `e` presents, so a
// house gets ten times the sum of its divisors. `Sieve` keeps the primes up
// to some bound and uses them to factor numbers; the delivery itself is
// also simulated directly over an array of houses.

module Day20 {
  import opened Day20Primes
  import opened Permutations
  import opened Text

  // ---------------------------------------------------------------------
  // Integer square root and the primes that may divide a number

  /** The floor of the square root of `n`. */
  function ISqrt(n: nat): (r: nat)
    ensures r * r <= n < (r + 1) * (r + 1)
  {
    if n == 0 then 0
    else
      var s := ISqrt(n - 1);
      if (s + 1) * (s + 1) <= n then s + 1 else s
  }

  /** A prime whose square is at most `n` is at most the square root. */
  lemma BelowRoot(n: nat, x: nat)
    ensures x * x <= n <==> x <= ISqrt(n)
  {
    var s := ISqrt(n);
    SquareMono(x, s);
    SquareMono(s + 1, x);
  }

  /** The leading elements whose square is at most `n`. */
  function TakeSquares(ps: seq<nat>, n: nat): (r: seq<nat>)
    ensures |r| <= |ps| && r == ps[..|r|]
    ensures |r| < |ps| ==> ps[|r|] * ps[|r|] > n
    ensures forall i :: 0 <= i < |r| ==> r[i] * r[i] <= n
  {
    if ps == [] || ps[0] * ps[0] > n then [] else [ps[0]] + TakeSquares(ps[1..], n)
  }

  /** The elements of `ps` that divide `n`, in order. */
  function Dividing(ps: seq<nat>, n: nat): (r: seq<nat>)
    requires forall i :: 0 <= i < |ps| ==> ps[i] >= 1
    ensures forall x :: x in r <==> x in ps && n % x == 0
  {
    if ps == [] then []
    else (if n % ps[0] == 0 then [ps[0]] else []) + Dividing(ps[1..], n)
  }

  lemma {:induction false} DividingAscending(ps: seq<nat>, n: nat)
    requires forall i :: 0 <= i < |ps| ==> ps[i] >= 1
    requires forall i, j :: 0 <= i < j < |ps| ==> ps[i] < ps[j]
    ensures forall i, j :: 0 <= i < j < |Dividing(ps, n)| ==> Dividing(ps, n)[i] < Dividing(ps, n)[j]
  {
    if ps != [] {
      DividingAscending(ps[1..], n);
      var rest := Dividing(ps[1..], n);
      forall j | 0 <= j < |rest|
        ensures ps[0] < rest[j]
      {
        assert rest[j] in ps[1..];
      }
    }
  }

  lemma {:induction false} TakeSquaresAppend(a: seq<nat>, b: seq<nat>, n: nat)
    requires forall i :: 0 <= i < |a| ==> a[i] * a[i] <= n
    ensures TakeSquares(a + b, n) == a + TakeSquares(b, n)
  {
    if a != [] {
      assert (a + b)[0] == a[0] && (a + b)[1..] == a[1..] + b;
      TakeSquaresAppend(a[1..], b, n);
    } else {
      assert a + b == b;
    }
  }

  /** Listing the primes up to at least the square root and keeping those
      whose square is at most `n` gives the primes up to the square root. */
  lemma TakeSquaresSieve(t: nat, n: nat)
    requires n >= 1 && t >= ISqrt(n)
    ensures TakeSquares(PrimesBetween(1, t), n) == PrimesBetween(1, ISqrt(n))
  {
    var s := ISqrt(n);
    PrimesBetweenSplit(1, s, t);
    var a, b := PrimesBetween(1, s), PrimesBetween(s, t);
    forall i | 0 <= i < |a|
      ensures a[i] * a[i] <= n
    {
      BelowRoot(n, a[i]);
    }
    TakeSquaresAppend(a, b, n);
    if b != [] {
      BelowRoot(n, b[0]);
    }
  }

  /** `prime_factors`: the primes whose square is at most `num` and that
      divide it; none for 0 and 1. */
  function PrimeFactorsOf(num: nat): (r: seq<nat>)
    ensures forall i :: 0 <= i < |r| ==> IsPrime(r[i])
  {
    if num <= 1 then []
    else
      var ps := PrimesBetween(1, ISqrt(num));
      assert forall x :: x in ps ==> IsPrime(x);
      Dividing(ps, num)
  }

  /** What `prime_factors` lists, and that it lists it in ascending order
      (so each prime once). */
  lemma PrimeFactorsMember(num: nat, x: nat)
    ensures x in PrimeFactorsOf(num) <==> num >= 2 && IsPrime(x) && x * x <= num && num % x == 0
  {
    if num >= 2 {
      PrimesBetweenMember(1, ISqrt(num), x);
      BelowRoot(num, x);
    }
  }

  lemma PrimeFactorsAscending(num: nat)
    ensures forall i, j :: 0 <= i < j < |PrimeFactorsOf(num)| ==> PrimeFactorsOf(num)[i] < PrimeFactorsOf(num)[j]
  {
    if num >= 2 {
      PrimesBetweenAscending(1, ISqrt(num));
      DividingAscending(PrimesBetween(1, ISqrt(num)), num);
    }
  }

  // ---------------------------------------------------------------------
  // Dividing out the prime factors

  function Product(xs: seq<nat>): nat
  {
    if xs == [] then 1 else xs[0] * Product(xs[1..])
  }

  lemma {:induction false} ProductAppend(a: seq<nat>, b: seq<nat>)
    ensures Product(a + b) == Product(a) * Product(b)
  {
    if a != [] {
      assert (a + b)[0] == a[0] && (a + b)[1..] == a[1..] + b;
      ProductAppend(a[1..], b);
      MulAssoc(a[0], Product(a[1..]), Product(b));
    } else {
      assert a + b == b;
    }
  }

  lemma MulAssoc(a: nat, b: nat, c: nat)
    ensures a * b * c == a * (b * c)
  {
  }

  function Repeat(x: nat, k: nat): (r: seq<nat>)
    ensures |r| == k && forall i :: 0 <= i < k ==> r[i] == x
  {
    if k == 0 then [] else [x] + Repeat(x, k - 1)
  }

  /** How often `p` divides `q`, and what is left once it no longer does. */
  function Strip(p: nat, q: nat): (r: (nat, nat))
    requires p >= 2 && q >= 1
    ensures r.1 >= 1 && r.1 % p != 0
    decreases q
  {
    if q % p == 0 then
      Quotient(p, q);
      var s := Strip(p, q / p);
      (s.0 + 1, s.1)
    else (0, q)
  }

  lemma Quotient(p: nat, q: nat)
    requires p >= 2 && q >= 1 && q % p == 0
    ensures 1 <= q / p < q && p * (q / p) == q
  {
    var d: nat := q / p;
    MulAway(p, d - 1);
  }

  lemma {:induction false} StripSound(p: nat, q: nat)
    requires p >= 2 && q >= 1
    ensures Product(Repeat(p, Strip(p, q).0)) * Strip(p, q).1 == q
    decreases q
  {
    if q % p == 0 {
      Quotient(p, q);
      var s := Strip(p, q / p);
      StripSound(p, q / p);
      var k := Product(Repeat(p, s.0));
      assert Repeat(p, s.0 + 1)[1..] == Repeat(p, s.0);
      assert Product(Repeat(p, s.0 + 1)) == p * k;
      MulAssoc(p, k, s.1);
    }
  }

  /** Dividing `q` by each of `pf` for as long as it divides: what is
      collected and what is left. */
  function Expand(pf: seq<nat>, q: nat): (r: (seq<nat>, nat))
    requires q >= 1 && forall i :: 0 <= i < |pf| ==> pf[i] >= 2
    ensures r.1 >= 1
  {
    if pf == [] then ([], q)
    else
      var s := Strip(pf[0], q);
      var e := Expand(pf[1..], s.1);
      (Repeat(pf[0], s.0) + e.0, e.1)
  }

  /** What is collected times what is left is the number; the collected
      factors are drawn from `pf`; none of `pf` divides what is left. */
  lemma ExpandSound(pf: seq<nat>, q: nat)
    requires q >= 1 && forall i :: 0 <= i < |pf| ==> pf[i] >= 2
    ensures Product(Expand(pf, q).0) * Expand(pf, q).1 == q
    ensures forall x :: x in Expand(pf, q).0 ==> x in pf
    ensures forall i :: 0 <= i < |pf| ==> Expand(pf, q).1 % pf[i] != 0
  {
    ExpandProduct(pf, q);
    ExpandDrawn(pf, q);
    ExpandRest(pf, q);
  }

  lemma {:induction false} ExpandProduct(pf: seq<nat>, q: nat)
    requires q >= 1 && forall i :: 0 <= i < |pf| ==> pf[i] >= 2
    ensures Product(Expand(pf, q).0) * Expand(pf, q).1 == q
  {
    if pf != [] {
      var s := Strip(pf[0], q);
      var e := Expand(pf[1..], s.1);
      ExpandProduct(pf[1..], s.1);
      StripSound(pf[0], q);
      var k := Product(Repeat(pf[0], s.0));
      ProductAppend(Repeat(pf[0], s.0), e.0);
      MulAssoc(k, Product(e.0), e.1);
    }
  }

  lemma {:induction false} ExpandDrawn(pf: seq<nat>, q: nat)
    requires q >= 1 && forall i :: 0 <= i < |pf| ==> pf[i] >= 2
    ensures forall x :: x in Expand(pf, q).0 ==> x in pf
  {
    if pf != [] {
      var s := Strip(pf[0], q);
      ExpandDrawn(pf[1..], s.1);
    }
  }

  /** What is left divides the number. */
  lemma ExpandDivides(pf: seq<nat>, q: nat)
    requires q >= 1 && forall i :: 0 <= i < |pf| ==> pf[i] >= 2
    ensures Expand(pf, q).1 <= q && q % Expand(pf, q).1 == 0
  {
    var e := Expand(pf, q);
    ExpandProduct(pf, q);
    Factor(Product(e.0), e.1, q);
  }

  /** The second factor of a positive product divides it and is at most
      the product. */
  lemma Factor(a: nat, b: nat, n: nat)
    requires a * b == n && n >= 1
    ensures 1 <= b <= n && n % b == 0
  {
    ModOfProduct(b, a);
    MulAway(b, a);
  }

  lemma {:induction false} ExpandRest(pf: seq<nat>, q: nat)
    requires q >= 1 && forall i :: 0 <= i < |pf| ==> pf[i] >= 2
    ensures forall i :: 0 <= i < |pf| ==> Expand(pf, q).1 % pf[i] != 0
  {
    if pf != [] {
      var s := Strip(pf[0], q);
      var e := Expand(pf[1..], s.1);
      ExpandRest(pf[1..], s.1);
      ExpandDivides(pf[1..], s.1);
      DivTransMaybe(pf[0], e.1, s.1);
      forall i | 0 <= i < |pf|
        ensures e.1 % pf[i] != 0
      {
        if i > 0 {
          assert pf[i] == pf[1..][i - 1];
        }
      }
    }
  }

  /** `factorize_prime`: 0 has no factors and 1 is listed as itself; any
      other number is divided by each prime `prime_factors` lists. */
  function FactorizePrimeOf(num: nat): seq<nat>
  {
    if num == 0 then []
    else if num == 1 then [1]
    else Expand(PrimeFactorsOf(num), num).0
  }

  /** What `factorize_prime` leaves over once it has divided by every prime
      it was given. */
  function Leftover(num: nat): (r: nat)
    requires num >= 2
  {
    Expand(PrimeFactorsOf(num), num).1
  }

  /** For a number of at least 2: the factors times the leftover is the
      number, and every factor is a prime whose square is at most the
      number. */
  lemma FactorizePrimeSound(num: nat)
    requires num >= 2
    ensures Product(FactorizePrimeOf(num)) * Leftover(num) == num
    ensures forall x :: x in FactorizePrimeOf(num) ==> IsPrime(x) && x * x <= num && num % x == 0
  {
    ExpandSound(PrimeFactorsOf(num), num);
    forall x | x in FactorizePrimeOf(num)
      ensures IsPrime(x) && x * x <= num && num % x == 0
    {
      PrimeFactorsMember(num, x);
    }
  }

  /** The leftover is 1 or a single prime: the one prime factor bigger
      than the square root, which `factorize_prime` drops. */
  lemma LeftoverPrime(num: nat)
    requires num >= 2
    ensures Leftover(num) == 1 || IsPrime(Leftover(num))
  {
    var pf, l := PrimeFactorsOf(num), Leftover(num);
    ExpandRest(pf, num);
    ExpandDivides(pf, num);
    if l != 1 && !IsPrime(l) {
      var p := LeastPrimeFactor(l);
      DivTrans(p, l, num);
      assert p * p <= num;
      PrimeFactorsMember(num, p);
      assert false;
    }
  }

  /** A square root is the only number whose square is at most `n` and
      whose successor's square exceeds it. */
  lemma RootUnique(n: nat, r: nat)
    requires r * r <= n < (r + 1) * (r + 1)
    ensures ISqrt(n) == r
  {
    var s := ISqrt(n);
    SquareMono(s + 1, r);
    SquareMono(r + 1, s);
  }

  // ---------------------------------------------------------------------
  // The sieve

  lemma InitialListed()
    ensures [2, 3, 5, 7, 11, 13, 17, 19, 23, 29, 31, 37, 41, 43, 47]
         == [2, 3, 5, 7] + [11, 13, 17, 19] + [23, 29] + [31, 37] + [41, 43, 47]
  {
  }

  /** `SieveOfErasthenes`: the primes up to `through`, in ascending order. */
  class Sieve {
    var primes: seq<nat>
    var through: nat

    ghost predicate Valid()
      reads this
    {
      47 <= through && primes == PrimesBetween(1, through)
    }

    /** A new sieve knows the primes up to 47. */
    constructor ()
      ensures Valid() && through == 47
    {
      primes := [2, 3, 5, 7, 11, 13, 17, 19, 23, 29, 31, 37, 41, 43, 47];
      through := 47;
      InitialPrimes();
      InitialListed();
    }

    /** `calc_through`: nothing happens when `num` is already covered;
        otherwise the primes in `(through, num]` are appended in ascending
        order and `num` becomes the bound. */
    method CalcThrough(num: nat)
      requires Valid()
      modifies this
      ensures Valid()
      ensures num <= old(through) ==> through == old(through) && primes == old(primes)
      ensures num > old(through) ==> through == num && primes == old(primes) + PrimesBetween(old(through), num)
    {
      if num <= through {
        return;
      }
      ghost var start := through;
      for t := through + 1 to num + 1
        invariant primes == PrimesBetween(1, t - 1)
      {
        var potentialPrime := TrialDivision(primes, t);
        if potentialPrime {
          primes := primes + [t];
        }
      }
      through := num;
      PrimesBetweenSplit(1, start, num);
    }

    /** `prime_factors`: first makes sure the primes up to the square root
        of `num` are known. */
    method PrimeFactors(num: nat) returns (r: seq<nat>)
      requires Valid()
      modifies this
      ensures Valid() && r == PrimeFactorsOf(num)
      ensures through == Reach(old(through), num)
    {
      if num <= 1 {
        return [];
      }
      var sqrt := ISqrt(num);
      if sqrt > through {
        CalcThrough(sqrt);
      }
      TakeSquaresSieve(through, num);
      r := Dividing(TakeSquares(primes, num), num);
    }

    /** `factorize_prime`: divides `num` by each prime `prime_factors`
        lists for as long as it divides, collecting the prime each time. */
    method FactorizePrime(num: nat) returns (ret: seq<nat>)
      requires Valid()
      modifies this
      ensures Valid() && ret == FactorizePrimeOf(num)
      ensures through == Reach(old(through), num)
    {
      if num == 0 {
        return [];
      }
      if num == 1 {
        return [1];
      }
      var pf := PrimeFactors(num);
      ret := DivideAll(pf, num);
    }

    /** `factorize`: the prime factors, the product of the first few of
        every ordering of them, 1, and `num` divided by each of those,
        in ascending order. */
    method Factorize(num: nat) returns (r: seq<nat>)
      requires Valid()
      modifies this
      ensures Valid() && through == Reach(old(through), num)
      ensures forall i, j :: 0 <= i < j < |r| ==> r[i] < r[j]
      ensures forall x :: x in r <==> x in FactorSet(num)
    {
      var primeFactors := FactorizePrime(num);
      var ret := set x | x in primeFactors;
      ret := ret + PrefixProducts(primeFactors);
      ret := ret + {1};
      CollectedPositive(num);
      var complements := ret;
      ret := ret + set c | c in complements :: Complement(num, c);
      r := Ascending(ret);
    }
  }

  /** The outer loop of `factorize_prime`. */
  method DivideAll(pf: seq<nat>, num: nat) returns (ret: seq<nat>)
    requires num >= 1 && forall i :: 0 <= i < |pf| ==> pf[i] >= 2
    ensures ret == Expand(pf, num).0
  {
    ret := [];
    var quot := num;
    for i := 0 to |pf|
      invariant quot >= 1
      invariant ret + Expand(pf[i..], quot).0 == Expand(pf, num).0
      invariant Expand(pf[i..], quot).1 == Expand(pf, num).1
    {
      assert pf[i..][1..] == pf[i + 1..];
      ret, quot := DivideOut(ret, quot, pf[i]);
    }
    assert pf[|pf|..] == [];
  }

  /** The inner loop of `factorize_prime`: while `p` divides the quotient,
      collect `p` and divide. */
  method DivideOut(ret: seq<nat>, quot: nat, p: nat) returns (ret': seq<nat>, quot': nat)
    requires p >= 2 && quot >= 1
    ensures ret' == ret + Repeat(p, Strip(p, quot).0) && quot' == Strip(p, quot).1
  {
    ret', quot' := ret, quot;
    while quot' % p == 0
      invariant quot' >= 1
      invariant ret' + Repeat(p, Strip(p, quot').0) == ret + Repeat(p, Strip(p, quot).0)
      invariant Strip(p, quot').1 == Strip(p, quot).1
      decreases quot'
    {
      Quotient(p, quot');
      assert Repeat(p, Strip(p, quot').0) == [p] + Repeat(p, Strip(p, quot' / p).0);
      ret' := ret' + [p];
      quot' := quot' / p;
    }
  }

  // ---------------------------------------------------------------------
  // All factors

  /** The product of the first `k` factors of every ordering of `pf`, for
      every `k` from 2 up to but not including the number of factors: what
      the callback handed to the permutation generator collects. */
  function PrefixProducts(pf: seq<nat>): set<nat>
  {
    set o, k | o in Perms(pf) && |o| == |pf| && 2 <= k < |pf| :: Product(o[..k])
  }

  /** What `factorize` has collected before it adds the complements: the
      prime factors, the prefix products and 1. */
  function Collected(num: nat): (r: set<nat>)
    ensures forall c :: c in r ==> c >= 1
  {
    CollectedPositive(num);
    (set x | x in FactorizePrimeOf(num)) + PrefixProducts(FactorizePrimeOf(num)) + {1}
  }

  /** `factorize`, as a set: what was collected and, for each of it, the
      number divided by it. */
  function FactorSet(num: nat): set<nat>
  {
    var found := Collected(num);
    found + set c | c in found :: Complement(num, c)
  }

  function Complement(num: nat, c: nat): nat
    requires c >= 1
  {
    num / c
  }

  lemma {:induction false} ProductPositive(xs: seq<nat>)
    requires forall i :: 0 <= i < |xs| ==> xs[i] >= 1
    ensures Product(xs) >= 1
  {
    if xs != [] {
      ProductPositive(xs[1..]);
      MulAway(Product(xs[1..]), xs[0]);
    }
  }

  lemma FactorizePrimePositive(num: nat)
    ensures forall i :: 0 <= i < |FactorizePrimeOf(num)| ==> FactorizePrimeOf(num)[i] >= 1
  {
    if num >= 2 {
      ExpandDrawn(PrimeFactorsOf(num), num);
      forall i | 0 <= i < |FactorizePrimeOf(num)|
        ensures FactorizePrimeOf(num)[i] >= 1
      {
        assert FactorizePrimeOf(num)[i] in PrimeFactorsOf(num);
      }
    }
  }

  lemma CollectedPositive(num: nat)
    ensures forall x :: x in PrefixProducts(FactorizePrimeOf(num)) ==> x >= 1
    ensures forall x :: x in FactorizePrimeOf(num) ==> x >= 1
  {
    var pf := FactorizePrimeOf(num);
    FactorizePrimePositive(num);
    forall o, k | o in Perms(pf) && |o| == |pf| && 2 <= k < |pf|
      ensures Product(o[..k]) >= 1
    {
      PermsSound(pf, o);
      forall i | 0 <= i < k
        ensures o[..k][i] >= 1
      {
        assert o[i] in multiset(pf);
      }
      ProductPositive(o[..k]);
    }
  }
  /** Rearranging factors keeps their product. */
  lemma {:induction false} ProductPerm(a: seq<nat>, b: seq<nat>)
    requires multiset(a) == multiset(b)
    ensures Product(a) == Product(b)
    decreases |a|
  {
    if a != [] {
      assert a == [a[0]] + a[1..];
      assert a[0] in multiset(b);
      var i :| 0 <= i < |b| && b[i] == a[0];
      var rest := RemoveAt(b, i);
      ProductPerm(a[1..], rest);
      ProductSplit(b, i);
    } else {
      assert |b| == |multiset(b)|;
    }
  }

  lemma ProductSplit(b: seq<nat>, i: nat)
    requires i < |b|
    ensures Product(b) == b[i] * Product(RemoveAt(b, i))
  {
    var before, tail, after := b[..i], b[i..], b[i + 1..];
    assert b == before + tail;
    ProductJoin(before, tail, b);
    assert tail[1..] == after;
    assert RemoveAt(b, i) == before + after;
    ProductJoin(before, after, RemoveAt(b, i));
    Rearranged(Product(b), Product(before), tail[0], Product(after), Product(RemoveAt(b, i)));
  }

  lemma ProductJoin(a: seq<nat>, b: seq<nat>, c: seq<nat>)
    requires c == a + b
    ensures Product(c) == Product(a) * Product(b)
  {
    ProductAppend(a, b);
  }

  lemma Rearranged(whole: nat, x: nat, y: nat, z: nat, rest: nat)
    requires whole == x * (y * z) && rest == x * z
    ensures whole == y * rest
  {
  }

  /** Every ordering's prefix product divides the product of all
      factors. */
  lemma PrefixDivides(o: seq<nat>, k: nat, l: nat, num: nat)
    requires k <= |o| && num >= 1 && Product(o) * l == num
    ensures Product(o[..k]) >= 1 && num % Product(o[..k]) == 0
  {
    assert o == o[..k] + o[k..];
    ProductAppend(o[..k], o[k..]);
    MulAssoc(Product(o[..k]), Product(o[k..]), l);
    Factor(Product(o[k..]) * l, Product(o[..k]), num);
  }

  /** The complement of a divisor is a divisor. */
  lemma ComplementDivides(num: nat, c: nat)
    requires num >= 1 && c >= 1 && num % c == 0
    ensures Complement(num, c) >= 1 && num % Complement(num, c) == 0
  {
    var q: nat := num / c;
    assert num == c * q;
    Factor(c, q, num);
  }

  /** For a positive number, everything `factorize` lists divides it, and
      1 and the number itself are among them. */
  lemma FactorSetDivides(num: nat)
    requires num >= 1
    ensures forall d :: d in FactorSet(num) ==> d >= 1 && num % d == 0
    ensures 1 in FactorSet(num) && num in FactorSet(num)
  {
    var pf := FactorizePrimeOf(num);
    var found := Collected(num);
    forall d | d in found
      ensures num % d == 0
    {
      if d in pf {
        if num >= 2 {
          FactorizePrimeSound(num);
        }
      } else if d in PrefixProducts(pf) {
        var o, k :| o in Perms(pf) && |o| == |pf| && 2 <= k < |pf| && d == Product(o[..k]);
        FactorizePrimeSound(num);
        PermsSound(pf, o);
        ProductPerm(o, pf);
        PrefixDivides(o, k, Leftover(num), num);
      }
    }
    forall d | d in FactorSet(num) && d !in found
      ensures d >= 1 && num % d == 0
    {
      var c :| c in found && d == Complement(num, c);
      ComplementDivides(num, c);
    }
    assert Complement(num, 1) == num;
  }

  /** The elements of `s` in ascending order: `sort` applied to the
      elements of a set. */
  method Ascending(s: set<nat>) returns (r: seq<nat>)
    ensures forall i, j :: 0 <= i < j < |r| ==> r[i] < r[j]
    ensures forall x :: x in r <==> x in s
  {
    r := [];
    var rest := s;
    while rest != {}
      invariant forall i, j :: 0 <= i < j < |r| ==> r[i] < r[j]
      invariant forall x :: x in s <==> x in r || x in rest
      invariant forall i, y :: 0 <= i < |r| && y in rest ==> r[i] < y
      decreases |rest|
    {
      ghost var least := Least(rest);
      var m :| m in rest && forall y :: y in rest ==> m <= y;
      r := r + [m];
      rest := rest - {m};
    }
  }

  lemma {:induction false} Least(s: set<nat>) returns (m: nat)
    requires s != {}
    ensures m in s && forall y :: y in s ==> m <= y
    decreases |s|
  {
    var x :| x in s;
    var t := s - {x};
    if t == {} {
      m := x;
      assert s == {x};
    } else {
      var n := Least(t);
      m := if x < n then x else n;
      forall y | y in s
        ensures m <= y
      {
        if y != x {
          assert y in t;
        }
      }
    }
  }

  // ---------------------------------------------------------------------
  // Presents at one house

  /** The sum of the elements of `s` below `n`. */
  function SumBelow(s: set<nat>, n: nat): nat
  {
    if n == 0 then 0 else SumBelow(s, n - 1) + (if n - 1 in s then n - 1 else 0)
  }

  lemma {:induction false} SumBelowAgree(s: set<nat>, t: set<nat>, n: nat)
    requires forall x :: x < n ==> (x in s <==> x in t)
    ensures SumBelow(s, n) == SumBelow(t, n)
  {
    if n > 0 {
      SumBelowAgree(s, t, n - 1);
    }
  }

  /** Nothing of `s` from `m` on adds to the sum. */
  lemma {:induction false} SumBelowSkip(s: set<nat>, m: nat, n: nat)
    requires m <= n && forall x :: x in s ==> x < m
    ensures SumBelow(s, n) == SumBelow(s, m)
    decreases n
  {
    if n > m {
      SumBelowSkip(s, m, n - 1);
    }
  }

  /** Summing an ascending list of numbers below `n` is summing the set of
      them. */
  lemma {:induction false} SumAscending(r: seq<nat>, n: nat)
    requires forall i, j :: 0 <= i < j < |r| ==> r[i] < r[j]
    requires forall i :: 0 <= i < |r| ==> r[i] < n
    ensures Sum(r) == SumBelow((set x | x in r), n)
    decreases |r|
  {
    var s := set x | x in r;
    if r == [] {
      assert s == {};
      SumBelowSkip(s, 0, n);
    } else {
      var last, init := r[|r| - 1], r[..|r| - 1];
      assert r == init + [last];
      var t := set x | x in init;
      SumAscending(init, last);
      SumSnoc(init, last);
      forall x | x in s
        ensures x < last + 1
      {
        var i :| 0 <= i < |r| && r[i] == x;
        assert i < |r| - 1 ==> r[i] < last;
      }
      SumBelowSkip(s, last + 1, n);
      SumBelowAgree(s, t, last);
    }
  }

  /** A divisor of a positive number is at most the number. */
  lemma DivisorAtMost(num: nat, d: nat)
    requires num >= 1 && d >= 1 && num % d == 0
    ensures d <= num
  {
    var q: nat := num / d;
    assert num == d * q;
    MulAway(d, q);
  }

  /** Everything `factorize` lists for `house` is below `house + 2`. */
  lemma FactorSetBelow(house: nat)
    ensures forall d :: d in FactorSet(house) ==> d < house + 2
  {
    if house >= 1 {
      FactorSetDivides(house);
      forall d | d in FactorSet(house)
        ensures d < house + 2
      {
        DivisorAtMost(house, d);
      }
    } else {
      assert FactorizePrimeOf(0) == [];
      assert Collected(0) == {1};
    }
  }

  /** `presents_at`: ten presents for every factor `factorize` lists. */
  method PresentsAt(sieve: Sieve, house: nat) returns (presents: int)
    requires sieve.Valid()
    modifies sieve
    ensures sieve.Valid() && sieve.through == Reach(old(sieve.through), house)
    ensures presents == 10 * SumBelow(FactorSet(house), house + 2)
  {
    var factors := sieve.Factorize(house);
    presents := 10 * Sum(factors);
    FactorSetBelow(house);
    SumListed(factors, FactorSet(house), house + 2);
  }

  /** Summing an ascending listing of a set is summing the set. */
  lemma SumListed(r: seq<nat>, s: set<nat>, n: nat)
    requires forall i, j :: 0 <= i < j < |r| ==> r[i] < r[j]
    requires forall x :: x in r <==> x in s
    requires forall x :: x in s ==> x < n
    ensures Sum(r) == SumBelow(s, n)
  {
    assert forall i :: 0 <= i < |r| ==> r[i] in s;
    SumAscending(r, n);
    SumBelowAgree((set x | x in r), s, n);
  }

  // ---------------------------------------------------------------------
  // Worked examples: the presents at the first nine houses, and 28

  /** A prime has no prime factor whose square is at most it, so its
      factors are 1 and itself and it gets ten times one more than itself. */
  lemma HousePrime(p: nat)
    requires IsPrime(p)
    ensures FactorSet(p) == {1, p}
    ensures 10 * SumBelow(FactorSet(p), p + 2) == 10 * (1 + p)
  {
    var pf := PrimeFactorsOf(p);
    assert pf == [] by {
      if pf != [] {
        NotFactorOfPrime(p, pf[0]);
      }
    }
    assert FactorizePrimeOf(p) == [];
    NoPrefixProducts([]);
    assert Collected(p) == {1};
    FactorSetFromOne(p, 1);
    assert Complement(p, 1) == p;
    SumOfTwo(1, p, p + 2);
  }

  lemma NotFactorOfPrime(p: nat, x: nat)
    requires IsPrime(p)
    ensures x !in PrimeFactorsOf(p)
  {
    PrimeFactorsMember(p, x);
    if 2 <= x && x * x <= p {
      SquareBound(x, p);
    }
  }

  /** 1 is factored as `[1]`; 10 presents. */
  lemma HouseOne()
    ensures FactorSet(1) == {1}
    ensures 10 * SumBelow(FactorSet(1), 3) == 10
  {
    NoPrefixProducts([1]);
    assert Collected(1) == {1};
    FactorSetFromOne(1, 1);
  }

  lemma FactorizedFour()
    ensures FactorizePrimeOf(4) == [2, 2]
  {
    PrimesToTwo();
    StripFour();
    FactorizedFrom(4, 2, [2], 2, 2);
    RepeatSmall(2);
  }

  lemma StripFour()
    ensures Dividing([2], 4) == [2] && Strip(2, 4).0 == 2
  {
    assert Strip(2, 4) == (2, 1) by {
      assert Strip(2, 1) == (0, 1) && Strip(2, 2) == (1, 1);
    }
  }

  /** 4 is factored as `[2, 2]`; its factors are 1, 2 and 4, 70
      presents. */
  lemma HouseFour()
    ensures FactorSet(4) == {1, 2, 4}
    ensures 10 * SumBelow(FactorSet(4), 6) == 70
  {
    FactorizedFour();
    NoPrefixProducts([2, 2]);
    assert Collected(4) == {1, 2};
    FactorSetFromTwo(4, 1, 2);
    assert Complement(4, 1) == 4 && Complement(4, 2) == 2;
    SumOfThree(1, 2, 4, 6);
  }

  lemma FactorizedSix()
    ensures FactorizePrimeOf(6) == [2]
  {
    PrimesToTwo();
    FactorizedFrom(6, 2, [2], 2, 1);
    RepeatSmall(2);
  }

  /** 6 is factored as `[2]` with 3 left over; the complements restore 3
      and 6, 120 presents. */
  lemma HouseSix()
    ensures FactorSet(6) == {1, 2, 3, 6}
    ensures 10 * SumBelow(FactorSet(6), 8) == 120
  {
    FactorizedSix();
    CollectedOfSingle(6, 2);
    FactorSetFromTwo(6, 1, 2);
    assert Complement(6, 1) == 6 && Complement(6, 2) == 3;
    SumOfFour(1, 2, 3, 6, 8);
  }

  lemma FactorizedEight()
    ensures FactorizePrimeOf(8) == [2, 2, 2]
  {
    PrimesToTwo();
    StripEight();
    FactorizedFrom(8, 2, [2], 2, 3);
    RepeatSmall(2);
  }

  lemma StripEight()
    ensures Dividing([2], 8) == [2] && Strip(2, 8).0 == 3
  {
    assert Strip(2, 8) == (3, 1) by {
      assert Strip(2, 1) == (0, 1) && Strip(2, 2) == (1, 1) && Strip(2, 4) == (2, 1);
    }
  }

  /** 8 is factored as `[2, 2, 2]`; the prefix product 4 and the
      complements make 1, 2, 4 and 8, 150 presents. */
  lemma HouseEight()
    ensures FactorSet(8) == {1, 2, 4, 8}
    ensures 10 * SumBelow(FactorSet(8), 10) == 150
  {
    FactorizedEight();
    CollectedOfCube(8, 2);
    FactorSetFromThree(8, 1, 2, 4);
    assert Complement(8, 1) == 8 && Complement(8, 2) == 4 && Complement(8, 4) == 2;
    SumOfFour(1, 2, 4, 8, 10);
  }

  lemma FactorizedNine()
    ensures FactorizePrimeOf(9) == [3, 3]
  {
    PrimesToThree();
    StripNine();
    FactorizedFrom(9, 3, [2, 3], 3, 2);
    RepeatSmall(3);
  }

  lemma StripNine()
    ensures Dividing([2, 3], 9) == [3] && Strip(3, 9).0 == 2
  {
    assert Strip(3, 9) == (2, 1) by {
      assert Strip(3, 1) == (0, 1) && Strip(3, 3) == (1, 1);
    }
  }

  /** 9 is factored as `[3, 3]`; 1, 3 and 9, 130 presents. */
  lemma HouseNine()
    ensures FactorSet(9) == {1, 3, 9}
    ensures 10 * SumBelow(FactorSet(9), 11) == 130
  {
    FactorizedNine();
    NoPrefixProducts([3, 3]);
    assert Collected(9) == {1, 3};
    FactorSetFromTwo(9, 1, 3);
    assert Complement(9, 1) == 9 && Complement(9, 3) == 3;
    SumOfThree(1, 3, 9, 11);
  }

  lemma FactorizedTwentyEight()
    ensures FactorizePrimeOf(28) == [2, 2]
  {
    PrimesToFive();
    StripTwentyEight();
    FactorizedFrom(28, 5, [2, 3, 5], 2, 2);
    RepeatSmall(2);
  }

  lemma StripTwentyEight()
    ensures Dividing([2, 3, 5], 28) == [2] && Strip(2, 28).0 == 2
  {
    assert Strip(2, 28) == (2, 7) by {
      assert Strip(2, 7) == (0, 7) && Strip(2, 14) == (1, 7);
    }
  }

  lemma RepeatSmall(x: nat)
    ensures Repeat(x, 1) == [x] && Repeat(x, 2) == [x, x] && Repeat(x, 3) == [x, x, x]
  {
    assert Repeat(x, 1) == [x] + Repeat(x, 0);
    assert Repeat(x, 2) == [x] + Repeat(x, 1);
    assert Repeat(x, 3) == [x] + Repeat(x, 2);
  }

  /** What `factorize_prime` returns for a number below whose square root
      exactly one prime divides it. */
  lemma FactorizedFrom(num: nat, root: nat, ps: seq<nat>, p: nat, k: nat)
    requires num >= 2 && root * root <= num < (root + 1) * (root + 1)
    requires PrimesBetween(1, root) == ps && p >= 2
    requires Dividing(ps, num) == [p] && Strip(p, num).0 == k
    ensures FactorizePrimeOf(num) == Repeat(p, k)
  {
    RootUnique(num, root);
    assert PrimeFactorsOf(num) == [p];
    assert Expand([p], num).0 == Repeat(p, k) + Expand([], Strip(p, num).1).0;
  }

  /** 28 is factored as `[2, 2]` with the prime 7 dropped, and two
      factors leave no prefix product: `factorize` misses the divisors 4
      and 7, and the house gets 450 presents rather than ten times
      1 + 2 + 4 + 7 + 14 + 28. */
  lemma HouseTwentyEight()
    ensures FactorSet(28) == {1, 2, 14, 28}
    ensures 10 * SumBelow(FactorSet(28), 30) == 450
  {
    FactorizedTwentyEight();
    CollectedOfPair(28, 2);
    FactorSetFromTwo(28, 1, 2);
    assert Complement(28, 1) == 28 && Complement(28, 2) == 14;
    SumOfFour(1, 2, 14, 28, 30);
  }

  lemma PrimesToTwo()
    ensures PrimesBetween(1, 2) == [2]
  {
    SmallPrime(2);
  }

  lemma PrimesToThree()
    ensures PrimesBetween(1, 3) == [2, 3]
  {
    SmallPrime(2); SmallPrime(3);
  }

  lemma PrimesToFive()
    ensures PrimesBetween(1, 5) == [2, 3, 5]
  {
    SmallPrime(2); SmallPrime(3); SmallPrime(5);
    Composite(4, 2);
  }

  /** Fewer than three factors leave no prefix product. */
  lemma NoPrefixProducts(pf: seq<nat>)
    requires |pf| <= 2
    ensures PrefixProducts(pf) == {}
  {
  }

  lemma CollectedOfSingle(num: nat, p: nat)
    requires FactorizePrimeOf(num) == [p]
    ensures Collected(num) == {1, p}
  {
    NoPrefixProducts([p]);
  }

  lemma CollectedOfPair(num: nat, p: nat)
    requires FactorizePrimeOf(num) == [p, p]
    ensures Collected(num) == {1, p}
  {
    NoPrefixProducts([p, p]);
  }

  lemma CollectedOfCube(num: nat, p: nat)
    requires FactorizePrimeOf(num) == [p, p, p]
    ensures Collected(num) == {1, p, p * p}
  {
    ThreeAlike(p);
  }

  /** Three equal factors: every ordering is the same, and its one prefix
      product is the square. */
  lemma ThreeAlike(p: nat)
    ensures PrefixProducts([p, p, p]) == {p * p}
  {
    var pf := [p, p, p];
    forall o | o in Perms(pf)
      ensures o == pf
    {
      PermsSound(pf, o);
      assert |o| == 3 by {
        assert |multiset(o)| == |o|;
      }
      assert o[0] in multiset(pf) && o[1] in multiset(pf) && o[2] in multiset(pf);
    }
    PermsComplete(pf, pf);
    assert pf[..2] == [p, p] && [p, p][1..] == [p];
    assert Product([p, p]) == p * Product([p]);
    assert Product([p]) == p * Product([]);
  }

  lemma FactorSetFromOne(num: nat, a: nat)
    requires Collected(num) == {a}
    ensures FactorSet(num) == {a, Complement(num, a)}
  {
    var found := Collected(num);
    assert a in found;
    assert (set c | c in found :: Complement(num, c)) == {Complement(num, a)};
  }

  lemma FactorSetFromTwo(num: nat, a: nat, b: nat)
    requires Collected(num) == {a, b}
    ensures FactorSet(num) == {a, b, Complement(num, a), Complement(num, b)}
  {
    var found := Collected(num);
    assert a in found && b in found;
    assert (set c | c in found :: Complement(num, c)) == {Complement(num, a), Complement(num, b)};
  }

  lemma FactorSetFromThree(num: nat, a: nat, b: nat, c: nat)
    requires Collected(num) == {a, b, c}
    ensures FactorSet(num) == {a, b, c, Complement(num, a), Complement(num, b), Complement(num, c)}
  {
    var found := Collected(num);
    assert a in found && b in found && c in found;
    assert (set d | d in found :: Complement(num, d))
        == {Complement(num, a), Complement(num, b), Complement(num, c)};
  }

  lemma SumOfTwo(a: nat, b: nat, n: nat)
    requires a < b < n
    ensures SumBelow({a, b}, n) == a + b
  {
    SumListed([a, b], {a, b}, n);
    assert [a, b][1..] == [b];
    assert Sum([b]) == b + Sum([]);
  }

  lemma SumOfThree(a: nat, b: nat, c: nat, n: nat)
    requires a < b < c < n
    ensures SumBelow({a, b, c}, n) == a + b + c
  {
    SumListed([a, b, c], {a, b, c}, n);
    assert [a, b, c][1..] == [b, c] && [b, c][1..] == [c];
    assert Sum([c]) == c + Sum([]);
  }

  lemma SumOfFour(a: nat, b: nat, c: nat, d: nat, n: nat)
    requires a < b < c < d < n
    ensures SumBelow({a, b, c, d}, n) == a + b + c + d
  {
    SumListed([a, b, c, d], {a, b, c, d}, n);
    assert [a, b, c, d][1..] == [b, c, d] && [b, c, d][1..] == [c, d] && [c, d][1..] == [d];
    assert Sum([d]) == d + Sum([]);
    assert Sum([c, d]) == c + d;
  }

  /** The bound a sieve has once it has factored `num`. */
  function Reach(through: nat, num: nat): nat
  {
    if num >= 2 && ISqrt(num) > through then ISqrt(num) else through
  }
}
