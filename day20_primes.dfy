// Day 20: the primes the sieve lists and the facts about divisibility the
// sieve relies on. A number is prime when no number strictly between 1 and
// it divides it; trial division by the listed primes whose square is at
// most the candidate decides that.

module Day20Primes {

  predicate IsPrime(n: nat)
  {
    n >= 2 && forall d :: 1 < d < n ==> n % d != 0
  }

  /** The primes `p` with `a < p <= b`, in ascending order. */
  function PrimesBetween(a: nat, b: nat): (r: seq<nat>)
    ensures forall i :: 0 <= i < |r| ==> a < r[i] <= b && IsPrime(r[i])
    decreases b
  {
    if b <= a then [] else PrimesBetween(a, b - 1) + (if IsPrime(b) then [b] else [])
  }

  lemma {:induction false} PrimesBetweenMember(a: nat, b: nat, x: nat)
    ensures x in PrimesBetween(a, b) <==> a < x <= b && IsPrime(x)
    decreases b
  {
    if b > a {
      PrimesBetweenMember(a, b - 1, x);
    }
  }

  lemma {:induction false} PrimesBetweenAscending(a: nat, b: nat)
    ensures forall i, j :: 0 <= i < j < |PrimesBetween(a, b)| ==> PrimesBetween(a, b)[i] < PrimesBetween(a, b)[j]
    decreases b
  {
    if b > a {
      PrimesBetweenAscending(a, b - 1);
      var p := PrimesBetween(a, b - 1);
      forall i | 0 <= i < |p| ensures p[i] <= b - 1 {
        PrimesBetweenMember(a, b - 1, p[i]);
      }
    }
  }

  lemma {:induction false} PrimesBetweenSplit(a: nat, b: nat, c: nat)
    requires a <= b <= c
    ensures PrimesBetween(a, c) == PrimesBetween(a, b) + PrimesBetween(b, c)
    decreases c
  {
    if c > b {
      PrimesBetweenSplit(a, b, c - 1);
    }
  }

  /** A number below 49 with no factor 2, 3 or 5 (other than itself) is prime. */
  lemma SmallPrime(n: nat)
    requires 2 <= n < 49
    requires (n == 2 || n % 2 != 0) && (n == 3 || n % 3 != 0) && (n == 5 || n % 5 != 0)
    ensures IsPrime(n)
  {
    forall d | 1 < d < n
      ensures n % d != 0
    {
      SmallDivisor(n, d);
    }
  }

  /** A proper divisor of a number below 49 brings a factor 2, 3 or 5
      smaller than the number. */
  lemma SmallDivisor(n: nat, d: nat)
    requires 2 <= n < 49 && 1 < d < n
    ensures n % d == 0 ==> (n % 2 == 0 && n != 2) || (n % 3 == 0 && n != 3) || (n % 5 == 0 && n != 5)
  {
    if n % d == 0 {
      var m := SmallFactor(n, d);
      if m == 4 || m == 6 {
        ModOfProduct(2, m / 2);
        DivTrans(2, m, n);
      }
    }
  }

  /** The smaller of a divisor and its cofactor: a factor whose square is
      at most the number. */
  lemma SmallFactor(n: nat, d: nat) returns (m: nat)
    requires 2 <= n && 1 < d < n && n % d == 0
    ensures 2 <= m < n && m * m <= n && n % m == 0
  {
    var q: nat := n / d;
    assert n == d * q;
    MulAway(d, q - 1);
    var o: nat;
    m, o := if d <= q then d else q, if d <= q then q else d;
    assert n == m * o;
    MulLe(m, m, o);
    ModOfProduct(m, o);
  }

  lemma MulLe(a: nat, b: nat, c: nat)
    requires b <= c
    ensures a * b <= a * c
  {
  }

  lemma SquareAbove(m: nat, k: nat)
    requires k <= m
    ensures k * k <= m * m
  {
    MulLe(k, k, m);
    MulLe(m, k, m);
  }

  lemma ModOfProduct(m: nat, k: nat)
    requires m > 0
    ensures (m * k) % m == 0
  {
    var q, r := (m * k) / m, (m * k) % m;
    assert m * k == m * q + r;
    assert m * (k - q) == r;
    MulAway(m, k - q);
  }

  /** A non-zero multiple of `m` is at least `m` away from zero. */
  lemma MulAway(m: nat, x: int)
    requires m > 0
    ensures x >= 1 ==> m * x >= m
    ensures x <= -1 ==> m * x + m <= 0
  {
  }

  lemma DivTrans(a: nat, b: nat, c: nat)
    requires a > 0 && b > 0 && b % a == 0 && c % b == 0
    ensures c % a == 0
  {
    var x: nat, y: nat := b / a, c / b;
    assert b == a * x;
    assert c == b * y;
    assert c == a * (x * y);
    ModOfProduct(a, x * y);
  }

  lemma Composite(n: nat, d: nat)
    requires 1 < d < n && n % d == 0
    ensures !IsPrime(n)
  {
  }

  lemma PrimesToTen()
    ensures PrimesBetween(1, 10) == [2, 3, 5, 7]
  {
    SmallPrime(2); SmallPrime(3); SmallPrime(5); SmallPrime(7);
    Composite(4, 2); Composite(6, 2); Composite(8, 2); Composite(9, 3); Composite(10, 2);
  }

  lemma PrimesToTwenty()
    ensures PrimesBetween(10, 20) == [11, 13, 17, 19]
  {
    SmallPrime(11); SmallPrime(13); SmallPrime(17); SmallPrime(19);
    Composite(12, 2); Composite(14, 2); Composite(15, 3); Composite(16, 2); Composite(18, 2); Composite(20, 2);
  }

  lemma PrimesToThirty()
    ensures PrimesBetween(20, 30) == [23, 29]
  {
    SmallPrime(23); SmallPrime(29);
    Composite(21, 3); Composite(22, 2); Composite(24, 2); Composite(25, 5);
    Composite(26, 2); Composite(27, 3); Composite(28, 2); Composite(30, 2);
  }

  lemma PrimesToForty()
    ensures PrimesBetween(30, 40) == [31, 37]
  {
    SmallPrime(31); SmallPrime(37);
    Composite(32, 2); Composite(33, 3); Composite(34, 2); Composite(35, 5);
    Composite(36, 2); Composite(38, 2); Composite(39, 3); Composite(40, 2);
  }

  lemma PrimesToFortySeven()
    ensures PrimesBetween(40, 47) == [41, 43, 47]
  {
    SmallPrime(41); SmallPrime(43); SmallPrime(47);
    Composite(42, 2); Composite(44, 2); Composite(45, 3); Composite(46, 2);
  }

  /** The primes a new sieve starts with are those up to 47. */
  lemma InitialPrimes()
    ensures PrimesBetween(1, 47) == [2, 3, 5, 7] + [11, 13, 17, 19] + [23, 29] + [31, 37] + [41, 43, 47]
  {
    var p10, p20, p30, p40 := [2, 3, 5, 7], [11, 13, 17, 19], [23, 29], [31, 37];
    PrimesToTen(); PrimesToTwenty(); PrimesToThirty(); PrimesToForty(); PrimesToFortySeven();
    Joined(1, 10, 20, p10, p20);
    Joined(1, 20, 30, p10 + p20, p30);
    Joined(1, 30, 40, p10 + p20 + p30, p40);
    Joined(1, 40, 47, p10 + p20 + p30 + p40, [41, 43, 47]);
  }

  /** A number below 169 that none of 2, 3, 5, 7 and 11 divides (other
      than itself) is prime: a proper divisor would bring a factor whose
      square is at most the number, so one of at most 12. */
  lemma MidPrime(n: nat)
    requires 2 <= n < 169
    requires (n == 2 || n % 2 != 0) && (n == 3 || n % 3 != 0) && (n == 5 || n % 5 != 0)
    requires (n == 7 || n % 7 != 0) && (n == 11 || n % 11 != 0)
    ensures IsPrime(n)
  {
    forall d | 1 < d < n
      ensures n % d != 0
    {
      if n % d == 0 {
        var m := SmallFactor(n, d);
        if m >= 13 {
          SquareAbove(m, 13);
        }
        if m == 4 || m == 6 || m == 8 || m == 10 || m == 12 {
          ModOfProduct(2, m / 2);
          DivTrans(2, m, n);
        } else if m == 9 {
          ModOfProduct(3, 3);
          DivTrans(3, m, n);
        }
      }
    }
  }

  lemma PrimesToSixty()
    ensures PrimesBetween(47, 60) == [53, 59]
  {
    MidPrime(53); MidPrime(59);
    Composite(48, 2); Composite(49, 7); Composite(50, 2); Composite(51, 3);
    Composite(52, 2); Composite(54, 2); Composite(55, 5); Composite(56, 2);
    Composite(57, 3); Composite(58, 2); Composite(60, 2);
  }

  lemma PrimesToSeventy()
    ensures PrimesBetween(60, 70) == [61, 67]
  {
    MidPrime(61); MidPrime(67);
    Composite(62, 2); Composite(63, 3); Composite(64, 2); Composite(65, 5);
    Composite(66, 2); Composite(68, 2); Composite(69, 3); Composite(70, 2);
  }

  lemma PrimesToEighty()
    ensures PrimesBetween(70, 80) == [71, 73, 79]
  {
    MidPrime(71); MidPrime(73); MidPrime(79);
    Composite(72, 2); Composite(74, 2); Composite(75, 3); Composite(76, 2);
    Composite(77, 7); Composite(78, 2); Composite(80, 2);
  }

  lemma PrimesToNinety()
    ensures PrimesBetween(80, 90) == [83, 89]
  {
    MidPrime(83); MidPrime(89);
    Composite(81, 3); Composite(82, 2); Composite(84, 2); Composite(85, 5);
    Composite(86, 2); Composite(87, 3); Composite(88, 2); Composite(90, 2);
  }

  lemma PrimesToHundred()
    ensures PrimesBetween(90, 100) == [97]
  {
    MidPrime(97);
    Composite(91, 7); Composite(92, 2); Composite(93, 3); Composite(94, 2);
    Composite(95, 5); Composite(96, 2); Composite(98, 2); Composite(99, 3);
    Composite(100, 2);
  }

  lemma PrimesToHundredTen()
    ensures PrimesBetween(100, 110) == [101, 103, 107, 109]
  {
    MidPrime(101); MidPrime(103); MidPrime(107); MidPrime(109);
    Composite(102, 2); Composite(104, 2); Composite(105, 3); Composite(106, 2);
    Composite(108, 2); Composite(110, 2);
  }

  lemma PrimesToHundredTwenty()
    ensures PrimesBetween(110, 120) == [113]
  {
    MidPrime(113);
    Composite(111, 3); Composite(112, 2); Composite(114, 2); Composite(115, 5);
    Composite(116, 2); Composite(117, 3); Composite(118, 2); Composite(119, 7);
    Composite(120, 2);
  }

  lemma PrimesToHundredThirty()
    ensures PrimesBetween(120, 130) == [127]
  {
    MidPrime(127);
    Composite(121, 11); Composite(122, 2); Composite(123, 3); Composite(124, 2);
    Composite(125, 5); Composite(126, 2); Composite(128, 2); Composite(129, 3);
    Composite(130, 2);
  }

  lemma PrimesToHundredForty()
    ensures PrimesBetween(130, 140) == [131, 137, 139]
  {
    MidPrime(131); MidPrime(137); MidPrime(139);
    Composite(132, 2); Composite(133, 7); Composite(134, 2); Composite(135, 3);
    Composite(136, 2); Composite(138, 2); Composite(140, 2);
  }

  lemma PrimesToHundredFifty()
    ensures PrimesBetween(140, 150) == [149]
  {
    MidPrime(149);
    Composite(141, 3); Composite(142, 2); Composite(143, 11); Composite(144, 2);
    Composite(145, 5); Composite(146, 2); Composite(147, 3); Composite(148, 2);
    Composite(150, 2);
  }

  lemma PrimesFromFortySeven()
    ensures PrimesBetween(47, 100) == [53, 59] + [61, 67] + [71, 73, 79] + [83, 89] + [97]
  {
    var p60, p70, p80, p90 := [53, 59], [61, 67], [71, 73, 79], [83, 89];
    PrimesToSixty(); PrimesToSeventy(); PrimesToEighty(); PrimesToNinety(); PrimesToHundred();
    Joined(47, 60, 70, p60, p70);
    Joined(47, 70, 80, p60 + p70, p80);
    Joined(47, 80, 90, p60 + p70 + p80, p90);
    Joined(47, 90, 100, p60 + p70 + p80 + p90, [97]);
  }

  lemma PrimesFromHundred()
    ensures PrimesBetween(100, 150) == [101, 103, 107, 109] + [113] + [127] + [131, 137, 139] + [149]
  {
    var p110, p120, p130, p140 := [101, 103, 107, 109], [113], [127], [131, 137, 139];
    PrimesToHundredTen(); PrimesToHundredTwenty(); PrimesToHundredThirty();
    PrimesToHundredForty(); PrimesToHundredFifty();
    Joined(100, 110, 120, p110, p120);
    Joined(100, 120, 130, p110 + p120, p130);
    Joined(100, 130, 140, p110 + p120 + p130, p140);
    Joined(100, 140, 150, p110 + p120 + p130 + p140, [149]);
  }

  /** The primes up to 150, the listing the sieve is expected to hold
      after `calc_through(150)`. */
  lemma PrimesToOneFifty()
    ensures PrimesBetween(1, 150)
         == ([2, 3, 5, 7] + [11, 13, 17, 19] + [23, 29] + [31, 37] + [41, 43, 47])
          + ([53, 59] + [61, 67] + [71, 73, 79] + [83, 89] + [97])
          + ([101, 103, 107, 109] + [113] + [127] + [131, 137, 139] + [149])
  {
    var low := [2, 3, 5, 7] + [11, 13, 17, 19] + [23, 29] + [31, 37] + [41, 43, 47];
    var mid := [53, 59] + [61, 67] + [71, 73, 79] + [83, 89] + [97];
    var high := [101, 103, 107, 109] + [113] + [127] + [131, 137, 139] + [149];
    InitialPrimes(); PrimesFromFortySeven(); PrimesFromHundred();
    Joined(1, 47, 100, low, mid);
    Joined(1, 100, 150, low + mid, high);
  }

  lemma Joined(a: nat, b: nat, c: nat, x: seq<nat>, y: seq<nat>)
    requires a <= b <= c && PrimesBetween(a, b) == x && PrimesBetween(b, c) == y
    ensures PrimesBetween(a, c) == x + y
  {
    PrimesBetweenSplit(a, b, c);
  }

  /** The least divisor of `t` from `k` on. */
  function LeastDivisor(t: nat, k: nat): (r: nat)
    requires 2 <= k <= t
    ensures k <= r <= t && t % r == 0
    ensures forall j :: k <= j < r ==> t % j != 0
    decreases t - k
  {
    if k == t then ModOfProduct(t, 1); k
    else if t % k == 0 then k
    else LeastDivisor(t, k + 1)
  }

  /** A number that is not prime has a prime factor whose square is at
      most the number. */
  lemma LeastPrimeFactor(t: nat) returns (p: nat)
    requires t >= 2 && !IsPrime(t)
    ensures IsPrime(p) && p * p <= t && t % p == 0
  {
    p := LeastDivisor(t, 2);
    LeastDivisorPrime(t, p);
    var d :| 1 < d < t && t % d == 0;
    assert p < t;
    LeastDivisorSquare(t, p);
  }

  /** The least divisor above 1 is prime. */
  lemma LeastDivisorPrime(t: nat, p: nat)
    requires t >= 2 && p == LeastDivisor(t, 2)
    ensures IsPrime(p)
  {
    forall e | 1 < e < p
      ensures p % e != 0
    {
      DivTransMaybe(e, p, t);
    }
  }

  /** The least proper divisor is at most its cofactor. */
  lemma LeastDivisorSquare(t: nat, p: nat)
    requires t >= 2 && p == LeastDivisor(t, 2) && p < t
    ensures p * p <= t
  {
    var q: nat := t / p;
    Cofactor(t, p, q);
    assert p <= q;
    MulLe(p, p, q);
  }

  /** The cofactor of a proper divisor is a proper divisor too. */
  lemma Cofactor(t: nat, p: nat, q: nat)
    requires 2 <= p < t && t % p == 0 && q == t / p
    ensures t == p * q && 2 <= q && t % q == 0
  {
    assert t == p * q;
    MulAway(p, q - 1);
    ModOfProduct(q, p);
  }

  /** Divisibility carries over: a divisor of a divisor divides. */
  lemma DivTransMaybe(a: nat, b: nat, c: nat)
    requires a > 0 && b > 0 && c % b == 0
    ensures b % a == 0 ==> c % a == 0
  {
    if b % a == 0 {
      DivTrans(a, b, c);
    }
  }

  /** `calc_through`'s test of one candidate: no listed prime whose square
      is at most `t` divides it. The primes listed are those below `t`. */
  method TrialDivision(primes: seq<nat>, t: nat) returns (potentialPrime: bool)
    requires t >= 2 && primes == PrimesBetween(1, t - 1)
    ensures potentialPrime <==> IsPrime(t)
  {
    potentialPrime := true;
    var k := 0;
    while k < |primes| && primes[k] * primes[k] <= t
      invariant k <= |primes|
      invariant forall j :: 0 <= j < k ==> t % primes[j] != 0
    {
      if t % primes[k] == 0 {
        ListedDivisor(primes, t, k);
        potentialPrime := false;
        return;
      }
      k := k + 1;
    }
    NoListedDivisor(primes, t, k);
  }

  /** A listed prime whose square is at most `t` and that divides it shows
      that `t` is not prime. */
  lemma ListedDivisor(primes: seq<nat>, t: nat, k: nat)
    requires t >= 2 && primes == PrimesBetween(1, t - 1)
    requires k < |primes| && primes[k] * primes[k] <= t && t % primes[k] == 0
    ensures !IsPrime(t)
  {
    Composite(t, primes[k]);
  }

  /** When no listed prime up to the first whose square exceeds `t`
      divides it, `t` is prime. */
  lemma NoListedDivisor(primes: seq<nat>, t: nat, k: nat)
    requires t >= 2 && primes == PrimesBetween(1, t - 1)
    requires k <= |primes| && (k == |primes| || primes[k] * primes[k] > t)
    requires forall j :: 0 <= j < k ==> t % primes[j] != 0
    ensures IsPrime(t)
  {
    PrimesBetweenAscending(1, t - 1);
    forall p: nat | IsPrime(p) && p * p <= t
      ensures t % p != 0
    {
      SquareBound(p, t);
      PrimesBetweenMember(1, t - 1, p);
      assert p in primes;
      var i :| 0 <= i < |primes| && primes[i] == p;
      BeforeCut(primes, t, k, i);
    }
    PrimeWithoutSmallFactor(t);
  }

  /** In an ascending list, a value whose square is at most `t` comes
      before the first whose square exceeds it. */
  lemma BeforeCut(primes: seq<nat>, t: nat, k: nat, i: nat)
    requires forall a, b :: 0 <= a < b < |primes| ==> primes[a] < primes[b]
    requires k <= |primes| && (k == |primes| || primes[k] * primes[k] > t)
    requires i < |primes| && primes[i] * primes[i] <= t
    ensures i < k
  {
    if k < |primes| {
      SquareMono(primes[k], primes[i]);
    }
  }

  /** A number at least 2 is below its square. */
  lemma SquareBound(p: nat, t: nat)
    requires p >= 2 && p * p <= t
    ensures p < t
  {
    MulLe(p, 2, p);
  }

  lemma SquareMono(x: nat, y: nat)
    ensures x <= y ==> x * x <= y * y
  {
    if x <= y {
      SquareAbove(y, x);
    }
  }

  /** A number with no prime factor whose square is at most the number is
      prime. */
  lemma PrimeWithoutSmallFactor(t: nat)
    requires t >= 2 && forall p: nat :: IsPrime(p) && p * p <= t ==> t % p != 0
    ensures IsPrime(t)
  {
    if !IsPrime(t) {
      var p := LeastPrimeFactor(t);
    }
  }
}
