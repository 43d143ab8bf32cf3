// Day 20, by brute force: every elf walks along the street and drops
// presents into an array of house totals, and the first house whose total
// reaches the target is the answer. The plain elves leave ten presents per
// elf number at every multiple of their number; the lazy elves of the
// second part leave eleven and stop after fifty houses.

module Day20Houses {
  import opened Day20Primes
  import opened Day20

  /** How far an elf walks: along the whole street, or only its first
      `visits` stops. */
  datatype Limit = Unlimited | FirstVisits(visits: nat)

  /** Elf `e` stops at `e`, `2e`, `3e`, … ; a limited elf makes only its
      first `visits` stops. */
  predicate Stops(e: nat, x: nat, limit: Limit)
  {
    1 <= e && x % e == 0 && 1 <= x / e && (limit.Unlimited? || x / e <= limit.visits)
  }

  /** The presents house `x` gets from elves `1..k`, each leaving `per`
      times its number. */
  function Gifts(x: nat, k: nat, per: nat, limit: Limit): nat
  {
    if k == 0 then 0 else Gifts(x, k - 1, per, limit) + (if Stops(k, x, limit) then per * k else 0)
  }

  /** Everything house `x` gets: no elf numbered above `x` stops there. */
  function Presents(x: nat, per: nat, limit: Limit): nat
  {
    Gifts(x, x, per, limit)
  }

  /** The first house from `from` on, and below `stop`, that gets at least
      `n` presents; 0 when there is none. */
  function FirstReaching(n: nat, per: nat, limit: Limit, from: nat, stop: nat): nat
    decreases stop - from
  {
    if from >= stop then 0
    else if Presents(from, per, limit) >= n then from
    else FirstReaching(n, per, limit, from + 1, stop)
  }

  /** The answer the brute force gives for target `n`: it looks at the
      houses below `n / 10 + 1`. */
  function FirstHouseOf(n: nat, per: nat, limit: Limit): nat
  {
    FirstReaching(n, per, limit, 0, n / 10 + 1)
  }

  // ---------------------------------------------------------------------
  // Division facts

  lemma MultipleDiv(m: nat, e: nat)
    requires e >= 1
    ensures (m * e) % e == 0 && (m * e) / e == m
  {
    var q, r := (m * e) / e, (m * e) % e;
    assert m * e == q * e + r;
    if q < m {
      assert (m - q) * e == r;
      MoreThan(m - q, e);
    } else if q > m {
      assert (q - m) * e + r == 0;
      MoreThan(q - m, e);
    }
  }

  lemma MoreThan(a: nat, e: nat)
    requires a >= 1 && e >= 1
    ensures a * e >= e
  {
  }

  lemma DivisorShape(x: nat, e: nat)
    requires e >= 1 && x % e == 0
    ensures x == (x / e) * e
  {
  }

  /** Elf `e` has made its stops at `e, …, (m - 1) * e`. */
  predicate Stopped(e: nat, x: nat, m: nat)
    requires e >= 1
  {
    x % e == 0 && 1 <= x / e < m
  }

  lemma StopStep(e: nat, m: nat, x: nat)
    requires e >= 1 && m >= 1
    ensures Stopped(e, x, m + 1) <==> Stopped(e, x, m) || x == m * e
  {
    MultipleDiv(m, e);
    if x % e == 0 && x / e == m {
      DivisorShape(x, e);
    }
  }

  /** Once an elf has walked past the end of the street, or used up its
      stops, its stops below `stop` are exactly the ones it made. */
  lemma StopsDone(e: nat, m: nat, x: nat, stop: nat, limit: Limit)
    requires e >= 1 && m >= 1 && x < stop
    requires limit.FirstVisits? ==> m <= limit.visits + 1
    requires m * e >= stop || (limit.FirstVisits? && m == limit.visits + 1)
    ensures Stopped(e, x, m) <==> Stops(e, x, limit)
  {
    if x % e == 0 && m * e >= stop {
      DivisorShape(x, e);
      if x / e >= m {
        MulLe(e, m, x / e);
      }
    }
  }

  // ---------------------------------------------------------------------
  // Delivery

  /** The houses array after every elf below `stop` has been round:
      element `x` holds everything house `x` gets. */
  method Deliver(stop: nat, per: nat, limit: Limit) returns (houses: array<nat>)
    ensures houses.Length == stop
    ensures forall x :: 0 <= x < stop ==> houses[x] == Presents(x, per, limit)
  {
    houses := new nat[stop](_ => 0);
    var elf := 1;
    while elf < stop
      invariant 1 <= elf && (stop >= 1 ==> elf <= stop)
      invariant houses.Length == stop
      invariant forall x :: 0 <= x < stop ==> houses[x] == Gifts(x, elf - 1, per, limit)
    {
      Walk(houses, elf, per, limit);
      elf := elf + 1;
    }
    forall x | 0 <= x < stop {
      GiftsSettle(x, stop - 1, per, limit);
    }
  }

  /** One elf's walk: it adds `per` times its number at each of its
      stops inside the array, and nowhere else. */
  method Walk(houses: array<nat>, elf: nat, per: nat, limit: Limit)
    requires elf >= 1
    modifies houses
    ensures forall x :: 0 <= x < houses.Length ==>
      houses[x] == old(houses[x]) + (if Stops(elf, x, limit) then per * elf else 0)
  {
    var stop := houses.Length;
    var j, m := elf, 1;
    while j < stop && (limit.Unlimited? || m <= limit.visits)
      invariant j == m * elf && m >= 1
      invariant limit.FirstVisits? ==> m <= limit.visits + 1
      invariant forall x :: 0 <= x < stop ==>
        houses[x] == old(houses[x]) + (if Stopped(elf, x, m) then per * elf else 0)
      decreases stop - j
    {
      forall x | 0 <= x < stop {
        StopStep(elf, m, x);
      }
      houses[j] := houses[j] + per * elf;
      j, m := j + elf, m + 1;
    }
    forall x | 0 <= x < stop {
      StopsDone(elf, m, x, stop, limit);
    }
  }

  /** `first_house_with_n_presents` and its lazy variant: deliver, then
      return the first house with at least `n` presents, or 0. */
  method FirstHouse(n: nat, per: nat, limit: Limit) returns (house: nat)
    ensures house == FirstHouseOf(n, per, limit)
  {
    var stop := n / 10 + 1;
    var houses := Deliver(stop, per, limit);
    for i := 0 to stop
      invariant FirstReaching(n, per, limit, i, stop) == FirstHouseOf(n, per, limit)
    {
      if houses[i] >= n {
        return i;
      }
    }
    return 0;
  }

  method FirstHouseWithPresents(n: nat) returns (house: nat)
    ensures house == FirstHouseOf(n, 10, Unlimited)
  {
    house := FirstHouse(n, 10, Unlimited);
  }

  method FirstHouseWithPresentsLimited(n: nat) returns (house: nat)
    ensures house == FirstHouseOf(n, 11, FirstVisits(50))
  {
    house := FirstHouse(n, 11, FirstVisits(50));
  }

  // ---------------------------------------------------------------------
  // What the delivery totals are

  /** Elves numbered above `x` add nothing to house `x`. */
  lemma {:induction false} GiftsSettle(x: nat, k: nat, per: nat, limit: Limit)
    requires k >= x
    ensures Gifts(x, k, per, limit) == Presents(x, per, limit)
    decreases k
  {
    if k > x {
      if Stops(k, x, limit) {
        DivisorShape(x, k);
        MoreThan(x / k, k);
        assert false;
      }
      GiftsSettle(x, k - 1, per, limit);
    }
  }

  lemma {:induction false} GiftsMono(x: nat, j: nat, k: nat, per: nat, limit: Limit)
    requires j <= k
    ensures Gifts(x, j, per, limit) <= Gifts(x, k, per, limit)
    decreases k
  {
    if j < k {
      GiftsMono(x, j, k - 1, per, limit);
    }
  }

  /** The divisors of `x`. */
  function Divisors(x: nat): (r: set<nat>)
    ensures forall d :: d in r ==> 1 <= d <= x
  {
    set d | 1 <= d <= x && x % d == 0
  }

  /** Without a limit, elf `k` stops at `x` exactly when `k` divides it. */
  lemma StopsIsDivisor(k: nat, x: nat)
    ensures Stops(k, x, Unlimited) <==> k in Divisors(x)
  {
    if 1 <= k && x % k == 0 {
      DivisorShape(x, k);
      if 1 <= x / k {
        MoreThan(x / k, k);
      }
    }
  }

  lemma {:induction false} GiftsDivisors(x: nat, k: nat)
    ensures Gifts(x, k, 10, Unlimited) == 10 * SumBelow(Divisors(x), k + 1)
    decreases k
  {
    if k > 0 {
      GiftsDivisors(x, k - 1);
      StopsIsDivisor(k, x);
    } else {
      assert 0 !in Divisors(x);
    }
  }

  /** The plain elves give each house ten times the sum of its
      divisors. */
  lemma PresentsAreDivisorSums(x: nat)
    ensures Presents(x, 10, Unlimited) == 10 * SumBelow(Divisors(x), x + 1)
  {
    GiftsDivisors(x, x);
  }

  // ---------------------------------------------------------------------
  // What the search returns

  /** The answer is the first house below `stop` that reaches the
      target; 0 when none does. */
  lemma {:induction false} FirstReachingIsFirst(n: nat, per: nat, limit: Limit, from: nat, stop: nat)
    ensures var r := FirstReaching(n, per, limit, from, stop);
      (r == 0 || from <= r < stop) && forall i :: from <= i < r ==> Presents(i, per, limit) < n
    ensures var r := FirstReaching(n, per, limit, from, stop);
      (exists i :: from <= i < stop && Presents(i, per, limit) >= n) ==> from <= r && Presents(r, per, limit) >= n
    ensures (forall i :: from <= i < stop ==> Presents(i, per, limit) < n) ==> FirstReaching(n, per, limit, from, stop) == 0
    decreases stop - from
  {
    if from < stop && Presents(from, per, limit) < n {
      FirstReachingIsFirst(n, per, limit, from + 1, stop);
    }
  }

  /** What the brute force promises: a house at least `n` presents, and no
      house before it with that many; or 0 when no house below
      `n / 10 + 1` qualifies. */
  lemma FirstHouseMeaning(n: nat, per: nat, limit: Limit)
    ensures var r := FirstHouseOf(n, per, limit);
      r <= n / 10 && forall i: nat :: i < r ==> Presents(i, per, limit) < n
    ensures (exists i: nat :: i <= n / 10 && Presents(i, per, limit) >= n) ==>
      Presents(FirstHouseOf(n, per, limit), per, limit) >= n
    ensures (forall i: nat :: i <= n / 10 ==> Presents(i, per, limit) < n) ==> FirstHouseOf(n, per, limit) == 0
  {
    FirstReachingIsFirst(n, per, limit, 0, n / 10 + 1);
  }

  /** The bound in the source's comment: from a target of 20 on, house
      `n / 10` already has enough, from its own elf and from elf 1 (which,
      when lazy, no longer reaches it only once `n / 10` exceeds 50, and
      then eleven times `n / 10` is enough alone). */
  lemma HouseTenthSuffices(n: nat, per: nat, limit: Limit)
    requires n >= 20
    requires (per, limit) == (10, Unlimited) || (per, limit) == (11, FirstVisits(50))
    ensures Presents(n / 10, per, limit) >= n
  {
    var q := n / 10;
    assert Stops(q, q, limit) by {
      MultipleDiv(1, q);
    }
    assert Gifts(q, q, per, limit) == Gifts(q, q - 1, per, limit) + per * q;
    GiftsMono(q, 1, q - 1, per, limit);
    if q <= 50 || limit.Unlimited? {
      assert Stops(1, q, limit);
      assert Gifts(q, 1, per, limit) == per;
    } else {
      assert per * q >= n;
    }
  }

  /** Hence from 20 presents on the answer is a real house (not 0), no
      further out than `n / 10`. */
  lemma FirstHouseFound(n: nat, per: nat, limit: Limit)
    requires n >= 20
    requires (per, limit) == (10, Unlimited) || (per, limit) == (11, FirstVisits(50))
    ensures 1 <= FirstHouseOf(n, per, limit) <= n / 10
    ensures Presents(FirstHouseOf(n, per, limit), per, limit) >= n
  {
    HouseTenthSuffices(n, per, limit);
    FirstHouseMeaning(n, per, limit);
    assert Presents(0, per, limit) == 0;
  }

  /** Below 20 the bound fails: for 1 to 9 presents the street searched is
      house 0 alone and the answer is 0, although house 1 gets 10; for 11
      to 19 it is houses 0 and 1, and house 2 (30 presents) is not looked
      at. */
  lemma SmallTargetsMissed(n: nat)
    requires 1 <= n <= 19 && n != 10
    ensures FirstHouseOf(n, 10, Unlimited) == 0
    ensures Presents(1, 10, Unlimited) == 10 && Presents(2, 10, Unlimited) == 30
  {
    assert Presents(0, 10, Unlimited) == 0;
    assert Stops(1, 1, Unlimited);
    assert Presents(1, 10, Unlimited) == 10;
    if n > 10 {
      assert FirstReaching(n, 10, Unlimited, 1, 2) == 0;
    }
  }

  /** The totals of the first nine houses, as listed for the sieve's
      `presents_at`. */
  lemma FirstNineHouses()
    ensures Presents(1, 10, Unlimited) == 10 && Presents(2, 10, Unlimited) == 30
    ensures Presents(3, 10, Unlimited) == 40 && Presents(4, 10, Unlimited) == 70
    ensures Presents(5, 10, Unlimited) == 60 && Presents(6, 10, Unlimited) == 120
    ensures Presents(7, 10, Unlimited) == 80 && Presents(8, 10, Unlimited) == 150
    ensures Presents(9, 10, Unlimited) == 130
  {
    HousesOneToThree();
    HousesFourToSix();
    HousesSevenToNine();
  }

  lemma HousesOneToThree()
    ensures Presents(1, 10, Unlimited) == 10 && Presents(2, 10, Unlimited) == 30
    ensures Presents(3, 10, Unlimited) == 40
  {
  }

  lemma HousesFourToSix()
    ensures Presents(4, 10, Unlimited) == 70 && Presents(5, 10, Unlimited) == 60
    ensures Presents(6, 10, Unlimited) == 120
  {
  }

  lemma HousesSevenToNine()
    ensures Presents(7, 10, Unlimited) == 80 && Presents(8, 10, Unlimited) == 150
    ensures Presents(9, 10, Unlimited) == 130
  {
  }

  /** The examples: 25, 50, 100 and 150 presents are first reached at
      houses 2, 4, 6 and 8. */
  lemma FirstHouseExamples()
    ensures FirstHouseOf(25, 10, Unlimited) == 2
    ensures FirstHouseOf(50, 10, Unlimited) == 4
    ensures FirstHouseOf(100, 10, Unlimited) == 6
    ensures FirstHouseOf(150, 10, Unlimited) == 8
  {
    FirstNineHouses();
    assert Presents(0, 10, Unlimited) == 0;
    assert FirstReaching(25, 10, Unlimited, 0, 3) == 2;
    assert FirstReaching(50, 10, Unlimited, 0, 6) == 4;
    assert FirstReaching(100, 10, Unlimited, 0, 11) == 6;
    assert FirstReaching(150, 10, Unlimited, 0, 16) == 8;
  }

  lemma HouseTwentyEightDelivered()
    ensures Presents(28, 10, Unlimited) == 560
  {
    assert Gifts(28, 4, 10, Unlimited) == 70;
    assert Gifts(28, 7, 10, Unlimited) == 140;
    assert Gifts(28, 14, 10, Unlimited) == 280;
    assert Gifts(28, 21, 10, Unlimited) == 280;
  }

  /** House 28 gets ten times 1 + 2 + 4 + 7 + 14 + 28 from the brute force,
      while the sieve's `presents_at` finds only 450. */
  lemma HouseTwentyEightDisagrees()
    ensures Presents(28, 10, Unlimited) == 560
    ensures 10 * SumBelow(FactorSet(28), 30) == 450
  {
    HouseTwentyEightDelivered();
    HouseTwentyEight();
  }
}
