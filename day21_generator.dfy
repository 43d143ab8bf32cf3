// Day 21: the loadout generator. It walks the loadouts like an odometer
// whose wheels are the weapon, the armor, the right ring and the left ring:
// the weapon turns fastest and each wheel carries into the next when it
// wraps. Every wheel except the weapon has an extra "nothing" position.
// Once the right ring wraps, it restarts just above the left ring, so that
// the right ring is meant to stay above the left one; when the left ring is
// the last ring there is no such position, and the generator skips one
// step by advancing a second time. The wheels are modelled as positions
// (`Pos`: 0 for nothing, `i + 1` for the item at index `i`) and a cursor
// over them.

module Day21Generator {
  import opened Text
  import opened Day21Items
  import opened Day21Loadout

  // ---------------------------------------------------------------------
  // Splitting the stock by kind

  /** The items of one kind, in the order given. */
  function OfType(items: seq<Item>, itype: ItemType): (r: seq<Item>)
    ensures |r| <= |items|
  {
    if items == [] then []
    else
      var last := items[|items| - 1];
      OfType(items[..|items| - 1], itype) + (if last.itype == itype then [last] else [])
  }

  /** The items of one kind are the items in the stock of that kind. */
  lemma {:induction false} OfTypeMembers(items: seq<Item>, itype: ItemType)
    ensures forall x :: x in OfType(items, itype) <==> x in items && x.itype == itype
  {
    if items != [] {
      var m := |items| - 1;
      OfTypeMembers(items[..m], itype);
      assert items == items[..m] + [items[m]];
    }
  }

  /** Splitting by kind loses and invents nothing: the three parts together
      are as long as the stock. */
  lemma {:induction false} PartitionSizes(items: seq<Item>)
    ensures |OfType(items, Weapon)| + |OfType(items, Armor)| + |OfType(items, Ring)| == |items|
  {
    if items != [] {
      PartitionSizes(items[..|items| - 1]);
    }
  }

  /** The loop of `LoadoutGenerator::new`: each item goes to the end of
      the list for its kind. */
  method Partition(items: seq<Item>) returns (weapons: seq<Item>, armors: seq<Item>, rings: seq<Item>)
    ensures weapons == OfType(items, Weapon) && armors == OfType(items, Armor) && rings == OfType(items, Ring)
  {
    weapons, armors, rings := [], [], [];
    for i := 0 to |items|
      invariant weapons == OfType(items[..i], Weapon)
      invariant armors == OfType(items[..i], Armor)
      invariant rings == OfType(items[..i], Ring)
    {
      assert items[..i + 1][..i] == items[..i];
      match items[i].itype {
        case Weapon => weapons := weapons + [items[i]];
        case Armor => armors := armors + [items[i]];
        case Ring => rings := rings + [items[i]];
      }
    }
    assert items[..|items|] == items;
  }

  /** Each list holds items of its own kind only. */
  predicate Sorted(weapons: seq<Item>, armors: seq<Item>, rings: seq<Item>)
  {
    (forall x :: x in weapons ==> x.itype == Weapon)
    && (forall x :: x in armors ==> x.itype == Armor)
    && (forall x :: x in rings ==> x.itype == Ring)
  }

  /** The shop splits into its five weapons, five armors and six rings, in
      the shop's order. */
  lemma ShopSplit()
    ensures OfType(ItemShop(), Weapon) == ItemShop()[..5]
    ensures OfType(ItemShop(), Armor) == ItemShop()[5..10]
    ensures OfType(ItemShop(), Ring) == ItemShop()[10..]
  {
    var shop := ItemShop();
    ShopLayout();
    assert shop[..16] == shop;
    OfTypeRun(shop, Weapon, 0, 5, 16);
    OfTypeRun(shop, Armor, 5, 10, 16);
    OfTypeRun(shop, Ring, 10, 16, 16);
  }

  function Min(x: nat, y: nat): nat
  {
    if x <= y then x else y
  }

  /** When the items of one kind are exactly those in one run, the items of
      that kind in a prefix are the part of the run inside it. */
  lemma {:induction false} OfTypeRun(items: seq<Item>, itype: ItemType, lo: nat, hi: nat, n: nat)
    requires lo <= hi <= |items| && n <= |items|
    requires forall k :: 0 <= k < |items| ==> (items[k].itype == itype <==> lo <= k < hi)
    ensures OfType(items[..n], itype) == items[Min(lo, n)..Min(hi, n)]
  {
    if n > 0 {
      var m := n - 1;
      var prefix := items[..n];
      assert prefix[..m] == items[..m] && prefix[m] == items[m];
      assert OfType(prefix, itype) == OfType(items[..m], itype) + (if items[m].itype == itype then [items[m]] else []);
      OfTypeRun(items, itype, lo, hi, m);
      if lo <= m < hi {
        assert items[m].itype == itype;
        SliceSnoc(items, lo, n);
      } else if m < lo {
        assert items[m].itype != itype;
        assert items[Min(lo, n)..Min(hi, n)] == [];
      } else {
        assert items[m].itype != itype;
        assert Min(lo, n) == Min(lo, m) && Min(hi, n) == Min(hi, m);
      }
    }
  }

  lemma SliceSnoc(s: seq<Item>, lo: nat, n: nat)
    requires lo < n <= |s|
    ensures s[lo..n] == s[lo..n - 1] + [s[n - 1]]
  {
  }

  // ---------------------------------------------------------------------
  // Wheels

  /** The position of a wheel: 0 for nothing, `i + 1` for index `i`. */
  function Pos(item: Option<nat>): (p: nat)
    ensures p == 0 <==> item.None?
  {
    if item.None? then 0 else item.value + 1
  }

  /** The wheel at a position. */
  function FromPos(p: nat): (item: Option<nat>)
    ensures Pos(item) == p
  {
    if p == 0 then None else Some(p - 1)
  }

  /** One turn of a wheel over a collection of `len` items: its position
      counts on modulo `len + 1`, so that after the last item it comes back
      to nothing. */
  function Bump(item: Option<nat>, len: nat): Option<nat>
  {
    FromPos((Pos(item) + 1) % (len + 1))
  }

  /** In the source's terms: nothing becomes the first item if there is
      one; an item becomes the next one, or nothing after the last. */
  lemma BumpCases(item: Option<nat>, len: nat)
    requires Pos(item) <= len
    ensures item.None? ==> Bump(item, len) == (if len > 0 then Some(0) else None)
    ensures item.Some? ==> Bump(item, len) == (if item.value + 1 < len then Some(item.value + 1) else None)
  {
    BumpPos(item, len);
  }

  /** A wheel before its last position moves up one; at its last position
      it wraps to nothing. */
  lemma BumpPos(item: Option<nat>, len: nat)
    requires Pos(item) <= len
    ensures Pos(item) < len ==> Pos(Bump(item, len)) == Pos(item) + 1
    ensures Pos(item) == len ==> Bump(item, len).None?
  {
    var p := Pos(item) + 1;
    if p < len + 1 {
      ModSmall(p, len + 1);
    } else {
      assert p == len + 1;
    }
  }

  lemma ModSmall(x: nat, m: nat)
    requires x < m
    ensures x % m == x
  {
  }

  /** `increment_item`: turn one wheel; true when it has come back to
      nothing. */
  method IncrementItem(item: Option<nat>, collection: seq<Item>) returns (next: Option<nat>, rolled: bool)
    ensures rolled <==> next.None?
    ensures Pos(item) <= |collection| ==> next == Bump(item, |collection|)
    ensures Pos(item) > |collection| ==> next.None?
    ensures next.Some? ==> next.value < |collection|
  {
    next := item;
    match item {
      case None =>
        if |collection| != 0 {
          next := Some(0);
        }
      case Some(current) =>
        var idx := current + 1;
        if idx < |collection| {
          next := Some(idx);
        } else {
          next := None;
        }
    }
    if Pos(item) <= |collection| {
      BumpCases(item, |collection|);
    }
    rolled := next.None?;
  }

  // ---------------------------------------------------------------------
  // The cursor and its rank

  datatype Cursor = Cursor(weapon: nat, armor: Option<nat>, ringL: Option<nat>, ringR: Option<nat>, firstCall: bool)

  /** Where a fresh generator stands. */
  function Start(): Cursor
  {
    Cursor(0, None, None, None, true)
  }

  /** Every wheel within its collection of `w` weapons, `a` armors and `r`
      rings; a generator that has not yielded yet is at the start. */
  predicate InRange(c: Cursor, w: nat, a: nat, r: nat)
  {
    (w > 0 ==> c.weapon < w) && Pos(c.armor) <= a && Pos(c.ringL) <= r && Pos(c.ringR) <= r
    && (c.firstCall ==> c == Start())
  }

  /** A number written with digit `d` in base `b` below the more
      significant `rest`. */
  function Mixed(d: nat, b: nat, rest: nat): nat
  {
    d + b * rest
  }

  /** The odometer reading: the weapon is the least significant wheel, then
      the armor, the right ring and the left ring. */
  function Rank(c: Cursor, w: nat, a: nat, r: nat): nat
  {
    Mixed(c.weapon, w, Mixed(Pos(c.armor), a + 1, Mixed(Pos(c.ringR), r + 1, Pos(c.ringL))))
  }

  /** How far the generator has come: 0 before the first loadout, then one
      more than the odometer reading. */
  function Progress(c: Cursor, w: nat, a: nat, r: nat): nat
  {
    if c.firstCall then 0 else 1 + Rank(c, w, a, r)
  }

  /** The number of odometer readings. */
  function Readings(w: nat, a: nat, r: nat): nat
  {
    w * ((a + 1) * ((r + 1) * (r + 1)))
  }

  lemma MixedCarry(b: nat, rest: nat)
    requires b >= 1
    ensures Mixed(0, b, rest + 1) == Mixed(b - 1, b, rest) + 1
  {
  }

  /** A larger upper part outweighs any digit. */
  lemma MixedBelow(d: nat, b: nat, rest: nat, d': nat, rest': nat)
    requires d < b && rest < rest'
    ensures Mixed(d, b, rest) < Mixed(d', b, rest')
  {
    MulMono(b, rest + 1, rest');
  }

  lemma MixedBound(d: nat, b: nat, rest: nat, m: nat)
    requires d < b && rest < m
    ensures Mixed(d, b, rest) < b * m
  {
    MulMono(b, rest + 1, m);
  }

  lemma MulMono(b: nat, x: nat, y: nat)
    requires x <= y
    ensures b * x <= b * y
  {
  }

  /** A reading is below the number of readings. */
  lemma RankBound(c: Cursor, w: nat, a: nat, r: nat)
    requires w > 0 && InRange(c, w, a, r)
    ensures Rank(c, w, a, r) < Readings(w, a, r)
  {
    var rings := Mixed(Pos(c.ringR), r + 1, Pos(c.ringL));
    MixedBound(Pos(c.ringR), r + 1, Pos(c.ringL), r + 1);
    var upper := Mixed(Pos(c.armor), a + 1, rings);
    MixedBound(Pos(c.armor), a + 1, rings, (r + 1) * (r + 1));
    MixedBound(c.weapon, w, upper, (a + 1) * ((r + 1) * (r + 1)));
  }

  // ---------------------------------------------------------------------
  // One step of the generator

  /** What turning the wheels comes to: a new loadout, the end of the
      round, or a reading that has to be skipped. */
  datatype Turned = Moved | Finished | Skipped

  /** Turning the wheels once the first loadout is out: the weapon moves on,
      or wraps and carries into the armor, which carries into the right
      ring, which carries into the left ring; the right ring then restarts
      just above the left one, which is impossible when the left ring is
      the last. */
  function Turn(c: Cursor, w: nat, a: nat, r: nat): (Turned, Cursor)
  {
    if c.weapon < w - 1 then (Moved, c.(weapon := c.weapon + 1))
    else
      var armor := Bump(c.armor, a);
      if armor.Some? then (Moved, c.(weapon := 0, armor := armor))
      else
        var ringR := Bump(c.ringR, r);
        if ringR.Some? then (Moved, c.(weapon := 0, armor := None, ringR := ringR))
        else
          var ringL := Bump(c.ringL, r);
          if ringL.None? then (Finished, c.(weapon := 0, armor := None, ringL := None, ringR := None))
          else if ringL.value < r - 1 then (Moved, c.(weapon := 0, armor := None, ringL := ringL, ringR := Some(ringL.value + 1)))
          else (Skipped, c.(weapon := 0, armor := None, ringL := ringL, ringR := None))
  }

  /** A skip happens only as the right ring wraps; afterwards the right
      ring stands at nothing and the left ring on the last ring. */
  lemma SkipShape(c: Cursor, w: nat, a: nat, r: nat)
    requires Turn(c, w, a, r).0 == Skipped
    ensures c.ringR.Some? && r >= 1
    ensures Turn(c, w, a, r).1 == c.(weapon := 0, armor := None, ringL := Some(r - 1), ringR := None)
  {
    if r > 0 && c.ringR.None? {
      BumpPos(c.ringR, r);
    }
  }

  /** `next` on a cursor over `w` weapons, `a` armors and `r` rings: whether
      a loadout comes out, and the cursor it is then read from. */
  function Advance(c: Cursor, w: nat, a: nat, r: nat): (bool, Cursor)
    decreases if c.ringR.Some? then 1 else 0
  {
    if w == 0 then (false, c)
    else if c.firstCall then (true, c.(firstCall := false))
    else
      var (turned, next) := Turn(c, w, a, r);
      if turned == Skipped then
        SkipShape(c, w, a, r);
        Advance(next, w, a, r)
      else (turned == Moved, next)
  }

  /** Turning the wheels keeps each within its collection. */
  lemma TurnInRange(c: Cursor, w: nat, a: nat, r: nat)
    requires InRange(c, w, a, r) && !c.firstCall
    ensures InRange(Turn(c, w, a, r).1, w, a, r)
  {
    BumpPos(c.armor, a);
    BumpPos(c.ringR, r);
    BumpPos(c.ringL, r);
  }

  /** A step keeps every wheel within its collection. */
  lemma AdvanceInRange(c: Cursor, w: nat, a: nat, r: nat)
    requires InRange(c, w, a, r)
    ensures InRange(Advance(c, w, a, r).1, w, a, r)
    decreases if c.ringR.Some? then 1 else 0
  {
    if w > 0 && !c.firstCall {
      TurnInRange(c, w, a, r);
      if Turn(c, w, a, r).0 == Skipped {
        SkipShape(c, w, a, r);
        AdvanceInRange(Turn(c, w, a, r).1, w, a, r);
      }
    }
  }

  /** Turning the weapon, the armor or the right ring moves the odometer
      on by exactly one reading: nothing is skipped on those wheels. */
  lemma OdometerStep(c: Cursor, w: nat, a: nat, r: nat)
    requires w > 0 && InRange(c, w, a, r) && !c.firstCall
    requires c.weapon < w - 1 || Bump(c.armor, a).Some? || Bump(c.ringR, r).Some?
    ensures Advance(c, w, a, r).0
    ensures Rank(Advance(c, w, a, r).1, w, a, r) == Rank(c, w, a, r) + 1
  {
    if c.weapon >= w - 1 {
      var rings := Mixed(Pos(c.ringR), r + 1, Pos(c.ringL));
      BumpPos(c.armor, a);
      if Bump(c.armor, a).Some? {
        MixedCarry(w, Mixed(Pos(c.armor), a + 1, rings));
      } else {
        BumpPos(c.ringR, r);
        MixedCarry(a + 1, rings);
        MixedCarry(w, Mixed(a, a + 1, rings));
      }
    }
  }

  /** When the right ring wraps and the left ring moves on, the odometer
      jumps ahead. */
  lemma RingCarry(c: Cursor, w: nat, a: nat, r: nat)
    requires w > 0 && InRange(c, w, a, r) && !c.firstCall && c.weapon == w - 1
    requires Pos(c.armor) == a && Pos(c.ringR) == r && Pos(c.ringL) < r
    ensures c.ringR.Some? && Bump(c.armor, a).None? && Bump(c.ringR, r).None?
    ensures Bump(c.ringL, r).Some? && Pos(Bump(c.ringL, r)) == Pos(c.ringL) + 1
    ensures forall e: nat :: e <= r ==>
      Rank(c, w, a, r) < Rank(Cursor(0, None, Bump(c.ringL, r), FromPos(e), false), w, a, r)
  {
    BumpPos(c.armor, a);
    BumpPos(c.ringR, r);
    BumpPos(c.ringL, r);
    var ringL := Bump(c.ringL, r);
    forall e: nat | e <= r
      ensures Rank(c, w, a, r) < Rank(Cursor(0, None, ringL, FromPos(e), false), w, a, r)
    {
      var rings := Mixed(Pos(c.ringR), r + 1, Pos(c.ringL));
      var rings' := Mixed(e, r + 1, Pos(ringL));
      MixedBelow(Pos(c.ringR), r + 1, Pos(c.ringL), e, Pos(ringL));
      MixedBelow(Pos(c.armor), a + 1, rings, 0, rings');
      MixedBelow(c.weapon, w, Mixed(Pos(c.armor), a + 1, rings), 0, Mixed(0, a + 1, rings'));
    }
  }

  /** Every loadout that comes out is further on than the one before, and
      no cursor gets past the last reading: the generator yields at most
      `Readings` loadouts before it stops. */
  lemma AdvanceProgresses(c: Cursor, w: nat, a: nat, r: nat)
    requires InRange(c, w, a, r)
    ensures Advance(c, w, a, r).0 ==>
      Progress(c, w, a, r) < Progress(Advance(c, w, a, r).1, w, a, r) <= Readings(w, a, r)
    decreases if c.ringR.Some? then 1 else 0
  {
    var (out, next) := Advance(c, w, a, r);
    if out {
      AdvanceInRange(c, w, a, r);
      RankBound(next, w, a, r);
      if !c.firstCall {
        if c.weapon < w - 1 || Bump(c.armor, a).Some? || Bump(c.ringR, r).Some? {
          OdometerStep(c, w, a, r);
        } else {
          BumpPos(c.armor, a);
          BumpPos(c.ringR, r);
          BumpPos(c.ringL, r);
          RingCarry(c, w, a, r);
          var ringL := Bump(c.ringL, r);
          if ringL.value + 1 < r {
            assert Rank(c, w, a, r) < Rank(Cursor(0, None, ringL, FromPos(ringL.value + 2), false), w, a, r);
          } else {
            var skipped := Cursor(0, None, ringL, None, false);
            assert Rank(c, w, a, r) < Rank(skipped, w, a, r) by {
              assert FromPos(0) == None;
            }
            AdvanceProgresses(skipped, w, a, r);
          }
        }
      }
    }
  }

  /** The generator stops exactly when every wheel stands at its last
      position, and it then stands where it started, except that it has
      yielded: calling it once more starts a second round. */
  lemma AdvanceEnds(c: Cursor, w: nat, a: nat, r: nat)
    requires w > 0 && InRange(c, w, a, r)
    ensures !Advance(c, w, a, r).0 <==>
      !c.firstCall && c.weapon == w - 1 && Pos(c.armor) == a && Pos(c.ringR) == r && Pos(c.ringL) == r
    ensures !Advance(c, w, a, r).0 ==> Advance(c, w, a, r).1 == Start().(firstCall := false)
  {
    BumpPos(c.armor, a);
    BumpPos(c.ringR, r);
    BumpPos(c.ringL, r);
    var ringL := Bump(c.ringL, r);
    if !c.firstCall && c.weapon == w - 1 && Pos(c.armor) == a && Pos(c.ringR) == r && ringL.Some? && ringL.value + 1 >= r {
      var skipped := Cursor(0, None, ringL, None, false);
      assert r >= 1;
      BumpPos(None, r);
      assert Advance(skipped, w, a, r).0;
    }
  }

  /** The first call yields the first weapon alone. */
  lemma FirstStep(w: nat, a: nat, r: nat)
    requires w > 0
    ensures Advance(Start(), w, a, r) == (true, Cursor(0, None, None, None, false))
  {
  }

  /** With at least two weapons and two rings, once the right ring (the
      last ring) wraps while the left ring stands on the ring before it,
      the left ring moves to the last ring and the reading just after is
      skipped: the first weapon with no armor, the last ring on the left
      and nothing on the right never comes out. */
  lemma LastRingSkipped(w: nat, a: nat, r: nat)
    requires w >= 2 && r >= 2
    ensures var c := Cursor(w - 1, FromPos(a), Some(r - 2), Some(r - 1), false);
      var skipped := Cursor(0, None, Some(r - 1), None, false);
      Advance(c, w, a, r) == (true, Cursor(1, None, Some(r - 1), None, false))
      && Rank(skipped, w, a, r) == Rank(c, w, a, r) + 1
      && Rank(Advance(c, w, a, r).1, w, a, r) == Rank(c, w, a, r) + 2
  {
    var c := Cursor(w - 1, FromPos(a), Some(r - 2), Some(r - 1), false);
    var skipped := Cursor(0, None, Some(r - 1), None, false);
    BumpPos(c.armor, a);
    BumpPos(c.ringR, r);
    BumpPos(c.ringL, r);
    assert Advance(c, w, a, r) == Advance(skipped, w, a, r);
    var rings := Mixed(r, r + 1, r - 1);
    MixedCarry(r + 1, r - 1);
    MixedCarry(a + 1, rings);
    MixedCarry(w, Mixed(a, a + 1, rings));
  }

  /** After the skip the right ring starts again from the first ring,
      below the left one, and so reaches the last ring on both hands: the
      same ring is put on twice. */
  lemma SameRingTwice(w: nat, a: nat, r: nat)
    requires w >= 1 && r >= 2
    ensures Advance(Cursor(w - 1, FromPos(a), Some(r - 1), None, false), w, a, r)
      == (true, Cursor(0, None, Some(r - 1), Some(0), false))
    ensures Advance(Cursor(w - 1, FromPos(a), Some(r - 1), Some(r - 2), false), w, a, r)
      == (true, Cursor(0, None, Some(r - 1), Some(r - 1), false))
  {
    BumpPos(FromPos(a), a);
    BumpPos(None, r);
    BumpPos(Some(r - 2), r);
  }

  // ---------------------------------------------------------------------
  // The generator

  class LoadoutGenerator {
    var current: Loadout
    var weapons: seq<Item>
    var armors: seq<Item>
    var rings: seq<Item>
    var weaponIndex: nat
    var armorIndex: Option<nat>
    var ringLIndex: Option<nat>
    var ringRIndex: Option<nat>
    var firstCall: bool

    function Position(): Cursor
      reads this
    {
      Cursor(weaponIndex, armorIndex, ringLIndex, ringRIndex, firstCall)
    }

    /** Each collection holds items of its own kind and every wheel is
        within its collection. */
    predicate Valid()
      reads this
    {
      Sorted(weapons, armors, rings) && InRange(Position(), |weapons|, |armors|, |rings|)
    }

    /** `LoadoutGenerator::new`: split the stock by kind, keeping its order,
        and stand at the start; the stock must hold a weapon, since the
        first one is taken as the initial loadout. */
    constructor New(items: seq<Item>)
      requires OfType(items, Weapon) != []
      ensures Valid() && Position() == Start()
      ensures weapons == OfType(items, Weapon) && armors == OfType(items, Armor) && rings == OfType(items, Ring)
      ensures current == Loadout(weapons[0], None, None, None)
    {
      var weaponList, armorList, ringList := Partition(items);
      OfTypeMembers(items, Weapon);
      OfTypeMembers(items, Armor);
      OfTypeMembers(items, Ring);
      var dagger := weaponList[0];
      current := NewLoadout(dagger, None, None, None).value;
      weapons, armors, rings := weaponList, armorList, ringList;
      weaponIndex, armorIndex, ringLIndex, ringRIndex := 0, None, None, None;
      firstCall := true;
    }

    /** `as_loadout`: the items the wheels point at; they sit in the slots
        of their kinds. */
    function AsLoadout(): (l: Loadout)
      reads this
      requires Valid() && |weapons| > 0
      ensures WellTyped(l)
      ensures l.weapon == weapons[weaponIndex]
      ensures l.armor.None? <==> armorIndex.None?
      ensures l.armor.Some? ==> l.armor.value == armors[armorIndex.value]
      ensures l.ringL.None? <==> ringLIndex.None?
      ensures l.ringL.Some? ==> l.ringL.value == rings[ringLIndex.value]
      ensures l.ringR.None? <==> ringRIndex.None?
      ensures l.ringR.Some? ==> l.ringR.value == rings[ringRIndex.value]
    {
      Loadout(weapons[weaponIndex],
              if armorIndex.None? then None else Some(armors[armorIndex.value]),
              if ringLIndex.None? then None else Some(rings[ringLIndex.value]),
              if ringRIndex.None? then None else Some(rings[ringRIndex.value]))
    }

    method IncrementArmor() returns (rolled: bool)
      modifies this`armorIndex
      ensures Pos(old(armorIndex)) <= |armors| ==> armorIndex == Bump(old(armorIndex), |armors|)
      ensures rolled <==> armorIndex.None?
    {
      armorIndex, rolled := IncrementItem(armorIndex, armors);
    }

    method IncrementRingR() returns (rolled: bool)
      modifies this`ringRIndex
      ensures Pos(old(ringRIndex)) <= |rings| ==> ringRIndex == Bump(old(ringRIndex), |rings|)
      ensures rolled <==> ringRIndex.None?
    {
      ringRIndex, rolled := IncrementItem(ringRIndex, rings);
    }

    method IncrementRingL() returns (rolled: bool)
      modifies this`ringLIndex
      ensures Pos(old(ringLIndex)) <= |rings| ==> ringLIndex == Bump(old(ringLIndex), |rings|)
      ensures rolled <==> ringLIndex.None?
    {
      ringLIndex, rolled := IncrementItem(ringLIndex, rings);
    }

    /** The wheel-turning part of `next`, once a loadout has come out. */
    method TurnWheels() returns (turned: Turned)
      requires Valid() && |weapons| > 0 && !firstCall
      modifies this`weaponIndex, this`armorIndex, this`ringLIndex, this`ringRIndex
      ensures (turned, Position()) == Turn(old(Position()), |weapons|, |armors|, |rings|)
    {
      ghost var start, w, a, r := Position(), |weapons|, |armors|, |rings|;
      turned := Moved;
      if weaponIndex < |weapons| - 1 {
        weaponIndex := weaponIndex + 1;
      } else {
        weaponIndex := 0;
        BumpPos(armorIndex, |armors|);
        var armorRolled := IncrementArmor();
        if armorRolled {
          BumpPos(ringRIndex, |rings|);
          var ringRRolled := IncrementRingR();
          if ringRRolled {
            BumpPos(ringLIndex, |rings|);
            var ringLRolled := IncrementRingL();
            if ringLRolled {
              turned := Finished;
            } else {
              var slri := ringLIndex.value;
              if slri < |rings| - 1 {
                ringRIndex := Some(slri + 1);
              } else {
                turned := Skipped;
              }
            }
            assert Turn(start, w, a, r) == (turned, Position());
          } else {
            assert Turn(start, w, a, r) == (Moved, Position());
          }
        } else {
          assert Turn(start, w, a, r) == (Moved, Position());
        }
      }
    }

    /** `next`: one step of the odometer, and the loadout it then points
        at, if any; the collections and the initial loadout do not
        change. */
    method Next() returns (yielded: Option<Loadout>)
      requires Valid()
      modifies this
      ensures Valid()
      ensures weapons == old(weapons) && armors == old(armors) && rings == old(rings) && current == old(current)
      ensures (yielded.Some?, Position()) == Advance(old(Position()), |weapons|, |armors|, |rings|)
      ensures yielded.Some? ==> |weapons| > 0 && yielded.value == AsLoadout()
      decreases if ringRIndex.Some? then 1 else 0
    {
      if |weapons| == 0 {
        return None;
      }
      if firstCall {
        firstCall := false;
        return Some(AsLoadout());
      }
      ghost var start := Position();
      var turned := TurnWheels();
      TurnInRange(start, |weapons|, |armors|, |rings|);
      if turned == Finished {
        return None;
      }
      if turned == Skipped {
        // the left ring is the last ring: skip this reading
        SkipShape(start, |weapons|, |armors|, |rings|);
        yielded := Next();
        return;
      }
      yielded := Some(AsLoadout());
    }
  }
}
