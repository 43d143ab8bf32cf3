// Day 21: what the player wears. A loadout is exactly one weapon, at most
// one piece of armor and up to two rings; its cost, damage and armor are
// the sums over the items worn. The crate defines the loadout twice, once
// collecting the worn items into a vector and once summing over the four
// optional slots; both are modelled here and shown to agree.

module Day21Loadout {
  import opened Text
  import opened Day21Items

  datatype Loadout = Loadout(weapon: Item, armor: Option<Item>, ringL: Option<Item>, ringR: Option<Item>)

  /** An optional slot holds nothing or an item of the given kind. */
  predicate SlotHolds(slot: Option<Item>, itype: ItemType)
  {
    slot.None? || slot.value.itype == itype
  }

  /** Each item sits in the slot for its kind. */
  predicate WellTyped(l: Loadout)
  {
    l.weapon.itype == Weapon && SlotHolds(l.armor, Armor) && SlotHolds(l.ringL, Ring) && SlotHolds(l.ringR, Ring)
  }

  /** `Loadout::new`: a loadout, unless some item is in the wrong slot. */
  function NewLoadout(weapon: Item, armor: Option<Item>, ringL: Option<Item>, ringR: Option<Item>): (r: Option<Loadout>)
    ensures r.Some? <==> WellTyped(Loadout(weapon, armor, ringL, ringR))
    ensures r.Some? ==> r.value == Loadout(weapon, armor, ringL, ringR)
  {
    if weapon.itype != Weapon then None
    else if armor.Some? && armor.value.itype != Armor then None
    else if ringL.Some? && ringL.value.itype != Ring then None
    else if ringR.Some? && ringR.value.itype != Ring then None
    else Some(Loadout(weapon, armor, ringL, ringR))
  }

  /** The items present in a list of optional slots, in order. */
  function Present(slots: seq<Option<Item>>): (r: seq<Item>)
    ensures |r| <= |slots|
    ensures forall x :: x in r <==> Some(x) in slots
  {
    if slots == [] then []
    else (if slots[0].Some? then [slots[0].value] else []) + Present(slots[1..])
  }

  /** `equipped`: the four slots, the weapon always filled. */
  function Equipped(l: Loadout): seq<Option<Item>>
  {
    [Some(l.weapon), l.armor, l.ringL, l.ringR]
  }

  /** `as_vec` of the older loadout: the items worn. */
  function AsVec(l: Loadout): (r: seq<Item>)
    ensures 1 <= |r| <= 4 && r[0] == l.weapon
    ensures forall x :: x in r <==> x == l.weapon || Some(x) in [l.armor, l.ringL, l.ringR]
  {
    Present(Equipped(l))
  }

  /** The sum of one statistic over a list of items. */
  function SumOver(items: seq<Item>, f: Item -> nat): nat
  {
    if items == [] then 0 else f(items[0]) + SumOver(items[1..], f)
  }

  /** The value of a slot: the statistic of its item, 0 when empty. */
  function SlotValue(slot: Option<Item>, f: Item -> nat): nat
  {
    if slot.Some? then f(slot.value) else 0
  }

  function SlotSum(slots: seq<Option<Item>>, f: Item -> nat): nat
  {
    if slots == [] then 0 else SlotValue(slots[0], f) + SlotSum(slots[1..], f)
  }

  /** Summing over the items present is summing the slot values, empty
      slots counting 0. */
  lemma {:induction false} SumPresent(slots: seq<Option<Item>>, f: Item -> nat)
    ensures SumOver(Present(slots), f) == SlotSum(slots, f)
  {
    if slots != [] {
      SumPresent(slots[1..], f);
      if slots[0].Some? {
        var rest := Present(slots[1..]);
        assert ([slots[0].value] + rest)[1..] == rest;
      } else {
        assert [] + Present(slots[1..]) == Present(slots[1..]);
      }
    }
  }

  /** `equipped_sum_by`: a statistic summed over the filled slots. */
  function EquippedSumBy(l: Loadout, f: Item -> nat): (r: nat)
    ensures r == f(l.weapon) + SlotValue(l.armor, f) + SlotValue(l.ringL, f) + SlotValue(l.ringR, f)
  {
    SumPresent(Equipped(l), f);
    SlotSumFour(Some(l.weapon), l.armor, l.ringL, l.ringR, f);
    SumOver(Present(Equipped(l)), f)
  }

  lemma SlotSumFour(a: Option<Item>, b: Option<Item>, c: Option<Item>, d: Option<Item>, f: Item -> nat)
    ensures SlotSum([a, b, c, d], f) == SlotValue(a, f) + SlotValue(b, f) + SlotValue(c, f) + SlotValue(d, f)
  {
    assert [a, b, c, d][1..] == [b, c, d] && [b, c, d][1..] == [c, d];
    assert [c, d][1..] == [d] && [d][1..] == [];
    assert SlotSum([d], f) == SlotValue(d, f);
    assert SlotSum([c, d], f) == SlotValue(c, f) + SlotSum([d], f);
    assert SlotSum([b, c, d], f) == SlotValue(b, f) + SlotSum([c, d], f);
  }

  function Cost(l: Loadout): nat
  {
    EquippedSumBy(l, (i: Item) => i.cost)
  }

  function Damage(l: Loadout): nat
  {
    EquippedSumBy(l, (i: Item) => i.damage)
  }

  function ArmorOf(l: Loadout): nat
  {
    EquippedSumBy(l, (i: Item) => i.armor)
  }

  /** The older `cost`, `damage` and `armor` fold over `as_vec`; they agree
      with the slot sums, and a bare weapon alone counts fully. */
  lemma StatsAgree(l: Loadout)
    ensures Cost(l) == SumOver(AsVec(l), (i: Item) => i.cost)
    ensures Damage(l) == SumOver(AsVec(l), (i: Item) => i.damage)
    ensures ArmorOf(l) == SumOver(AsVec(l), (i: Item) => i.armor)
    ensures l.armor.None? && l.ringL.None? && l.ringR.None? ==>
      Cost(l) == l.weapon.cost && Damage(l) == l.weapon.damage && ArmorOf(l) == l.weapon.armor
  {
  }
}
