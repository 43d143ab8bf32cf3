// Day 21: the items in the shop. Every item has a kind (weapon, armor or
// ring), a cost and the damage and armor it adds to whoever wears it.

module Day21Items {

  datatype ItemType = Weapon | Armor | Ring

  datatype Item = Item(name: string, itype: ItemType, cost: nat, damage: nat, armor: nat)

  /** An item of the given kind with no name that costs and adds nothing. */
  function Bare(itype: ItemType): (r: Item)
    ensures r.itype == itype && r.name == ""
    ensures r.cost == 0 && r.damage == 0 && r.armor == 0
  {
    Item("", itype, 0, 0, 0)
  }

  /** A weapon adds damage and no armor. */
  function WeaponItem(name: string, cost: nat, damage: nat): (r: Item)
    ensures r.itype == Weapon && r.armor == 0
    ensures r.name == name && r.cost == cost && r.damage == damage
  {
    Bare(Weapon).(name := name, cost := cost, damage := damage)
  }

  /** A piece of armor adds armor and no damage. */
  function ArmorItem(name: string, cost: nat, armor: nat): (r: Item)
    ensures r.itype == Armor && r.damage == 0
    ensures r.name == name && r.cost == cost && r.armor == armor
  {
    Bare(Armor).(name := name, cost := cost, armor := armor)
  }

  /** A ring may add either. */
  function RingItem(name: string, cost: nat, damage: nat, armor: nat): (r: Item)
    ensures r.itype == Ring
    ensures r.name == name && r.cost == cost && r.damage == damage && r.armor == armor
  {
    Bare(Ring).(name := name, cost := cost, damage := damage, armor := armor)
  }

  /** The shop's stock: five weapons, five armors and six rings, in that
      order. */
  function ItemShop(): seq<Item>
  {
    [ WeaponItem("Dagger", 8, 4),
      WeaponItem("Shortsword", 10, 5),
      WeaponItem("Warhammer", 25, 6),
      WeaponItem("Longsword", 40, 7),
      WeaponItem("Greataxe", 74, 8),
      ArmorItem("Leather", 13, 1),
      ArmorItem("Chainmail", 31, 2),
      ArmorItem("Splintmail", 53, 3),
      ArmorItem("Bandedmail", 75, 4),
      ArmorItem("Platemail", 102, 5),
      RingItem("Defense +1", 20, 0, 1),
      RingItem("Damage +1", 25, 1, 0),
      RingItem("Defense +2", 40, 0, 2),
      RingItem("Damage +2", 50, 2, 0),
      RingItem("Defense +3", 80, 0, 3),
      RingItem("Damage +3", 100, 3, 0) ]
  }

  /** The shop lists its weapons first, Dagger leading, then its armors,
      then its rings; weapons add no armor and armors no damage. */
  lemma ShopLayout()
    ensures |ItemShop()| == 16 && ItemShop()[0] == Item("Dagger", Weapon, 8, 4, 0)
    ensures forall i :: 0 <= i < 5 ==> ItemShop()[i].itype == Weapon && ItemShop()[i].armor == 0
    ensures forall i :: 5 <= i < 10 ==> ItemShop()[i].itype == Armor && ItemShop()[i].damage == 0
    ensures forall i :: 10 <= i < 16 ==> ItemShop()[i].itype == Ring
  {
  }
}
