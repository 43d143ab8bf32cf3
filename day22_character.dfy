// Day 22: the wizard and the boss. Each has hit points, damage, armor and
// mana; the wizard does no physical damage and wears no armor of its own,
// and the boss has no mana and no armor.

module Day22Character {

  datatype CharacterType = Player | Boss

  datatype Character = Character(ctype: CharacterType, hp: nat, damage: nat, armor: nat, mana: nat)

  /** The largest values of the 8-bit hit points, damage and armor and of
      the 16-bit mana. */
  const U8Max: nat := 255
  const U16Max: nat := 65535

  /** The boss of the puzzle input. */
  function TheBoss(): (c: Character)
    ensures c.ctype == Boss && c.hp == 55 && c.damage == 8 && c.armor == 0 && c.mana == 0
  {
    Character(Boss, 55, 8, 0, 0)
  }

  /** The wizard: 50 hit points and 500 mana. */
  function ThePlayer(): (c: Character)
    ensures c.ctype == Player && c.hp == 50 && c.damage == 0 && c.armor == 0 && c.mana == 500
  {
    Character(Player, 50, 0, 0, 500)
  }

  /** `x - k`, or 0 when `k` is larger: the spells' damage never takes hit
      points below 0. */
  function SatSub(x: nat, k: nat): (r: nat)
    ensures r <= x
    ensures x >= k ==> r + k == x
    ensures x < k ==> r == 0
  {
    if x >= k then x - k else 0
  }

  /** Two saturating subtractions are one. */
  lemma SatSubTwice(x: nat, j: nat, k: nat)
    ensures SatSub(SatSub(x, j), k) == SatSub(x, j + k)
  {
  }
}
