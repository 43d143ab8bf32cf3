// Day 21: the two fighters. A character has a role, hit points, damage
// and armor; the player's damage and armor come from the loadout. The
// description of a character is three lines, which also parse back (the
// role, absent from the text, then takes its default, the boss).

module Day21Character {
  import opened Text
  import opened Day21Items
  import opened Day21Loadout

  datatype CharacterType = Player | Boss

  datatype Character = Character(ctype: CharacterType, hp: nat, damage: nat, armor: nat)

  /** The role a parsed character is given. */
  function DefaultType(): (r: CharacterType)
    ensures r == Boss
  {
    Boss
  }

  /** The boss of the puzzle input. */
  function TheBoss(): (r: Character)
    ensures r.ctype == Boss && r.hp == 104 && r.damage == 8 && r.armor == 1
  {
    Character(Boss, 104, 8, 1)
  }

  /** The player wearing a loadout: 100 hit points, and the loadout's
      damage and armor. */
  function PlayerOf(l: Loadout): (r: Character)
    ensures r.ctype == Player && r.hp == 100
    ensures r.damage == l.weapon.damage + SlotValue(l.armor, (i: Item) => i.damage)
      + SlotValue(l.ringL, (i: Item) => i.damage) + SlotValue(l.ringR, (i: Item) => i.damage)
    ensures r.armor == l.weapon.armor + SlotValue(l.armor, (i: Item) => i.armor)
      + SlotValue(l.ringL, (i: Item) => i.armor) + SlotValue(l.ringR, (i: Item) => i.armor)
  {
    Character(Player, 100, Damage(l), ArmorOf(l))
  }

  const HitPointsLabel := "Hit Points: "
  const DamageLabel := "Damage: "
  const ArmorLabel := "Armor: "

  /** The display form: `Hit Points: {hp}`, `Damage: {damage}` and
      `Armor: {armor}`, each line ended by a newline. */
  function Display(c: Character): string
  {
    HitPointsLabel + DecimalString(c.hp) + "\n" + DamageLabel + DecimalString(c.damage) + "\n"
      + ArmorLabel + DecimalString(c.armor) + "\n"
  }

  /** The rest of `line` after its label, if it starts with it. */
  function After(tag: string, line: string): (r: Option<string>)
    ensures r.Some? <==> |tag| <= |line| && line[..|tag|] == tag
    ensures r.Some? ==> line == tag + r.value
  {
    if |tag| <= |line| && line[..|tag|] == tag then Some(line[|tag|..]) else None
  }

  /** A field line: its tag, then a `u32`. */
  function Field(tag: string, line: string): (r: Option<nat>)
    ensures r.Some? ==> r.value <= U32_MAX
  {
    match After(tag, line)
    case Some(rest) => ParseU32(rest)
    case None => None
  }

  /** Reading the display form back: exactly three lines, each with its
      tag and a number; the role is the default one. */
  function ParseCharacter(s: string): (r: Option<Character>)
    ensures r.Some? ==> r.value.ctype == DefaultType()
    ensures r.Some? ==> r.value.hp <= U32_MAX && r.value.damage <= U32_MAX && r.value.armor <= U32_MAX
  {
    var lines := Split(s, "\n");
    if |lines| != 4 || lines[3] != "" then None
    else
      match (Field(HitPointsLabel, lines[0]), Field(DamageLabel, lines[1]), Field(ArmorLabel, lines[2]))
      case (Some(hp), Some(damage), Some(armor)) => Some(Character(DefaultType(), hp, damage, armor))
      case _ => None
  }

  lemma DisplayLines(c: Character)
    ensures Display(c) == Join([HitPointsLabel + DecimalString(c.hp), DamageLabel + DecimalString(c.damage),
                                ArmorLabel + DecimalString(c.armor), ""], "\n")
  {
    var a, b, d := HitPointsLabel + DecimalString(c.hp), DamageLabel + DecimalString(c.damage),
                   ArmorLabel + DecimalString(c.armor);
    assert [a, b, d, ""][1..] == [b, d, ""] && [b, d, ""][1..] == [d, ""] && [d, ""][1..] == [""];
    assert Join([d, ""], "\n") == d + "\n";
    assert Join([b, d, ""], "\n") == b + "\n" + (d + "\n");
    assert Join([a, b, d, ""], "\n") == a + "\n" + (b + "\n" + (d + "\n"));
  }

  lemma FieldBack(tag: string, n: nat)
    requires n <= U32_MAX
    ensures Field(tag, tag + DecimalString(n)) == Some(n)
  {
    assert (tag + DecimalString(n))[..|tag|] == tag;
    assert (tag + DecimalString(n))[|tag|..] == DecimalString(n);
    ParseU32Decimal(n);
  }

  /** A character whose numbers fit a `u32` reads back from its display
      form, with its role replaced by the default. */
  lemma ParseDisplay(c: Character)
    requires c.hp <= U32_MAX && c.damage <= U32_MAX && c.armor <= U32_MAX
    ensures ParseCharacter(Display(c)) == Some(c.(ctype := DefaultType()))
  {
    var lines := [HitPointsLabel + DecimalString(c.hp), DamageLabel + DecimalString(c.damage),
                  ArmorLabel + DecimalString(c.armor), ""];
    DisplayLines(c);
    SplitJoinChar(lines, '\n');
    FieldBack(HitPointsLabel, c.hp);
    FieldBack(DamageLabel, c.damage);
    FieldBack(ArmorLabel, c.armor);
  }
}
