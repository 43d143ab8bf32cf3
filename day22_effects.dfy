// Day 22: the five spells. Each spell wraps an effect record (its kind,
// name, mana cost and time to live). Casting a spell pays its cost and has
// an immediate effect; the three spells with a time to live also act at
// the start of every later turn, counting their time down. The spells act
// on the two characters in place; here they take the characters and
// return them changed.

module Day22Effects {
  import opened Text
  import opened Day22Character

  datatype Effects = MagicMissile | Drain | Shield | Poison | Recharge

  datatype EffectImpl = EffectImpl(etype: Effects, name: string, manaCost: nat, ttl: nat)

  /** A spell: which of the five it is, and the effect record it carries. */
  datatype Spell = Spell(kind: Effects, ei: EffectImpl)

  /** The effect record each spell's `new` starts from. */
  function ImplOf(kind: Effects): (ei: EffectImpl)
    ensures ei.etype == kind
    ensures kind == MagicMissile ==> ei.name == "Magic Missile" && ei.manaCost == 53 && ei.ttl == 0
    ensures kind == Drain ==> ei.name == "Drain" && ei.manaCost == 73 && ei.ttl == 0
    ensures kind == Shield ==> ei.name == "Shield" && ei.manaCost == 113 && ei.ttl == 6
    ensures kind == Poison ==> ei.name == "Poison" && ei.manaCost == 173 && ei.ttl == 6
    ensures kind == Recharge ==> ei.name == "Recharge" && ei.manaCost == 229 && ei.ttl == 5
  {
    match kind
    case MagicMissile => EffectImpl(MagicMissile, "Magic Missile", 53, 0)
    case Drain => EffectImpl(Drain, "Drain", 73, 0)
    case Shield => EffectImpl(Shield, "Shield", 113, 6)
    case Poison => EffectImpl(Poison, "Poison", 173, 6)
    case Recharge => EffectImpl(Recharge, "Recharge", 229, 5)
  }

  /** `new` for each spell. */
  function NewSpell(kind: Effects): (s: Spell)
    ensures s.kind == kind && s.ei == ImplOf(kind)
  {
    Spell(kind, ImplOf(kind))
  }

  /** `from_ei`: the spell of the given kind wrapping a record; `to_impl`
      gives the record back. */
  function FromEi(kind: Effects, ei: EffectImpl): (s: Spell)
    ensures s.kind == kind && ToImpl(s) == ei
  {
    Spell(kind, ei)
  }

  /** `to_impl`: the record a spell carries; wrapping it again as the same
      kind gives the spell back. */
  function ToImpl(s: Spell): (ei: EffectImpl)
    ensures Spell(s.kind, ei) == s
  {
    s.ei
  }

  function Cost(s: Spell): nat
  {
    s.ei.manaCost
  }

  function Ttl(s: Spell): nat
  {
    s.ei.ttl
  }

  // ---------------------------------------------------------------------
  // Casting

  /** What `on_cast` needs to stay within its unsigned arithmetic: the
      cost must be affordable, and drain's healing and shield's armor must
      fit in 8 bits. */
  predicate CanCast(s: Spell, player: Character)
  {
    player.mana >= Cost(s)
    && (s.kind == Drain ==> player.hp + 2 <= U8Max)
    && (s.kind == Shield ==> player.armor + 7 <= U8Max)
  }

  /** `on_cast` as a function: what casting does to the two characters. */
  function Casting(s: Spell, player: Character, boss: Character): (r: (Character, Character))
    requires CanCast(s, player)
    ensures r.0.mana == player.mana - Cost(s)
    ensures r.0.ctype == player.ctype && r.0.damage == player.damage && r.0.hp >= player.hp && r.0.armor >= player.armor
    ensures r.1 == boss.(hp := r.1.hp) && r.1.hp <= boss.hp
  {
    var paid := player.(mana := player.mana - Cost(s));
    match s.kind
    case MagicMissile => (paid, boss.(hp := SatSub(boss.hp, 4)))
    case Drain => (paid.(hp := paid.hp + 2), boss.(hp := SatSub(boss.hp, 2)))
    case Shield => (paid.(armor := paid.armor + 7), boss)
    case Poison => (paid, boss)
    case Recharge => (paid, boss)
  }

  /** `on_cast`: pay the spell's cost and apply its immediate effect. */
  method OnCast(s: Spell, player: Character, boss: Character) returns (player': Character, boss': Character)
    requires CanCast(s, player)
    ensures (player', boss') == Casting(s, player, boss)
  {
    player', boss' := player, boss;
    player' := player'.(mana := player'.mana - s.ei.manaCost);
    match s.kind {
      case MagicMissile =>
        boss' := boss'.(hp := if boss'.hp >= 4 then boss'.hp - 4 else 0);
      case Drain =>
        player' := player'.(hp := player'.hp + 2);
        boss' := boss'.(hp := if boss'.hp >= 2 then boss'.hp - 2 else 0);
      case Shield =>
        player' := player'.(armor := player'.armor + 7);
      case Poison =>
      case Recharge =>
    }
  }

  /** What each of the five new spells does when cast: magic missile deals
      4, drain deals 2 and heals 2, shield adds 7 armor, and poison and
      recharge only pay their cost. */
  lemma CastEffects(player: Character, boss: Character)
    requires player.mana >= 229 && player.hp + 2 <= U8Max && player.armor + 7 <= U8Max
    ensures Casting(NewSpell(MagicMissile), player, boss)
      == (player.(mana := player.mana - 53), boss.(hp := SatSub(boss.hp, 4)))
    ensures Casting(NewSpell(Drain), player, boss)
      == (player.(mana := player.mana - 73, hp := player.hp + 2), boss.(hp := SatSub(boss.hp, 2)))
    ensures Casting(NewSpell(Shield), player, boss) == (player.(mana := player.mana - 113, armor := player.armor + 7), boss)
    ensures Casting(NewSpell(Poison), player, boss) == (player.(mana := player.mana - 173), boss)
    ensures Casting(NewSpell(Recharge), player, boss) == (player.(mana := player.mana - 229), boss)
  {
  }

  // ---------------------------------------------------------------------
  // Lasting effects

  /** What `per_turn` needs to stay within its unsigned arithmetic: a time
      left to count down, the armor to take off when a shield ends, and
      room in 16 bits for recharge's mana. */
  predicate CanTick(s: Spell, player: Character)
  {
    (s.kind in {Shield, Poison, Recharge} ==> Ttl(s) >= 1)
    && (s.kind == Shield && Ttl(s) == 1 ==> player.armor >= 7)
    && (s.kind == Recharge ==> player.mana + 101 <= U16Max)
  }

  /** `per_turn` as a function: the spell with its time counted down, and
      the two characters after its effect. Magic missile and drain do
      nothing after they are cast. */
  function Ticking(s: Spell, player: Character, boss: Character): (r: (Spell, Character, Character))
    requires CanTick(s, player)
    ensures r.0.kind == s.kind && r.0.ei == s.ei.(ttl := r.0.ei.ttl)
    ensures s.kind in {Shield, Poison, Recharge} ==> Ttl(r.0) + 1 == Ttl(s)
    ensures s.kind in {MagicMissile, Drain} ==> r == (s, player, boss)
    ensures r.1 == player.(armor := r.1.armor, mana := r.1.mana) && r.2 == boss.(hp := r.2.hp)
  {
    match s.kind
    case MagicMissile => (s, player, boss)
    case Drain => (s, player, boss)
    case Shield =>
      var t := s.(ei := s.ei.(ttl := s.ei.ttl - 1));
      (t, if Ttl(t) == 0 then player.(armor := player.armor - 7) else player, boss)
    case Poison => (s.(ei := s.ei.(ttl := s.ei.ttl - 1)), player, boss.(hp := SatSub(boss.hp, 3)))
    case Recharge => (s.(ei := s.ei.(ttl := s.ei.ttl - 1)), player.(mana := player.mana + 101), boss)
  }

  /** `per_turn`: count the spell's time down and apply its effect. */
  method PerTurn(s: Spell, player: Character, boss: Character) returns (s': Spell, player': Character, boss': Character)
    requires CanTick(s, player)
    ensures (s', player', boss') == Ticking(s, player, boss)
  {
    s', player', boss' := s, player, boss;
    match s.kind {
      case MagicMissile =>
      case Drain =>
      case Shield =>
        s' := s'.(ei := s'.ei.(ttl := s'.ei.ttl - 1));
        if s'.ei.ttl == 0 {
          player' := player'.(armor := player'.armor - 7);
        }
      case Poison =>
        s' := s'.(ei := s'.ei.(ttl := s'.ei.ttl - 1));
        boss' := boss'.(hp := if boss'.hp >= 3 then boss'.hp - 3 else 0);
      case Recharge =>
        s' := s'.(ei := s'.ei.(ttl := s'.ei.ttl - 1));
        player' := player'.(mana := player'.mana + 101);
    }
  }

  /** A lasting effect acts each turn: the shield takes its 7 armor back
      exactly when its time runs out, poison deals 3 and recharge gives
      101 mana. */
  lemma TickEffects(s: Spell, player: Character, boss: Character)
    requires CanTick(s, player)
    ensures s.kind == Shield ==>
      Ticking(s, player, boss).1.armor == (if Ttl(s) == 1 then player.armor - 7 else player.armor)
      && Ticking(s, player, boss).1.mana == player.mana && Ticking(s, player, boss).2 == boss
    ensures s.kind == Poison ==>
      Ticking(s, player, boss).1 == player && Ticking(s, player, boss).2.hp == SatSub(boss.hp, 3)
    ensures s.kind == Recharge ==>
      Ticking(s, player, boss).1 == player.(mana := player.mana + 101) && Ticking(s, player, boss).2 == boss
  {
  }

  /** The timer line of a lasting effect after it has acted. */
  function TimerLine(s: Spell): string
  {
    match s.kind
    case Shield => "Shield's timer is now " + DecimalString(Ttl(s)) + "\n"
    case Poison => "Poison deals 3 damage; its timer is now " + DecimalString(Ttl(s)) + "\n"
    case Recharge => "Recharge provides 101 mana; its timer is now " + DecimalString(Ttl(s)) + "\n"
    case _ => ""
  }

  function WearOffLine(kind: Effects): (line: string)
    ensures kind in {Shield, Poison, Recharge} ==> |line| > 0
  {
    match kind
    case Shield => "Shield wears off, decreasing armor by 7\n"
    case Poison => "Poison wears off.\n"
    case Recharge => "Recharge wears off.\n"
    case _ => ""
  }

  /** `per_turn_str`: the timer line, followed by the wear-off line exactly
      when the time has run out. */
  function PerTurnStr(s: Spell): (text: string)
    requires s.kind in {Shield, Poison, Recharge}
    ensures |text| >= |TimerLine(s)| && text[..|TimerLine(s)|] == TimerLine(s)
    ensures |text| > |TimerLine(s)| <==> Ttl(s) == 0
    ensures Ttl(s) == 0 ==> text[|TimerLine(s)|..] == WearOffLine(s.kind)
  {
    TimerLine(s) + (if Ttl(s) == 0 then WearOffLine(s.kind) else "")
  }
}
