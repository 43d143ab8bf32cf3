// Day 22: the arena. It holds whose turn it is, the two characters, the
// lasting effects in play and the mana spent so far. A turn first lets
// every lasting effect act, then drops the effects whose time is up; the
// boss then strikes, or the wizard's turn branches into one future arena
// per spell the wizard can afford. Each effect acts through a fresh copy
// of its stored record, so the count-down happens on the copy: the stored
// records keep their starting time, none is ever dropped, and a shield
// never gives its armor back.

module Day22 {
  import opened Text
  import opened Day22Character
  import opened Day22Effects

  datatype Result<T, E> = Ok(value: T) | Err(error: E)

  datatype ArenaState = ArenaState(turn: CharacterType, player: Character, boss: Character,
                                   effects: seq<EffectImpl>, manaSpent: nat)

  // ---------------------------------------------------------------------
  // Passing the turn and casting

  /** An effect record as casting stores it: the record of a new lasting
      spell. */
  predicate Stored(e: EffectImpl)
  {
    e == ImplOf(e.etype) && e.ttl > 0
  }

  predicate AllStored(effects: seq<EffectImpl>)
  {
    forall i :: 0 <= i < |effects| ==> Stored(effects[i])
  }

  /** `Arena::default`: the wizard's turn, the puzzle's characters, no
      effects, nothing spent. */
  function DefaultArena(): (a: ArenaState)
    ensures a.turn == Player && a.player == ThePlayer() && a.boss == TheBoss()
    ensures a.effects == [] && a.manaSpent == 0
  {
    ArenaState(Player, ThePlayer(), TheBoss(), [], 0)
  }

  function Other(t: CharacterType): (u: CharacterType)
    ensures u != t
  {
    if t == Player then Boss else Player
  }

  /** `future`: the same arena with the turn passed over. */
  function Flipped(a: ArenaState): (f: ArenaState)
    ensures f.turn != a.turn && f == a.(turn := f.turn)
  {
    a.(turn := Other(a.turn))
  }

  /** Passing the turn twice gives the arena back. */
  lemma FlippedTwice(a: ArenaState)
    ensures Flipped(Flipped(a)) == a
  {
  }

  /** What `attempt_spell` needs to stay within its unsigned arithmetic
      when the wizard can pay: the cast itself, and room in 16 bits for
      the mana spent. */
  predicate Payable(a: ArenaState, s: Spell)
  {
    a.player.mana >= Cost(s) ==> CanCast(s, a.player) && a.manaSpent + Cost(s) <= U16Max
  }

  /** `attempt_spell`: nothing when the wizard cannot pay; otherwise the
      future in which the spell is paid for, counted as spent, cast, and,
      if it lasts, stored. */
  function Cast(a: ArenaState, s: Spell): (r: Option<ArenaState>)
    requires Payable(a, s)
    ensures r.None? <==> a.player.mana < Cost(s)
  {
    if a.player.mana >= Cost(s) then
      var f := Flipped(a).(manaSpent := a.manaSpent + Cost(s));
      var (player, boss) := Casting(s, f.player, f.boss);
      var f' := f.(player := player, boss := boss);
      Some(if Ttl(s) > 0 then f'.(effects := f'.effects + [ToImpl(s)]) else f')
    else None
  }

  /** Casting moves mana from the wizard's pool to the amount spent,
      passes the turn, and stores the spell's record exactly when it
      lasts; a new spell keeps every stored record as casting stores it. */
  lemma CastAccounting(a: ArenaState, s: Spell)
    requires Payable(a, s) && Cast(a, s).Some?
    ensures var f := Cast(a, s).value;
      f.player.mana + f.manaSpent == a.player.mana + a.manaSpent
      && f.manaSpent == a.manaSpent + Cost(s) && f.turn == Other(a.turn)
      && f.effects == (if Ttl(s) > 0 then a.effects + [s.ei] else a.effects)
    ensures AllStored(a.effects) && s == NewSpell(s.kind) ==> AllStored(Cast(a, s).value.effects)
  {
    var f := Cast(a, s).value;
    if AllStored(a.effects) && s == NewSpell(s.kind) && Ttl(s) > 0 {
      assert forall i :: 0 <= i < |a.effects| ==> f.effects[i] == a.effects[i];
      assert f.effects[|a.effects|] == s.ei;
    }
  }

  /** The spells in the order the wizard tries them. */
  function SpellOrder(): (spells: seq<Spell>)
    ensures |spells| == 5
    ensures forall i :: 0 <= i < 5 ==> spells[i] == NewSpell(spells[i].kind)
  {
    [NewSpell(Drain), NewSpell(MagicMissile), NewSpell(Poison), NewSpell(Recharge), NewSpell(Shield)]
  }

  predicate AllPayable(a: ArenaState, spells: seq<Spell>)
  {
    forall i :: 0 <= i < |spells| ==> Payable(a, spells[i])
  }

  /** The futures of the spells the wizard can afford, in order. */
  function Casts(a: ArenaState, spells: seq<Spell>): (futures: seq<ArenaState>)
    requires AllPayable(a, spells)
    ensures |futures| <= |spells|
  {
    if spells == [] then []
    else
      var n := |spells| - 1;
      assert AllPayable(a, spells[..n]) by {
        assert forall i :: 0 <= i < n ==> spells[..n][i] == spells[i];
      }
      Casts(a, spells[..n]) + (if Cast(a, spells[n]).Some? then [Cast(a, spells[n]).value] else [])
  }

  /** Trying one more spell of the list adds its future, if it has one. */
  lemma CastsNext(a: ArenaState, spells: seq<Spell>, j: nat)
    requires AllPayable(a, spells) && j < |spells|
    ensures AllPayable(a, spells[..j]) && AllPayable(a, spells[..j + 1])
    ensures Casts(a, spells[..j + 1]) == Casts(a, spells[..j])
      + (if Cast(a, spells[j]).Some? then [Cast(a, spells[j]).value] else [])
  {
    assert spells[..j + 1][..j] == spells[..j];
  }

  /** A list of spells yields no future exactly when none is affordable. */
  lemma {:induction false} CastsEmpty(a: ArenaState, spells: seq<Spell>)
    requires AllPayable(a, spells)
    ensures Casts(a, spells) == [] <==> forall i :: 0 <= i < |spells| ==> a.player.mana < Cost(spells[i])
  {
    if spells != [] {
      var n := |spells| - 1;
      assert forall i :: 0 <= i < n ==> spells[..n][i] == spells[i];
      CastsEmpty(a, spells[..n]);
    }
  }

  /** The futures of new spells keep every record as casting stores it. */
  lemma {:induction false} CastsStored(a: ArenaState, spells: seq<Spell>)
    requires AllPayable(a, spells) && AllStored(a.effects)
    requires forall i :: 0 <= i < |spells| ==> spells[i] == NewSpell(spells[i].kind)
    ensures forall i :: 0 <= i < |Casts(a, spells)| ==> AllStored(Casts(a, spells)[i].effects)
  {
    if spells != [] {
      var n := |spells| - 1;
      assert forall i :: 0 <= i < n ==> spells[..n][i] == spells[i];
      CastsStored(a, spells[..n]);
      if Cast(a, spells[n]).Some? {
        CastAccounting(a, spells[n]);
      }
    }
  }

  /** The wizard has no future exactly when the cheapest spell, magic
      missile at 53, is out of reach. */
  lemma NoSpellAffordable(a: ArenaState)
    requires AllPayable(a, SpellOrder())
    ensures Casts(a, SpellOrder()) == [] <==> a.player.mana < 53
  {
    CastsEmpty(a, SpellOrder());
    if a.player.mana >= 53 {
      assert Cost(SpellOrder()[1]) == 53;
    }
  }

  // ---------------------------------------------------------------------
  // The effects at the start of a turn

  /** How many records are of a kind. */
  function Count(effects: seq<EffectImpl>, kind: Effects): nat
  {
    if effects == [] then 0
    else Count(effects[..|effects| - 1], kind) + (if effects[|effects| - 1].etype == kind then 1 else 0)
  }

  lemma {:induction false} CountPrefix(effects: seq<EffectImpl>, n: nat, kind: Effects)
    requires n <= |effects|
    ensures Count(effects[..n], kind) <= Count(effects, kind)
  {
    if n < |effects| {
      var m := |effects| - 1;
      assert effects[..m][..n] == effects[..n];
      CountPrefix(effects[..m], n, kind);
    } else {
      assert effects[..n] == effects;
    }
  }

  lemma StoredPrefix(effects: seq<EffectImpl>, n: nat)
    requires AllStored(effects) && n <= |effects|
    ensures AllStored(effects[..n])
  {
    assert forall i :: 0 <= i < n ==> effects[..n][i] == effects[i];
  }

  /** What the effects need to stay within 16-bit mana: room for every
      recharge in play. */
  predicate EffectsFit(effects: seq<EffectImpl>, player: Character)
  {
    AllStored(effects) && player.mana + 101 * Count(effects, Recharge) <= U16Max
  }

  /** Every stored effect acting once, in order, each through a fresh copy
      of its record. In closed form: each poison in play deals 3, each
      recharge gives 101 mana, and the wizard's armor and hit points are
      untouched, because a stored shield counts down from 6 on its copy
      and never reaches 0. */
  function ApplyEffects(effects: seq<EffectImpl>, player: Character, boss: Character): (r: (Character, Character))
    requires EffectsFit(effects, player)
    ensures r == (player.(mana := player.mana + 101 * Count(effects, Recharge)),
                  boss.(hp := SatSub(boss.hp, 3 * Count(effects, Poison))))
  {
    if effects == [] then (player, boss)
    else
      var n := |effects| - 1;
      var e := effects[n];
      StoredPrefix(effects, n);
      assert Stored(e);
      var (p, b) := ApplyEffects(effects[..n], player, boss);
      SatSubTwice(boss.hp, 3 * Count(effects[..n], Poison), 3);
      var (_, p', b') := Ticking(FromEi(e.etype, e), p, b);
      (p', b')
  }

  /** `retain(|ef| ef.ttl > 0)`: the records with time left. */
  function Live(effects: seq<EffectImpl>): (r: seq<EffectImpl>)
    ensures |r| <= |effects|
  {
    if effects == [] then []
    else (if effects[0].ttl > 0 then [effects[0]] else []) + Live(effects[1..])
  }

  /** `retain` keeps exactly the records with time left. */
  lemma {:induction false} LiveMembers(effects: seq<EffectImpl>)
    ensures forall e :: e in Live(effects) <==> e in effects && e.ttl > 0
  {
    if effects != [] {
      LiveMembers(effects[1..]);
      assert effects == [effects[0]] + effects[1..];
    }
  }

  /** Stored records all have time left, so none is ever dropped. */
  lemma {:induction false} NothingExpires(effects: seq<EffectImpl>)
    requires AllStored(effects)
    ensures Live(effects) == effects
  {
    if effects != [] {
      assert Stored(effects[0]);
      assert AllStored(effects[1..]) by {
        assert forall i :: 0 <= i < |effects| - 1 ==> effects[1..][i] == effects[i + 1];
      }
      NothingExpires(effects[1..]);
    }
  }

  // ---------------------------------------------------------------------
  // A turn

  /** The arena once the effects have acted and the spent ones are gone. */
  function AfterEffects(a: ArenaState): (b: ArenaState)
    requires EffectsFit(a.effects, a.player)
    ensures b.turn == a.turn && b.manaSpent == a.manaSpent
  {
    var (player, boss) := ApplyEffects(a.effects, a.player, a.boss);
    a.(player := player, boss := boss, effects := Live(a.effects))
  }

  /** What a turn needs to stay within its unsigned arithmetic. */
  predicate CanTurn(a: ArenaState)
  {
    EffectsFit(a.effects, a.player)
    && (a.turn == Player && a.player.hp > 0 ==> AllPayable(AfterEffects(a), SpellOrder()))
  }

  /** What the boss deals: damage less armor, but at least 1. */
  function BossDamage(boss: Character, player: Character): (d: nat)
    ensures d >= 1
    ensures boss.damage > player.armor ==> d == boss.damage - player.armor
    ensures boss.damage <= player.armor ==> d == 1
  {
    if boss.damage > player.armor then boss.damage - player.armor else 1
  }

  /** `turn` on a value: the arena after the turn, and either the futures
      or the winner. */
  function Taken(a: ArenaState): (ArenaState, Result<seq<ArenaState>, CharacterType>)
    requires CanTurn(a)
  {
    Act(AfterEffects(a))
  }

  /** The rest of `turn`, once the effects have acted on `b`. */
  function Act(b: ArenaState): (ArenaState, Result<seq<ArenaState>, CharacterType>)
    requires b.turn == Player && b.player.hp > 0 ==> AllPayable(b, SpellOrder())
  {
    match b.turn
    case Boss =>
      if b.boss.hp > 0 then
        var damage := BossDamage(b.boss, b.player);
        if b.player.hp > damage then
          var c := b.(player := b.player.(hp := b.player.hp - damage));
          (c, Ok([Flipped(c)]))
        else (b.(player := b.player.(hp := 0)), Err(Boss))
      else (b, Err(Player))
    case Player =>
      if b.player.hp > 0 then
        var futures := Casts(b, SpellOrder());
        if futures == [] then (b, Err(Boss)) else (b, Ok(futures))
      else (b, Err(Boss))
  }

  /** What a turn comes to. On the boss's turn: the wizard wins when the
      boss is at 0 after the effects, is beaten when the strike takes all
      its hit points, and otherwise loses the strike's hit points and the
      one future is the wizard's turn. On the wizard's turn: a wizard at 0
      hit points or unable to pay for magic missile loses, and otherwise
      the futures are those of the affordable spells, in order. */
  lemma TurnOutcomes(a: ArenaState)
    requires CanTurn(a)
    ensures var (player, boss) := ApplyEffects(a.effects, a.player, a.boss);
      var (b, r) := Taken(a);
      (a.turn == Boss ==>
         (boss.hp == 0 <==> r == Err(Player))
         && (boss.hp > 0 && player.hp <= BossDamage(boss, player) <==> r == Err(Boss))
         && (r.Ok? ==> b.player.hp + BossDamage(boss, player) == player.hp
                       && r.value == [Flipped(b)] && r.value[0].turn == Player))
      && (a.turn == Player ==>
           (r == Err(Boss) <==> a.player.hp == 0 || player.mana < 53)
           && (r.Ok? ==> r.value == Casts(b, SpellOrder())))
  {
    if a.turn == Player && a.player.hp > 0 {
      NoSpellAffordable(AfterEffects(a));
    }
  }

  /** A turn keeps every stored record unchanged, so no count-down ever
      reaches the arena and no effect ends; the wizard's armor stays what
      it was, and every future again stores only records as casting
      stores them. */
  lemma EffectsPersist(a: ArenaState)
    requires CanTurn(a)
    ensures Taken(a).0.effects == a.effects
    ensures Taken(a).0.player.armor == a.player.armor
    ensures Taken(a).1.Ok? ==> forall i :: 0 <= i < |Taken(a).1.value| ==> AllStored(Taken(a).1.value[i].effects)
  {
    NothingExpires(a.effects);
    if a.turn == Player && a.player.hp > 0 {
      CastsStored(AfterEffects(a), SpellOrder());
    }
  }

  // ---------------------------------------------------------------------
  // The arena object

  class Arena {
    var turn: CharacterType
    var player: Character
    var boss: Character
    var effects: seq<EffectImpl>
    var manaSpent: nat

    function State(): ArenaState
      reads this
    {
      ArenaState(turn, player, boss, effects, manaSpent)
    }

    /** The stored records are those casting stores. */
    predicate Valid()
      reads this
    {
      AllStored(effects)
    }

    /** `Arena::default`. */
    constructor Default()
      ensures Valid() && State() == DefaultArena()
    {
      turn := Player;
      player := ThePlayer();
      boss := TheBoss();
      effects := [];
      manaSpent := 0;
    }

    /** `Arena::new`: the default arena with the given characters. */
    constructor New(player: Character, boss: Character)
      ensures Valid() && State() == DefaultArena().(player := player, boss := boss)
    {
      turn := Player;
      this.player := player;
      this.boss := boss;
      effects := [];
      manaSpent := 0;
    }

    /** `future`: a copy with the turn passed over. */
    method Future() returns (ret: Arena)
      ensures fresh(ret) && ret.State() == Flipped(State())
    {
      ret := new Arena.New(player, boss);
      ret.effects, ret.manaSpent := effects, manaSpent;
      ret.turn := if turn == Player then Boss else Player;
    }

    /** `attempt_spell`: a new arena in which the spell is cast, if the
        wizard can pay for it. */
    method AttemptSpell(spell: Spell) returns (future: Option<Arena>)
      requires Payable(State(), spell)
      ensures future.None? <==> player.mana < Cost(spell)
      ensures future.Some? ==> fresh(future.value) && Some(future.value.State()) == Cast(State(), spell)
    {
      if player.mana >= Cost(spell) {
        var f := Future();
        f.manaSpent := f.manaSpent + Cost(spell);
        var p, b := OnCast(spell, f.player, f.boss);
        f.player, f.boss := p, b;
        if Ttl(spell) > 0 {
          f.effects := f.effects + [ToImpl(spell)];
        }
        return Some(f);
      }
      return None;
    }

    /** The effects act in turn, each through a fresh copy of its record. */
    method ApplyAll()
      requires EffectsFit(effects, player)
      modifies this`player, this`boss
      ensures (player, boss) == ApplyEffects(effects, old(player), old(boss))
    {
      ghost var player0, boss0 := player, boss;
      for i := 0 to |effects|
        invariant EffectsFit(effects[..i], player0)
        invariant (player, boss) == ApplyEffects(effects[..i], player0, boss0)
      {
        var e := effects[i];
        StoredPrefix(effects, i + 1);
        CountPrefix(effects, i + 1, Recharge);
        assert effects[..i + 1][..i] == effects[..i];
        var spell := FromEi(e.etype, e);
        var _, p, b := PerTurn(spell, player, boss);
        player, boss := p, b;
      }
      assert effects[..|effects|] == effects;
    }

    /** The wizard's branching: one new arena per affordable spell, in
        the order the spells are tried. */
    method Futures() returns (ret: seq<Arena>)
      requires AllPayable(State(), SpellOrder())
      ensures States(ret) == Casts(State(), SpellOrder())
      ensures forall i :: 0 <= i < |ret| ==> fresh(ret[i])
    {
      var spells := SpellOrder();
      ret := [];
      for j := 0 to |spells|
        invariant AllPayable(State(), spells[..j])
        invariant States(ret) == Casts(State(), spells[..j])
        invariant forall i :: 0 <= i < |ret| ==> fresh(ret[i])
      {
        CastsNext(State(), spells, j);
        var future := AttemptSpell(spells[j]);
        if future.Some? {
          StatesSnoc(ret, future.value);
          ret := ret + [future.value];
        }
      }
      assert spells[..|spells|] == spells;
    }

    /** `turn`: let the effects act, drop the spent ones, then let the boss
        strike or branch into the wizard's affordable spells. */
    method Turn() returns (r: Result<seq<Arena>, CharacterType>)
      requires CanTurn(State())
      modifies this
      ensures State() == Taken(old(State())).0
      ensures r.Err? ==> Taken(old(State())).1 == Err(r.error)
      ensures r.Ok? ==> Taken(old(State())).1 == Ok(States(r.value))
                        && forall i :: 0 <= i < |r.value| ==> fresh(r.value[i])
    {
      ghost var a := State();
      ApplyAll();
      effects := Live(effects);
      assert State() == AfterEffects(a);
      if turn == Boss {
        r := BossTurn();
      } else {
        r := WizardTurn();
      }
    }

    /** The boss's half of `turn`: the wizard wins when the boss is down;
        otherwise the boss strikes. */
    method BossTurn() returns (r: Result<seq<Arena>, CharacterType>)
      requires turn == Boss
      modifies this
      ensures State() == Act(old(State())).0
      ensures r.Err? ==> Act(old(State())).1 == Err(r.error)
      ensures r.Ok? ==> Act(old(State())).1 == Ok(States(r.value))
                        && forall i :: 0 <= i < |r.value| ==> fresh(r.value[i])
    {
      if boss.hp > 0 {
        var damage := if boss.damage > player.armor then boss.damage - player.armor else 1;
        if player.hp > damage {
          player := player.(hp := player.hp - damage);
          var f := Future();
          assert States([f]) == [f.State()];
          return Ok([f]);
        } else {
          player := player.(hp := 0);
          return Err(Boss);
        }
      } else {
        return Err(Player);
      }
    }

    /** The wizard's half of `turn`: a wizard at 0 hit points or without an
        affordable spell loses; otherwise one future per affordable spell. */
    method WizardTurn() returns (r: Result<seq<Arena>, CharacterType>)
      requires turn == Player && (player.hp > 0 ==> AllPayable(State(), SpellOrder()))
      ensures Act(State()).0 == State()
      ensures r.Err? ==> Act(State()).1 == Err(r.error)
      ensures r.Ok? ==> Act(State()).1 == Ok(States(r.value))
                        && forall i :: 0 <= i < |r.value| ==> fresh(r.value[i])
    {
      if player.hp > 0 {
        var ret := Futures();
        if |ret| == 0 {
          return Err(Boss);
        }
        return Ok(ret);
      } else {
        return Err(Boss);
      }
    }
  }

  /** The states of a list of arenas. */
  function States(arenas: seq<Arena>): (states: seq<ArenaState>)
    reads set a | a in arenas
    ensures |states| == |arenas|
  {
    if arenas == [] then [] else States(arenas[..|arenas| - 1]) + [arenas[|arenas| - 1].State()]
  }

  lemma StatesSnoc(arenas: seq<Arena>, a: Arena)
    ensures States(arenas + [a]) == States(arenas) + [a.State()]
  {
    assert (arenas + [a])[..|arenas|] == arenas;
  }
}
