// Day 21: the fight. The player strikes first and the two take turns;
// each strike takes the attacker's damage less the defender's armor, but
// at least 1, off the defender's hit points, and the first to reach 0
// loses. The fighters' numbers are unsigned 32-bit values and the
// subtractions are checked: when the defender's armor exceeds the
// attacker's damage, or a strike is larger than the hit points left, the
// fight ends in an arithmetic underflow rather than a winner.

module Day21 {
  import opened Text
  import opened Day21Character

  datatype Outcome = Winner(winner: Character) | Underflow

  /** What one strike takes off: `damage - armor`, raised to 1; nothing
      when that subtraction underflows. */
  function Hit(attacker: Character, defender: Character): (r: Option<nat>)
    ensures r.Some? <==> attacker.damage >= defender.armor
    ensures r.Some? ==> r.value >= 1 && (attacker.damage > defender.armor ==> r.value == attacker.damage - defender.armor)
  {
    if attacker.damage < defender.armor then None
    else if attacker.damage - defender.armor < 1 then Some(1)
    else Some(attacker.damage - defender.armor)
  }

  /** The fight from `agent`'s next strike on. The winner is one of the
      two fighters, unchanged but for hit points, which never grow. */
  function Fight(agent: Character, respondent: Character): (r: Outcome)
    ensures Hit(agent, respondent).None? ==> r == Underflow
    ensures r.Winner? ==>
      (r.winner == agent.(hp := r.winner.hp) && r.winner.hp <= agent.hp) ||
      (r.winner == respondent.(hp := r.winner.hp) && r.winner.hp <= respondent.hp)
    decreases agent.hp + respondent.hp
  {
    match Hit(agent, respondent)
    case None => Underflow
    case Some(h) =>
      if h > respondent.hp then Underflow
      else
        var struck := respondent.(hp := respondent.hp - h);
        if struck.hp == 0 then Winner(agent) else Fight(struck, agent)
  }

  /** `combat`: strike and swap roles until someone is at 0 hit points;
      the one who struck last is returned. */
  method Combat(player: Character, boss: Character) returns (outcome: Outcome)
    ensures outcome == Fight(player, boss)
  {
    var agent, respondent := player, boss;
    while true
      invariant Fight(agent, respondent) == Fight(player, boss)
      decreases agent.hp + respondent.hp
    {
      if agent.damage < respondent.armor {
        return Underflow;
      }
      var damage := agent.damage - respondent.armor;
      if damage < 1 {
        damage := 1;
      }
      if damage > respondent.hp {
        return Underflow;
      }
      respondent := respondent.(hp := respondent.hp - damage);
      if respondent.hp == 0 {
        return Winner(agent);
      }
      agent, respondent := respondent, agent;
    }
  }

  // ---------------------------------------------------------------------
  // The fight in closed form

  /** How many strikes of `d` it takes to bring `hp` to 0 or below (a
      fighter already at 0 is finished by the first). */
  function Strikes(hp: nat, d: nat): (k: nat)
    requires d >= 1
  {
    if hp == 0 then 1 else (hp + d - 1) / d
  }

  /** Whether the last of those strikes lands exactly on 0 (anything else
      underflows). */
  predicate Exact(hp: nat, d: nat)
    requires d >= 1
  {
    hp > 0 && hp % d == 0
  }

  /** The outcome predicted from the strike counts: whoever needs no more
      strikes than the other, striking first, wins if the last strike is
      exact; the winner has taken one strike fewer than the loser, or as
      many when the winner is the second to strike. */
  function Predicted(a: Character, r: Character): Outcome
    requires a.damage >= r.armor && r.damage >= a.armor
  {
    var ha, hr := Hit(a, r).value, Hit(r, a).value;
    var ka, kr := Strikes(r.hp, ha), Strikes(a.hp, hr);
    if ka <= kr then
      if Exact(r.hp, ha) then StrikesBelow(a.hp, hr, ka - 1); Winner(a.(hp := a.hp - (ka - 1) * hr))
      else Underflow
    else
      if Exact(a.hp, hr) then StrikesBelow(r.hp, ha, kr); Winner(r.(hp := r.hp - kr * ha))
      else Underflow
  }

  /** The simulated fight is the predicted one. */
  lemma {:induction false} FightPredicted(a: Character, r: Character)
    requires a.damage >= r.armor && r.damage >= a.armor
    ensures Fight(a, r) == Predicted(a, r)
    decreases a.hp + r.hp
  {
    var ha := Hit(a, r).value;
    if r.hp <= ha {
      LastStrike(a, r);
    } else {
      FightPredicted(r.(hp := r.hp - ha), a);
      LaterStrike(a, r);
    }
  }

  /** A strike that takes all the hit points left, or more, ends the
      fight. */
  lemma LastStrike(a: Character, r: Character)
    requires a.damage >= r.armor && r.damage >= a.armor
    requires r.hp <= Hit(a, r).value
    ensures Fight(a, r) == Predicted(a, r)
  {
    var ha, hr := Hit(a, r).value, Hit(r, a).value;
    StrikesPositive(a.hp, hr);
    StrikesOne(r.hp, ha);
    if r.hp == ha {
      assert Exact(r.hp, ha) by { assert r.hp % ha == 0 by { DivUnique(r.hp, ha, 1, 0); } }
      assert (1 - 1) * hr == 0;
      assert Fight(a, r) == Winner(a);
    } else {
      if 0 < r.hp {
        SmallMod(r.hp, ha);
      }
      assert !Exact(r.hp, ha);
      assert Fight(a, r) == Underflow;
    }
  }

  /** A strike that leaves hit points over hands the fight to the other
      side with one strike fewer to go. */
  lemma LaterStrike(a: Character, r: Character)
    requires a.damage >= r.armor && r.damage >= a.armor
    requires r.hp > Hit(a, r).value
    requires Fight(r.(hp := r.hp - Hit(a, r).value), a) == Predicted(r.(hp := r.hp - Hit(a, r).value), a)
    ensures Fight(a, r) == Predicted(a, r)
  {
    var struck := r.(hp := r.hp - Hit(a, r).value);
    assert Fight(a, r) == Fight(struck, a);
    PredictedStep(a, r);
  }

  /** The closed form agrees with itself across one strike that leaves hit
      points over. */
  lemma PredictedStep(a: Character, r: Character)
    requires a.damage >= r.armor && r.damage >= a.armor
    requires r.hp > Hit(a, r).value
    ensures Predicted(a, r) == Predicted(r.(hp := r.hp - Hit(a, r).value), a)
  {
    var ha, hr := Hit(a, r).value, Hit(r, a).value;
    var struck := r.(hp := r.hp - ha);
    var ka, kr := Strikes(r.hp, ha), Strikes(a.hp, hr);
    assert Hit(struck, a).value == hr && Hit(a, struck).value == ha;
    StrikesStep(r.hp, ha);
    ModStep(r.hp, ha);
    assert Strikes(struck.hp, ha) == ka - 1;
    assert Exact(struck.hp, ha) == Exact(r.hp, ha);
    if kr < ka {
      StrikesPositive(a.hp, hr);
      StrikesShift(r.hp, ha, kr);
    }
  }

  /** A fighter whose armor beats the first striker's damage stops the
      fight at its first strike. */
  lemma ArmorUnderflow(a: Character, r: Character)
    requires a.damage < r.armor
    ensures Fight(a, r) == Underflow
  {
  }

  // ---------------------------------------------------------------------
  // Arithmetic on strike counts

  lemma Strictly(k: nat, d: nat)
    requires k >= 1 && d >= 1
    ensures k * d >= d
  {
  }

  /** Division with remainder has one answer. */
  lemma DivUnique(x: nat, d: nat, q: nat, rem: nat)
    requires d >= 1 && rem < d && x == q * d + rem
    ensures x / d == q && x % d == rem
  {
    var q', rem' := x / d, x % d;
    if q' < q {
      assert (q - q') * d + rem == rem';
      Strictly(q - q', d);
    } else if q' > q {
      assert (q' - q) * d + rem' == rem;
      Strictly(q' - q, d);
    }
  }

  lemma StrikesPositive(hp: nat, d: nat)
    requires d >= 1
    ensures Strikes(hp, d) >= 1
  {
    if hp > 0 {
      DivUnique(hp + d - 1, d, (hp + d - 1) / d, (hp + d - 1) % d);
    }
  }

  lemma StrikesOne(hp: nat, d: nat)
    requires d >= 1 && hp <= d
    ensures Strikes(hp, d) == 1
  {
    if hp > 0 {
      DivUnique(hp + d - 1, d, 1, hp - 1);
    }
  }

  lemma SmallMod(hp: nat, d: nat)
    requires 0 < hp < d
    ensures hp % d == hp
  {
    DivUnique(hp, d, 0, hp);
  }

  /** One strike fewer is needed once one has landed. */
  lemma StrikesStep(hp: nat, d: nat)
    requires d >= 1 && hp > d
    ensures Strikes(hp - d, d) == Strikes(hp, d) - 1
  {
    var x := hp + d - 1;
    var q, rem := x / d, x % d;
    assert x - d == (q - 1) * d + rem;
    DivUnique(x - d, d, q - 1, rem);
  }

  lemma ModStep(hp: nat, d: nat)
    requires d >= 1 && hp > d
    ensures (hp - d) % d == hp % d
  {
    var q, rem := hp / d, hp % d;
    assert hp - d == (q - 1) * d + rem;
    DivUnique(hp - d, d, q - 1, rem);
  }

  lemma StrikesDistribute(k: nat, d: nat)
    requires k >= 1
    ensures (k - 1) * d + d == k * d
  {
  }

  /** After one strike, `k - 1` further strikes leave what `k` strikes
      would have left. */
  lemma StrikesShift(hp: int, d: int, k: int)
    requires k >= 1
    ensures (hp - d) - (k - 1) * d == hp - k * d
  {
  }

  /** Fewer strikes than needed leave hit points over. */
  lemma StrikesBelow(hp: nat, d: nat, k: nat)
    requires d >= 1 && k < Strikes(hp, d)
    ensures k * d <= hp && (hp > 0 ==> k * d < hp)
  {
    if hp > 0 {
      var x := hp + d - 1;
      var s := x / d;
      DivUnique(x, d, s, x % d);
      assert k <= s - 1;
      MulLeft(k, s - 1, d);
      StrikesDistribute(s, d);
    }
  }

  lemma MulLeft(j: nat, k: nat, d: nat)
    requires j <= k
    ensures j * d <= k * d
  {
  }

  // ---------------------------------------------------------------------
  // The example fight

  /** With 8 hit points, 5 damage and 5 armor against 12, 7 and 2, the
      player's four strikes of 3 land exactly, and the player is left with
      2 hit points after the boss's three strikes of 2. */
  lemma ExampleFight()
    ensures Fight(Character(Player, 8, 5, 5), Character(Boss, 12, 7, 2)) == Winner(Character(Player, 2, 5, 5))
  {
    var p, b := Character(Player, 8, 5, 5), Character(Boss, 12, 7, 2);
    FightPredicted(p, b);
    assert Strikes(12, 3) == 4 && Strikes(8, 2) == 4;
  }
}
