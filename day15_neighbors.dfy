// Day 15: the second version of the neighbour iterator, which starts the
// decrease pass over whenever it runs out and so walks every move, and
// checks that each neighbour still holds 100 teaspoons.

module Day15Neighbors {
  import opened Text
  import opened Day15Ingredient
  import opened Day15Recipe

  /** All the moves from increase position `i` on: for each position with
      room for another teaspoon, the moves into it in decrease order. */
  function PairsFrom(r: Entries, i: nat): seq<(nat, nat)>
    decreases |r| - i
  {
    if i >= |r| then [] else Row(r, i) + PairsFrom(r, i + 1)
  }

  lemma PairsUnfold(r: Entries, i: nat)
    requires i < |r|
    ensures PairsFrom(r, i) == Row(r, i) + PairsFrom(r, i + 1)
  {
  }

  /** The cursors this iterator reaches: an increase that would pass 100 is
      only ever held with the decrease pass unstarted. */
  predicate NewState(r: Entries, c: Cursor)
  {
    AtIncrease(r, c) && (c.incrT.Some? && c.incrT.value.1 > TotalIngredients ==> c.decrIt == 0)
  }

  /** The cursor after one step of the decrease pass. */
  function Stepped(c: Cursor): Cursor
  {
    Cursor(c.incrIt, c.decrIt + 1, c.incrT)
  }

  /** `next` of this iterator on plain values: the move whose neighbour it
      builds, if any, and the cursor it leaves. */
  function NewNext(r: Entries, c: Cursor): (n: (Option<(nat, nat)>, Cursor))
    requires NewState(r, c)
    ensures NewState(r, n.1) && (n.0.Some? ==> Move(r, n.0.value))
    decreases |r| - c.incrIt + (if c.incrT.Some? then 1 else 0), |r| - c.decrIt
  {
    if c.incrT.None? then (None, c)
    else if c.incrT.value.1 > TotalIngredients then NewNext(r, Advance(r, c))
    else if c.decrIt == |r| then NewNext(r, Advance(r, c).(decrIt := 0))
    else if r[c.decrIt].0 != c.incrT.value.0 && r[c.decrIt].1 >= 1 then
      (Some((c.incrIt - 1, c.decrIt)), Stepped(c))
    else NewNext(r, Stepped(c))
  }

  /** The moves this iterator has still to yield from a cursor, in order:
      the rest of the current row, then every later row. */
  function NewPending(r: Entries, c: Cursor): seq<(nat, nat)>
    requires NewState(r, c)
  {
    if c.incrT.None? then []
    else if c.incrT.value.1 <= TotalIngredients then RowFrom(r, c.incrIt - 1, c.decrIt) + PairsFrom(r, c.incrIt)
    else PairsFrom(r, c.incrIt)
  }

  /** A fresh iterator has every move to yield. */
  lemma NewStart(r: Entries)
    ensures NewState(r, Advance(r, Cursor(0, 0, None)))
    ensures NewPending(r, Advance(r, Cursor(0, 0, None))) == PairsFrom(r, 0)
  {
    var c := Advance(r, Cursor(0, 0, None));
    if r == [] {
      assert c == Cursor(0, 0, None);
    } else {
      RowsAhead(r, 0);
      assert c == Cursor(1, 0, Some((r[0].0, r[0].1 + 1)));
    }
  }

  /** The pending moves once the increase pass has moved on: every row
      after the current one. */
  lemma NewAdvance(r: Entries, c: Cursor)
    requires c.incrIt <= |r| && c.decrIt <= |r| && AtIncrease(r, c)
    ensures NewState(r, Advance(r, c).(decrIt := 0))
    ensures NewPending(r, Advance(r, c).(decrIt := 0)) == PairsFrom(r, c.incrIt)
  {
    var i := c.incrIt;
    if i == |r| {
      assert Advance(r, c).(decrIt := 0) == Cursor(i, 0, None);
    } else {
      RowsAhead(r, i);
      assert Advance(r, c).(decrIt := 0) == Cursor(i + 1, 0, Some((r[i].0, r[i].1 + 1)));
    }
  }

  /** Taking position `i` for increase, with the decrease pass unstarted,
      leaves every move into `i` or later pending. */
  lemma RowsAhead(r: Entries, i: nat)
    requires i < |r|
    ensures var c := Cursor(i + 1, 0, Some((r[i].0, r[i].1 + 1)));
      NewState(r, c) && NewPending(r, c) == PairsFrom(r, i)
  {
    var c := Cursor(i + 1, 0, Some((r[i].0, r[i].1 + 1)));
    PairsUnfold(r, i);
    if r[i].1 + 1 > TotalIngredients {
      assert Row(r, i) == [];
      assert PairsFrom(r, i) == PairsFrom(r, i + 1);
    }
  }

  /** Skipping an increase past 100 loses no pending move. */
  lemma NewSkip(r: Entries, c: Cursor)
    requires NewState(r, c) && c.incrT.Some? && c.incrT.value.1 > TotalIngredients
    ensures NewState(r, Advance(r, c)) && NewPending(r, Advance(r, c)) == NewPending(r, c)
  {
    NewAdvance(r, c);
    assert Advance(r, c).(decrIt := 0) == Advance(r, c);
  }

  /** Restarting the decrease pass at the next increase loses no pending
      move: the current row is over. */
  lemma NewReset(r: Entries, c: Cursor)
    requires NewState(r, c) && c.incrT.Some? && c.incrT.value.1 <= TotalIngredients && c.decrIt == |r|
    ensures NewState(r, Advance(r, c).(decrIt := 0))
    ensures NewPending(r, Advance(r, c).(decrIt := 0)) == NewPending(r, c)
  {
    NewAdvance(r, c);
    assert RowFrom(r, c.incrIt - 1, c.decrIt) == [];
    assert [] + PairsFrom(r, c.incrIt) == PairsFrom(r, c.incrIt);
  }

  /** A step of the decrease pass that finds a move yields it. */
  lemma NewDecreaseFound(r: Entries, c: Cursor, p: (nat, nat))
    requires NewState(r, c) && c.incrT.Some?
    requires c.incrT.value.1 <= TotalIngredients && c.decrIt < |r|
    requires r[c.decrIt].0 != c.incrT.value.0 && r[c.decrIt].1 >= 1
    requires p == (c.incrIt - 1, c.decrIt)
    ensures NewState(r, Stepped(c)) && NewPending(r, c) == [p] + NewPending(r, Stepped(c))
  {
    var rest := PairsFrom(r, c.incrIt);
    StepState(r, c);
    Held(r, c);
    PendingInRow(r, c);
    PendingInRow(r, Stepped(c));
    RowFound(r, p.0, p.1);
    ConsAppend(p, RowFrom(r, p.0, p.1 + 1), rest);
  }

  lemma ConsAppend<T>(x: T, s: seq<T>, t: seq<T>)
    ensures ([x] + s) + t == [x] + (s + t)
  {
  }

  /** A step of the decrease pass that finds nothing loses nothing. */
  lemma NewDecreasePass(r: Entries, c: Cursor, p: (nat, nat))
    requires NewState(r, c) && c.incrT.Some?
    requires c.incrT.value.1 <= TotalIngredients && c.decrIt < |r|
    requires !(r[c.decrIt].0 != c.incrT.value.0 && r[c.decrIt].1 >= 1)
    requires p == (c.incrIt - 1, c.decrIt)
    ensures NewState(r, Stepped(c)) && NewPending(r, c) == NewPending(r, Stepped(c))
  {
    StepState(r, c);
    Held(r, c);
    PendingInRow(r, c);
    PendingInRow(r, Stepped(c));
    RowPassed(r, p.0, p.1);
  }

  lemma PendingInRow(r: Entries, c: Cursor)
    requires NewState(r, c) && c.incrT.Some? && c.incrT.value.1 <= TotalIngredients
    ensures NewPending(r, c) == RowFrom(r, c.incrIt - 1, c.decrIt) + PairsFrom(r, c.incrIt)
  {
  }

  lemma Held(r: Entries, c: Cursor)
    requires AtIncrease(r, c) && c.incrT.Some?
    ensures c.incrT.value.0 == r[c.incrIt - 1].0
  {
  }

  lemma StepState(r: Entries, c: Cursor)
    requires NewState(r, c) && c.incrT.Some?
    requires c.incrT.value.1 <= TotalIngredients && c.decrIt < |r|
    ensures NewState(r, Stepped(c))
  {
  }

  /** A step along a row that finds a move. */
  lemma RowFound(r: Entries, i: nat, j: nat)
    requires i < |r| && j < |r| && r[j].0 != r[i].0 && r[j].1 >= 1
    ensures RowFrom(r, i, j) == [(i, j)] + RowFrom(r, i, j + 1)
  {
  }

  /** A step along a row that finds none. */
  lemma RowPassed(r: Entries, i: nat, j: nat)
    requires i < |r| && j < |r| && !(r[j].0 != r[i].0 && r[j].1 >= 1)
    ensures RowFrom(r, i, j) == RowFrom(r, i, j + 1)
  {
    assert RowFrom(r, i, j) == [] + RowFrom(r, i, j + 1);
  }

  /** Each call of `next` yields the first pending move. */
  lemma {:induction false} NewNextPending(r: Entries, c: Cursor)
    requires NewState(r, c)
    ensures YieldsFirst(NewPending(r, c), NewPending(r, NewNext(r, c).1), NewNext(r, c).0)
    decreases |r| - c.incrIt + (if c.incrT.Some? then 1 else 0), |r| - c.decrIt, 1
  {
    if c.incrT.None? {
    } else if c.incrT.value.1 > TotalIngredients {
      NewSkipPending(r, c);
    } else if c.decrIt == |r| {
      NewResetPending(r, c);
    } else if r[c.decrIt].0 != c.incrT.value.0 && r[c.decrIt].1 >= 1 {
      NewFoundPending(r, c);
    } else {
      NewPassPending(r, c);
    }
  }

  lemma NextSkip(r: Entries, c: Cursor)
    requires NewState(r, c) && c.incrT.Some? && c.incrT.value.1 > TotalIngredients
    ensures NewState(r, Advance(r, c)) && NewNext(r, c) == NewNext(r, Advance(r, c))
  {
  }

  lemma NextReset(r: Entries, c: Cursor)
    requires NewState(r, c) && c.incrT.Some? && c.incrT.value.1 <= TotalIngredients && c.decrIt == |r|
    ensures NewState(r, Advance(r, c).(decrIt := 0)) && NewNext(r, c) == NewNext(r, Advance(r, c).(decrIt := 0))
  {
  }

  lemma NextFound(r: Entries, c: Cursor)
    requires NewState(r, c) && c.incrT.Some?
    requires c.incrT.value.1 <= TotalIngredients && c.decrIt < |r|
    requires r[c.decrIt].0 != c.incrT.value.0 && r[c.decrIt].1 >= 1
    ensures NewNext(r, c) == (Some((c.incrIt - 1, c.decrIt)), Stepped(c))
  {
  }

  lemma NextPass(r: Entries, c: Cursor)
    requires NewState(r, c) && c.incrT.Some?
    requires c.incrT.value.1 <= TotalIngredients && c.decrIt < |r|
    requires !(r[c.decrIt].0 != c.incrT.value.0 && r[c.decrIt].1 >= 1)
    ensures NewState(r, Stepped(c))
    ensures NewNext(r, c) == NewNext(r, Stepped(c))
  {
  }

  lemma {:induction false} NewSkipPending(r: Entries, c: Cursor)
    requires NewState(r, c) && c.incrT.Some? && c.incrT.value.1 > TotalIngredients
    ensures YieldsFirst(NewPending(r, c), NewPending(r, NewNext(r, c).1), NewNext(r, c).0)
    decreases |r| - c.incrIt + 1, |r| - c.decrIt, 0
  {
    var c' := Advance(r, c);
    NewSkip(r, c);
    NextSkip(r, c);
    NewNextPending(r, c');
  }

  lemma {:induction false} NewResetPending(r: Entries, c: Cursor)
    requires NewState(r, c) && c.incrT.Some? && c.incrT.value.1 <= TotalIngredients && c.decrIt == |r|
    ensures YieldsFirst(NewPending(r, c), NewPending(r, NewNext(r, c).1), NewNext(r, c).0)
    decreases |r| - c.incrIt + 1, |r| - c.decrIt, 0
  {
    var c' := Advance(r, c).(decrIt := 0);
    NewReset(r, c);
    NextReset(r, c);
    NewNextPending(r, c');
  }

  lemma NewFoundPending(r: Entries, c: Cursor)
    requires NewState(r, c) && c.incrT.Some?
    requires c.incrT.value.1 <= TotalIngredients && c.decrIt < |r|
    requires r[c.decrIt].0 != c.incrT.value.0 && r[c.decrIt].1 >= 1
    ensures YieldsFirst(NewPending(r, c), NewPending(r, NewNext(r, c).1), NewNext(r, c).0)
  {
    var c' := Stepped(c);
    var p: (nat, nat) := (c.incrIt - 1, c.decrIt);
    StepState(r, c);
    NewDecreaseFound(r, c, p);
    NextFound(r, c);
    assert NewPending(r, c)[1..] == NewPending(r, c');
  }

  lemma {:induction false} NewPassPending(r: Entries, c: Cursor)
    requires NewState(r, c) && c.incrT.Some?
    requires c.incrT.value.1 <= TotalIngredients && c.decrIt < |r|
    requires !(r[c.decrIt].0 != c.incrT.value.0 && r[c.decrIt].1 >= 1)
    ensures YieldsFirst(NewPending(r, c), NewPending(r, NewNext(r, c).1), NewNext(r, c).0)
    decreases |r| - c.incrIt + 1, |r| - c.decrIt, 0
  {
    var c' := Stepped(c);
    var p: (nat, nat) := (c.incrIt - 1, c.decrIt);
    StepState(r, c);
    NewDecreasePass(r, c, p);
    NextPass(r, c);
    NewNextPending(r, c');
  }

  // ---------------------------------------------------------------------
  // What the whole walk yields

  /** The moves from increase position `i` on are exactly the moves into a
      position `i` or later. */
  lemma {:induction false} PairsExactly(r: Entries, i: nat, p: (nat, nat))
    ensures p in PairsFrom(r, i) <==> Move(r, p) && i <= p.0
    decreases |r| - i
  {
    if i < |r| {
      assert PairsFrom(r, i) == Row(r, i) + PairsFrom(r, i + 1);
      assert p in PairsFrom(r, i) <==> p in Row(r, i) || p in PairsFrom(r, i + 1);
      PairsExactly(r, i + 1, p);
      if r[i].1 + 1 <= TotalIngredients {
        RowFromExactly(r, i, 0, p);
      } else {
        assert Row(r, i) == [];
      }
    }
  }

  /** Moves in the order the iterator makes them: by increase position,
      then by decrease position. */
  predicate Earlier(p: (nat, nat), q: (nat, nat))
  {
    p.0 < q.0 || (p.0 == q.0 && p.1 < q.1)
  }

  predicate Ascending(s: seq<(nat, nat)>)
  {
    forall a, b :: 0 <= a < b < |s| ==> Earlier(s[a], s[b])
  }

  lemma AscendingAppend(s: seq<(nat, nat)>, t: seq<(nat, nat)>)
    requires Ascending(s) && Ascending(t)
    requires forall a, b :: 0 <= a < |s| && 0 <= b < |t| ==> Earlier(s[a], t[b])
    ensures Ascending(s + t)
  {
    forall a, b | 0 <= a < b < |s + t|
      ensures Earlier((s + t)[a], (s + t)[b])
    {
      if b < |s| {
      } else if a < |s| {
        assert (s + t)[b] == t[b - |s|];
      } else {
        assert (s + t)[a] == t[a - |s|] && (s + t)[b] == t[b - |s|];
      }
    }
  }

  lemma {:induction false} RowFromAscending(r: Entries, i: nat, j: nat)
    requires i < |r|
    ensures Ascending(RowFrom(r, i, j))
    decreases |r| - j
  {
    if j < |r| {
      var head := if r[j].0 != r[i].0 && r[j].1 >= 1 then [(i, j)] else [];
      var rest := RowFrom(r, i, j + 1);
      RowFromAscending(r, i, j + 1);
      forall a, b | 0 <= a < |head| && 0 <= b < |rest|
        ensures Earlier(head[a], rest[b])
      {
        RowFromExactly(r, i, j + 1, rest[b]);
      }
      AscendingAppend(head, rest);
      assert RowFrom(r, i, j) == head + rest;
    }
  }

  lemma {:induction false} PairsAscending(r: Entries, i: nat)
    ensures Ascending(PairsFrom(r, i))
    decreases |r| - i
  {
    if i < |r| {
      var row, rest := Row(r, i), PairsFrom(r, i + 1);
      PairsAscending(r, i + 1);
      if r[i].1 + 1 <= TotalIngredients {
        RowFromAscending(r, i, 0);
      }
      forall a, b | 0 <= a < |row| && 0 <= b < |rest|
        ensures Earlier(row[a], rest[b])
      {
        RowFromExactly(r, i, 0, row[a]);
        PairsExactly(r, i + 1, rest[b]);
      }
      AscendingAppend(row, rest);
      assert PairsFrom(r, i) == row + rest;
    }
  }

  /** A fresh iterator yields every move exactly once: each move is
      pending, nothing else is, and none twice. */
  lemma EveryMoveOnce(r: Entries)
    ensures forall p :: p in PairsFrom(r, 0) <==> Move(r, p)
    ensures forall a, b :: 0 <= a < b < |PairsFrom(r, 0)| ==> PairsFrom(r, 0)[a] != PairsFrom(r, 0)[b]
  {
    forall p {
      PairsExactly(r, 0, p);
    }
    PairsAscending(r, 0);
  }

  /** The first version stops after its first open row, where this one
      goes on: a recipe of two ingredients with 50 teaspoons each. */
  lemma VersionsDiffer(a: Ingredient, b: Ingredient)
    requires a != b
    ensures FirstRow([(a, 50), (b, 50)], 0) == [(0, 1)]
    ensures PairsFrom([(a, 50), (b, 50)], 0) == [(0, 1), (1, 0)]
  {
    var r := [(a, 50), (b, 50)];
    assert RowFrom(r, 0, 2) == [] && RowFrom(r, 1, 2) == [];
    assert RowFrom(r, 0, 1) == [(0, 1)];
    assert RowFrom(r, 0, 0) == [] + [(0, 1)];
    assert RowFrom(r, 1, 1) == [];
    assert RowFrom(r, 1, 0) == [(1, 0)] + [];
    assert PairsFrom(r, 1) == [(1, 0)] + [];
  }

  // ---------------------------------------------------------------------
  // The total check

  /** What `next` hands back: nothing more, a neighbour, or the failure of
      the check that a neighbour still holds 100 teaspoons. */
  datatype Outcome = Exhausted | Yields(recipe: Entries) | TotalMismatch(total: nat)

  /** The outcome for the move `next` makes. */
  function Checked(r: Entries, m: Option<(nat, nat)>): Outcome
    requires m.Some? ==> Move(r, m.value)
  {
    match m
    case None => Exhausted
    case Some(p) =>
      var n := Bump(r, p);
      if Total(n) == TotalIngredients then Yields(n) else TotalMismatch(Total(n))
  }

  /** On a map, the check fails exactly when a move is made on a recipe
      that does not hold 100 teaspoons; otherwise the neighbour is the
      move's. */
  lemma CheckedExactly(r: Entries, m: Option<(nat, nat)>)
    requires Distinct(r) && (m.Some? ==> Move(r, m.value))
    ensures Checked(r, m).TotalMismatch? <==> m.Some? && Total(r) != TotalIngredients
    ensures Checked(r, m).Yields? ==> Checked(r, m).recipe == Bump(r, m.value)
    ensures m.None? <==> Checked(r, m).Exhausted?
  {
    if m.Some? {
      BumpChanges(r, m.value);
    }
  }

  /** The second version of the neighbour iterator, built `From` a
      recipe: as the first, but with the decrease pass restarted at each
      new increase. */
  class Neighbors {
    const recipe: Entries
    /** Entries the increase iterator has handed out. */
    var incrIt: nat
    /** Entries the decrease iterator has handed out. */
    var decrIt: nat
    /** The ingredient to increase and its increased quantity. */
    var incrT: Option<(Ingredient, nat)>

    function Position(): Cursor
      reads this
    {
      Cursor(incrIt, decrIt, incrT)
    }

    ghost predicate Valid()
      reads this
    {
      NewState(recipe, Position())
    }

    /** The moves the iterator has still to yield, in order. */
    ghost function Pending(): seq<(nat, nat)>
      reads this
      requires Valid()
    {
      NewPending(recipe, Position())
    }

    /** `Neighbors::from`: both passes start, and the first ingredient is
        taken for increase; every move is then pending. */
    constructor From(recipe: Entries)
      ensures Valid() && this.recipe == recipe
      ensures Pending() == PairsFrom(recipe, 0)
    {
      this.recipe := recipe;
      incrIt := 0;
      decrIt := 0;
      incrT := None;
      new;
      IncrementIncr();
      NewStart(recipe);
    }

    /** `increment_incr`. */
    method IncrementIncr()
      requires incrIt <= |recipe| && decrIt <= |recipe|
      modifies this
      ensures Position() == Advance(recipe, old(Position()))
    {
      if incrIt < |recipe| {
        incrT := Some((recipe[incrIt].0, recipe[incrIt].1 + 1));
        incrIt := incrIt + 1;
      } else {
        incrT := None;
      }
    }

    /** `Iterator::next`: the outcome for the move `NewNext` makes, which
        `NewNextPending` shows to be the first pending one. */
    method Next() returns (n: Outcome)
      requires Valid()
      modifies this
      ensures n == Checked(recipe, NewNext(recipe, old(Position())).0)
      ensures Position() == NewNext(recipe, old(Position())).1
      decreases |recipe| - incrIt + (if incrT.Some? then 1 else 0), |recipe| - decrIt
    {
      if incrT.None? {
        return Exhausted;
      }
      var (incr, incQ) := incrT.value;
      if incQ > TotalIngredients {
        IncrementIncr();
        n := Next();
        return;
      }
      if decrIt == |recipe| {
        IncrementIncr();
        decrIt := 0;
        n := Next();
        return;
      }
      var (decr, decQ) := recipe[decrIt];
      decrIt := decrIt + 1;
      if decr == incr {
        n := Next();
        return;
      }
      if decQ >= 1 {
        var neighbour := Bump(recipe, (incrIt - 1, decrIt - 1));
        var total := Total(neighbour);
        if total != TotalIngredients {
          return TotalMismatch(total);
        }
        return Yields(neighbour);
      } else {
        n := Next();
      }
    }
  }
}
