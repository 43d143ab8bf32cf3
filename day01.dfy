// Day 1: Santa's floor, one paren at a time.

module Day01 {
  import opened Text

  /** The floor change of one char: `(` up, `)` down, anything else none. */
  function Step(floor: int, c: char): int
  {
    if c == '(' then floor + 1 else if c == ')' then floor - 1 else floor
  }

  /** The fold of `Step` over `s` starting from `floor`. */
  function FloorAfter(floor: int, s: string): (r: int)
    ensures r == floor + Count(s, '(') - Count(s, ')')
    decreases |s|
  {
    if s == [] then floor else FloorAfter(Step(floor, s[0]), s[1..])
  }

  /** `count_parens`: the number of `(` minus the number of `)`. */
  function CountParens(s: string): (r: int)
    ensures r == Count(s, '(') - Count(s, ')')
  {
    FloorAfter(0, s)
  }

  lemma CountParensSnoc(s: string, c: char)
    ensures CountParens(s + [c]) == Step(CountParens(s), c)
  {
    CountAppend(s, [c], '(');
    CountAppend(s, [c], ')');
  }

  /** The walk of `find_basement_entry` from position `i` on floor
      `floor`: the 1-based position at which the floor first becomes -1, or
      0 when the chars run out first. */
  function BasementFrom(s: string, i: nat, floor: int): (r: nat)
    requires i <= |s|
    ensures r == 0 || i < r <= |s|
    decreases |s| - i
  {
    if i == |s| then 0
    else if Step(floor, s[i]) == -1 then i + 1
    else BasementFrom(s, i + 1, Step(floor, s[i]))
  }

  /** The answer of `find_basement_entry`. */
  function BasementEntry(s: string): nat
  {
    BasementFrom(s, 0, 0)
  }

  lemma {:induction false} BasementFromMeaning(s: string, i: nat, floor: int)
    requires i <= |s| && floor == CountParens(s[..i])
    ensures var r := BasementFrom(s, i, floor);
      (r == 0 <==> forall k :: i < k <= |s| ==> CountParens(s[..k]) != -1) &&
      (r != 0 ==> CountParens(s[..r]) == -1 && forall k :: i < k < r ==> CountParens(s[..k]) != -1)
    decreases |s| - i
  {
    if i < |s| {
      assert s[..i + 1] == s[..i] + [s[i]];
      CountParensSnoc(s[..i], s[i]);
      if Step(floor, s[i]) != -1 {
        BasementFromMeaning(s, i + 1, Step(floor, s[i]));
      }
    }
  }

  /** The basement entry is the 1-based position of the first char after
      which the floor is -1, and 0 when the floor never gets there. */
  lemma BasementEntryMeaning(s: string)
    ensures BasementEntry(s) == 0 <==> forall k :: 0 < k <= |s| ==> CountParens(s[..k]) != -1
    ensures BasementEntry(s) != 0 ==>
      BasementEntry(s) <= |s| && CountParens(s[..BasementEntry(s)]) == -1 &&
      forall k :: 0 < k < BasementEntry(s) ==> CountParens(s[..k]) != -1
  {
    assert s[..0] == [];
    BasementFromMeaning(s, 0, 0);
  }

  /** `find_basement_entry`: walks the chars keeping the floor and returns
      as soon as it is -1. */
  method FindBasementEntry(s: string) returns (r: nat)
    ensures r == BasementEntry(s)
  {
    var floor := 0;
    for i := 0 to |s|
      invariant BasementEntry(s) == BasementFrom(s, i, floor)
    {
      var ch := s[i];
      if ch == '(' {
        floor := floor + 1;
      } else if ch == ')' {
        floor := floor - 1;
      }
      if floor == -1 {
        return i + 1;
      }
    }
    return 0;
  }

  // The test cases of both crates.

  lemma CountToFloor0()
    ensures CountParens("(())") == 0 && CountParens("()()") == 0
  {
  }

  lemma CountToFloor3()
    ensures CountParens("(((") == 3 && CountParens("(()(()(") == 3 && CountParens("))(((((") == 3
  {
  }

  lemma CountToNeg1()
    ensures CountParens("())") == -1 && CountParens("))(") == -1
  {
  }

  lemma CountToNeg3()
    ensures CountParens(")))") == -3 && CountParens(")())())") == -3
  {
  }

  lemma IgnoreNonParens()
    ensures CountParens("hello, world") == 0
  {
  }

  lemma BasementFirstChar()
    ensures BasementEntry(")") == 1
  {
  }

  lemma BasementFifthChar()
    ensures BasementEntry("()())") == 5
  {
  }

  lemma BasementNeverEnters()
    ensures BasementEntry("(((())(()))((())") == 0
  {
    var s := "(((())(()))((())";
    assert BasementFrom(s, 12, 2) == 0;
    assert BasementFrom(s, 8, 4) == 0;
    assert BasementFrom(s, 4, 4) == 0;
  }
}
