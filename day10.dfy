// Day 10: look-and-say. Each maximal run of equal chars is replaced by
// its length in decimal followed by the char.

module Day10 {
  import opened Text

  datatype Run = Run(ch: char, count: nat)

  /** The maximal runs of `s`, left to right. */
  function Runs(s: string): (r: seq<Run>)
    ensures |r| <= |s|
    ensures s == [] <==> r == []
  {
    if s == [] then [] else Push(Runs(s[..|s| - 1]), s[|s| - 1])
  }

  /** One more char: it lengthens the last run or starts a new one. */
  function Push(r: seq<Run>, c: char): (p: seq<Run>)
    ensures |p| <= |r| + 1 && p != [] && p[|p| - 1].ch == c
  {
    if r != [] && r[|r| - 1].ch == c
    then r[..|r| - 1] + [Run(c, r[|r| - 1].count + 1)]
    else r + [Run(c, 1)]
  }

  /** `n` copies of `c`. */
  function Repeat(c: char, n: nat): (r: string)
    ensures |r| == n && forall i :: 0 <= i < n ==> r[i] == c
  {
    if n == 0 then [] else Repeat(c, n - 1) + [c]
  }

  /** The string a list of runs stands for. */
  function Expand(runs: seq<Run>): (r: string)
  {
    if runs == [] then []
    else Expand(runs[..|runs| - 1]) + Repeat(runs[|runs| - 1].ch, runs[|runs| - 1].count)
  }

  /** Runs are non-empty and neighbours differ: nothing can be merged. */
  predicate Maximal(runs: seq<Run>)
  {
    (forall k :: 0 <= k < |runs| ==> runs[k].count >= 1)
    && (forall k :: 0 <= k < |runs| - 1 ==> runs[k].ch != runs[k + 1].ch)
  }

  /** The sum of the run lengths. */
  function Total(runs: seq<Run>): nat
  {
    if runs == [] then 0 else Total(runs[..|runs| - 1]) + runs[|runs| - 1].count
  }

  /** What is said for a list of runs. */
  function Say(runs: seq<Run>): (r: string)
  {
    if runs == [] then []
    else
      var last := runs[|runs| - 1];
      Say(runs[..|runs| - 1]) + DecimalString(last.count) + [last.ch]
  }

  lemma SayAppend(runs: seq<Run>, x: Run)
    ensures Say(runs + [x]) == Say(runs) + DecimalString(x.count) + [x.ch]
  {
    assert (runs + [x])[..|runs|] == runs;
  }

  /** Appending a char extends the last run or starts a new one. */
  lemma RunsSnoc(s: string, c: char)
    ensures Runs(s + [c]) == Push(Runs(s), c)
  {
    var t := s + [c];
    assert t[..|t| - 1] == s;
    assert t[|t| - 1] == c;
    assert t != [];
  }

  lemma ExpandSnoc(runs: seq<Run>, x: Run)
    ensures Expand(runs + [x]) == Expand(runs) + Repeat(x.ch, x.count)
  {
    assert (runs + [x])[..|runs|] == runs;
  }

  /** `look_and_say`: the loop keeps the char and length of the run in
      progress and flushes a run when a different char starts it. */
  method LookAndSay(sequence: string) returns (ret: string)
    ensures ret == Say(Runs(sequence))
  {
    ret := [];
    var curChar: Option<char> := None;
    var curCharCount: nat := 0;
    for i := 0 to |sequence|
      invariant State(sequence[..i], curChar, curCharCount, ret)
    {
      var ch := sequence[i];
      curChar, curCharCount, ret := Feed(sequence[..i], ch, curChar, curCharCount, ret);
      assert sequence[..i + 1] == sequence[..i] + [ch];
    }
    assert sequence[..|sequence|] == sequence;
    if curChar.Some? {
      FlushedSay(Runs(sequence), curChar, curCharCount, ret);
      ret := ret + DecimalString(curCharCount);
      ret := ret + [curChar.value];
    }
  }

  /** The body of the loop of `look_and_say` for the next char `ch`. */
  method Feed(ghost s: string, ch: char, curChar: Option<char>, curCharCount: nat, said: string)
    returns (cur: Option<char>, count: nat, ret: string)
    requires State(s, curChar, curCharCount, said)
    ensures State(s + [ch], cur, count, ret)
  {
    cur, count, ret := curChar, curCharCount, said;
    if Some(ch) != cur {
      if cur.Some? {
        ret := ret + DecimalString(count);
        ret := ret + [cur.value];
      }
      cur := Some(ch);
      count := 0;
    }
    count := count + 1;
    Advance(s, ch, curChar, curCharCount, said, cur, count, ret);
  }

  /** The loop state after reading `s`: nothing yet, or every run but the
      last has been said and the last is the run in progress. */
  predicate State(s: string, cur: Option<char>, count: nat, said: string)
  {
    if s == [] then cur == None && count == 0 && said == []
    else Flushed(Runs(s), cur, count, said)
  }

  predicate Flushed(runs: seq<Run>, cur: Option<char>, count: nat, said: string)
  {
    runs != [] && cur == Some(runs[|runs| - 1].ch) && count == runs[|runs| - 1].count
    && said == Say(runs[..|runs| - 1])
  }

  lemma FlushedSay(runs: seq<Run>, cur: Option<char>, count: nat, said: string)
    requires Flushed(runs, cur, count, said)
    ensures said + DecimalString(count) + [cur.value] == Say(runs)
  {
    assert runs == runs[..|runs| - 1] + [runs[|runs| - 1]];
    SayAppend(runs[..|runs| - 1], runs[|runs| - 1]);
  }

  /** What one turn of the loop does with the next char `ch`. */
  predicate Turn(ch: char, cur: Option<char>, count: nat, said: string,
                 cur': Option<char>, count': nat, said': string)
  {
    if Some(ch) != cur then
      cur' == Some(ch) && count' == 1
      && said' == (if cur.Some? then said + DecimalString(count) + [cur.value] else said)
    else cur' == cur && count' == count + 1 && said' == said
  }

  /** One turn of the loop keeps its state. */
  lemma Advance(s: string, ch: char, cur: Option<char>, count: nat, said: string,
                cur': Option<char>, count': nat, said': string)
    requires State(s, cur, count, said)
    requires Turn(ch, cur, count, said, cur', count', said')
    ensures State(s + [ch], cur', count', said')
  {
    RunsSnoc(s, ch);
    var r := Runs(s);
    if s != [] {
      assert r != [];
      if Some(ch) != cur {
        FlushedSay(r, cur, count, said);
        var r' := r + [Run(ch, 1)];
        assert r'[..|r'| - 1] == r;
      } else {
        var r' := r[..|r| - 1] + [Run(ch, count + 1)];
        assert r'[..|r'| - 1] == r[..|r| - 1];
      }
    }
  }

  /** The runs spell out the input again. */
  lemma {:induction false} ExpandRuns(s: string)
    ensures Expand(Runs(s)) == s
    decreases |s|
  {
    if s != [] {
      var init := s[..|s| - 1];
      var c := s[|s| - 1];
      assert s == init + [c];
      ExpandRuns(init);
      RunsSnoc(init, c);
      ExpandPush(Runs(init), c);
    }
  }

  /** Pushing a char onto a list of runs appends it to what they spell. */
  lemma ExpandPush(r: seq<Run>, c: char)
    ensures Expand(Push(r, c)) == Expand(r) + [c]
  {
    if r != [] && r[|r| - 1].ch == c {
      var last := r[|r| - 1];
      var front := r[..|r| - 1];
      assert r == front + [last];
      ExpandSnoc(front, last);
      ExpandSnoc(front, Run(c, last.count + 1));
      assert Repeat(c, last.count + 1) == Repeat(c, last.count) + [c];
    } else {
      ExpandSnoc(r, Run(c, 1));
      assert Repeat(c, 1) == [c];
    }
  }

  /** The runs are maximal. */
  lemma {:induction false} RunsMaximal(s: string)
    ensures Maximal(Runs(s))
    decreases |s|
  {
    if s != [] {
      RunsMaximal(s[..|s| - 1]);
    }
  }

  /** The run lengths add up to the length of the input. */
  lemma ExpandLength(runs: seq<Run>)
    ensures |Expand(runs)| == Total(runs)
  {
  }

  lemma RunsTotal(s: string)
    ensures Total(Runs(s)) == |s|
  {
    ExpandRuns(s);
    ExpandLength(Runs(s));
  }

  /** The runs before the last char of what `runs` spells. */
  function Drop(runs: seq<Run>): seq<Run>
    requires runs != []
  {
    var last := runs[|runs| - 1];
    if last.count <= 1 then runs[..|runs| - 1]
    else runs[..|runs| - 1] + [Run(last.ch, last.count - 1)]
  }

  lemma LastSplit<T>(s: seq<T>)
    requires s != []
    ensures s == s[..|s| - 1] + [s[|s| - 1]]
  {
  }

  lemma DropSpells(runs: seq<Run>)
    requires runs != [] && runs[|runs| - 1].count >= 1
    ensures var s := Expand(runs);
      s != [] && s[|s| - 1] == runs[|runs| - 1].ch && s[..|s| - 1] == Expand(Drop(runs))
  {
    var init := runs[..|runs| - 1];
    var last := runs[|runs| - 1];
    var c := last.ch;
    LastSplit(runs);
    ExpandSnoc(init, last);
    assert Repeat(c, last.count) == Repeat(c, last.count - 1) + [c];
    if last.count > 1 {
      ExpandSnoc(init, Run(c, last.count - 1));
    }
  }

  lemma DropMaximal(runs: seq<Run>)
    requires runs != [] && Maximal(runs)
    ensures Maximal(Drop(runs)) && Push(Drop(runs), runs[|runs| - 1].ch) == runs
  {
    var init := runs[..|runs| - 1];
    var last := runs[|runs| - 1];
    assert runs == init + [last];
    if last.count > 1 {
      var d := Drop(runs);
      assert d[..|d| - 1] == init;
    }
  }

  /** The only maximal runs that spell `s` are `Runs(s)`: "each maximal
      run in order" names one list. */
  lemma {:induction false} RunsUnique(runs: seq<Run>, s: string)
    requires Maximal(runs) && Expand(runs) == s
    ensures Runs(s) == runs
    decreases |s|
  {
    if runs != [] {
      var c := runs[|runs| - 1].ch;
      DropSpells(runs);
      DropMaximal(runs);
      RunsUnique(Drop(runs), s[..|s| - 1]);
      LastSplit(s);
      RunsSnoc(s[..|s| - 1], c);
    }
  }

  lemma EmptySaysNothing()
    ensures Say(Runs("")) == ""
  {
  }

  lemma Example1()
    ensures Say(Runs("1")) == "11"
  {
  }

  lemma Example11()
    ensures Say(Runs("11")) == "21"
  {
  }

  lemma Example21()
    ensures Say(Runs("21")) == "1211"
  {
  }

  lemma ThreeExpand(a: Run, b: Run, c: Run)
    ensures Expand([a, b, c]) == Repeat(a.ch, a.count) + Repeat(b.ch, b.count) + Repeat(c.ch, c.count)
  {
    ExpandSnoc([], a);
    ExpandSnoc([a], b);
    ExpandSnoc([a, b], c);
    assert [a] == [] + [a] && [a, b] == [a] + [b] && [a, b, c] == [a, b] + [c];
  }

  lemma ThreeSay(a: Run, b: Run, c: Run)
    ensures Say([a, b, c]) == DecimalString(a.count) + [a.ch] + DecimalString(b.count) + [b.ch]
      + DecimalString(c.count) + [c.ch]
  {
    SayAppend([], a);
    SayAppend([a], b);
    SayAppend([a, b], c);
    assert [a] == [] + [a] && [a, b] == [a] + [b] && [a, b, c] == [a, b] + [c];
  }

  /** Three runs alternating between two chars. */
  lemma ThreeRuns(x: char, y: char, n1: nat, n2: nat, n3: nat)
    requires x != y && n1 >= 1 && n2 >= 1 && n3 >= 1
    ensures Say(Runs(Repeat(x, n1) + Repeat(y, n2) + Repeat(x, n3)))
      == DecimalString(n1) + [x] + DecimalString(n2) + [y] + DecimalString(n3) + [x]
  {
    var a, b, c := Run(x, n1), Run(y, n2), Run(x, n3);
    ThreeExpand(a, b, c);
    assert Maximal([a, b, c]);
    RunsUnique([a, b, c], Repeat(x, n1) + Repeat(y, n2) + Repeat(x, n3));
    ThreeSay(a, b, c);
  }

  lemma Example1211()
    ensures Say(Runs("1211")) == "111221"
  {
    Spelled('1', '2', 1, 1, 2, "1211");
    ThreeRuns('1', '2', 1, 1, 2);
    Said('1', '2', 1, 1, 2, "111221");
  }

  lemma Example111221()
    ensures Say(Runs("111221")) == "312211"
  {
    Spelled('1', '2', 3, 2, 1, "111221");
    ThreeRuns('1', '2', 3, 2, 1);
    Said('1', '2', 3, 2, 1, "312211");
  }

  /** `s` is the three runs `x`^n1 `y`^n2 `x`^n3 written out. */
  lemma Spelled(x: char, y: char, n1: nat, n2: nat, n3: nat, s: string)
    requires |s| == n1 + n2 + n3
    requires forall i :: 0 <= i < |s| ==> s[i] == (if i < n1 || n1 + n2 <= i then x else y)
    ensures Repeat(x, n1) + Repeat(y, n2) + Repeat(x, n3) == s
  {
  }

  /** `s` is what is said for three single-digit runs. */
  lemma Said(x: char, y: char, n1: nat, n2: nat, n3: nat, s: string)
    requires 1 <= n1 <= 9 && 1 <= n2 <= 9 && 1 <= n3 <= 9
    requires s == [DecimalDigit(n1), x, DecimalDigit(n2), y, DecimalDigit(n3), x]
    ensures DecimalString(n1) + [x] + DecimalString(n2) + [y] + DecimalString(n3) + [x] == s
  {
  }
}
