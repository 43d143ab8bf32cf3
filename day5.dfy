// Day 5 (first generation): the first set of rules, checked in one pass
// over the pairs of adjacent chars of a trimmed, lower-cased line.

module Day5 {
  import opened Text
  import Day05

  /** The line as the rules see it: trimmed and lower-cased. */
  function Normalize(input: string): string
  {
    Lower(Trim(input))
  }

  /** `is_nice`: counts the vowels (the first char, then the second char of
      each pair), notes a pair of equal chars and a forbidden pair, and
      decides. A line that is empty once trimmed is naughty. */
  method IsNice(input: string) returns (nice: bool)
    ensures nice == Day05.IsNice(Normalize(input))
    ensures Normalize(input) == [] ==> !nice
  {
    var t := Normalize(input);
    if |t| == 0 {
      return false;
    }
    var vowels := if Day05.IsVowel(t[0]) then 1 else 0;
    var hasDouble := false;
    var hasNaughty := false;
    assert t[..1] == [t[0]];
    for i := 1 to |t|
      invariant vowels == Day05.VowelCount(t[..i])
      invariant hasDouble == Day05.ContainsDoubleLetter(t[..i])
      invariant hasNaughty == Day05.ContainsNaughtySequence(t[..i])
    {
      var first, second := t[i - 1], t[i];
      assert t[..i + 1] == t[..i] + [second];
      assert t[..i][i - 1] == first;
      Day05.VowelCountSnoc(t[..i], second);
      Day05.PairsSnoc(t[..i], second);
      if Day05.IsVowel(second) {
        vowels := vowels + 1;
      }
      if first == second {
        hasDouble := true;
      }
      if !hasNaughty && Day05.IsNaughtyPair(first, second) {
        hasNaughty := true;
      }
    }
    assert t[..|t|] == t;
    return hasDouble && !hasNaughty && vowels >= 3;
  }

  /** The verdict of `is_nice` on one line. */
  predicate NiceLine(line: string)
  {
    Day05.IsNice(Normalize(line))
  }

  /** The number of nice lines. */
  function NiceLines(lines: seq<string>): (n: nat)
    ensures n <= |lines|
  {
    if lines == [] then 0 else (if NiceLine(lines[0]) then 1 else 0) + NiceLines(lines[1..])
  }

  /** No nice line counts nothing, and all nice lines count them all. */
  lemma {:induction false} NoNiceLines(lines: seq<string>)
    ensures NiceLines(lines) == 0 <==> forall i :: 0 <= i < |lines| ==> !NiceLine(lines[i])
  {
    if lines != [] {
      NoNiceLines(lines[1..]);
      ShiftLines(lines);
      if !NiceLine(lines[0]) {
        assert NiceLines(lines) == NiceLines(lines[1..]);
      }
    }
  }

  lemma {:induction false} AllNiceLines(lines: seq<string>)
    ensures NiceLines(lines) == |lines| <==> forall i :: 0 <= i < |lines| ==> NiceLine(lines[i])
  {
    if lines != [] {
      AllNiceLines(lines[1..]);
      ShiftLines(lines);
      if NiceLine(lines[0]) {
        assert NiceLines(lines) == 1 + NiceLines(lines[1..]);
      }
    }
  }

  lemma ShiftLines(lines: seq<string>)
    requires lines != []
    ensures forall i :: 1 <= i < |lines| ==> lines[i] == lines[1..][i - 1]
  {
  }

  lemma {:induction false} NiceLinesAppend(a: seq<string>, b: seq<string>)
    ensures NiceLines(a + b) == NiceLines(a) + NiceLines(b)
  {
    if a == [] {
      assert a + b == b;
    } else {
      assert (a + b)[1..] == a[1..] + b;
      NiceLinesAppend(a[1..], b);
    }
  }

  /** `count_nice`: the nice lines among the `\n`-separated ones. */
  function CountNice(lines: string): (n: nat)
    ensures n <= |Split(lines, "\n")|
  {
    NiceLines(Split(lines, "\n"))
  }

  /** The first line is judged on its own and the rest are counted after it. */
  lemma CountNiceFirstLine(a: string, rest: string)
    requires forall i :: 0 <= i < |a| ==> a[i] != '\n'
    ensures CountNice(a + "\n" + rest) == (if NiceLine(a) then 1 else 0) + CountNice(rest)
  {
    SplitAtChar(a, '\n', rest);
    NiceLinesAppend([a], Split(rest, "\n"));
  }

  /** A text without line breaks is one line. */
  lemma CountNiceOneLine(a: string)
    requires forall i :: 0 <= i < |a| ==> a[i] != '\n'
    ensures CountNice(a) == if NiceLine(a) then 1 else 0
  {
    SplitNoSeparator(a, '\n');
  }

  /** The test cases, once trimmed and lower-cased, are the same strings,
      so the verdicts are those of the shared rules. */
  lemma NormalizeLowercaseWord(s: string)
    requires forall i :: 0 <= i < |s| ==> IsAsciiLowerLetter(s[i])
    ensures Normalize(s) == s
  {
    TrimUnchanged(s);
    LowerUnchanged(s);
  }

  lemma NiceLineOfWord(s: string)
    requires forall c :: c in s ==> IsAsciiLowerLetter(c)
    ensures NiceLine(s) == Day05.IsNice(s)
  {
    assert forall i :: 0 <= i < |s| ==> s[i] in s;
    NormalizeLowercaseWord(s);
  }

  lemma NiceExample()
    ensures NiceLine("ugknbfddgicrmopn")
  {
    assert Day05.IsNice("ugknbfddgicrmopn") by {
      Day05.NiceThreeVowelsAndDouble();
    }
    NiceLineOfWord("ugknbfddgicrmopn");
  }

  lemma OverlappingExample()
    ensures NiceLine("aaa")
  {
    assert Day05.IsNice("aaa") by {
      Day05.NiceOverlappingRules();
    }
    NiceLineOfWord("aaa");
  }

  lemma NoDoubleExample()
    ensures !NiceLine("jchzalrnumimnmhp")
  {
    assert !Day05.IsNice("jchzalrnumimnmhp") by {
      Day05.NaughtyNoDouble();
    }
    NiceLineOfWord("jchzalrnumimnmhp");
  }

  lemma ForbiddenPairExample()
    ensures !NiceLine("haegwjzuvuyypxyu")
  {
    assert !Day05.IsNice("haegwjzuvuyypxyu") by {
      Day05.NaughtyForbiddenPair();
    }
    NiceLineOfWord("haegwjzuvuyypxyu");
  }

  lemma OneVowelExample()
    ensures !NiceLine("dvszwmarrgswjxmb")
  {
    assert !Day05.IsNice("dvszwmarrgswjxmb") by {
      Day05.NaughtyOneVowel();
    }
    NiceLineOfWord("dvszwmarrgswjxmb");
  }

  /** Surrounding whitespace and capitals do not change the verdict. */
  lemma NormalizeExample()
    ensures NiceLine("  AAA\t")
  {
    PaddedCapitals();
    Day05.NiceOverlappingRules();
  }

  lemma PaddedCapitals()
    ensures Normalize("  AAA\t") == "aaa"
  {
    PaddedStart();
    PaddedEnd();
    assert Lower("AAA") == "aaa";
  }

  lemma PaddedStart()
    ensures TrimStart("  AAA\t") == "AAA\t"
  {
    assert LeadingWhitespace("  AAA\t") == 2;
  }

  lemma PaddedEnd()
    ensures TrimEnd("AAA\t") == "AAA"
  {
    assert "AAA\t"[..3] == "AAA";
    assert TrimEnd("AAA") == "AAA";
  }

  /** A blank line is naughty. */
  lemma BlankLine()
    ensures !NiceLine("") && !NiceLine(" \t ")
  {
    assert Trim(" \t ") == [];
  }
}
