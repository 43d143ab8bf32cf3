// Day 5 (second generation): the two sets of rules that tell nice strings
// from naughty ones, each rule a scan over windows of the chars.

module Day05 {
  import opened Text

  predicate IsVowel(c: char)
  {
    c == 'a' || c == 'e' || c == 'i' || c == 'o' || c == 'u'
  }

  /** The number of chars of `s` from position `i` on that are in `aeiou`. */
  function VowelsFrom(s: string, i: nat): (n: nat)
    requires i <= |s|
    ensures n <= |s| - i
    decreases |s| - i
  {
    if i == |s| then 0 else (if IsVowel(s[i]) then 1 else 0) + VowelsFrom(s, i + 1)
  }

  function VowelCount(s: string): nat
  {
    VowelsFrom(s, 0)
  }

  lemma {:induction false} VowelsFromIsSum(s: string, i: nat)
    requires i <= |s|
    ensures VowelsFrom(s, i) ==
      Count(s[i..], 'a') + Count(s[i..], 'e') + Count(s[i..], 'i') + Count(s[i..], 'o') + Count(s[i..], 'u')
    decreases |s| - i
  {
    if i < |s| {
      VowelsFromIsSum(s, i + 1);
      assert s[i..][1..] == s[i + 1..];
    }
  }

  /** Counting vowels is counting each of the five letters. */
  lemma VowelCountIsSum(s: string)
    ensures VowelCount(s) == Count(s, 'a') + Count(s, 'e') + Count(s, 'i') + Count(s, 'o') + Count(s, 'u')
  {
    VowelsFromIsSum(s, 0);
    assert s[0..] == s;
  }

  lemma VowelCountSnoc(s: string, c: char)
    ensures VowelCount(s + [c]) == VowelCount(s) + (if IsVowel(c) then 1 else 0)
  {
    VowelCountIsSum(s);
    VowelCountIsSum(s + [c]);
    CountAppend(s, [c], 'a');
    CountAppend(s, [c], 'e');
    CountAppend(s, [c], 'i');
    CountAppend(s, [c], 'o');
    CountAppend(s, [c], 'u');
  }

  /** `has_enough_vowels`. */
  predicate HasEnoughVowels(s: string)
  {
    VowelCount(s) >= 3
  }

  /** The windows of two of `s` from position `i` on hold one letter twice. */
  predicate DoubleFrom(s: string, i: nat)
    decreases |s| - i
  {
    i + 1 < |s| && (s[i] == s[i + 1] || DoubleFrom(s, i + 1))
  }

  /** `contains_double_letter`: some window of two holds one letter twice. */
  predicate ContainsDoubleLetter(s: string)
  {
    DoubleFrom(s, 0)
  }

  lemma {:induction false} DoubleFromMeaning(s: string, i: nat)
    ensures DoubleFrom(s, i) <==> exists k :: i <= k < |s| - 1 && s[k] == s[k + 1]
    decreases |s| - i
  {
    if i + 1 < |s| {
      DoubleFromMeaning(s, i + 1);
    }
  }

  lemma DoubleLetterMeaning(s: string)
    ensures ContainsDoubleLetter(s) <==> exists k :: 0 <= k < |s| - 1 && s[k] == s[k + 1]
  {
    DoubleFromMeaning(s, 0);
  }

  /** The four forbidden pairs. */
  predicate IsNaughtyPair(a: char, b: char)
  {
    (a == 'a' && b == 'b') || (a == 'c' && b == 'd') || (a == 'p' && b == 'q') || (a == 'x' && b == 'y')
  }

  predicate NaughtyFrom(s: string, i: nat)
    decreases |s| - i
  {
    i + 1 < |s| && (IsNaughtyPair(s[i], s[i + 1]) || NaughtyFrom(s, i + 1))
  }

  /** `contains_naughty_sequence`: some window of two is `ab`, `cd`, `pq` or
      `xy`. */
  predicate ContainsNaughtySequence(s: string)
  {
    NaughtyFrom(s, 0)
  }

  lemma {:induction false} NaughtyFromMeaning(s: string, i: nat)
    ensures NaughtyFrom(s, i) <==> exists k :: i <= k < |s| - 1 && IsNaughtyPair(s[k], s[k + 1])
    decreases |s| - i
  {
    if i + 1 < |s| {
      NaughtyFromMeaning(s, i + 1);
    }
  }

  lemma NaughtySequenceMeaning(s: string)
    ensures ContainsNaughtySequence(s) <==> exists k :: 0 <= k < |s| - 1 && IsNaughtyPair(s[k], s[k + 1])
  {
    NaughtyFromMeaning(s, 0);
  }

  /** Adding one char adds exactly the window it closes. */
  lemma PairsSnoc(s: string, c: char)
    requires |s| >= 1
    ensures ContainsDoubleLetter(s + [c]) <==> ContainsDoubleLetter(s) || s[|s| - 1] == c
    ensures ContainsNaughtySequence(s + [c]) <==> ContainsNaughtySequence(s) || IsNaughtyPair(s[|s| - 1], c)
  {
    var t := s + [c];
    DoubleLetterMeaning(s);
    DoubleLetterMeaning(t);
    NaughtySequenceMeaning(s);
    NaughtySequenceMeaning(t);
    assert forall i :: 0 <= i < |s| ==> t[i] == s[i];
    assert t[|s|] == c;
    if ContainsDoubleLetter(t) && !(s[|s| - 1] == c) {
      var i :| 0 <= i < |t| - 1 && t[i] == t[i + 1];
      assert i < |s| - 1;
    }
    if ContainsNaughtySequence(t) && !IsNaughtyPair(s[|s| - 1], c) {
      var i :| 0 <= i < |t| - 1 && IsNaughtyPair(t[i], t[i + 1]);
      assert i < |s| - 1;
    }
  }

  /** `is_nice`: at least three vowels, a double letter, no forbidden pair. */
  predicate IsNice(s: string)
  {
    HasEnoughVowels(s) && ContainsDoubleLetter(s) && !ContainsNaughtySequence(s)
  }

  /** A string is nice exactly when its five vowels number at least three,
      some letter is doubled and no forbidden pair occurs. */
  lemma IsNiceMeaning(s: string)
    ensures IsNice(s) <==> (Count(s, 'a') + Count(s, 'e') + Count(s, 'i') + Count(s, 'o') + Count(s, 'u') >= 3 &&
                            (exists k :: 0 <= k < |s| - 1 && s[k] == s[k + 1]) &&
                            !(exists k :: 0 <= k < |s| - 1 && IsNaughtyPair(s[k], s[k + 1])))
  {
    VowelCountIsSum(s);
    DoubleLetterMeaning(s);
    NaughtySequenceMeaning(s);
  }

  predicate EyeFrom(s: string, i: nat)
    decreases |s| - i
  {
    i + 2 < |s| && (s[i] == s[i + 2] || EyeFrom(s, i + 1))
  }

  /** `contains_eye_pattern`: some window of three starts and ends with the
      same letter. */
  predicate ContainsEyePattern(s: string)
  {
    EyeFrom(s, 0)
  }

  lemma {:induction false} EyeFromMeaning(s: string, i: nat)
    ensures EyeFrom(s, i) <==> exists k :: i <= k < |s| - 2 && s[k] == s[k + 2]
    decreases |s| - i
  {
    if i + 2 < |s| {
      EyeFromMeaning(s, i + 1);
    }
  }

  lemma EyePatternMeaning(s: string)
    ensures ContainsEyePattern(s) <==> exists k :: 0 <= k < |s| - 2 && s[k] == s[k + 2]
  {
    EyeFromMeaning(s, 0);
  }

  /** The pair `ab` is a window of `s` starting at `j` or later. */
  predicate PairFrom(a: char, b: char, s: string, j: nat)
    decreases |s| - j
  {
    j + 1 < |s| && ((s[j] == a && s[j + 1] == b) || PairFrom(a, b, s, j + 1))
  }

  lemma {:induction false} PairFromMeaning(a: char, b: char, s: string, j: nat)
    ensures PairFrom(a, b, s, j) <==> exists k :: j <= k < |s| - 1 && s[k] == a && s[k + 1] == b
    decreases |s| - j
  {
    if j + 1 < |s| {
      PairFromMeaning(a, b, s, j + 1);
    }
  }

  /** The window of two at some position `i` or later comes back two or
      more places after it. */
  predicate RepeatedFrom(s: string, i: nat)
    decreases |s| - i
  {
    i + 1 < |s| && (PairFrom(s[i], s[i + 1], s, i + 2) || RepeatedFrom(s, i + 1))
  }

  /** `contains_repeated_double`: the window of two at some position comes
      back among the chars after it, starting two or more places later. */
  predicate ContainsRepeatedDouble(s: string)
  {
    RepeatedFrom(s, 0)
  }

  /** The pair at `p` comes back at `q`, two or more places later. */
  predicate RepeatAt(s: string, p: nat, q: nat)
  {
    p + 2 <= q < |s| - 1 && s[p] == s[q] && s[p + 1] == s[q + 1]
  }

  /** Some pair appears twice without the two copies overlapping. */
  ghost predicate HasRepeatedPair(s: string)
  {
    exists p: nat, q: nat :: RepeatAt(s, p, q)
  }

  lemma {:induction false} RepeatedFromMeaning(s: string, i: nat)
    ensures RepeatedFrom(s, i) <==> exists p: nat, q: nat :: i <= p && RepeatAt(s, p, q)
    decreases |s| - i
  {
    if i + 1 < |s| {
      RepeatedFromMeaning(s, i + 1);
      PairFromMeaning(s[i], s[i + 1], s, i + 2);
      if PairFrom(s[i], s[i + 1], s, i + 2) {
        var q :| i + 2 <= q < |s| - 1 && s[q] == s[i] && s[q + 1] == s[i + 1];
        assert RepeatAt(s, i, q);
      }
    }
  }

  lemma RepeatedDoubleMeaning(s: string)
    ensures ContainsRepeatedDouble(s) <==> HasRepeatedPair(s)
  {
    RepeatedFromMeaning(s, 0);
  }

  /** `is_nice2`: a letter repeated one apart and a pair repeated without
      overlap. */
  predicate IsNice2(s: string): (r: bool)
    ensures r <==> (exists k :: 0 <= k < |s| - 2 && s[k] == s[k + 2]) && HasRepeatedPair(s)
  {
    EyePatternMeaning(s);
    RepeatedDoubleMeaning(s);
    ContainsEyePattern(s) && ContainsRepeatedDouble(s)
  }

  // The test cases of the first rule set.

  /** Three vowels, `dd`, and no forbidden pair. */
  lemma NiceThreeVowelsAndDouble()
    ensures VowelCount("ugknbfddgicrmopn") == 3
    ensures ContainsDoubleLetter("ugknbfddgicrmopn")
    ensures !ContainsNaughtySequence("ugknbfddgicrmopn")
    ensures IsNice("ugknbfddgicrmopn")
  {
    var s := "ugknbfddgicrmopn";
    assert VowelsFrom(s, 15) == 0;
    assert VowelsFrom(s, 12) == 1;
    assert VowelsFrom(s, 9) == 2;
    assert VowelsFrom(s, 6) == 2;
    assert VowelsFrom(s, 3) == 2;
    assert !DoubleFrom(s, 15);
    assert !DoubleFrom(s, 12);
    assert !DoubleFrom(s, 9);
    assert DoubleFrom(s, 6);
    assert DoubleFrom(s, 3);
    assert !NaughtyFrom(s, 15);
    assert !NaughtyFrom(s, 12);
    assert !NaughtyFrom(s, 9);
    assert !NaughtyFrom(s, 6);
    assert !NaughtyFrom(s, 3);
  }

  /** The rules may use the same letters. */
  lemma NiceOverlappingRules()
    ensures VowelCount("aaa") == 3
    ensures ContainsDoubleLetter("aaa")
    ensures !ContainsNaughtySequence("aaa")
    ensures IsNice("aaa")
  {
    var s := "aaa";
    assert VowelsFrom(s, 2) == 1;
    assert !DoubleFrom(s, 2);
    assert !NaughtyFrom(s, 2);
  }

  /** No letter appears twice in a row. */
  lemma NaughtyNoDouble()
    ensures VowelCount("jchzalrnumimnmhp") == 3
    ensures !ContainsDoubleLetter("jchzalrnumimnmhp")
    ensures !ContainsNaughtySequence("jchzalrnumimnmhp")
    ensures !IsNice("jchzalrnumimnmhp")
  {
    var s := "jchzalrnumimnmhp";
    assert VowelsFrom(s, 15) == 0;
    assert VowelsFrom(s, 12) == 0;
    assert VowelsFrom(s, 9) == 1;
    assert VowelsFrom(s, 6) == 2;
    assert VowelsFrom(s, 3) == 3;
    assert !DoubleFrom(s, 15);
    assert !DoubleFrom(s, 12);
    assert !DoubleFrom(s, 9);
    assert !DoubleFrom(s, 6);
    assert !DoubleFrom(s, 3);
    assert !NaughtyFrom(s, 15);
    assert !NaughtyFrom(s, 12);
    assert !NaughtyFrom(s, 9);
    assert !NaughtyFrom(s, 6);
    assert !NaughtyFrom(s, 3);
  }

  /** It holds `xy`. */
  lemma NaughtyForbiddenPair()
    ensures VowelCount("haegwjzuvuyypxyu") == 5
    ensures ContainsDoubleLetter("haegwjzuvuyypxyu")
    ensures ContainsNaughtySequence("haegwjzuvuyypxyu")
    ensures !IsNice("haegwjzuvuyypxyu")
  {
    var s := "haegwjzuvuyypxyu";
    assert VowelsFrom(s, 15) == 1;
    assert VowelsFrom(s, 12) == 1;
    assert VowelsFrom(s, 9) == 2;
    assert VowelsFrom(s, 6) == 3;
    assert VowelsFrom(s, 3) == 3;
    assert !DoubleFrom(s, 15);
    assert !DoubleFrom(s, 12);
    assert DoubleFrom(s, 9);
    assert DoubleFrom(s, 6);
    assert DoubleFrom(s, 3);
    assert !NaughtyFrom(s, 15);
    assert NaughtyFrom(s, 12);
    assert NaughtyFrom(s, 9);
    assert NaughtyFrom(s, 6);
    assert NaughtyFrom(s, 3);
  }

  /** Only one vowel. */
  lemma NaughtyOneVowel()
    ensures VowelCount("dvszwmarrgswjxmb") == 1
    ensures ContainsDoubleLetter("dvszwmarrgswjxmb")
    ensures !ContainsNaughtySequence("dvszwmarrgswjxmb")
    ensures !IsNice("dvszwmarrgswjxmb")
  {
    var s := "dvszwmarrgswjxmb";
    assert VowelsFrom(s, 15) == 0;
    assert VowelsFrom(s, 12) == 0;
    assert VowelsFrom(s, 9) == 0;
    assert VowelsFrom(s, 6) == 1;
    assert VowelsFrom(s, 3) == 1;
    assert !DoubleFrom(s, 15);
    assert !DoubleFrom(s, 12);
    assert !DoubleFrom(s, 9);
    assert DoubleFrom(s, 6);
    assert DoubleFrom(s, 3);
    assert !NaughtyFrom(s, 15);
    assert !NaughtyFrom(s, 12);
    assert !NaughtyFrom(s, 9);
    assert !NaughtyFrom(s, 6);
    assert !NaughtyFrom(s, 3);
  }

  // The test cases of the second rule set.

  /** `qj` twice and `zxz`. */
  lemma Nice2PairAndEye()
    ensures ContainsEyePattern("qjhvhtzxzqqjkmpb")
    ensures ContainsRepeatedDouble("qjhvhtzxzqqjkmpb")
    ensures IsNice2("qjhvhtzxzqqjkmpb")
  {
    var s := "qjhvhtzxzqqjkmpb";
    assert !EyeFrom(s, 15);
    assert !EyeFrom(s, 12);
    assert !EyeFrom(s, 9);
    assert EyeFrom(s, 6);
    assert EyeFrom(s, 3);
    assert !RepeatedFrom(s, 14);
    assert !RepeatedFrom(s, 13);
    assert !PairFrom(s[12], s[13], s, 15);
    assert !RepeatedFrom(s, 12);
    assert !PairFrom(s[11], s[12], s, 15);
    assert !RepeatedFrom(s, 11);
    assert !PairFrom(s[10], s[11], s, 15);
    assert !RepeatedFrom(s, 10);
    assert !PairFrom(s[9], s[10], s, 15);
    assert !PairFrom(s[9], s[10], s, 12);
    assert !RepeatedFrom(s, 9);
    assert !PairFrom(s[8], s[9], s, 15);
    assert !PairFrom(s[8], s[9], s, 12);
    assert !RepeatedFrom(s, 8);
    assert !PairFrom(s[7], s[8], s, 15);
    assert !PairFrom(s[7], s[8], s, 12);
    assert !RepeatedFrom(s, 7);
    assert !PairFrom(s[6], s[7], s, 15);
    assert !PairFrom(s[6], s[7], s, 12);
    assert !PairFrom(s[6], s[7], s, 9);
    assert !RepeatedFrom(s, 6);
    assert !PairFrom(s[5], s[6], s, 15);
    assert !PairFrom(s[5], s[6], s, 12);
    assert !PairFrom(s[5], s[6], s, 9);
    assert !RepeatedFrom(s, 5);
    assert !PairFrom(s[4], s[5], s, 15);
    assert !PairFrom(s[4], s[5], s, 12);
    assert !PairFrom(s[4], s[5], s, 9);
    assert !RepeatedFrom(s, 4);
    assert !PairFrom(s[3], s[4], s, 15);
    assert !PairFrom(s[3], s[4], s, 12);
    assert !PairFrom(s[3], s[4], s, 9);
    assert !PairFrom(s[3], s[4], s, 6);
    assert !RepeatedFrom(s, 3);
    assert !PairFrom(s[2], s[3], s, 15);
    assert !PairFrom(s[2], s[3], s, 12);
    assert !PairFrom(s[2], s[3], s, 9);
    assert !PairFrom(s[2], s[3], s, 6);
    assert !RepeatedFrom(s, 2);
    assert !PairFrom(s[1], s[2], s, 15);
    assert !PairFrom(s[1], s[2], s, 12);
    assert !PairFrom(s[1], s[2], s, 9);
    assert !PairFrom(s[1], s[2], s, 6);
    assert !RepeatedFrom(s, 1);
    assert !PairFrom(s[0], s[1], s, 15);
    assert !PairFrom(s[0], s[1], s, 12);
    assert PairFrom(s[0], s[1], s, 9);
    assert PairFrom(s[0], s[1], s, 6);
    assert PairFrom(s[0], s[1], s, 3);
    assert RepeatedFrom(s, 0);
  }

  /** `xx` twice and `xyx`, sharing letters. */
  lemma Nice2Overlapping()
    ensures ContainsEyePattern("xxyxx")
    ensures ContainsRepeatedDouble("xxyxx")
    ensures IsNice2("xxyxx")
  {
    var s := "xxyxx";
    assert !EyeFrom(s, 4);
    assert EyeFrom(s, 1);
    assert !RepeatedFrom(s, 3);
    assert !RepeatedFrom(s, 2);
    assert !PairFrom(s[1], s[2], s, 4);
    assert !RepeatedFrom(s, 1);
    assert !PairFrom(s[0], s[1], s, 4);
    assert RepeatedFrom(s, 0);
  }

  /** `tg` twice but no letter repeats one apart. */
  lemma Nice2NoEye()
    ensures !ContainsEyePattern("uurcxstgmygtbstg")
    ensures ContainsRepeatedDouble("uurcxstgmygtbstg")
    ensures !IsNice2("uurcxstgmygtbstg")
  {
    var s := "uurcxstgmygtbstg";
    assert !EyeFrom(s, 15);
    assert !EyeFrom(s, 12);
    assert !EyeFrom(s, 9);
    assert !EyeFrom(s, 6);
    assert !EyeFrom(s, 3);
    assert !RepeatedFrom(s, 14);
    assert !RepeatedFrom(s, 13);
    assert !PairFrom(s[12], s[13], s, 15);
    assert !RepeatedFrom(s, 12);
    assert !PairFrom(s[11], s[12], s, 15);
    assert !RepeatedFrom(s, 11);
    assert !PairFrom(s[10], s[11], s, 15);
    assert !RepeatedFrom(s, 10);
    assert !PairFrom(s[9], s[10], s, 15);
    assert !PairFrom(s[9], s[10], s, 12);
    assert !RepeatedFrom(s, 9);
    assert !PairFrom(s[8], s[9], s, 15);
    assert !PairFrom(s[8], s[9], s, 12);
    assert !RepeatedFrom(s, 8);
    assert !PairFrom(s[7], s[8], s, 15);
    assert !PairFrom(s[7], s[8], s, 12);
    assert !RepeatedFrom(s, 7);
    assert !PairFrom(s[6], s[7], s, 15);
    assert PairFrom(s[6], s[7], s, 12);
    assert PairFrom(s[6], s[7], s, 9);
    assert RepeatedFrom(s, 6);
    assert !PairFrom(s[5], s[6], s, 15);
    assert PairFrom(s[5], s[6], s, 12);
    assert PairFrom(s[5], s[6], s, 9);
    assert RepeatedFrom(s, 5);
    assert !PairFrom(s[4], s[5], s, 15);
    assert !PairFrom(s[4], s[5], s, 12);
    assert !PairFrom(s[4], s[5], s, 9);
    assert RepeatedFrom(s, 4);
    assert !PairFrom(s[3], s[4], s, 15);
    assert !PairFrom(s[3], s[4], s, 12);
    assert !PairFrom(s[3], s[4], s, 9);
    assert !PairFrom(s[3], s[4], s, 6);
    assert RepeatedFrom(s, 3);
    assert !PairFrom(s[2], s[3], s, 15);
    assert !PairFrom(s[2], s[3], s, 12);
    assert !PairFrom(s[2], s[3], s, 9);
    assert !PairFrom(s[2], s[3], s, 6);
    assert RepeatedFrom(s, 2);
    assert !PairFrom(s[1], s[2], s, 15);
    assert !PairFrom(s[1], s[2], s, 12);
    assert !PairFrom(s[1], s[2], s, 9);
    assert !PairFrom(s[1], s[2], s, 6);
    assert RepeatedFrom(s, 1);
    assert !PairFrom(s[0], s[1], s, 15);
    assert !PairFrom(s[0], s[1], s, 12);
    assert !PairFrom(s[0], s[1], s, 9);
    assert !PairFrom(s[0], s[1], s, 6);
    assert !PairFrom(s[0], s[1], s, 3);
    assert RepeatedFrom(s, 0);
  }

  /** `odo` but no pair twice. */
  lemma Nice2NoPair()
    ensures ContainsEyePattern("ieodomkazucvgmuy")
    ensures !ContainsRepeatedDouble("ieodomkazucvgmuy")
    ensures !IsNice2("ieodomkazucvgmuy")
  {
    var s := "ieodomkazucvgmuy";
    assert !EyeFrom(s, 15);
    assert !EyeFrom(s, 12);
    assert !EyeFrom(s, 9);
    assert !EyeFrom(s, 6);
    assert !EyeFrom(s, 3);
    assert !RepeatedFrom(s, 14);
    assert !RepeatedFrom(s, 13);
    assert !PairFrom(s[12], s[13], s, 15);
    assert !RepeatedFrom(s, 12);
    assert !PairFrom(s[11], s[12], s, 15);
    assert !RepeatedFrom(s, 11);
    assert !PairFrom(s[10], s[11], s, 15);
    assert !RepeatedFrom(s, 10);
    assert !PairFrom(s[9], s[10], s, 15);
    assert !PairFrom(s[9], s[10], s, 12);
    assert !RepeatedFrom(s, 9);
    assert !PairFrom(s[8], s[9], s, 15);
    assert !PairFrom(s[8], s[9], s, 12);
    assert !RepeatedFrom(s, 8);
    assert !PairFrom(s[7], s[8], s, 15);
    assert !PairFrom(s[7], s[8], s, 12);
    assert !RepeatedFrom(s, 7);
    assert !PairFrom(s[6], s[7], s, 15);
    assert !PairFrom(s[6], s[7], s, 12);
    assert !PairFrom(s[6], s[7], s, 9);
    assert !RepeatedFrom(s, 6);
    assert !PairFrom(s[5], s[6], s, 15);
    assert !PairFrom(s[5], s[6], s, 12);
    assert !PairFrom(s[5], s[6], s, 9);
    assert !RepeatedFrom(s, 5);
    assert !PairFrom(s[4], s[5], s, 15);
    assert !PairFrom(s[4], s[5], s, 12);
    assert !PairFrom(s[4], s[5], s, 9);
    assert !RepeatedFrom(s, 4);
    assert !PairFrom(s[3], s[4], s, 15);
    assert !PairFrom(s[3], s[4], s, 12);
    assert !PairFrom(s[3], s[4], s, 9);
    assert !PairFrom(s[3], s[4], s, 6);
    assert !RepeatedFrom(s, 3);
    assert !PairFrom(s[2], s[3], s, 15);
    assert !PairFrom(s[2], s[3], s, 12);
    assert !PairFrom(s[2], s[3], s, 9);
    assert !PairFrom(s[2], s[3], s, 6);
    assert !RepeatedFrom(s, 2);
    assert !PairFrom(s[1], s[2], s, 15);
    assert !PairFrom(s[1], s[2], s, 12);
    assert !PairFrom(s[1], s[2], s, 9);
    assert !PairFrom(s[1], s[2], s, 6);
    assert !RepeatedFrom(s, 1);
    assert !PairFrom(s[0], s[1], s, 15);
    assert !PairFrom(s[0], s[1], s, 12);
    assert !PairFrom(s[0], s[1], s, 9);
    assert !PairFrom(s[0], s[1], s, 6);
    assert !PairFrom(s[0], s[1], s, 3);
    assert !RepeatedFrom(s, 0);
  }

  /** `aaa` holds `aa` twice, but the two copies overlap. */
  lemma OverlapIsNotRepeat()
    ensures !ContainsRepeatedDouble("aaa")
    ensures ContainsEyePattern("aaa")
  {
  }
}
