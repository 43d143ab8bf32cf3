# Advent of Code 2015 solutions, modelled in Dafny

This project models the puzzle logic of a collection of Advent of Code 2015
solutions, most written in Rust and a few in Python. Each source file of the
core becomes one Dafny module in one `.dfy` file. Pure code (folds, matches,
predicates) becomes datatypes, functions and lemmas. Code that changes state
step by step (grids lit in place, iterators that advance their cursors, the
CPU's registers, the wizard arena) becomes classes and methods. Each method is
proved against a specification function, and the puzzle's promises are proved
as lemmas about those functions.

The centrepiece is the day 8 escape scanner. It has a Rust version
(`day08/src/lib.rs`, module `Day08` in `day08_escape.dfy`) and a Python version
(`day08/py/day8.py`, module `Day08Py` in `day08_py.dfy`). Both decode a quoted
string literal that may contain `\\`, `\"` and `\xHH` escapes, and both
re-encode strings. The model proves:

- decoding undoes encoding for every string;
- exact length equations in both directions;
- which error each malformed literal raises.

The Python decoder's divergences are modelled as written. It returns partial
output on an unfinished escape, accepts a lone quote, and checks only the first
hex digit.

The other days:

- Paren floors: day01, and day1_1, a copy of it.
- Wrapping paper: day02 and day2.
- Santa trails: day3 and day03.
- Nice strings: day05 and day5.
- Light grids: day06 and day6.
- The 16-bit gate circuit, with its parsers: day07 and day7.
- Route search: day09.
- Look-and-say: day10.
- JSON sums: day12 in Rust and in Python.
- Seating: day13.
- The reindeer race: day14.
- Recipe neighbours and scoring: day15.
- The MFCSAM aunt matcher: day16.
- Container combinations: day17.
- The animated grid: day18.
- Molecule replacements and distinct counting: day19.
- The divisor sieve and the house presents: day20. `Day20Kept` holds `factorize` as its doc comment describes it; see "## Findings".
- RPG combat and the loadout odometer: day21.
- The wizard arena and its spell effects: day22.
- The two-register CPU: day23.
- Sleigh balancing: day24. It has a summed-subset iterator, two bounded
  permutation generators and the configurator.
- The shared tokenizer `util/src/parse.rs`, in module `Parsing`.

The modules `Text` (char classes, trimming, splitting and decimal conversion)
and `Permutations` (what a list of all permutations is) give the library
behaviour that several days rely on. They model no source file of their own.

## Model

| member | source | states |
|---|---|---|
| `Day01.FloorAfter` | day01/src/lib.rs:74-82 | folding the per-char step from a starting floor ends at that floor plus the number of `(` minus the number of `)` |
| `Day01.CountParens` | day01/src/lib.rs:72-83 | `count_parens` is the number of `(` minus the number of `)`; every other char leaves the floor alone |
| `Day01.BasementFrom` | day01/src/lib.rs:96-107 | the walk from position `i` answers 0 or a 1-based position after `i` inside the string |
| `Day01.BasementFromMeaning` | day01/src/lib.rs:96-106 | started on the floor of the prefix before `i`, the walk answers 0 exactly when no longer prefix is on floor -1, and otherwise the length of the first prefix that is |
| `Day01.BasementEntryMeaning` | day01/src/lib.rs:93-107 | `find_basement_entry` is 0 iff no prefix ends on floor -1; otherwise it is the 1-based position of the first char after which the floor is -1 |
| `Day01.FindBasementEntry` | day01/src/lib.rs:93-108 | the loop with its mutable floor and early return computes the basement entry (same code as day1_1/src/main.rs:87-102) |
| `Day01.CountToFloor0` | day01/src/lib.rs:132-136 | `(())` and `()()` end on floor 0 |
| `Day01.CountToFloor3` | day01/src/lib.rs:138-143 | `(((`, `(()(()(` and `))(((((` end on floor 3 |
| `Day01.CountToNeg1` | day1_1/src/main.rs:122-126 | `())` and `))(` end on floor -1 (the same test is at day01/src/lib.rs:145-149) |
| `Day01.CountToNeg3` | day01/src/lib.rs:151-155 | `)))` and `)())())` end on floor -3 |
| `Day01.IgnoreNonParens` | day01/src/lib.rs:157-159 | `hello, world` ends on floor 0 |
| `Day01.BasementFirstChar` | day01/src/lib.rs:166-169 | `)` enters the basement at position 1 |
| `Day01.BasementFifthChar` | day1_1/src/main.rs:145-148 | `()())` enters the basement at position 5 |
| `Day01.BasementNeverEnters` | day01/src/lib.rs:176-179 | `(((())(()))((())` never enters the basement |
| `Day02.New` | day02/src/lib.rs:31-40 | `GiftBox::new` succeeds iff all three dimensions are positive, and then holds exactly those dimensions |
| `Day02.SmallestSide` | day02/src/lib.rs:49-60 | `smallest_side` is one of the three face areas and no larger than any of them |
| `Day02.SurfaceArea` | day02/src/lib.rs:42-47 | `surface_area` is even and at least six times the smallest face |
| `Day02.LargestDimension` | day02/src/lib.rs:73-79 | `largest_dimension` is one of the three dimensions and no smaller than any of them |
| `Day02.PaperBounds` | day02/src/lib.rs:62-67 | for a valid box the paper is more than the surface area and at most 7/6 of it |
| `Day02.Paper` | day02/src/lib.rs:62-67 | `paper` is the surface area plus a slack that is one of the three faces and no larger than any of them, so the smallest face; at most 7/6 of the surface area |
| `Day02.Ribbon` | day02/src/lib.rs:85-90 | `ribbon` is the volume plus the perimeter of one face, and no more than the volume plus any face's perimeter |
| `Day02.SmallestSidePerimeterIsMinimal` | day02/src/lib.rs:81-83 | twice the sum minus the largest dimension is the smallest of the three face perimeters |
| `Day02.SmallestSideOfSmallerDimensions` | day02/src/lib.rs:49-60 | the smallest face is the one spanned by the two dimensions other than the largest |
| `Day02.Examples` | day02/src/lib.rs:141-193 | the boxes 1x1x1, 2x3x4 and 1x1x10 give surface 6/52/42, smallest side 1/6/1, paper 7/58/43, volume 1/24/10, smallest perimeter 4/10/4 and ribbon 5/34/14 |
| `Day2.New` | day2/src/lib.rs:36-49 | `GiftBox::new` succeeds iff all dimensions are positive, caching the products `xy`, `xz`, `yz`; otherwise the non-positive error |
| `Day2.Parse` | day2/src/lib.rs:54-57 | input that does not split into exactly three `x`-separated fields is refused before any number is read |
| `Day2.SurfaceArea` | day2/src/lib.rs:70-73 | `surface_area` from the cached faces is even and at least six times the smallest face |
| `Day2.SmallestSide` | day2/src/lib.rs:75-78 | `smallest_side` is one of the cached face areas and no larger than any of them |
| `Day2.Paper` | day2/src/lib.rs:80-83 | `paper` is the surface area plus a slack that is one of the cached faces and no larger than any of them, so the smallest face; at most 7/6 of the surface area |
| `Day2.AgreesWithDay02` | day2/src/lib.rs:70-83 | surface area, smallest side and paper from the cached face areas equal the second generation's, computed from the dimensions |
| `Day2.SplitFormat` | day2/src/lib.rs:56 | splitting `{x}x{y}x{z}` on `x` gives back the three decimal fields |
| `Day2.ParseFormat` | day2/src/lib.rs:54-68 | every `i32`-sized triple written as `{x}x{y}x{z}` parses to what `new` gives for it, so zero dimensions are refused by `new` |
| `Day2.ParseExampleCube` | day2/src/lib.rs:100-107 | `1x1x1` parses to `new(1, 1, 1)` |
| `Day2.ParseExampleBox` | day2/src/lib.rs:100-107 | `2x3x4` parses to `new(2, 3, 4)` |
| `Day2.ParseExampleLong` | day2/src/lib.rs:100-107 | `1x1x10` parses to `new(1, 1, 10)` |
| `Day2.FieldCountExamples` | day2/src/lib.rs:56-57 | `2x3` and `2x3x4x5` are refused for their field count |
| `Day3.Moves` | day3/src/lib.rs:33-54 | each of `^v><` moves Santa exactly one house north, south, east or west; any other char leaves him where he is |
| `Day3.RecordsSnoc` | day3/src/lib.rs:83-90 | bumping the count of the house reached, or entering it at 1, keeps the trail equal to the delivery count of every house |
| `Day3.CookieCrumbs.constructor` | day3/src/lib.rs:65-74 | `CookieCrumbs::new` puts Santa at the origin with a trail that holds only the origin, visited once |
| `Day3.CookieCrumbs.MoveFromChar` | day3/src/lib.rs:76-91 | a char that does not move Santa changes nothing; a move sets Santa to the new house and bumps or inserts only that house's count |
| `Day3.FollowsSnoc` | day3/src/lib.rs:76-91 | one more char keeps Santa at the end of the walk and the trail counting every delivery of the longer path |
| `Day3.FollowSanta` | day3/src/lib.rs:118-124 | `follow_santa` ends with Santa at the end of the path and a trail that holds each house visited, with its number of deliveries |
| `Day3.EveryStep` | day3/src/lib.rs:169-171 | char `i` goes to santa `i % n` and to no other santa |
| `Day3.NewCrumbs` | day3/src/lib.rs:164-167 | the output starts as `n` distinct fresh trails, each at the origin |
| `Day3.FollowNSantas` | day3/src/lib.rs:161-174 | `follow_n_santas` gives `n` distinct trails, the `k`-th having followed exactly the chars at positions `k` modulo `n` |
| `Day3.UniqueHouses` | day3/src/lib.rs:178-188 | `unique_houses` is the number of distinct houses in the union of all trails |
| `Day3.HouseSetOfFollowers` | day3/src/lib.rs:161-188 | the houses of the trails that `follow_n_santas` builds are the union of the houses each santa's share of the path visits |
| `Day3.FollowSantaEast` | day3/src/lib.rs:97-102 | `>` delivers to 2 houses |
| `Day3.FollowSantaSquare` | day3/src/lib.rs:104-110 | `^>v<` delivers to 4 houses |
| `Day3.FollowSantaBackAndForth` | day3/src/lib.rs:112-117 | `^v^v^v^v^v` delivers to 2 houses |
| `Day3.TwoSantasOpposite` | day3/src/lib.rs:143-148 | with two santas, `^v` delivers to 3 houses |
| `Day3.TwoSantasSquare` | day3/src/lib.rs:149-154 | with two santas, `^>v<` delivers to 3 houses |
| `Day3.TwoSantasApart` | day3/src/lib.rs:155-160 | with two santas, `^v^v^v^v^v` delivers to 11 houses |
| `Day3.SharedOfTwo` | day3/src/lib.rs:178-188 | two santas between them visit exactly the houses of each |
| `Day03.AllMovesSnoc` | day03/src/lib.rs:148-150 | a path is all directions iff its prefix is and the last char is one |
| `Day03.DeliversEveryStep` | day03/src/lib.rs:62-63 | on a path of directions every char delivers one present, so there is one delivery per char |
| `Day03.CookieCrumbs.constructor` | day03/src/lib.rs:35-51 | the default state is Santa at the origin with a trail holding only the origin, visited once |
| `Day03.CookieCrumbs.MoveFromChar` | day03/src/lib.rs:53-66 | a char outside `^v<>` returns `ParseDirection(ch)` and changes nothing; a direction moves Santa one house and bumps or creates only that house's count |
| `Day03.FollowsMove` | day03/src/lib.rs:62-63 | a direction keeps Santa at the end of the walk and the trail counting every delivery |
| `Day03.FollowSanta` | day03/src/lib.rs:93-99 | `follow_santa` succeeds iff every char is a direction, with the trail of the whole path; otherwise it returns the error of the first char that is not |
| `Day03.NewCrumbs` | day03/src/lib.rs:146 | `n` distinct default trails, each at the origin |
| `Day03.FollowNSantas` | day03/src/lib.rs:144-153 | `follow_n_santas` succeeds iff every char is a direction, the `k`-th trail having followed the chars at positions `k` modulo `n`; otherwise it fails with the first bad char |
| `Day03.UniqueHouses` | day03/src/lib.rs:155-163 | `unique_houses` is the number of distinct houses in the union of the trails |
| `Day03.HouseSetOfFollowers` | day03/src/lib.rs:125-143 | the trails `follow_n_santas` builds hold the union of each santa's houses, which the day3 examples count as 3, 3 and 11 |
| `Day03.StopsAtExamples` | day03/src/lib.rs:54-60 | `x` and `^^ v` stop at the first char that is not a direction |
| `Day05.VowelsFrom` | day05/src/lib.rs:46-48 | the vowel count from position `i` is at most the number of chars left |
| `Day05.VowelCountIsSum` | day05/src/lib.rs:42-48 | the number of chars in `aeiou` is the sum of the counts of the five vowels, so `has_enough_vowels` means that sum is at least 3 |
| `Day05.DoubleLetterMeaning` | day05/src/lib.rs:50-52 | `contains_double_letter` iff some adjacent pair is one letter twice |
| `Day05.NaughtySequenceMeaning` | day05/src/lib.rs:54-58 | `contains_naughty_sequence` iff some adjacent pair is `ab`, `cd`, `pq` or `xy` |
| `Day05.PairsSnoc` | day05/src/lib.rs:50-58 | one more char adds exactly the window it closes to both pair rules |
| `Day05.IsNiceMeaning` | day05/src/lib.rs:60-64 | `is_nice` iff the five vowel counts add up to at least 3, some adjacent pair is one letter twice, and no adjacent pair is `ab`, `cd`, `pq` or `xy` |
| `Day05.EyePatternMeaning` | day05/src/lib.rs:72-74 | `contains_eye_pattern` iff some `s[k] == s[k+2]` |
| `Day05.RepeatedDoubleMeaning` | day05/src/lib.rs:76-82 | `contains_repeated_double` iff some pair at `p` comes back at a `q >= p + 2`, i.e. twice without overlap |
| `Day05.IsNice2` | day05/src/lib.rs:94-96 | `is_nice2` iff some `s[k] == s[k+2]` and some pair appears twice without overlapping |
| `Day05.NiceThreeVowelsAndDouble` | day05/src/lib.rs:117-127 | `ugknbfddgicrmopn` has 3 vowels, a double and no forbidden pair: nice |
| `Day05.NiceOverlappingRules` | day05/src/lib.rs:119-128 | `aaa` is nice although the rules share letters |
| `Day05.NaughtyNoDouble` | day05/src/lib.rs:121-129 | `jchzalrnumimnmhp` has no double letter: naughty |
| `Day05.NaughtyForbiddenPair` | day05/src/lib.rs:122-130 | `haegwjzuvuyypxyu` holds `xy`: naughty |
| `Day05.NaughtyOneVowel` | day05/src/lib.rs:123-131 | `dvszwmarrgswjxmb` has one vowel: naughty |
| `Day05.Nice2PairAndEye` | day05/src/lib.rs:138-149 | `qjhvhtzxzqqjkmpb` has `qj` twice and `zxz`: nice under the second rules |
| `Day05.Nice2Overlapping` | day05/src/lib.rs:140-150 | `xxyxx` is nice under the second rules |
| `Day05.Nice2NoEye` | day05/src/lib.rs:142-151 | `uurcxstgmygtbstg` has a repeated pair but no letter repeated one apart: naughty |
| `Day05.Nice2NoPair` | day05/src/lib.rs:144-152 | `ieodomkazucvgmuy` has `odo` but no repeated pair: naughty |
| `Day05.OverlapIsNotRepeat` | day05/src/lib.rs:89-93 | in `aaa` the pair `aa` overlaps itself, so it does not count as repeated, while `aaa` is an eye pattern |
| `Day5.IsNice` | day5/src/lib.rs:26-61 | the pair-scanning loop decides exactly the three rules (at least 3 vowels, a double letter, no forbidden pair) on the trimmed, lower-cased line; a line empty after trimming is naughty |
| `Day5.NiceLines` | day5/src/lib.rs:83-90 | the count of nice lines is at most the number of lines |
| `Day5.NoNiceLines` | day5/src/lib.rs:83-90 | the count is 0 iff no line is nice |
| `Day5.AllNiceLines` | day5/src/lib.rs:83-90 | the count equals the number of lines iff every line is nice |
| `Day5.NiceLinesAppend` | day5/src/lib.rs:83-90 | the count over two runs of lines is the sum of their counts |
| `Day5.CountNice` | day5/src/lib.rs:82-91 | `count_nice` counts at most one per `\n`-separated line |
| `Day5.CountNiceFirstLine` | day5/src/lib.rs:83-90 | the first line is judged on its own and the rest after it are counted the same way |
| `Day5.CountNiceOneLine` | day5/src/lib.rs:83 | a text without a line break is one line, counted 1 iff nice |
| `Day5.NormalizeLowercaseWord` | day5/src/lib.rs:27 | trimming and lower-casing leave a word of lower-case ASCII letters unchanged |
| `Day5.NiceLineOfWord` | day5/src/lib.rs:26-61 | on such a word the verdict is that of the second generation's rules |
| `Day5.NiceExample` | day5/src/lib.rs:106 | `ugknbfddgicrmopn` is nice |
| `Day5.OverlappingExample` | day5/src/lib.rs:107 | `aaa` is nice |
| `Day5.NoDoubleExample` | day5/src/lib.rs:108 | `jchzalrnumimnmhp` is naughty |
| `Day5.ForbiddenPairExample` | day5/src/lib.rs:109 | `haegwjzuvuyypxyu` is naughty |
| `Day5.OneVowelExample` | day5/src/lib.rs:110 | `dvszwmarrgswjxmb` is naughty |
| `Day5.NormalizeExample` | day5/src/lib.rs:27 | surrounding whitespace and capitals do not change the verdict: `  AAA\t` is nice |
| `Day5.PaddedCapitals` | day5/src/lib.rs:27 | `  AAA\t` trimmed and lower-cased is `aaa` |
| `Day5.BlankLine` | day5/src/lib.rs:28-30 | the empty line and a line of blanks are naughty |
| `Day06.CoversSymmetric` | day06/src/lib.rs:68-71 | the rectangle is the same whichever corner comes first (`min`/`max` of the corners) |
| `Day06.SwitchLaws` | day06/src/lib.rs:85-93 | toggling twice restores a switch and toggling always changes it; turning on or off twice is the same as once |
| `Day06.Brighten` | day06/src/lib.rs:95-103 | brightness: on adds 1, toggle adds 2, off subtracts 1 but never goes below 0; the caller keeps the result within `u8` (the source panics past it) |
| `Day06.Apply` | day06/src/lib.rs:64-78 | `apply` passes every cell of the inclusive rectangle through the light's manipulation once and leaves every other cell unchanged |
| `Day06.ApplySwitches` | day06/src/lib.rs:64-93 | `apply` on switches: cells in the rectangle are switched by the instruction, the others unchanged |
| `Day06.ApplyLevels` | day06/src/lib.rs:64-103 | `apply` on brightness levels: cells in the rectangle are brightened by the instruction and stay within `u8`, the others unchanged |
| `Day06.RunSwitches` | day06/src/lib.rs:106-109 | applying the commands in turn leaves each switch where following the commands cell by cell leads |
| `Day06.LevelFrom` | day06/src/lib.rs:95-103 | a cell that no command overflows keeps a `u8` level throughout |
| `Day06.RunLevels` | day06/src/lib.rs:116-119 | applying the commands in turn leaves each level where following the commands cell by cell leads |
| `Day06.SumCellsBox` | day06/src/lib.rs:110 | a value `c` on an inclusive box and zero elsewhere sums to `c` times the box's area |
| `Day06.CountLit` | day06/src/lib.rs:110 | the count of lit switches over the whole grid, row by row |
| `Day06.GridLitIsLit` | day06/src/lib.rs:106-110 | a grid holding what the commands leave, from dark, has as many lit as the per-cell count says |
| `Day06.TestSwitches` | day06/src/lib.rs:153-181 | each cell after each prefix of the test sequence: first row lit, all lit, all but the first row, then also the middle four dark |
| `Day06.LitAfterFirstToggle` | day06/src/lib.rs:171-172 | toggling the first row of a dark grid lights 1000 |
| `Day06.LitAfterTurnOn` | day06/src/lib.rs:174-175 | then turning everything on lights 1 000 000 |
| `Day06.LitAfterSecondToggle` | day06/src/lib.rs:177-178 | then toggling the first row again leaves 999 000 |
| `Day06.LitAfterTurnOff` | day06/src/lib.rs:180-181 | then turning off the middle four leaves 998 996 |
| `Day06.SumLevels` | day06/src/lib.rs:120 | the sum of all levels of the grid, row by row |
| `Day06.GridLevelIsBrightness` | day06/src/lib.rs:116-120 | a grid holding what the commands leave, from dark, sums to the per-cell brightness |
| `Day06.TestLevels` | day06/src/lib.rs:184-204 | in the brightness test no cell overflows; the corner ends at 3 and every other cell at 2 |
| `Day06.BrightnessAfterCorner` | day06/src/lib.rs:200-201 | turning on the corner gives total brightness 1 |
| `Day06.BrightnessAfterToggle` | day06/src/lib.rs:203-204 | then toggling everything gives 2 000 001 |
| `Day06.Part1` | day06/src/lib.rs:105-113 | the commands on a dark 1000 by 1000 grid of switches leave as many lit as the per-cell count |
| `Day06.Part2` | day06/src/lib.rs:115-123 | the commands on a dark 1000 by 1000 grid of levels, none overflowing, sum to the per-cell brightness |
| `Day6.RectMembers` | day6/src/lib.rs:177-207 | a light is in a command's rectangle exactly when each coordinate lies between the first corner and the larger of the two |
| `Day6.WalkMembers` | day6/src/lib.rs:191-207 | the points `Through` yields are exactly the rectangle's |
| `Day6.WalkLength` | day6/src/lib.rs:191-207 | `Through` yields `(dx + 1) * (dy + 1)` points, the first of them the first corner |
| `Day6.WalkNoRepeats` | day6/src/lib.rs:191-207 | `Through` never yields a point twice |
| `Day6.RectCard` | day6/src/lib.rs:177-207 | a command covers `(dx + 1) * (dy + 1)` lights |
| `Day6.Through.constructor` | day6/src/lib.rs:177-185 | a new iterator starts at the first corner, not finished, with the whole walk to come |
| `Day6.Through.Next` | day6/src/lib.rs:191-207 | `next` returns the cursor and moves right, wrapping to the next row past `to.x` and finishing past `to.y`; it hands out the walk's points in order, then `None` |
| `Day6.Points` | day6/src/lib.rs:93 | iterating a fresh `Through` to the end yields exactly the walk, row by row |
| `Day6.ParsePoint` | day6/src/lib.rs:150-166 | a point only when there is input with two comma-separated fields, both base-10 `i32`s, which become its coordinates |
| `Day6.Token` | day6/src/lib.rs:58-91 | the tokenizer hands out a token exactly while tokens remain |
| `Day6.ParseCommand` | day6/src/lib.rs:52-91 | an empty trimmed line parses to nothing |
| `Day6.ParsePointText` | day6/src/lib.rs:150-166 | `x,y` written in decimal reads back as the point |
| `Day6.LineTextPieces` | day6/src/lib.rs:52-91 | a puzzle line is `turn`, the word, the corner, `through` and the corner, one space apart (no `turn` for `toggle`) |
| `Day6.LineTokens` | day6/src/lib.rs:58 | the whitespace tokens of a puzzle line are its words |
| `Day6.LineTextNormal` | day6/src/lib.rs:53 | trimming and lower-casing leave a puzzle line unchanged |
| `Day6.ParseLineText` | day6/src/lib.rs:52-91 | every puzzle line parses back to its instruction and corners |
| `Day6.Touch` | day6/src/lib.rs:93-100 | after an instruction reached a set of points, those lights hold its effect and the rest are unchanged |
| `Day6.OnSet` | day6/src/lib.rs:119-121 | the lights that are on are exactly those `get` reads as on |
| `Day6.WalkStep` | day6/src/lib.rs:93-100 | each point taken from the walk moves from the points to come to the points done, never twice |
| `Day6.Lights.constructor` | day6/src/lib.rs:113-117 | `new` sets no light, and none is on |
| `Day6.Lights.Count` | day6/src/lib.rs:119-121 | `count` is the number of lights that are on |
| `Day6.Lights.TurnOn` | day6/src/lib.rs:123-125 | the light is stored as on, the others unchanged |
| `Day6.Lights.TurnOff` | day6/src/lib.rs:127-129 | the light is stored as off, the others unchanged |
| `Day6.Lights.Toggle` | day6/src/lib.rs:132-135 | the light is stored as the negation of what `get` read, an unset light counting as off |
| `Day6.Lights.Set` | day6/src/lib.rs:145-147 | the light is stored with the given value |
| `Day6.Lights.ParseLine` | day6/src/lib.rs:52-103 | true exactly when the line parses and names `on`, `off` or `toggle`; the lights become what that instruction makes of them over the rectangle, or stay as they were |
| `Day6.Lights.Sweep` | day6/src/lib.rs:93-102 | a known instruction reaches every light of the rectangle; an unknown word returns false at the first point with nothing changed |
| `Day6.Lights.ParseLines` | day6/src/lib.rs:45-50 | each `\n`-separated line is carried out in turn |
| `Day6.TurnOnLine` | day6/src/lib.rs:224 | `turn on 0,0 through 999,999` parses to `on` and its corners |
| `Day6.ToggleLine` | day6/src/lib.rs:227 | `toggle 0,0 through 999,0` parses to `toggle` and its corners |
| `Day6.TurnOffLine` | day6/src/lib.rs:230 | `turn off 499,499 through 500,500` parses to `off` and its corners |
| `Day6.OnSetTouch` | day6/src/lib.rs:123-135 | `on` adds the rectangle to the lit set, `off` removes it, `toggle` flips exactly its lights |
| `Day6.RectInside` | day6/src/lib.rs:177-207 | a rectangle within another's bounds is part of it |
| `Day6.RectApart` | day6/src/lib.rs:177-207 | rectangles on different rows share no light |
| `Day6.ExampleRects` | day6/src/lib.rs:224-231 | the test's rectangles hold 1 000 000, 1000 and 4 lights; the first row and the middle four lie apart inside the grid |
| `Day6.ExampleCounts` | day6/src/lib.rs:224-231 | after the three instructions 1 000 000, 999 000 and 998 996 lights are on |
| `Day6.Examples` | day6/src/lib.rs:220-232 | `test_examples` on fresh lights counts 0, 1 000 000, 999 000 and 998 996 |
| `Day07.SignalValue` | day07/src/lib.rs:43-50 | a literal is its own value; a reference has a value exactly when the wire is in the table, and then it is the table's |
| `Day07.Shl16` | day07/src/lib.rs:68 | `u16 << n` keeps 16 bits |
| `Day07.Shr16` | day07/src/lib.rs:69 | `u16 >> n` is never larger than its operand |
| `Day07.Not16` | day07/src/lib.rs:70 | `!x` is `65535 - x` |
| `Day07.Value` | day07/src/lib.rs:62-73 | a gate's value is unknown exactly when an operand it reaches is missing (left first), an overflow exactly when a shift by 16 or more is reached, and otherwise a 16-bit value |
| `Day07.ValueKept` | day07/src/lib.rs:62-73 | once a gate's value is decided, a table holding more signals decides the same |
| `Day07.TryApply` | day07/src/lib.rs:85-96 | a wire whose destination has a signal succeeds with nothing changed; otherwise its gate's value is inserted, the wire waits with nothing changed, or a shift overflows; the table only grows |
| `Day07.JustifiedInsert` | day07/src/lib.rs:85-96 | inserting a gate's value keeps every signal explained by some wire's gate |
| `Day07.ComputeAllSignals` | day07/src/lib.rs:110-128 | the table keeps the preset signals and every other signal comes from some wire's gate over the final table; it ends with every wire's destination set, or stuck with every remaining wire missing an input (the failing `assert_eq!`), or at a shift overflow |
| `Day07.Pass` | day07/src/lib.rs:114-123 | one drain of the waiting wires: the table grows with explained signals, the wires still waiting are the ones whose destination is unset, and a pass that leaves all of them waiting changed nothing |
| `Day07.AppliedKeeps` | day07/src/lib.rs:117-121 | a wire that applied keeps the pass's invariant and its destination has a signal |
| `Day07.PresetWins` | day07/src/lib.rs:139-146 | with `b` preset, its own wire succeeds at once and leaves `b` as preset |
| `Day07.NotExample` | day07/src/lib.rs:21-22 | the bitwise complement: `NOT x` with `x` at 123 gives 65412 |
| `Day7.NewName` | day7/src/parse.rs:160-167 | a name exactly when the text is all lower-case letters, and the name is that text |
| `Day7.ParseEvaluable` | day7/src/parse.rs:131-149 | an operand exactly when the text is all letters, or all digits within `u16`; letters make that name, digits that number |
| `Day7.Get` | day07/src/evaluable.rs:17-22 | a number is itself, a name the table's value for it |
| `Day7.GetType` | day7/src/instruction.rs:51-60 | store is nonary, not unary, the four two-operand gates binary |
| `Day7.ParseInstruction` | day7/src/parse.rs:73-129 | one, two or three tokens, read as a stored operand, `not` and an operand, or an operand, a gate word and an operand; the token count matches the instruction's type |
| `Day7.ConnectionOf` | day07/src/wire.rs:34-61 | read from the right: a name, `->`, and an instruction in the tokens before them |
| `Day7.ParseConnection` | day07/src/wire.rs:28-67 | a blank line is nothing |
| `Day7.ParseWire` | day7/src/wire.rs:34-74 | parses exactly the lines the second generation does, with the same name and instruction and no signal yet |
| `Day7.ParseEvaluableText` | day7/src/parse.rs:131-149 | an operand reads back from its text |
| `Day7.ParseInstructionTokens` | day7/src/parse.rs:73-129 | an instruction reads back from its tokens |
| `Day7.ParseConnectionText` | day07/src/wire.rs:28-67 | a line `<instruction> -> <name>` parses back to its connection |
| `Day7.ParseWireText` | day7/src/wire.rs:34-74 | a line parses back to its wire, with its signal unknown |
| `Day08.HexByte` | day08/src/lib.rs:38-39 | `u8::from_str_radix(_, 16)`: a byte when it parses |
| `Day08.HexBytePair` | day08/src/lib.rs:34-42 | the two collected hex chars parse exactly when each is a hex digit or the first is `+`, to the byte they spell |
| `Day08.Unescape` | day08/src/lib.rs:15-54 | the state machine's result, char by char, is the recursive decoding of the whole literal, including the `unreachable!()` panic when the first hex char takes more than one byte |
| `Day08.Feed` | day08/src/lib.rs:20-46 | one char: either the error or panic the decoding of the rest reports (a second hex char after a multibyte first one panics), or a new state and output with the same decoding of what is left |
| `Day08.Escape` | day08/src/lib.rs:56-70 | the loop builds a quote, each char with `\` and `"` prefixed by `\`, and a quote |
| `Day08.EscapedLength` | day08/src/lib.rs:81-88 | the encoded length is the input's, plus one per `\` or `"`, plus the two quotes |
| `Day08.DecodeBodyPlainChar` | day08/src/lib.rs:25 | a plain char decodes to itself |
| `Day08.DecodeBodyEscapedChar` | day08/src/lib.rs:27-30 | `\\` and `\"` decode to the escaped char |
| `Day08.DecodeBodyHexEscape` | day08/src/lib.rs:31-42 | `\x` and two chars panic when the first takes more than one byte, else decode to the byte they spell or fail with both chars |
| `Day08.DecodeBodyPlain` | day08/src/lib.rs:25 | a run of plain chars decodes to itself |
| `Day08.RoundTrip` | day08/src/lib.rs:90-100 | decoding undoes encoding for every string: the first `unescape` of `roundtrip_input` always gives back its input |
| `Day08.DecodedLength` | day08/src/lib.rs:72-79 | a decoded literal is at least two chars shorter than its source, so `part1`'s subtraction never underflows |
| `Day08.NoLeadingQuoteExactly` | day08/src/lib.rs:21-22 | `NoLeadingQuote` is reported exactly when the first char is not `"` |
| `Day08.DecodedIsQuoted` | day08/src/lib.rs:21-51 | a literal that decodes starts and ends with a quote |
| `Day08.EscapeErrors` | day08/src/lib.rs:26-39 | an escape error names a char other than `\`, `"` and `x`; a hex error carries exactly the two chars that failed, the first of them one byte long |
| `Day08.PlusSignHexEscape` | day08/src/lib.rs:38 | `\x+5` decodes, to byte 5, because the byte parser accepts a leading `+` |
| `Day08.Part1Term` | day08/src/lib.rs:75 | a line's term exists exactly when it decodes, and is at least 2: its length minus its decoded length |
| `Day08.Part2Term` | day08/src/lib.rs:84 | a line's term is one per `\` or `"` plus 2 |
| `Day08.Part1Total` | day08/src/lib.rs:72-79 | the sum exists exactly when every line decodes (the first failure aborts), and is at least 2 per line |
| `Day08.RoundtripLineMeaning` | day08/src/lib.rs:90-123 | a line is reported exactly when the re-decoding of its decoding fails, or it differs from its re-encoding and holds no `\x` |
| `Day08.RoundtripOfEncoded` | day08/src/lib.rs:90-123 | a line that is itself the encoding of a string is never reported |
| `Day08.DecodeBodyPlainClosed` | day08/src/lib.rs:23-25 | a plain run closed by the quote decodes to itself |
| `Day08.UnescapeExampleHex` | day08/src/lib.rs:149 | `"m\x44gqbcppho\\b"` decodes to `mDgqbcppho\b` |
| `Day08.UnescapeExampleBackslash` | day08/src/lib.rs:150 | `"\\bo"` decodes to `\bo` |
| `Day08.FixtureQuoteEscape` | day08/src/lib.rs:158 | `"aaa\"aaa"` decodes to `aaa"aaa` |
| `Day08.FixtureHexEscape` | day08/src/lib.rs:158 | `"\x27"` decodes to one char, `'` |
| `Day08.UnescapeFixtureTotal` | day08/src/lib.rs:156-164 | the four fixture lines give a total of 12 |
| `Day08.WideHexPanics` | day08/src/lib.rs:34-44 | `"\xé0"` panics: `hex.len()` counts the two bytes of `é`, so the second hex char reaches `unreachable!()` |
| `Day08.DecodeBodyPanics` | day08/src/lib.rs:34-44 | every panic comes from a `\x` escape whose first char takes more than one byte |
| `Day08.Utf8Len` | day08/src/lib.rs:34 | a char's UTF-8 length is 1 to 4 bytes, and 1 exactly for ASCII |
| `Day08.ByteLen` | day08/src/lib.rs:34 | a string's byte length is at least its char count, and 0 only for the empty string |
| `Day08Py.HexPair` | day08/py/day8.py:39-44 | after a checked first hex digit, the pair gives a char exactly when the second is an ASCII hex digit or a decimal digit of any script (the byte they spell, since `int` reads it as an ASCII digit) or Unicode whitespace, which `int` strips (the first digit's value) |
| `Day08Py.Inner` | day08/py/day8.py:16 | `line[1:-1]` drops the first and last char, and is empty for a lone char |
| `Day08Py.Mem` | day08/py/day8.py:12-49 | the mode loop's result, char by char, is the recursive decoding of the line |
| `Day08Py.Feed` | day08/py/day8.py:22-47 | one char: either the exception the decoding of the rest raises, or a new mode, buffer and output with the same decoding of what is left |
| `Day08Py.Encode` | day08/py/day8.py:51-59 | the same encoding as the Rust `escape` |
| `Day08Py.Chars` | day08/py/day8.py:9-10 | the number of chars of the line |
| `Day08Py.SantasDesire` | day08/py/day8.py:61-62 | defined exactly when `mem` returns, as the line's length minus the decoded length |
| `Day08Py.SantasDesire2` | day08/py/day8.py:64-65 | one per `\` or `"`, plus 2 |
| `Day08Py.RoundTrip` | day08/py/day8.py:12-59 | `mem` undoes `encode` for every string |
| `Day08Py.EncodedLength` | day08/py/day8.py:51-59 | the encoded length is the input's, plus one per special char, plus 2 |
| `Day08Py.SantasDesireBounds` | day08/py/day8.py:61-62 | never negative, and at least 2 for a decodable line of two or more chars |
| `Day08Py.CouldNotParseExactly` | day8/py/day8.py:13-16 | `Could not parse` is raised exactly for a non-empty line that does not start and end with `"` |
| `Day08Py.ShortLines` | day08/py/day8.py:13-16 | the empty line and a lone quote both decode to the empty string |
| `Day08Py.MemBodyNoBackslash` | day08/py/day8.py:23-27 | text without a backslash is kept as it is, quotes included |
| `Day08Py.PartialAtEnd` | day8/py/day8.py:49 | an escape cut short by the closing quote (`\`, `\x`, `\x` and one digit) is dropped without an error |
| `Day08Py.SecondHexCharUnchecked` | day8/py/day8.py:39-47 | only the first hex char is checked: `\x5 ` decodes to char 5 |
| `Day08Py.HexErrors` | day08/py/day8.py:39-47 | a bad first hex char raises the hex error, a bad second one `int`'s `ValueError` |
| `Day08Py.NdDigit` | day08/py/day8.py:43 | a decimal digit of any script has a value below 10, and an ASCII digit its usual value |
| `Day08Py.NdDigitBelow` | day08/py/day8.py:43 | a char found in the table of Unicode 15.0 digit runs lies in one of them, at its value |
| `Day08Py.AsciiForm` | day08/py/day8.py:43 | `int` reads ASCII below U+007F as it is, whitespace as whitespace, a decimal digit as its ASCII digit, and every other char as one that is neither a hex digit nor whitespace |
| `Day08Py.WideDigitSecondHexChar` | day08/py/day8.py:39-44 | `\x5` and SEGMENTED DIGIT ZERO decode to `P`, char 0x50 |
| `Day08Py.SeparatorNotStripped` | day08/py/day8.py:39-44 | `\x5` and U+001C raise `ValueError`: `int` strips only Unicode whitespace |
| `Day09.Cmp` | day09/src/lib.rs:77 | `cmp` is `Less` exactly when the first is smaller and `Greater` exactly when it is larger |
| `Day09.DistMapOf` | day09/src/lib.rs:47-52 | the distance table holds every edge in both directions |
| `Day09.PlacesOf` | day09/src/lib.rs:50-51 | the places are exactly the endpoints of the edges |
| `Day09.DistMapLast` | day09/src/lib.rs:47-52 | two places have a distance exactly when an edge joins them, either way round, and it is the last such edge's |
| `Day09.RouteDistReverse` | day09/src/lib.rs:68-75 | a route read backwards has every leg and the same length |
| `Day09.RouteDistSnoc` | day09/src/lib.rs:68-75 | a route's length is its route without the last stop plus the last leg |
| `Day09.Routes.FromIter` | day09/src/lib.rs:39-56 | `from_iter` builds the symmetric distance table and the set of places from the edges |
| `Day09.Routes.FindExtreme` | day09/src/lib.rs:59-84 | the kept route is no longer (`Less`) or no shorter (`Greater`) than every ordering visited and than the default, and is the empty default route or a visited ordering with its own length |
| `Day09.Routes.FindShortest` | day09/src/lib.rs:86-88 | no ordering of the places is shorter; the route is one of them with its length, or the empty route at `!0` |
| `Day09.Routes.FindLongest` | day09/src/lib.rs:90-92 | no ordering of the places is longer; the route is one of them with its length, or the empty route at 0 |
| `Day09.TriangleRoutes` | day09/src/lib.rs:126-131 | a route through three places takes the two legs that skip one of the three distances |
| `Day09.ExampleTable` | day09/src/lib.rs:121-123 | the three example edges give the table of London, Dublin and Belfast, both ways |
| `Day09.ExamplePlaces` | day09/src/lib.rs:121-123 | the example's places are London, Dublin and Belfast |
| `Day09.ExampleRoutes` | day09/src/lib.rs:126-131 | every ordering of the example measures between 605 and 982: 605 exactly for London, Dublin, Belfast or back, 982 for Dublin, London, Belfast or back |
| `Day09.ExampleShortest` | day09/src/lib.rs:135-157 | the shortest route found is 605 long and runs London, Dublin, Belfast or back |
| `Day09.ExampleLongest` | day09/src/lib.rs:167-189 | the longest route found is 982 long and runs Dublin, London, Belfast or back |
| `Day10.LookAndSay` | day10/src/lib.rs:12-36 | the loop says, for each maximal run of the input in order, its length in decimal and then its char |
| `Day10.Feed` | day10/src/lib.rs:19-27 | one turn of the loop: a new char flushes the run in progress and starts a run of its own, the same char lengthens it; the loop state is kept |
| `Day10.Advance` | day10/src/lib.rs:18-28 | each turn keeps the loop state: everything said is every run but the one in progress |
| `Day10.FlushedSay` | day10/src/lib.rs:30-33 | the final flush says the last run, completing what is said for all runs |
| `Day10.RunsSnoc` | day10/src/lib.rs:19-27 | one more char lengthens the last run or starts a new one |
| `Day10.ExpandRuns` | day10/src/lib.rs:12-36 | the runs spell out the input again |
| `Day10.RunsMaximal` | day10/src/lib.rs:12-36 | the runs are non-empty and neighbouring runs have different chars |
| `Day10.RunsTotal` | day10/src/lib.rs:12-36 | the run lengths add up to the input's length |
| `Day10.RunsUnique` | day10/src/lib.rs:12-36 | any maximal runs that spell the input are its runs: the split into runs is the only one |
| `Day10.EmptySaysNothing` | day10/src/lib.rs:30-35 | the empty input says nothing |
| `Day10.Example1` | day10/src/lib.rs:50 | `1` becomes `11` |
| `Day10.Example11` | day10/src/lib.rs:51 | `11` becomes `21` |
| `Day10.Example21` | day10/src/lib.rs:52 | `21` becomes `1211` |
| `Day10.Example1211` | day10/src/lib.rs:53 | `1211` becomes `111221` |
| `Day10.Example111221` | day10/src/lib.rs:54 | `111221` becomes `312211` |
| `Day12.AsI64OrZero` | day12/src/lib.rs:42 | an integer that fits in an `i64` is itself; anything else, fractions and out-of-range integers, counts 0 |
| `Day12.SumOfNumbersIn` | day12/src/lib.rs:35-53 | strings, booleans and null count 0, a number counts at most an `i64` and only when it is an integer, and an object the filter rejects counts 0 |
| `Day12.AcceptAll` | day12/src/lib.rs:7 | the first part's filter keeps every object |
| `Day12.NotRed` | day12/src/lib.rs:16-19 | an object is kept exactly when none of its own values is the string `red` |
| `Day12.NoRedSameSum` | day12/src/lib.rs:35-53 | on a document without a red object both parts' sums agree |
| `Day12.RedInArrayKept` | day12/src/lib.rs:16-19 | a `red` inside an array value does not remove the object holding it |
| `Day12.RedValueSkipsObject` | day12/src/lib.rs:44-49 | an object with a `red` value contributes 0, numbers and all |
| `Day12.Examples` | day12/py/day12.py:14-17 | `[1,2,3]` and `{"a":2,"b":4}` sum to 6, `[[[3]]]` and `{"a":{"b":4},"c":-1}` to 3, `{"a":[-1,1]}` and `[-1,{"a":1}]` to 0, `[]` and `{}` to 0 |
| `Day12.RedExample` | day12/src/lib.rs:13-24 | `[1,{"c":"red","b":2},3]` sums to 4 without red objects |
| `Day12Py.JsonNumbers` | day12/py/day12.py:26-38 | strings and None yield nothing, a bool yields 1 or 0, and a number yields itself exactly when it is an integer |
| `Day12Py.KeysYieldNothing` | day12/py/day12.py:34-36 | a dict key, always a string, yields no number |
| `Day12Py.EntryCons` | day12/py/day12.py:33-38 | a dict yields its first value's numbers, then the rest's (both generators) |
| `Day12Py.AgreesWithRust` | day12/py/day12.py:26-38 | on a document without booleans and with `i64` integers, `sum(json_numbers)` is the Rust first part's sum |
| `Day12Py.UnredAgreesWithRust` | day12/py/day12.py:40-53 | on such a document, `sum(json_numbers_unred)` is the Rust second part's sum |
| `Day12Py.BooleanDiffers` | day12/py/day12.py:27-28 | where they part: `[true]` sums to 1 in Python (a bool is an int) and 0 in Rust |
| `Day12Py.ExampleFlat` | day12/py/day12.py:14 | `[1,2,3]` sums to 6 |
| `Day12Py.ExampleNested` | day12/py/day12.py:15 | `[[[3]]]` sums to 3 |
| `Day12Py.ExampleObject` | day12/py/day12.py:16-17 | `{"a":[-1,1]}` and `[]` sum to 0 |
| `Day13.Apply` | day13/src/lib.rs:28-35 | `modify`: a gain counts as itself, a loss as its negation |
| `Day13.NamedLast` | day13/src/lib.rs:63-73 | a pair has a relation exactly when some edge names it, and it is that of the last such edge |
| `Day13.PeopleOf` | day13/src/lib.rs:70-71 | the people are exactly the names on either side of an edge |
| `Day13.NamedInPeople` | day13/src/lib.rs:63-73 | both names of every relation are among the people |
| `Day13.SortedUnique` | day13/src/lib.rs:77-81 | two sorted lists of the same distinct names are equal: the index does not depend on the order the set hands out its names |
| `Day13.SortedIndex` | day13/src/lib.rs:77-81 | the index is sorted and holds exactly the people |
| `Day13.Collect` | day13/src/lib.rs:60-73 | the loop puts every name into the set of people and every relation into the map, the later one for a pair winning |
| `Day13.PositionsOf` | day13/src/lib.rs:83-89 | `index_of` maps exactly the indexed names, each to its position |
| `Day13.Rekey` | day13/src/lib.rs:91-94 | every relation is re-keyed by the positions of its two names, and nothing else is in the map |
| `Day13.RekeyedAbsent` | day13/src/lib.rs:160 | a person past the end of the index, the second part's guest, has no relation either way |
| `Day13.Graph.FromIter` | day13/src/lib.rs:54-101 | the sorted index of the people and the relations keyed by position; the next position has none |
| `Day13.Seats` | day13/src/lib.rs:107-119 | one term per seat: the person's relation to the left neighbour plus the one to the right, wrapping round, a missing relation counting 0 |
| `Day13.EvaluateOrdering` | day13/src/lib.rs:103-122 | the loop adds every seat's term: the table's total happiness |
| `Day13.HappinessRotate` | day13/src/lib.rs:103-122 | moving everyone one seat along keeps the total |
| `Day13.HappinessReverse` | day13/src/lib.rs:103-122 | seating everyone in reverse keeps the total |
| `Day13.GuestBreaksOneLink` | day13/src/lib.rs:154-166 | seating a guest without relations first breaks exactly the link between the last and the first of the others |
| `Day13.GuestSeats` | day13/src/lib.rs:107-119 | the guest's seat adds 0 and the two beside it each lose the neighbour they had across it |
| `Day13.Range` | day13/src/lib.rs:125 | `0..n` collected: position `i` holds `i` |
| `Day13.FindBestOrdering` | day13/src/lib.rs:124-139 | no ordering of the people is happier than the kept one, which is an ordering happier than `i32::MIN`, or empty when none beats `i32::MIN` |
| `Day14.Toggle` | day14/src/lib.rs:48-55 | `toggle` always changes the state |
| `Day14.TickDeer` | day14/src/lib.rs:94-109 | `tick` keeps name, speed, durations and points, adds the speed while flying, and toggles the state, resetting the counter, exactly when the second just counted reaches the phase's length |
| `Day14.RaceTickSteps` | day14/src/lib.rs:173-186 | ticking every reindeer and then a point for each listed leader is one second of the race |
| `Day14.TickAfter` | day14/src/lib.rs:94-109 | one more `tick` keeps a new reindeer on the closed form |
| `Day14.TicksClosedForm` | day14/src/lib.rs:94-109 | after `t` ticks a new reindeer has flown `speed` times its flying seconds (a full flying phase per completed cycle plus the flying part of the current one) and is flying or resting by its place in the cycle; a phase of 0 seconds lasts one, since the test follows the tick |
| `Day14.ExampleSeconds` | day14/src/lib.rs:237-277 | Comet and Dancer: 14 and 16 km after one second, 140 and 160 after ten, Comet resting at 140 and Dancer at 176 after eleven, both resting after twelve |
| `Day14.ExampleThousand` | day14/src/lib.rs:288-294 | alone, after 1000 seconds both rest, Comet at 1120 km and Dancer at 1056 |
| `Day14.MaxIsMax` | day14/src/lib.rs:143 | `max` is at least every key and, for a non-empty race, one of them |
| `Day14.LeadersFrom` | day14/src/lib.rs:144-155 | the positions from `i` on whose key is `best`, increasing |
| `Day14.Leaders` | day14/src/lib.rs:139-159 | `get_reindeer` yields increasing positions within the race |
| `Day14.LeadersAreMax` | day14/src/lib.rs:139-159 | the positions yielded are exactly those holding the largest key, and a race with reindeer yields at least one |
| `Day14.Award` | day14/src/lib.rs:179-183 | scoring keeps the number of reindeer |
| `Day14.AwardAt` | day14/src/lib.rs:179-183 | scoring touches only the points and adds at most one |
| `Day14.AwardLeaders` | day14/src/lib.rs:179-183 | a point for each position `by_distance` lists is a point for every reindeer at the largest distance |
| `Day14.Ticked` | day14/src/lib.rs:174-176 | ticking keeps the number of reindeer |
| `Day14.TickedAt` | day14/src/lib.rs:174-176 | every reindeer ticks once |
| `Day14.RaceTick` | day14/src/lib.rs:173-186 | one second of the race keeps the number of reindeer |
| `Day14.RoundsSucc` | day14/src/lib.rs:188-192 | `n + 1` seconds are `n` seconds and one more |
| `Day14.TickPoints` | day14/src/lib.rs:94-109 | a tick ignores the points and keeps them |
| `Day14.RoundsMove` | day14/src/lib.rs:173-192 | in a race each reindeer moves exactly as it would alone, gaining at most a point a second |
| `Day14.AwardScores` | day14/src/lib.rs:179-183 | someone always leads: a race with reindeer hands out at least one point a second |
| `Day14.RoundsScore` | day14/src/lib.rs:188-192 | after `n` seconds at least `n` more points are held in total |
| `Day14.ExampleRace` | day14/src/lib.rs:279-295 | the race of the two after 1000 seconds: both rest, Comet at 1120 km and Dancer at 1056 |
| `Day14.Reindeer.New` | day14/src/lib.rs:84-92 | `new` holds the name and durations, at distance 0, flying, 0 seconds in its state and 0 points |
| `Day14.Reindeer.Tick` | day14/src/lib.rs:94-109 | `tick`: one more second in the state, the speed added while flying, and the state toggled with the counter at 0 once the phase is over |
| `Day14.Reindeer.AddPoint` | day14/src/lib.rs:182 | one more point, nothing else changed |
| `Day14.Reindeer.Reset` | day14/src/lib.rs:111-115 | back to distance 0, flying, 0 seconds in the state, keeping the points |
| `Day14.HerdOfAt` | day14/src/lib.rs:118-121 | the race's values are its reindeer's, in order |
| `Day14.Race.FromIter` | day14/src/lib.rs:123-136 | `from_iter` keeps the reindeer in order with the timer at 0 |
| `Day14.Race.Tick` | day14/src/lib.rs:173-186 | every reindeer ticks, each one in the lead by distance gains a point, and the timer moves on by one |
| `Day14.Race.TickEach` | day14/src/lib.rs:174-176 | the first loop ticks every reindeer once |
| `Day14.Race.AddPoints` | day14/src/lib.rs:179-183 | the second loop gives a point to each listed winner and to nobody else |
| `Day14.Race.BumpEach` | day14/src/lib.rs:181-183 | the loop over the winner indices, from the reindeer before it |
| `Day14.Race.RunToTime` | day14/src/lib.rs:188-192 | the timer reaches `finish_time` (or stays when already past it) and the race is that many seconds further on |
| `Day14.Race.Advance` | day14/src/lib.rs:189-191 | one more turn of the loop keeps the race on `n + 1` seconds |
| `Day15Ingredient.Pop` | day15/src/ingredient.rs:44 | `pop` drops the last char, if there is one |
| `Day15Ingredient.ParseLine` | day15/src/ingredient.rs:22-70 | a blank line is `None`; anything else that is not `None` got past the tokenizer; an ingredient read has five `i32` properties |
| `Day15Ingredient.KeptEleven` | day15/src/ingredient.rs:28-39 | of eleven tokens the tokenizer keeps the name and the five numbers, at the even places |
| `Day15Ingredient.MismatchEleven` | day15/src/ingredient.rs:31-39 | the fixed-token check fails exactly when a property name is not where it belongs |
| `Day15Ingredient.LineOptionsFields` | day15/src/ingredient.rs:28-39 | the parser's options: at least 11 and fewer than 12 tokens, the five names at places 1, 3, 5, 7 and 9 |
| `Day15Ingredient.ParseOfLine` | day15/src/ingredient.rs:41 | the tokenizer accepts a non-blank line exactly when it has eleven tokens with the names in place, keeping the name and the five numbers |
| `Day15Ingredient.RejectedExactly` | day15/src/ingredient.rs:22-70 | `None` exactly for a blank line and for one the tokenizer refuses |
| `Day15Ingredient.ParsedExactly` | day15/src/ingredient.rs:41-66 | an accepted line gives an ingredient exactly when its five numbers, commas popped, read as `i32`s, with the popped name; otherwise `unwrap` panics |
| `Day15Ingredient.WordsOfJoin` | day15/src/ingredient.rs:23-41 | words without whitespace or capitals joined by spaces are, trimmed, the line's tokens |
| `Day15Ingredient.ParseJoined` | day15/src/ingredient.rs:22-70 | such words, shaped and numeric, read as the ingredient their tokens spell |
| `Day15Ingredient.ParseFormat` | day15/src/ingredient.rs:22-70 | an ingredient written as a puzzle line reads back as itself |
| `Day15Ingredient.ScoreRead` | day15/src/ingredient.rs:45-47 | a number written with its comma reads back once the comma is popped |
| `Day15Ingredient.BlankRejected` | day15/src/ingredient.rs:23-26 | a blank line is not an ingredient |
| `Day15Ingredient.TenTokensRejected` | day15/src/ingredient.rs:29 | a line without its calories has ten tokens and is refused |
| `Day15Ingredient.PanicJoined` | day15/src/ingredient.rs:61-65 | accepted words with a number that does not read panic |
| `Day15Ingredient.OverflowPanics` | day15/src/ingredient.rs:61 | a capacity of `i32::MAX + 1` passes the tokenizer and panics |
| `Day15Recipe.InsertLookup` | day15/src/recipe.rs:28 | after an insert the key maps to the new quantity and every other key to what it did |
| `Day15Recipe.LookupHasKey` | day15/src/recipe.rs:11 | a lookup finds a quantity exactly for a key in the map |
| `Day15Recipe.InsertAt` | day15/src/recipe.rs:128-129 | inserting a key already present replaces its entry in place |
| `Day15Recipe.InsertNew` | day15/src/recipe.rs:28 | inserting a new key adds it |
| `Day15Recipe.InsertKeys` | day15/src/recipe.rs:28 | an insert keeps the keys distinct and adds exactly its own key |
| `Day15Recipe.InsertTotal` | day15/src/recipe.rs:28-29 | an insert adds its quantity to the total and takes away the one it replaces |
| `Day15Recipe.TotalUpdate` | day15/src/recipe.rs:128-129 | changing one quantity changes the total by the difference |
| `Day15Recipe.DefaultQty` | day15/src/recipe.rs:16 | `100 / len as u16`: at most 100, with `len * d <= 100` below 65536, and 100 when the cast leaves 1 |
| `Day15Recipe.Filled` | day15/src/recipe.rs:21-30 | the teaspoons handed out after any prefix of the ingredients never pass 100 |
| `Day15Recipe.New` | day15/src/recipe.rs:15-33 | the loop hands each ingredient `default_qty`, or what is left of 100 when that is less, inserting them in order |
| `Day15Recipe.FilledMap` | day15/src/recipe.rs:21-30 | the map holds exactly the listed ingredients, each once |
| `Day15Recipe.FilledTotal` | day15/src/recipe.rs:21-30 | the map holds no more teaspoons than were handed out |
| `Day15Recipe.NewTotal` | day15/src/recipe.rs:15-33 | a new recipe never holds more than 100 teaspoons |
| `Day15Recipe.NewEven` | day15/src/recipe.rs:15-33 | distinct ingredients, fewer than 65536, each get `100 / n` teaspoons, in the order listed |
| `Day15Recipe.NewTruncated` | day15/src/recipe.rs:16 | with `65536 k + 1` ingredients the cast makes `default_qty` 100: the first takes everything and the rest nothing |
| `Day15Recipe.Sums` | day15/src/recipe.rs:36-46 | the four sums are each property weighted by quantity, over every entry |
| `Day15Recipe.Goodness` | day15/src/recipe.rs:35-55 | the loop's four weighted sums, their product taken modulo 2^32; the clamp works on a copy and leaves the sums alone |
| `Day15Recipe.WeightedPermutation` | day15/src/recipe.rs:41-46 | a weighted sum does not depend on the order of the entries |
| `Day15Recipe.GoodnessOrderFree` | day15/src/recipe.rs:35-55 | the score does not depend on the map's iteration order |
| `Day15Recipe.CaloriesUnused` | day15/src/recipe.rs:35-55 | calories play no part in the score |
| `Day15Recipe.GoodnessAgrees` | day15/src/recipe.rs:35-55 | with no sum below zero and a product below 2^32, `goodness` is the puzzle's score |
| `Day15Recipe.UnclampedSums` | day15/src/recipe.rs:48-54 | two negative sums score 1 where the puzzle scores 0, and one negative sum wraps to `2^32 - 1` |
| `Day15Recipe.ClampedGoodness` | day15/src/recipe.rs:48-52 | with the clamp on the sums themselves: 0 when any sum is below zero, otherwise the product of the sums |
| `Day15Recipe.ExampleScore` | day15/src/recipe.rs:35-55 | 44 teaspoons of butterscotch and 56 of cinnamon score 62842880 |
| `Day15Recipe.BumpInPlace` | day15/src/recipe.rs:127-129 | on distinct ingredients the two inserts update the two entries in place, one teaspoon up and one down |
| `Day15Recipe.BumpChanges` | day15/src/recipe.rs:124-129 | a neighbour differs from the recipe in exactly the two entries of the move, one teaspoon up and one down, and keeps the total |
| `Day15Recipe.RowFrom` | day15/src/recipe.rs:113-134 | a decrease candidate found from position `j` is a later position with a different ingredient and a teaspoon to give |
| `Day15Recipe.Row` | day15/src/recipe.rs:99-134 | a move into position `i` is a move that keeps 100 teaspoons |
| `Day15Recipe.FirstRow` | day15/src/recipe.rs:92-135 | what this version yields from increase position `i` on starts with a move into `i` or later |
| `Day15Recipe.RowFromExactly` | day15/src/recipe.rs:113-134 | the decrease candidates from position `j` on are exactly the later positions with a different ingredient and a teaspoon to give |
| `Day15Recipe.FirstRowExactly` | day15/src/recipe.rs:107-111 | this version's neighbours are exactly the moves into the first position with room for another teaspoon: the decrease pass is never reset |
| `Day15Recipe.Advance` | day15/src/recipe.rs:81-86 | `increment_incr` takes the next entry of the pass with its quantity one higher, or `None` once the pass is over |
| `Day15Recipe.OldNext` | day15/src/recipe.rs:92-135 | `next` on plain values makes only moves that keep a recipe of 100 teaspoons and reaches another state of the iterator |
| `Day15Recipe.OldPending` | day15/src/recipe.rs:92-135 | the moves still to yield from a cursor start with a valid move |
| `Day15Recipe.OldStart` | day15/src/recipe.rs:70-79 | a fresh iterator has the first open row of moves to yield |
| `Day15Recipe.OldAdvance` | day15/src/recipe.rs:99-111 | moving to the next increase, past 100 or at the end of the decrease pass, loses no pending move |
| `Day15Recipe.OldDecrease` | day15/src/recipe.rs:105-134 | one step of the decrease pass yields the move it finds, if any |
| `Day15Recipe.OldNextPending` | day15/src/recipe.rs:92-135 | each call of `next` yields the first pending move and leaves the rest pending, or `None` when nothing is |
| `Day15Recipe.Neighbors.constructor` | day15/src/recipe.rs:70-79 | both passes start, the first ingredient is taken for increase, and the first row is pending |
| `Day15Recipe.Neighbors.IncrementIncr` | day15/src/recipe.rs:81-86 | the cursor moves as `Advance` says |
| `Day15Recipe.Neighbors.Next` | day15/src/recipe.rs:92-135 | the neighbour for the move `OldNext` makes, and its cursor |
| `Day15Neighbors.PairsUnfold` | day15/src/neighbors.rs:39-99 | the moves from increase position `i` on are row `i`'s and then those from `i + 1` |
| `Day15Neighbors.NewNext` | day15/src/neighbors.rs:39-99 | `next` on plain values makes only moves that keep 100 teaspoons and reaches another state of the iterator |
| `Day15Neighbors.NewStart` | day15/src/neighbors.rs:15-24 | a fresh iterator has every move to yield |
| `Day15Neighbors.NewAdvance` | day15/src/neighbors.rs:56-65 | once the increase pass has moved on and the decrease pass restarted, every row after the current one is pending |
| `Day15Neighbors.NewSkip` | day15/src/neighbors.rs:49-53 | skipping an increase past 100 loses no pending move |
| `Day15Neighbors.NewReset` | day15/src/neighbors.rs:59-65 | restarting the decrease pass at the next increase loses no pending move |
| `Day15Neighbors.NewDecreaseFound` | day15/src/neighbors.rs:78-93 | a decrease step that finds a move yields it |
| `Day15Neighbors.NewDecreasePass` | day15/src/neighbors.rs:72-75 | a decrease step past the same ingredient or an empty one loses nothing |
| `Day15Neighbors.NewNextPending` | day15/src/neighbors.rs:39-99 | each call of `next` yields the first pending move and leaves the rest pending, or `None` when nothing is |
| `Day15Neighbors.PairsExactly` | day15/src/neighbors.rs:39-99 | the moves from increase position `i` on are exactly the moves into position `i` or later |
| `Day15Neighbors.PairsAscending` | day15/src/neighbors.rs:39-99 | they come by increase position, then by decrease position |
| `Day15Neighbors.EveryMoveOnce` | day15/src/neighbors.rs:39-99 | a fresh iterator yields every move exactly once |
| `Day15Neighbors.VersionsDiffer` | day15/src/neighbors.rs:63 | with two ingredients at 50 the first version yields one neighbour and this one both |
| `Day15Neighbors.CheckedExactly` | day15/src/neighbors.rs:84-93 | the `assert_eq!` on the total fails exactly when a move is made on a recipe not of 100 teaspoons; otherwise the neighbour is the recipe with the move made, and `None` ends it |
| `Day15Neighbors.Neighbors.From` | day15/src/neighbors.rs:14-25 | both passes start, the first ingredient is taken for increase, and every move is pending |
| `Day15Neighbors.Neighbors.IncrementIncr` | day15/src/neighbors.rs:28-33 | the cursor moves as `Advance` says |
| `Day15Neighbors.Neighbors.Next` | day15/src/neighbors.rs:39-99 | the outcome for the move `NewNext` makes, and its cursor |
| `Day16.Set` | day16/src/lib.rs:96-106 | setting a compound's field gives it that quantity and leaves every other compound's alone |
| `Day16.SameFields` | day16/src/lib.rs:64-76 | two records agreeing on every compound are equal |
| `Day16.Named` | day16/src/lib.rs:96-110 | a name the `match` knows stands for the compound of that name |
| `Day16.NamedName` | day16/src/lib.rs:96-110 | each compound is known by its own name and by no other |
| `Day16.ReadItem` | day16/src/lib.rs:85-94 | an item that reads has a quantity that fits in a `u32` |
| `Day16.Record` | day16/src/lib.rs:96-110 | an unknown name leaves the record as it is |
| `Day16.ReadAll` | day16/src/lib.rs:84-94 | every item of the list is read on its own |
| `Day16.Store` | day16/src/lib.rs:96-110 | the `match` sets the named compound's field, or ignores an extraneous name |
| `Day16.FromStr` | day16/src/lib.rs:81-114 | `from_str` starts from the blank record and returns what the items make of it, or the first item's error |
| `Day16.ApplyOk` | day16/src/lib.rs:84-113 | the list reads exactly when every item does |
| `Day16.ApplyFirstError` | day16/src/lib.rs:90-93 | the error returned is the first failing item's |
| `Day16.RecordOther` | day16/src/lib.rs:96-110 | an item leaves the compounds it does not name alone |
| `Day16.ApplyUntouched` | day16/src/lib.rs:82-113 | a compound no item names stays as it was |
| `Day16.ApplyLast` | day16/src/lib.rs:84-111 | a compound takes the quantity of the last item naming it |
| `Day16.NoColonMalformed` | day16/src/lib.rs:89-91 | an item without a `:` is malformed |
| `Day16.EmptyMalformed` | day16/src/lib.rs:84-91 | an empty list of possessions is one malformed, empty item |
| `Day16.Index` | day16/src/lib.rs:65-76 | every compound has its place among the ten fields |
| `Day16.AllCompoundsDistinct` | day16/src/lib.rs:65-76 | each compound is listed once |
| `Day16.Spaced` | day16/src/lib.rs:189-190 | each item written after a comma has a space before it |
| `Day16.EntriesMember` | day16/src/lib.rs:65-76 | the written entries are exactly the remembered compounds with their quantities |
| `Day16.DistinctEntries` | day16/src/lib.rs:65-76 | no compound is written twice |
| `Day16.NameLetters` | day16/src/lib.rs:97-106 | the compounds' names are non-empty lower-case words |
| `Day16.ReadItemOf` | day16/src/lib.rs:85-94 | an item whose trimmed text splits on `:` into a name and a `u32` reads as them |
| `Day16.ReadItemText` | day16/src/lib.rs:85-94 | a written item, with or without a space before it, reads back as its name and quantity |
| `Day16.FormatSplits` | day16/src/lib.rs:84 | splitting the written list on commas gives back the written items |
| `Day16.FieldKept` | day16/src/lib.rs:81-114 | read back, a remembered compound keeps its quantity |
| `Day16.FieldAbsent` | day16/src/lib.rs:81-114 | read back, a compound not remembered stays unknown |
| `Day16.FormatRoundTrip` | day16/src/lib.rs:81-114 | a record remembering at least one compound, each fitting a `u32`, reads back from its written form |
| `Day16.MatchesExactly` | day16/src/lib.rs:118-150 | `matches` holds exactly when every remembered compound has the other record's quantity; an unremembered one matches anything |
| `Day16.MatchesRetroExactly` | day16/src/lib.rs:152-186 | `matches_retro` applies its per-compound test to every remembered compound |
| `Day16.RetroAgainstReading` | day16/src/lib.rs:158-186 | against the tape, cats and trees must be more than it shows, pomeranians and goldfish fewer, and the rest equal |
| `Day16.MatchesBlank` | day16/src/lib.rs:118-122 | a Sue remembered for nothing matches any reading, by both tests |
| `Day16.MatchesSelf` | day16/src/lib.rs:118-150 | every record matches itself |
| `Day16.PomeraniansFewer` | day16/src/lib.rs:167-170 | the retro test counts pomeranians as fewer than the tape's three, though the comment at line 156 says greater |
| `Day16.CanBe` | day16/src/lib.rs:197-199 | a Sue can be the giver exactly when every compound she is remembered for has the reading's quantity |
| `Day16.CanBeRetro` | day16/src/lib.rs:201-203 | a Sue can be the giver by the retro test exactly when every compound she is remembered for passes its test |
| `Day17.InPrefix` | day17/src/lib.rs:105-107 | a combination built from a sub-solution starts with the kept container, followed by the sub-solution |
| `Day17.PrefixHas` | day17/src/lib.rs:105-107 | every sub-solution, with the kept container in front, is yielded |
| `Day17.CombosSound` | day17/src/lib.rs:55-122 | every combination the iterator yields is non-empty, holds `from` exactly and picks containers of the list in order |
| `Day17.PicksNonIncreasing` | day17/src/lib.rs:31-32 | a pick from a list sorted largest first is itself sorted, and starts no bigger than the list |
| `Day17.PicksElement` | day17/src/lib.rs:71-72 | no container of a pick is bigger than the list's largest |
| `Day17.Max` | day17/src/lib.rs:71-72 | the largest container is in the list and no other is bigger |
| `Day17.CombosNonIncreasing` | day17/src/lib.rs:71-72 | from containers sorted largest first every combination comes largest first |
| `Day17.CombosComplete` | day17/src/lib.rs:55-122 | with containers that all hold something, every non-empty pick holding `from` exactly is yielded |
| `Day17.InsertDescending` | day17/src/lib.rs:46-47 | inserting into a list sorted largest first keeps it sorted and adds exactly that container |
| `Day17.SortDescending` | day17/src/lib.rs:46-47 | `sort` then `reverse` give the same containers, largest first |
| `Day17.HeadIsLargest` | day17/src/lib.rs:71-72 | in a list sorted largest first nothing is bigger than the first |
| `Day17.DescendingUnique` | day17/src/lib.rs:46-47 | a bag of containers has one order largest first |
| `Day17.SortForgetsOrder` | day17/src/lib.rs:44-49 | `new` sorts the same containers the same way whatever order they are given in |
| `Day17.EggnogFiller.GivenSorted` | day17/src/lib.rs:33-41 | a fresh iterator with no biggest chosen and no sub-iterator, with all the combinations of the list as given still to come |
| `Day17.EggnogFiller.New` | day17/src/lib.rs:44-49 | the same over the containers sorted largest first |
| `Day17.EggnogFiller.Next` | day17/src/lib.rs:55-122 | `next` yields the first combination still to come and leaves the rest, or `None` once there are none |
| `Day17.EggnogFiller.Restart` | day17/src/lib.rs:60-90 | with no sub-iterator, taking the next biggest container still yields the first combination to come and leaves the rest, or `None` |
| `Day17.EggnogFiller.Choose` | day17/src/lib.rs:60-90 | taking the biggest container either settles the call, yielding the first combination or `None` and keeping the rest, or starts a sub-iterator with the combinations to come unchanged |
| `Day17.EggnogFiller.Descend` | day17/src/lib.rs:91-119 | the sub-iterator's next combination with the biggest container in front, or a fresh start without it when the sub-iterator has run out |
| `Day17.EggnogFiller.MoveOn` | day17/src/lib.rs:111-119 | once the sub-iterator runs out, it is dropped and `next` goes on with the containers not yet tried |
| `Day17.EggnogFiller.StartRecursor` | day17/src/lib.rs:84-90 | the sub-iterator's combinations for `from - biggest` come first, each with the biggest in front |
| `Day17.EggnogFiller.Advance` | day17/src/lib.rs:92-110 | the sub-iterator yields its first combination still to come and keeps the rest, or `None` |
| `Day17.EggnogFiller.TakeBiggest` | day17/src/lib.rs:62-69 | containers too big for `from` are dropped without losing a combination; with none that fits, there are none |
| `Day17.PrefixStep` | day17/src/lib.rs:105-107 | the first prefixed combination is the first sub-solution with the container in front |
| `Day17.CombosSkip` | day17/src/lib.rs:64-69 | a container too big for what is left adds no combination |
| `Day17.CombosExact` | day17/src/lib.rs:73-80 | a container exactly the size of what is left is a combination on its own, before those without it |
| `Day17.CombosFits` | day17/src/lib.rs:83-119 | a smaller container comes first, with every combination for what it leaves, then those without it |
| `Day17.ExampleCombos` | day17/src/lib.rs:136-144 | 25 litres into 20, 15, 10, 5 and 5 go as 20+5, 20+5, 15+10 and 15+5+5, in that order, and nothing more |
| `Day17.ExampleSorted` | day17/src/lib.rs:136-164 | any order of the test's containers sorts to 20, 15, 10, 5, 5 |
| `Day17.ExampleReversed` | day17/src/lib.rs:146-154 | 5, 5, 10, 15, 20 sort to the first test's order, so yield the same combinations |
| `Day17.ExampleMunged` | day17/src/lib.rs:156-164 | 5, 10, 20, 15, 5 sort to the first test's order, so yield the same combinations |
| `Day18.Blank` | day18/src/lib.rs:91-93 | an `edge` by `edge` grid with every light off |
| `Day18.Bits` | day18/src/lib.rs:108-114 | a line's lights, one per character, on exactly at `#` |
| `Day18.TrimmedLines` | day18/src/lib.rs:96-102 | the lines of the trimmed text split at `\n`, each trimmed: at least one |
| `Day18.ReadRow` | day18/src/lib.rs:107-114 | a line reads exactly when it holds only `.` and `#`, and then as its lights |
| `Day18.ReadLine` | day18/src/lib.rs:102-115 | a line reads exactly when it is as long as there are lines and holds only `.` and `#` |
| `Day18.ReadSoFarStep` | day18/src/lib.rs:101-116 | a line that reads extends the rows read so far |
| `Day18.ParseLines` | day18/src/lib.rs:95-118 | `parse_lines` gives the grid of the lines' lights, or `None` at the first line that does not read |
| `Day18.DecodeSquare` | day18/src/lib.rs:95-118 | a grid read is square, with one row per line |
| `Day18.DecodeEmpty` | day18/src/lib.rs:96-105 | blank text is one empty line, which is not a row of length one, so reads as `None` |
| `Day18.RowText` | day18/src/lib.rs:108-114 | a row written with `#` for on and `.` for off, one character per light |
| `Day18.RowTexts` | day18/src/lib.rs:101-116 | one written row per row of the grid |
| `Day18.RowTextReads` | day18/src/lib.rs:102-114 | a written row trims to itself and reads back as the row |
| `Day18.RowTextsClean` | day18/src/lib.rs:96-102 | the written rows of a square grid are non-empty, trimmed and free of line breaks |
| `Day18.RenderTrimmed` | day18/src/lib.rs:96 | a written grid starts and ends with a light, so trimming keeps it |
| `Day18.RenderSplits` | day18/src/lib.rs:96 | a written grid splits at its line breaks into its written rows |
| `Day18.RenderLines` | day18/src/lib.rs:96-102 | the trimmed lines of a written grid are its written rows |
| `Day18.RenderDecodes` | day18/src/lib.rs:95-118 | a square grid of at least one light reads back from its written form |
| `Day18.Beside` | day18/src/lib.rs:134-148 | the coordinates beside `v` are on the grid and differ from `v` |
| `Day18.Around` | day18/src/lib.rs:134-148 | the coordinates around `v` are on the grid |
| `Day18.AroundExactly` | day18/src/lib.rs:134-148 | they are exactly those at most one from `v`, each once |
| `Day18.AroundList` | day18/src/lib.rs:134-148 | the list `count_adjacent_on` builds for one axis: `v`, then `v - 1` and `v + 1` where they are on the grid |
| `Day18.CountAdjacentOn` | day18/src/lib.rs:124-162 | the on lights of the clipped 3 by 3 block around the cell whose column differs from their row, as the `cx != cy` test has it |
| `Day18.CentreOnce` | day18/src/lib.rs:150-159 | with the cell listed once, counting everything counts one more than leaving out the cell, when the cell is on |
| `Day18.OffTheDiagonal` | day18/src/lib.rs:153 | two blocks three or more apart share no coordinate, so `cx != cy` lets every light through |
| `Day18.FarFromDiagonal` | day18/src/lib.rs:153 | away from the diagonal the cell counts itself: one more than its neighbours when it is on |
| `Day18.NeighboursLeaveOutCell` | day18/src/lib.rs:120-121 | the neighbours the puzzle means are the block's on lights without the cell itself |
| `Day18.CountNeighbours` | day18/src/lib.rs:150-159 | with `(cx, cy) != (x, y)` as the test the loop counts exactly those neighbours |
| `Day18.Full` | day18/src/lib.rs:91-93 | the square grid of the given edge with every light on |
| `Day18.FullBlock` | day18/src/lib.rs:150-159 | the block around the centre of a 3 by 3 grid all on counts each of its nine lights that the test lets through |
| `Day18.DiagonalExample` | day18/src/lib.rs:153 | in a 3 by 3 grid all on, the centre has eight neighbours on but the count sees six |
| `Day18.NextState` | day18/src/lib.rs:164-187 | a grid of the same edge where, by `count_adjacent_on`'s count, an on light stays on with 2 or 3 and an off light turns on with exactly 3 |
| `Day18.BlankStaysBlank` | day18/src/lib.rs:170-182 | a dark grid stays dark |
| `Day18.ColumnOn` | day18/src/lib.rs:192-196 | a column has no more on lights than rows counted |
| `Day18.GridOn` | day18/src/lib.rs:191-197 | the columns counted have no more on lights than cells |
| `Day18.CountOn` | day18/src/lib.rs:189-199 | `count_on` counts the on lights, at most edge squared |
| `Day18.ColumnOnAll` | day18/src/lib.rs:192-196 | a column all on counts every row, one all off none |
| `Day18.GridOnAll` | day18/src/lib.rs:191-197 | a grid all on counts every cell, one all off none |
| `Day18.CountBlankFull` | day18/src/lib.rs:189-199 | a blank grid has no light on and a full grid all of them |
| `Day19.ReadLine` | day19/src/lib.rs:54-68 | a line says nothing exactly when it is blank once trimmed |
| `Day19.ReadAll` | day19/src/lib.rs:53 | every line of the text is read on its own |
| `Day19.ParseReplacements` | day19/src/lib.rs:51-78 | `parse_replacements` gives what gathering the lines' rules makes, or `None` at a malformed line |
| `Day19.AddLookup` | day19/src/lib.rs:70-75 | a rule's text goes after the texts already kept for its key, and nowhere else |
| `Day19.GatherCollects` | day19/src/lib.rs:53-76 | gathering appends to each key the texts of its rules, in the order of the lines |
| `Day19.GatherKeys` | day19/src/lib.rs:70-75 | gathering adds a key exactly when some rule names it |
| `Day19.GatherFails` | day19/src/lib.rs:59-64 | gathering fails exactly when some line is malformed |
| `Day19.ReplacementsCollect` | day19/src/lib.rs:51-78 | the map read has exactly the keys some rule names, each with its rules' texts in the order of the lines |
| `Day19.ReadLineMalformed` | day19/src/lib.rs:54-64 | a line is malformed exactly when, trimmed, it is not blank and does not split at `=>` into two halves |
| `Day19.ReplacementsFail` | day19/src/lib.rs:51-78 | the text gives `None` exactly when one of its lines is malformed |
| `Day19.IndexOfFirst` | day19/src/lib.rs:59 | the split finds a pattern where it first occurs |
| `Day19.ArrowSplit` | day19/src/lib.rs:59 | two halves without `=>` joined around one split into exactly those halves |
| `Day19.ReadLineOfRule` | day19/src/lib.rs:66-68 | such a line reads as the rule of exactly those halves; spaces around the arrow stay in them |
| `Day19.SpacedRule` | day19/src/lib.rs:66-68 | `H => HO` reads as `H ` replaced by ` HO`: the halves are not trimmed |
| `Day19.Chars` | day19/src/lib.rs:98 | every character as a text of its own |
| `Day19.Pieces` | day19/src/lib.rs:98 | splitting always gives at least one chunk |
| `Day19.JoinChars` | day19/src/lib.rs:98 | the chunks of the empty pattern joined give back the text |
| `Day19.PiecesRejoin` | day19/src/lib.rs:98 | the chunks joined by the pattern give back the input |
| `Day19.Outputs` | day19/src/lib.rs:109-140 | a transformer yields one molecule per occurrence of `from` in the input |
| `Day19.JoinSnoc` | day19/src/lib.rs:128-138 | one more chunk adds the filler and the chunk at the end |
| `Day19.BuiltPlain` | day19/src/lib.rs:128-138 | before the replaced occurrence the chunks are joined by `from` |
| `Day19.BuiltReplaced` | day19/src/lib.rs:128-138 | from the replaced occurrence on, `to` stands at it and `from` at the others |
| `Day19.BuiltSameText` | day19/src/lib.rs:131-135 | replacing by the same text makes no difference to which occurrence is replaced |
| `Day19.SubstituteSplits` | day19/src/lib.rs:128-138 | replacing occurrence `k` puts `to` exactly where the input has that occurrence of `from` |
| `Day19.OutputReplacesOne` | day19/src/lib.rs:82-86 | the `k`-th molecule is the input `before + from + after` with that occurrence replaced: `before + to + after` |
| `Day19.SameTextOutputs` | day19/src/lib.rs:109-140 | a replacement by the same text yields the input once per occurrence |
| `Day19.OxygenExample` | day19/src/lib.rs:216 | `O => HH` on `HOH` yields `HHHH` alone |
| `Day19.HydrogenPieces` | day19/src/lib.rs:117-119 | `HOH` split at `H` gives the chunks `""`, `"O"`, `""` |
| `Day19.HydrogenExample` | day19/src/lib.rs:217 | `H => HO` on `HOH` yields `HOOH`, then `HOHO` |
| `Day19.ChemTransformer.constructor` | day19/src/lib.rs:96-103 | the input cut at the occurrences of `from`, with every molecule still to come |
| `Day19.ChemTransformer.Next` | day19/src/lib.rs:109-140 | `next` yields the first molecule still to come and keeps the rest, or `None` once there are none |
| `Day19.Entries` | day19/src/lib.rs:160 | the map's entries in the order its iterator gives the keys |
| `Day19.YieldsMember` | day19/src/lib.rs:194-204 | the molecules of one key are exactly those of its replacements |
| `Day19.YieldsAllMember` | day19/src/lib.rs:184-204 | the molecules of the entries are exactly those of some entry |
| `Day19.EnumerationMember` | day19/src/lib.rs:168-205 | whatever the order of the keys, the enumerator yields exactly the molecules of some replacement of some key |
| `Day19.TransformEnumerator.constructor` | day19/src/lib.rs:152-162 | a fresh enumerator has the whole enumeration to come |
| `Day19.TransformEnumerator.Next` | day19/src/lib.rs:168-205 | `next` yields the first molecule still to come and keeps the rest, or `None` once there are none |
| `Day19.TransformEnumerator.Current` | day19/src/lib.rs:171-180 | the current transformer's next molecule, if any, is the first to come |
| `Day19.TransformEnumerator.Advance` | day19/src/lib.rs:184-204 | with the current transformer spent, the next molecule is the first of those left |
| `Day19.TransformEnumerator.Step` | day19/src/lib.rs:184-203 | taking the next key or the next replacement of the key, or ending, leaves what is to come unchanged |
| `Day19Count.Distinct` | day19/src/countdistinct.rs:11-14 | the set holds exactly the items yielded |
| `Day19Count.DistinctEmpty` | day19/src/countdistinct.rs:11 | nothing yielded, nothing counted |
| `Day19Count.DistinctSnoc` | day19/src/countdistinct.rs:13 | one more item adds itself to the set, and to the count exactly when it was not seen before |
| `Day19Count.DistinctBound` | day19/src/countdistinct.rs:11-15 | there are never more distinct items than items |
| `Day19Count.DistinctAllDifferent` | day19/src/countdistinct.rs:11-15 | when every item differs, each is counted |
| `Day19Count.CountDistinct` | day19/src/countdistinct.rs:5-16 | `count_distinct` runs the enumerator to the end and answers how many different molecules it yielded |
| `Day19Count.Taken` | day19/src/countdistinct.rs:12-13 | one more item taken moves from what is left to what is seen |
| `Day19Count.CountAnyOrder` | day19/src/countdistinct.rs:5-16 | the count does not depend on the order in which the map gives its keys |
| `Day19Count.CountedMolecules` | day19/src/countdistinct.rs:5-16 | the molecules counted are exactly those some replacement makes |
| `Day20Primes.PrimesBetween` | day20/src/lib.rs:125-144 | the primes above `a` and at most `b`, each one prime and in that range |
| `Day20Primes.PrimesBetweenMember` | day20/src/lib.rs:125-144 | a number is listed exactly when it is a prime in the range |
| `Day20Primes.PrimesBetweenAscending` | day20/src/lib.rs:131-142 | the primes are listed in ascending order |
| `Day20Primes.PrimesBetweenSplit` | day20/src/lib.rs:131-143 | the primes of two adjoining ranges, one after the other, are those of the whole range |
| `Day20Primes.SmallPrime` | day20/src/lib.rs:55 | below 49 a number with no factor 2, 3 or 5 other than itself is prime |
| `Day20Primes.Composite` | day20/src/lib.rs:134-136 | a number with a proper divisor is not prime |
| `Day20Primes.InitialPrimes` | day20/src/lib.rs:55-56 | the primes up to 47 are exactly the fifteen a new sieve starts with |
| `Day20Primes.MidPrime` | day20/src/lib.rs:131-142 | below 169 a number with no factor up to 11 other than itself is prime |
| `Day20Primes.PrimesToOneFifty` | day20/src/lib.rs:197-203 | the primes up to 150 are exactly the thirty-five the sieve test expects |
| `Day20Primes.LeastDivisor` | day20/src/lib.rs:133-137 | the least divisor of `t` from `k` on divides `t`, and nothing between `k` and it does |
| `Day20Primes.LeastPrimeFactor` | day20/src/lib.rs:133 | a number that is not prime has a prime factor whose square is at most the number |
| `Day20Primes.LeastDivisorPrime` | day20/src/lib.rs:133-137 | the least divisor above 1 is prime |
| `Day20Primes.TrialDivision` | day20/src/lib.rs:132-139 | with the primes below `t` listed, trial division by those whose square is at most `t` finds `t` prime exactly when it is |
| `Day20Primes.ListedDivisor` | day20/src/lib.rs:134-136 | a listed prime whose square is at most `t` and that divides it shows `t` is not prime |
| `Day20Primes.NoListedDivisor` | day20/src/lib.rs:133-141 | when no listed prime before the first whose square exceeds `t` divides it, `t` is prime |
| `Day20Primes.PrimeWithoutSmallFactor` | day20/src/lib.rs:133 | a number with no prime factor whose square is at most the number is prime |
| `Day20.ISqrt` | day20/src/lib.rs:41-44 | the floor of the square root: its square is at most `n` and its successor's exceeds it |
| `Day20.BelowRoot` | day20/src/lib.rs:66-73 | a number's square is at most `n` exactly when the number is at most the square root |
| `Day20.RootUnique` | day20/src/lib.rs:41-44 | only one number is the floor of the square root |
| `Day20.TakeSquares` | day20/src/lib.rs:73 | `take_while(p * p <= num)`: the leading primes whose square is at most `num`, stopping at the first that is not |
| `Day20.Dividing` | day20/src/lib.rs:74 | `filter(num % p == 0)`: exactly the listed numbers dividing `num` |
| `Day20.DividingAscending` | day20/src/lib.rs:74 | filtering keeps an ascending list ascending |
| `Day20.TakeSquaresSieve` | day20/src/lib.rs:66-73 | with the primes listed through at least the square root, the leading ones kept are the primes up to the square root |
| `Day20.PrimeFactorsOf` | day20/src/lib.rs:62-79 | `prime_factors` lists only primes |
| `Day20.PrimeFactorsMember` | day20/src/lib.rs:62-79 | it lists exactly the primes whose square is at most `num` and that divide it; none for 0 and 1 |
| `Day20.PrimeFactorsAscending` | day20/src/lib.rs:71-76 | it lists them in ascending order, each once |
| `Day20.Strip` | day20/src/lib.rs:91-94 | dividing by `p` while it divides leaves a quotient `p` does not divide |
| `Day20.StripSound` | day20/src/lib.rs:91-94 | the copies of `p` collected times the quotient left is the number |
| `Day20.Expand` | day20/src/lib.rs:90-95 | what is left after dividing by each listed prime is positive |
| `Day20.ExpandSound` | day20/src/lib.rs:90-95 | what is collected times what is left is the number, everything collected is a listed prime, and none of them divides what is left |
| `Day20.ExpandDivides` | day20/src/lib.rs:90-95 | what is left divides the number |
| `Day20.FactorizePrimeSound` | day20/src/lib.rs:82-99 | the factors `factorize_prime` returns times the leftover is the number, and each is a prime whose square is at most the number |
| `Day20.LeftoverPrime` | day20/src/lib.rs:90-96 | the leftover it drops is 1 or the single prime factor above the square root |
| `Day20.Sieve.constructor` | day20/src/lib.rs:53-58 | a new sieve lists the primes up to 47 and is through 47 |
| `Day20.Sieve.CalcThrough` | day20/src/lib.rs:126-144 | nothing changes for a bound already reached; otherwise the primes above the old bound up to `num` are appended in order and `num` becomes the bound |
| `Day20.Sieve.PrimeFactors` | day20/src/lib.rs:62-79 | the sieve first reaches the square root, then answers the prime factors |
| `Day20.Sieve.FactorizePrime` | day20/src/lib.rs:82-99 | `[]` for 0, `[1]` for 1, otherwise each listed prime factor as often as it divides |
| `Day20.Sieve.Factorize` | day20/src/lib.rs:102-123 | the sorted factor set: prime factors, prefix products of every ordering, 1, and the complement of each |
| `Day20.DivideAll` | day20/src/lib.rs:90-95 | the outer loop collects what `Expand` does |
| `Day20.DivideOut` | day20/src/lib.rs:91-94 | the inner loop collects `p` as often as it divides and leaves the quotient |
| `Day20.Collected` | day20/src/lib.rs:103-114 | what is collected before the complements is all positive |
| `Day20.ProductPerm` | day20/src/lib.rs:108 | rearranging factors keeps their product |
| `Day20.PrefixDivides` | day20/src/lib.rs:108-111 | a prefix product of any ordering divides the number |
| `Day20.ComplementDivides` | day20/src/lib.rs:115-118 | the complement of a divisor is a divisor |
| `Day20.FactorSetDivides` | day20/src/lib.rs:102-123 | for a positive number everything `factorize` lists divides it, and 1 and the number are among them |
| `Day20.Ascending` | day20/src/lib.rs:120-122 | `sort` of a set's elements: ascending and holding exactly the set |
| `Day20.Least` | day20/src/lib.rs:121 | a non-empty set has a least element |
| `Day20.SumAscending` | day20/src/lib.rs:148-150 | summing an ascending list of numbers is summing the set of them |
| `Day20.FactorSetBelow` | day20/src/lib.rs:102-123 | everything `factorize` lists for a house is at most one above the house |
| `Day20.PresentsAt` | day20/src/lib.rs:147-151 | `presents_at` is ten times the sum of the set `factorize` lists |
| `Day20.SumListed` | day20/src/lib.rs:148-150 | summing an ascending listing of a set is summing the set |
| `Day20.HousePrime` | day20/src/lib.rs:147-151 | a prime's factors are 1 and itself, so its house gets ten times one more than it |
| `Day20.HouseOne` | day20/src/lib.rs:209 | house 1 gets 10 presents |
| `Day20.FactorizedFour` | day20/src/lib.rs:82-99 | 4 is factored as `[2, 2]` |
| `Day20.HouseFour` | day20/src/lib.rs:209 | 4's factors are 1, 2 and 4: 70 presents |
| `Day20.FactorizedSix` | day20/src/lib.rs:82-99 | 6 is factored as `[2]`, with 3 left over and dropped |
| `Day20.HouseSix` | day20/src/lib.rs:209 | the complements restore 3 and 6: 120 presents |
| `Day20.FactorizedEight` | day20/src/lib.rs:82-99 | 8 is factored as `[2, 2, 2]` |
| `Day20.HouseEight` | day20/src/lib.rs:209 | the prefix product 4 and the complements make 1, 2, 4 and 8: 150 presents |
| `Day20.FactorizedNine` | day20/src/lib.rs:82-99 | 9 is factored as `[3, 3]` |
| `Day20.HouseNine` | day20/src/lib.rs:209 | 9's factors are 1, 3 and 9: 130 presents |
| `Day20.FactorizedTwentyEight` | day20/src/lib.rs:82-99 | 28 is factored as `[2, 2]`: the prime 7 is dropped |
| `Day20.FactorizedFrom` | day20/src/lib.rs:82-99 | a number with one prime factor below its square root is factored as that prime as often as it divides |
| `Day20.HouseTwentyEight` | day20/src/lib.rs:102-123 | 28's factor set is only 1, 2, 14 and 28: 4 and 7 are missing, 450 presents |
| `Day20.NoPrefixProducts` | day20/src/lib.rs:109 | fewer than three prime factors give no prefix product |
| `Day20.ThreeAlike` | day20/src/lib.rs:108-111 | three equal factors give the square as their one prefix product |
| `Day20Divisors.Euclid` | day20/src/lib.rs:101-123 | a prime dividing a product divides one of its two factors |
| `Day20Divisors.CoprimeDivides` | day20/src/lib.rs:101-123 | a divisor of `p * x` that `p` does not divide, for a prime `p`, divides `x` |
| `Day20Divisors.DivisorSplit` | day20/src/lib.rs:101-123 | every divisor of a product of primes is the product of some of them, the rest being a rearrangement of the others |
| `Day20Divisors.ListedPrefix` | day20/src/lib.rs:103-114 | the product of the leading primes of any ordering of `factorize_prime`'s result is among the listed factors |
| `Day20Divisors.FactorSetComplete` | day20/src/lib.rs:101-123 | when `factorize_prime` leaves nothing over, every divisor of `num` is among the factors `factorize` lists |
| `Day20Divisors.FactorSetExactly` | day20/src/lib.rs:101-123 | in that case `factorize` lists exactly the divisors of `num`, as its comment promises |
| `Day20Divisors.PrimeDividesProduct` | day20/src/lib.rs:82-99 | a prime dividing a product of primes is one of them |
| `Day20Divisors.NothingLeftOver` | day20/src/lib.rs:82-99 | a number that is a product of primes `prime_factors` all lists leaves nothing over in `factorize_prime` |
| `Day20Divisors.LeftoverThreeSixty` | day20/src/lib.rs:82-99 | 360 leaves nothing over |
| `Day20Divisors.ListedThreeSixty` | day20/src/lib.rs:62-79 | `prime_factors(360)` lists 2, 3 and 5 |
| `Day20Divisors.FactorizeThreeSixty` | day20/src/lib.rs:218-224 | `factorize(360)` is exactly the divisors of 360: the 24 numbers the test expects are all there, and 7, 16, 25 and 27 are not |
| `Day20Kept.FactorizePrimeKeptSound` | day20/src/lib.rs:82-99 | with the prime left over after trial division kept, the factors are primes whose product is the number |
| `Day20Kept.CollectedKeptDivides` | day20/src/lib.rs:101-114 | everything the corrected `factorize` collects is a positive divisor of the number |
| `Day20Kept.DivisorKept` | day20/src/lib.rs:101-123 | every divisor of the number is among the factors the corrected `factorize` lists |
| `Day20Kept.FactorSetKeptExactly` | day20/src/lib.rs:101-123 | with the leftover prime kept, `factorize` lists exactly the divisors of every positive number, as its doc comment promises |
| `Day20Kept.PresentsKept` | day20/src/lib.rs:147-151 | with the leftover prime kept, `presents_at` gives every house the presents the elves deliver |
| `Day20Kept.HouseTwentyEightKept` | day20/src/lib.rs:147-151 | house 28 then gets 560 presents, not 450 |
| `Day20Houses.StopStep` | day20/src/lib.rs:160 | one more stop adds exactly the next multiple of the elf |
| `Day20Houses.StopsDone` | day20/src/lib.rs:160 | once an elf has walked past the end of the street, or used its stops, the stops it made are all it makes there |
| `Day20Houses.Deliver` | day20/src/lib.rs:158-163 | after every elf has been round, each house holds every present it gets |
| `Day20Houses.Walk` | day20/src/lib.rs:160-162 | one elf adds its presents at each of its stops in the street and nowhere else |
| `Day20Houses.FirstHouse` | day20/src/lib.rs:153-170 | deliver to the houses below `n / 10 + 1`, then the first that gets at least `n`, or 0 |
| `Day20Houses.FirstHouseWithPresents` | day20/src/lib.rs:153-170 | the plain variant: ten presents per elf number, every multiple visited |
| `Day20Houses.FirstHouseWithPresentsLimited` | day20/src/lib.rs:172-189 | the lazy variant: eleven per elf number, only the first 50 multiples |
| `Day20Houses.GiftsSettle` | day20/src/lib.rs:159 | elves numbered above a house leave nothing there |
| `Day20Houses.GiftsMono` | day20/src/lib.rs:159-163 | more elves never give a house less |
| `Day20Houses.Divisors` | day20/src/lib.rs:160 | the divisors of a house are between 1 and the house |
| `Day20Houses.StopsIsDivisor` | day20/src/lib.rs:160 | an unlimited elf stops at a house exactly when its number divides the house |
| `Day20Houses.PresentsAreDivisorSums` | day20/src/lib.rs:153-163 | the plain elves give each house ten times the sum of its divisors |
| `Day20Houses.FirstReachingIsFirst` | day20/src/lib.rs:164-169 | the house found is the first in range to reach the target, and 0 when none does |
| `Day20Houses.FirstHouseMeaning` | day20/src/lib.rs:153-170 | the answer is at most `n / 10`, no earlier house reaches `n`, it reaches `n` when some house up to `n / 10` does, and it is 0 when none does |
| `Day20Houses.HouseTenthSuffices` | day20/src/lib.rs:156-157 | from 20 presents on, house `n / 10` does get `n` |
| `Day20Houses.FirstHouseFound` | day20/src/lib.rs:153-189 | from 20 presents on, both variants answer a real house, no further out than `n / 10`, that gets `n` |
| `Day20Houses.SmallTargetsMissed` | day20/src/lib.rs:155-169 | for targets 1 to 19 other than 10 only house 1 is looked at, so the answer is 0 |
| `Day20Houses.FirstNineHouses` | day20/src/lib.rs:209 | the first nine houses get 10, 30, 40, 70, 60, 120, 80, 150 and 130 presents |
| `Day20Houses.FirstHouseExamples` | day20/src/lib.rs:228-230 | 25, 50, 100 and 150 presents are first reached at houses 2, 4, 6 and 8 |
| `Day20Houses.HouseTwentyEightDelivered` | day20/src/lib.rs:158-163 | house 28 gets 560 presents from the elves |
| `Day20Houses.HouseTwentyEightDisagrees` | day20/src/lib.rs:147-151 | where `presents_at` finds only 450 |
| `Day21.Hit` | day21/src/lib.rs:178-181 | a strike exists exactly when the attacker's damage is at least the defender's armor (otherwise the `u32` subtraction underflows); it is at least 1 and equals `damage - armor` when that is positive |
| `Day21.Fight` | day21/src/lib.rs:172-192 | a first strike that underflows ends the fight in an underflow; the winner is one of the two fighters, unchanged but for hit points, which never grow |
| `Day21.Combat` | day21/src/lib.rs:172-192 | the strike-and-swap loop returns the outcome of the fight specification `Fight` |
| `Day21.FightPredicted` | day21/src/lib.rs:172-192 | the simulated fight equals the closed form: whoever needs no more strikes than the other, striking first, wins when the last strike lands exactly on 0, with the hit points the other's strikes left it |
| `Day21.LastStrike` | day21/src/lib.rs:183-185 | a strike taking all the hit points left or more ends the fight as the closed form says (a win on exactly 0, an underflow above it) |
| `Day21.LaterStrike` | day21/src/lib.rs:183-190 | a strike leaving hit points over hands the fight to the other side with one strike fewer to go, as the closed form predicts |
| `Day21.ArmorUnderflow` | day21/src/lib.rs:178 | a first striker whose damage is below the defender's armor ends the fight in an underflow |
| `Day21.ExampleFight` | day21/src/lib.rs:199-215 | the player with 8 hit points, 5 damage and 5 armor beats the boss with 12, 7 and 2, left with 2 hit points |
| `Day21Character.DefaultType` | day21/src/character.rs:9-13 | the default character type is the boss |
| `Day21Character.TheBoss` | day21/src/lib.rs:153-160 | the boss has 104 hit points, 8 damage and 1 armor |
| `Day21Character.PlayerOf` | day21/src/character.rs:25-34 | a loadout's player has 100 hit points and the damage and armor summed over the weapon and the worn items |
| `Day21Character.After` | day21/src/character.rs:15-16 | the text after a label is found exactly when the line starts with the label, and label plus rest is the line |
| `Day21Character.Field` | day21/src/character.rs:15-22 | a parsed field fits in 32 bits |
| `Day21Character.ParseCharacter` | day21/src/character.rs:15-22 | a parsed character takes the default type and has 32-bit fields |
| `Day21Character.DisplayLines` | day21/src/character.rs:16 | the display is the three labelled lines, each ended by a newline |
| `Day21Character.FieldBack` | day21/src/character.rs:16-22 | a label followed by a 32-bit number parses back to that number |
| `Day21Character.ParseDisplay` | day21/src/character.rs:15-23 | parsing a character's display gives the character back, with the default type |
| `Day21Items.Bare` | day21/src/items.rs:17-26 | a bare item of a type has no name, cost, damage or armor |
| `Day21Items.WeaponItem` | day21/src/items.rs:28-35 | a weapon has the given name, cost and damage and no armor |
| `Day21Items.ArmorItem` | day21/src/items.rs:37-44 | an armor has the given name, cost and armor and no damage |
| `Day21Items.RingItem` | day21/src/items.rs:46-54 | a ring has the given name, cost, damage and armor |
| `Day21Items.ShopLayout` | day21/src/items.rs:57-79 | the shop has 16 items: five weapons starting with the Dagger, five armors, six rings |
| `Day21Loadout.NewLoadout` | day21/src/loadout.rs:12-34 | a loadout is built exactly when the weapon is a weapon, the armor an armor and both rings rings, and then holds the items given |
| `Day21Loadout.Present` | day21/src/loadout.rs:40-43 | keeping the worn slots keeps exactly the items that are present, never more entries than slots |
| `Day21Loadout.AsVec` | day21/src/lib.rs:115-122 | the worn items start with the weapon and are exactly the weapon and the present slots, one to four of them |
| `Day21Loadout.SumPresent` | day21/src/loadout.rs:40-43 | summing over the present items is summing over the slots with empty ones counting 0 |
| `Day21Loadout.EquippedSumBy` | day21/src/loadout.rs:36-44 | the sum is the weapon's value plus each worn slot's |
| `Day21Loadout.SlotSumFour` | day21/src/loadout.rs:36-38 | the sum over the four slots splits into the four slot values |
| `Day21Loadout.StatsAgree` | day21/src/loadout.rs:46-56 | cost, damage and armor are the sums over the worn items, and are the weapon's own when nothing else is worn |
| `Day21Generator.OfType` | day21/src/loadout_generator.rs:45-51 | the items of one kind are never more than the stock |
| `Day21Generator.OfTypeMembers` | day21/src/loadout_generator.rs:45-51 | the items of one kind are exactly the stock's items of that kind |
| `Day21Generator.PartitionSizes` | day21/src/loadout_generator.rs:45-51 | the three kinds together are exactly as many as the stock: nothing is lost or invented |
| `Day21Generator.Partition` | day21/src/loadout_generator.rs:41-51 | the push loop leaves each list holding the stock's items of its kind, in order |
| `Day21Generator.ShopSplit` | day21/src/items.rs:57-79 | the shop splits into its first five items as weapons, the next five as armors and the last six as rings |
| `Day21Generator.OfTypeRun` | day21/src/loadout_generator.rs:45-51 | when one kind sits in one run of the stock, the items of that kind in a prefix are the part of the run inside it |
| `Day21Generator.Pos` | day21/src/loadout_generator.rs:7-24 | a wheel's position is 0 exactly when it points at nothing |
| `Day21Generator.FromPos` | day21/src/loadout_generator.rs:7-24 | the wheel at a position is at that position |
| `Day21Generator.BumpCases` | day21/src/loadout_generator.rs:8-22 | nothing becomes the first item when there is one; an item becomes the next one, or nothing after the last |
| `Day21Generator.BumpPos` | day21/src/loadout_generator.rs:7-24 | a wheel below its last position moves up one; at its last position it wraps to nothing |
| `Day21Generator.IncrementItem` | day21/src/loadout_generator.rs:7-24 | the result is true exactly when the wheel now points at nothing; the wheel moves as `Bump` says and stays within the collection |
| `Day21Generator.RankBound` | day21/src/loadout_generator.rs:112-145 | a reading of the wheels within range is below the number of readings |
| `Day21Generator.SkipShape` | day21/src/loadout_generator.rs:126-142 | a skip happens only as the right ring wraps, and leaves the left ring on the last ring and nothing on the right |
| `Day21Generator.TurnInRange` | day21/src/loadout_generator.rs:112-145 | turning the wheels keeps each within its collection |
| `Day21Generator.AdvanceInRange` | day21/src/loadout_generator.rs:100-147 | a step of `next` keeps every wheel within its collection |
| `Day21Generator.OdometerStep` | day21/src/loadout_generator.rs:112-118 | turning the weapon, the armor or the right ring moves the odometer on by exactly one reading |
| `Day21Generator.RingCarry` | day21/src/loadout_generator.rs:119-131 | when the right ring wraps and the left ring moves on, the odometer jumps ahead of where it was |
| `Day21Generator.AdvanceProgresses` | day21/src/loadout_generator.rs:100-147 | each loadout that comes out is further on than the one before and no further than the number of readings, so the generator stops |
| `Day21Generator.AdvanceEnds` | day21/src/loadout_generator.rs:117-125 | the generator stops exactly when every wheel is at its last position, and then stands at its start having yielded |
| `Day21Generator.FirstStep` | day21/src/loadout_generator.rs:106-109 | the first call yields the first weapon alone |
| `Day21Generator.LastRingSkipped` | day21/src/loadout_generator.rs:128-141 | with two weapons and two rings or more, the reading with the last ring on the left and nothing on the right is skipped |
| `Day21Generator.SameRingTwice` | day21/src/loadout_generator.rs:119-131 | after that skip the right ring restarts below the left one and reaches the last ring on both hands |
| `Day21Generator.LoadoutGenerator.New` | day21/src/loadout_generator.rs:40-67 | the stock is split by kind in order, the wheels stand at the start and the initial loadout is the first weapon alone |
| `Day21Generator.LoadoutGenerator.AsLoadout` | day21/src/loadout_generator.rs:69-76 | the loadout holds the items the wheels point at, each in the slot of its kind |
| `Day21Generator.LoadoutGenerator.IncrementArmor` | day21/src/loadout_generator.rs:79-81 | the armor wheel turns as `Bump` says; true exactly when it now points at nothing |
| `Day21Generator.LoadoutGenerator.IncrementRingR` | day21/src/loadout_generator.rs:84-86 | the right ring wheel turns as `Bump` says; true exactly when it now points at nothing |
| `Day21Generator.LoadoutGenerator.IncrementRingL` | day21/src/loadout_generator.rs:89-91 | the left ring wheel turns as `Bump` says; true exactly when it now points at nothing |
| `Day21Generator.LoadoutGenerator.TurnWheels` | day21/src/loadout_generator.rs:112-145 | the wheels end where the odometer step `Turn` puts them |
| `Day21Generator.LoadoutGenerator.Next` | day21/src/loadout_generator.rs:100-147 | the wheels take the odometer step `Advance`; a yielded loadout is the one they then point at; the collections and the initial loadout do not change |
| `Day22Character.TheBoss` | day22/src/lib.rs:160-169 | the boss has 55 hit points, 8 damage, no armor and no mana |
| `Day22Character.ThePlayer` | day22/src/lib.rs:171-179 | the wizard has 50 hit points, no damage or armor and 500 mana |
| `Day22Character.SatSub` | day22/src/effects/magic_missile.rs:37 | the subtraction that stops at 0: never above `x`, exact when `k <= x`, 0 otherwise |
| `Day22Character.SatSubTwice` | day22/src/effects/poison.rs:35 | two saturating subtractions are one of their sum |
| `Day22Effects.ImplOf` | day22/src/effects/drain.rs:18-27 | each spell's starting record: its kind, name, cost (53, 73, 113, 173, 229) and time (0, 0, 6, 6, 5) |
| `Day22Effects.NewSpell` | day22/src/effects/shield.rs:18-27 | a new spell of a kind carries that kind's starting record |
| `Day22Effects.FromEi` | day22/src/effects/drain.rs:29-31 | wrapping a record as a spell and taking it back out gives the record |
| `Day22Effects.ToImpl` | day22/src/effects/drain.rs:45-47 | wrapping a spell's record again as its kind gives the spell |
| `Day22Effects.Casting` | day22/src/effects/drain.rs:35-39 | casting takes exactly the cost in mana, never lowers the wizard's hit points or armor, and only lowers the boss's hit points |
| `Day22Effects.OnCast` | day22/src/effects/shield.rs:35-38 | the cast updates the two characters as `Casting` says |
| `Day22Effects.CastEffects` | day22/src/effects/magic_missile.rs:35-38 | magic missile deals 4, drain deals 2 and heals 2, shield adds 7 armor, and poison and recharge only pay their cost |
| `Day22Effects.Ticking` | day22/src/effects/poison.rs:33-36 | a lasting spell's time drops by one and only the wizard's armor and mana and the boss's hit points can change; instant spells do nothing |
| `Day22Effects.PerTurn` | day22/src/effects/recharge.rs:39-42 | the tick updates the spell and the two characters as `Ticking` says |
| `Day22Effects.TickEffects` | day22/src/effects/shield.rs:40-45 | a shield gives back its 7 armor when its time runs out, poison deals 3, recharge gives 101 mana |
| `Day22Effects.WearOffLine` | day22/src/effects/shield.rs:47-53 | every lasting spell has a non-empty wear-off line |
| `Day22Effects.PerTurnStr` | day22/src/effects/poison.rs:38-44 | the text starts with the timer line and goes on with the wear-off line exactly when the time has run out |
| `Day22.DefaultArena` | day22/src/lib.rs:191-201 | the default arena is the wizard's turn, the puzzle's characters, no effects and nothing spent |
| `Day22.Other` | day22/src/lib.rs:214-217 | the other side is never the same side |
| `Day22.Flipped` | day22/src/lib.rs:212-219 | the future arena differs only in whose turn it is, which changes |
| `Day22.FlippedTwice` | day22/src/lib.rs:212-219 | passing the turn twice gives the arena back |
| `Day22.Cast` | day22/src/lib.rs:221-233 | a spell can be attempted exactly when the wizard has its cost in mana |
| `Day22.CastAccounting` | day22/src/lib.rs:221-233 | casting moves the cost from the wizard's mana to the mana spent, passes the turn and stores the spell's record when it lasts |
| `Day22.SpellOrder` | day22/src/lib.rs:282-306 | the wizard tries five spells, each a new one of its kind |
| `Day22.Casts` | day22/src/lib.rs:281-306 | there are never more futures than spells tried |
| `Day22.CastsNext` | day22/src/lib.rs:283-286 | trying one more spell adds its future, if it has one, at the end |
| `Day22.CastsEmpty` | day22/src/lib.rs:307-310 | no future comes out exactly when no spell tried is affordable |
| `Day22.CastsStored` | day22/src/lib.rs:226-228 | the futures of new spells store only records as casting stores them |
| `Day22.NoSpellAffordable` | day22/src/lib.rs:307-310 | the wizard has no future exactly when the cheapest spell, magic missile at 53, is out of reach |
| `Day22.ApplyEffects` | day22/src/lib.rs:244-255 | the effects in play acting once each: each poison deals 3, each recharge gives 101 mana, and armor and hit points are untouched |
| `Day22.Live` | day22/src/lib.rs:257 | keeping the records with time left never adds records |
| `Day22.LiveMembers` | day22/src/lib.rs:257 | exactly the records with time left are kept |
| `Day22.NothingExpires` | day22/src/lib.rs:244-257 | stored records all keep their time, so none is ever dropped |
| `Day22.AfterEffects` | day22/src/lib.rs:243-257 | letting the effects act keeps the turn and the mana spent |
| `Day22.BossDamage` | day22/src/lib.rs:262 | the boss deals its damage less the wizard's armor when that is positive, and 1 otherwise |
| `Day22.TurnOutcomes` | day22/src/lib.rs:242-316 | on the boss's turn the wizard wins when the boss is down, loses when the strike takes all its hit points, and otherwise loses the strike's hit points with the wizard's turn next; on the wizard's turn a wizard at 0 or short of 53 mana loses, otherwise the futures are those of the affordable spells |
| `Day22.EffectsPersist` | day22/src/lib.rs:244-257 | a turn leaves the stored records and the wizard's armor as they were, and the futures store only records as casting stores them |
| `Day22.Arena.Default` | day22/src/lib.rs:191-201 | the new arena is the default arena |
| `Day22.Arena.New` | day22/src/lib.rs:204-210 | the new arena is the default one with the given characters |
| `Day22.Arena.Future` | day22/src/lib.rs:212-219 | a fresh copy with the turn passed over |
| `Day22.Arena.AttemptSpell` | day22/src/lib.rs:221-233 | no arena exactly when the spell is too dear; otherwise a fresh arena holding the cast |
| `Day22.Arena.ApplyAll` | day22/src/lib.rs:244-255 | the characters end as `ApplyEffects` says |
| `Day22.Arena.Futures` | day22/src/lib.rs:281-306 | fresh arenas, one per affordable spell, in the order the spells are tried |
| `Day22.Arena.Turn` | day22/src/lib.rs:242-316 | the arena and the result are those of the turn specification `Taken` |
| `Day22.Arena.BossTurn` | day22/src/lib.rs:260-277 | the boss's half of the turn ends as the specification `Act` says |
| `Day22.Arena.WizardTurn` | day22/src/lib.rs:278-314 | the wizard's half of the turn changes nothing and returns what `Act` says |
| `Day22.States` | day22/src/lib.rs:267 | one state per arena |
| `Day22.StatesSnoc` | day22/src/lib.rs:285 | the states of a list with one arena more end with that arena's state |
| `Day23.Slot` | day23/src/lib.rs:43-50 | each register has its own slot of the two, `a` the first |
| `Day23.Set` | day23/src/lib.rs:92-106 | writing a register sets that register alone and leaves the pointer |
| `Day23.Start` | day23/src/lib.rs:76-84 | the computer starts with both registers and the pointer at 0 |
| `Day23.Exec` | day23/src/lib.rs:91-130 | an instruction changes only the register it names, jumps change no register, and the pointer moves on by one or by the jump's offset |
| `Day23.ExecFrame` | day23/src/lib.rs:92-130 | each instruction changes only the register it names, or none |
| `Day23.ExecArithmetic` | day23/src/lib.rs:92-107 | `hlf` halves rounding down, `tpl` triples and `inc` adds 1 to the named register, each moving on by one |
| `Day23.ExecJumps` | day23/src/lib.rs:110-130 | `jmp` always jumps; `jie` jumps exactly on an even register and `jio` exactly on a register holding 1, otherwise moving on by one |
| `Day23.Steps` | day23/src/lib.rs:132-143 | steps of a halted machine leave it as it is |
| `Day23.StepsAdd` | day23/src/lib.rs:132-143 | running `i` steps and then `j` more is running `i + j` |
| `Day23.HaltedStays` | day23/src/lib.rs:133 | once the pointer is outside the program, further steps change nothing |
| `Day23.HaltUnique` | day23/src/lib.rs:132-143 | any two step counts that reach a halt end in the same machine |
| `Day23.JumpToSelf` | day23/src/lib.rs:21-22 | a pointer resting on `jmp +0` never moves and nothing else changes |
| `Day23.ExampleRun` | day23/src/lib.rs:26-34 | the example program halts after three steps with `a` at 2, having skipped the `tpl` |
| `Day23.CPU.constructor` | day23/src/lib.rs:76-84 | both registers at 0, no program, pointer at 0 |
| `Day23.CPU.Get` | day23/src/lib.rs:87-89 | the register's value |
| `Day23.CPU.Hlf` | day23/src/lib.rs:92-95 | the machine takes the `hlf` step |
| `Day23.CPU.Tpl` | day23/src/lib.rs:98-101 | the machine takes the `tpl` step |
| `Day23.CPU.Inc` | day23/src/lib.rs:104-107 | the machine takes the `inc` step |
| `Day23.CPU.Jmp` | day23/src/lib.rs:110-112 | the machine takes the `jmp` step |
| `Day23.CPU.Jie` | day23/src/lib.rs:115-121 | the machine takes the `jie` step |
| `Day23.CPU.Jio` | day23/src/lib.rs:124-130 | the machine takes the `jio` step |
| `Day23.CPU.Run` | day23/src/lib.rs:132-143 | for a program that halts within `n` steps, the loop ends halted where those steps take it |
| `Day23.CPU.Reset` | day23/src/lib.rs:145-148 | pointer and registers back to 0, the program kept |
| `Day23.CPU.Load` | day23/src/lib.rs:150-153 | the new program, from the starting machine |
| `Day24.ExampleSleighs` | day24/src/lib.rs:238-261 | the two example sleighs weigh 20 in each group, with footwell entanglements 99 and 90 |
| `Day24.SubtractPicks` | day24/src/lib.rs:173-186 | what `list_set_subtract` leaves is picked, in order, from the minuend |
| `Day24.PicksTail` | day24/src/lib.rs:173-186 | a pick starting at the front leaves a pick without its first item |
| `Day24.SubtractParts` | day24/src/lib.rs:172-186 | when the subtrahend is picked from the minuend, what is left and what was taken out make up the minuend, as a multiset and by weight |
| `Day24.PicksBound` | day24/src/lib.rs:172 | anything picked from a list is bounded below by what bounds the list |
| `Day24.PicksAscending` | day24/src/lib.rs:172 | anything picked from an ascending list is ascending |
| `Day24.WithinPicks` | day24/src/lib.rs:172 | picking from the end and picking from the front are the same |
| `Day24.ListSetSubtract` | day24/src/lib.rs:173-186 | the peeking loop returns the subtraction specification `Subtract` |
| `Day24.TakeSubset` | day24/src/lib.rs:197-200 | taking a subset of the side weight out of an ascending list leaves an ascending list lighter by the side weight, and the two make up the list |
| `Day24.Arrange` | day24/src/lib.rs:191-231 | the sleigh built around a footwell: the left saddle the first subset of what is left with the side weight, then the right saddle (the first subset of the rest with the trunk, the rest without), or `None` when a subset is missing; `Day24.ArrangeBalanced` states it balanced |
| `Day24.ArrangeBalanced` | day24/src/lib.rs:191-231 | every sleigh built around a footwell candidate has each group at the side weight and shares out exactly the packages |
| `Day24.ShareOut` | day24/src/lib.rs:200-222 | the groups share out the packages when each one taken out leaves the rest |
| `Day24.FeetFitNext` | day24/src/lib.rs:192-196 | the footwell candidates left once one is taken still fit |
| `Day24.Sleighs` | day24/src/lib.rs:188-232 | the sleighs the iterator yields, one per footwell candidate, until the first candidate that cannot be arranged; `Day24.SleighsBalanced` states each one balanced |
| `Day24.SleighsBalanced` | day24/src/lib.rs:188-232 | every sleigh the iterator yields is balanced |
| `Day24.BestFromFirstMinimum` | day24/src/lib.rs:159-166 | the sleigh the loop keeps is one of those seen, none beats it, and it beats every one before it |
| `Day24.FirstBestCons` | day24/src/lib.rs:160-165 | one comparison step of the loop keeps the first best of all the sleighs |
| `Day24.BestSleigh` | day24/src/lib.rs:147-169 | the sleigh `best` returns: `None` when `new` refuses the packages, otherwise the first of the best of the yielded sleighs; `Day24.BestSleighBalanced` and `Day24.BestOfFirstMinimum` state what it is |
| `Day24.BestSleighBalanced` | day24/src/lib.rs:139-169 | the sleigh `best` returns has each group at the side weight and holds exactly the packages |
| `Day24.BestOfFirstMinimum` | day24/src/lib.rs:139-169 | no yielded sleigh has fewer footwell packages, or as many with a smaller entanglement, and every earlier one is worse: the first of the best |
| `Day24.SortedTotal` | day24/src/lib.rs:113-137 | once `new` accepts, the sorted packages are an ascending reordering weighing exactly the groups' total |
| `Day24.SumSorted` | day24/src/lib.rs:122 | sorting does not change the total weight |
| `Day24.RefusedSorted` | day24/src/lib.rs:124-129 | testing the last sorted package against the side weight is testing every package |
| `Day24.LastIsBiggest` | day24/src/lib.rs:124 | the last of an ascending list exceeds a bound exactly when some element does |
| `Day24.PermutedBound` | day24/src/lib.rs:121-125 | a bound exceeded by some element is exceeded in any reordering |
| `Day24Best.DropLast` | day24/src/summed_subsets.rs:37-45 | a last weight that is 0 or above the target adds no subsets: they are those of the weights before it |
| `Day24Best.TakeLastAlone` | day24/src/summed_subsets.rs:74-78 | a last weight equal to the target is the first subset, on its own |
| `Day24Best.TakeLastWith` | day24/src/summed_subsets.rs:56-88 | a last weight below the target comes first, appended to the first subset of the weights before it that makes up the difference |
| `Day24Best.SkipSuffix` | day24/src/summed_subsets.rs:37-45 | any run of trailing weights that are 0 or above the target adds no subsets |
| `Day24Best.FirstThroughSkips` | day24/src/summed_subsets.rs:37-88 | the first subset ends in the last weight when the weights between it and a prefix are all skipped for the difference and the prefix has a subset making it up |
| `Day24Best.FirstPair` | day24/src/summed_subsets.rs:37-88 | the first subset is the pair of the last weight and the last weight of a prefix when the two make up the target and everything between them is too heavy to join the last one |
| `Day24Best.FirstFootTwenty` | day24/src/lib.rs:263-269 | the first footwell candidate for 1 to 5 and 7 to 11 in three groups of 20 is 9 and 11 |
| `Day24Best.FirstFootFifteen` | day24/src/lib.rs:271-277 | the first footwell candidate for the same weights in four groups of 15 is 4 and 11 |
| `Day24Best.LeftTwenty` | day24/src/lib.rs:200-207 | what is left around the footwell 9, 11 has a left saddle of 20 |
| `Day24Best.LeftFifteen` | day24/src/lib.rs:200-207 | what is left around the footwell 4, 11 has the left saddle 5, 10 |
| `Day24Best.AllOfThree` | day24/src/summed_subsets.rs:56-88 | the first subset of 1, 2, 3 adding up to 6 is all three |
| `Day24Best.RightFifteen` | day24/src/lib.rs:214-221 | what is left after the left saddle 5, 10 has a right saddle of 15 |
| `Day24Best.SubtractAt` | day24/src/lib.rs:172-186 | taking out a package absent from what comes before it keeps that and carries on after it |
| `Day24Best.SubtractTwo` | day24/src/lib.rs:172-186 | taking out two packages, each absent from what comes before it, leaves everything else in order |
| `Day24Best.SideTwenty` | day24/src/lib.rs:199 | subtracting 9, 11 from the example leaves 1, 2, 3, 4, 5, 7, 8, 10 |
| `Day24Best.SideFifteen` | day24/src/lib.rs:199 | subtracting 4, 11 from the example leaves 1, 2, 3, 5, 7, 8, 9, 10 |
| `Day24Best.RestFifteen` | day24/src/lib.rs:216 | subtracting the left saddle 5, 10 leaves 1, 2, 3, 7, 8, 9 |
| `Day24Best.ExampleWeights` | day24/src/lib.rs:113-130 | the example is accepted for three and for four groups: it is ascending, weighs 60, and no package reaches 15 |
| `Day24Best.SumExample` | day24/src/lib.rs:115 | the example weighs 60 |
| `Day24Best.ArrangeThree` | day24/src/lib.rs:191-211 | without the trunk, a footwell candidate gives a sleigh once what is left has a subset of the side weight |
| `Day24Best.ArrangeFour` | day24/src/lib.rs:191-231 | with the trunk, what is left after the left saddle must have such a subset too |
| `Day24Best.ArrangeTwenty` | day24/src/lib.rs:191-231 | the footwell 9, 11 gives a sleigh in three groups |
| `Day24Best.ArrangeFifteen` | day24/src/lib.rs:191-231 | the footwell 4, 11 gives a sleigh in four groups |
| `Day24Best.FirstSleighBounds` | day24/src/lib.rs:147-169 | once the first candidate gives a sleigh, `best` finds one, with no more footwell packages than that candidate, or as many and no more entanglement |
| `Day24Best.SmallFootLight` | day24/src/lib.rs:124-129 | a footwell of at most one package, each package lighter than a group, is lighter than a group |
| `Day24Best.AtLeastTwo` | day24/src/lib.rs:124-129 | a footwell weighing a group's share, drawn from packages each lighter than that, holds at least two |
| `Day24Best.QePair` | day24/src/lib.rs:69-71 | the entanglement of two packages is their product |
| `Day24Best.SumPair` | day24/src/lib.rs:73-75 | the weight of two packages is their sum |
| `Day24Best.BestPair` | day24/src/lib.rs:147-169 | when the first candidate is a pair that gives a sleigh, the best footwell is also two packages of the sleigh that make up a group, no more entangled than the candidate |
| `Day24Best.BestOfPairs` | day24/src/lib.rs:147-169 | when moreover no two packages making up a group are less entangled than the candidate, the best footwell has two packages and exactly the candidate's entanglement |
| `Day24Best.PairsAtLeast` | day24/src/lib.rs:263-277 | two of the example's packages adding up to 20 multiply to at least 99, and two adding up to 15 to at least 44 |
| `Day24Best.BestThreeGroups` | day24/src/lib.rs:263-269 | `best` without the trunk finds a sleigh whose footwell holds two packages with entanglement 99 |
| `Day24Best.BestFourGroups` | day24/src/lib.rs:271-277 | `best` with the trunk finds a sleigh whose footwell holds two packages with entanglement 44 |
| `Day24.SleighConfigurations.Make` | day24/src/lib.rs:131-136 | the iterator holds the packages, side weight and trunk flag given and walks every footwell candidate |
| `Day24.SleighConfigurations.New` | day24/src/lib.rs:113-137 | no iterator exactly when the total does not divide into the groups or a package is heavier than a group; otherwise one over the sorted packages and every footwell candidate |
| `Day24.SleighConfigurations.Build` | day24/src/lib.rs:131-136 | the iterator over the sorted packages at the side weight walks every footwell candidate |
| `Day24.SleighConfigurations.Next` | day24/src/lib.rs:191-231 | the sleigh around the next footwell candidate, or `None` once they run out or a saddle cannot be filled; the yields left lose the one returned |
| `Day24.SleighConfigurations.NextFoot` | day24/src/lib.rs:192-196 | the footwell iterator gives its next candidate and moves past it |
| `Day24.SleighConfigurations.Arrangement` | day24/src/lib.rs:200-230 | the sleigh built around a footwell is the specification `Arrange` |
| `Day24.SleighConfigurations.Best` | day24/src/lib.rs:147-169 | the result is the specification `BestSleigh` |
| `Day24.SleighConfigurations.Pick` | day24/src/lib.rs:154-168 | the first of the best of the yields |
| `Day24.SleighConfigurations.Scan` | day24/src/lib.rs:160-166 | the loop ends with the first of the best of the current sleigh and the yields |
| `Day24.FirstSubset` | day24/src/lib.rs:202 | the first subset of the sorted items with the target weight, if any |
| `Day24Configurator.RankOrder` | day24/src/compartment.rs:1-7 | the derived order puts no compartment first and the compartments in declaration order, and tells different slots apart |
| `Day24Configurator.ConfigureAccepts` | day24/src/configurator.rs:26-47 | a configurator is made exactly when the total splits evenly, there are packages and none is heavier than a group; it holds the same packages largest first, and the groups make up the total |
| `Day24Configurator.SortedHead` | day24/src/configurator.rs:35-37 | the first package sorted largest first is one of the packages and none is larger |
| `Day24Configurator.New` | day24/src/configurator.rs:26-47 | the result is `Configure` of the packages; the array is untouched when the total does not split and sorted largest first otherwise |
| `Day24Configurator.Total` | day24/src/configurator.rs:28 | the total weight of the array |
| `Day24Configurator.SortLargestFirst` | day24/src/configurator.rs:35 | the array ends up holding its packages sorted largest first |
| `Day24Configurator.SortedCopy` | day24/src/configurator.rs:35 | the packages largest first, as many as there are |
| `Day24Configurator.Assigned` | day24/src/packing_list.rs:10-18 | the packages of one compartment are never more than the packages or the slots |
| `Day24Configurator.AssignedWeight` | day24/src/packing_list.rs:10-18 | the packages of one compartment keep their order and weigh what the layout tags with that compartment |
| `Day24Configurator.PicksSkipOne` | day24/src/packing_list.rs:10-18 | a pick from the tail is a pick from the whole |
| `Day24Configurator.Filled` | day24/src/configurator.rs:110-126 | no slot is empty after filling and every slot already holding a compartment keeps it |
| `Day24Configurator.Fill` | day24/src/configurator.rs:111-115 | the array ends up as `Filled` says |
| `Day24Configurator.FilledKeeps` | day24/src/configurator.rs:110-126 | filling leaves what every other compartment weighs unchanged |
| `Day24Configurator.Empty` | day24/src/configurator.rs:63 | a layout of the given length with every slot empty |
| `Day24Configurator.Completions` | day24/src/configurator.rs:66-78 | every completion kept has one slot per package |
| `Day24Configurator.CompletionFrom` | day24/src/configurator.rs:66-78 | every completion is the generator's first layout for one of the partial layouts |
| `Day24Configurator.CompletionOf` | day24/src/configurator.rs:66-78 | a partial layout with a completion contributes its first one |
| `Day24Configurator.Footwells` | day24/src/configurator.rs:63-65 | every footwell layout has one slot per package |
| `Day24Configurator.FootwellNoTrunk` | day24/src/configurator.rs:62-79 | every footwell with its left saddle has one slot per package |
| `Day24Configurator.FootwellWithTrunk` | day24/src/configurator.rs:87-102 | every footwell with both saddles has one slot per package |
| `Day24Configurator.ExtendsKeeps` | day24/src/configurator.rs:70-77 | tagging empty slots with one compartment keeps what every other compartment holds |
| `Day24Configurator.FootwellLeft` | day24/src/configurator.rs:62-79 | a footwell with its left saddle tags one group's weight each, and nothing yet as the right saddle or the trunk |
| `Day24Configurator.FootwellLeftRight` | day24/src/configurator.rs:87-102 | a footwell with both saddles tags one group's weight in each of the three |
| `Day24Configurator.PackingLists` | day24/src/configurator.rs:104-134 | one packing list per footwell completed with its saddles, the empty slots going to the remaining compartment; `Day24Configurator.PackingListsBalanced` and `Day24Configurator.FootwellsExhaustive` state what they hold |
| `Day24Configurator.PackingListsBalanced` | day24/src/configurator.rs:104-134 | every packing list gives each package a compartment, and its footwell and left saddle, with the trunk also its right saddle, each weigh one group; when the total is the number of groups times the group weight, the compartment `fill` gives the rest to (the right saddle without the trunk, the trunk with it) weighs one group too |
| `Day24Configurator.PackingListTags` | day24/src/configurator.rs:104-134 | a packing list's layout tags one group's weight as footwell and as left saddle, with the trunk also as right saddle, and nothing as trunk when the trunk is not used |
| `Day24Configurator.TaggedTotal` | day24/src/packing_list.rs:10-18 | when every slot holds a compartment, the four compartments between them weigh all the packages |
| `Day24Configurator.FootwellsExhaustive` | day24/src/configurator.rs:104-107 | with positive packages and group weight, every footwell of a group's weight that has some left saddle comes out, with the first left saddle for it |
| `Day24Configurator.LexTotal` | day24/src/packing_list.rs:3 | the derived lexicographic order compares any two slot lists |
| `Day24Configurator.LexTransitive` | day24/src/packing_list.rs:3 | the derived lexicographic order is transitive |
| `Day24Configurator.Ranks` | day24/src/compartment.rs:1 | one rank per slot, each the slot's place in the derived order |
| `Day24Configurator.MinOfLeast` | day24/src/configurator.rs:142-151 | the least of the keyed lists exists exactly when there are lists, is one of them and no key is below its own |
| `Day24Configurator.KeyTotal` | day24/src/configurator.rs:143-150 | any two keyed packing lists compare |
| `Day24Configurator.KeyTransitive` | day24/src/configurator.rs:143-150 | the key order is transitive |
| `Day24Configurator.Best` | day24/src/configurator.rs:136-152 | the least packing list by footwell count, then footwell entanglement; `Day24Configurator.BestIsLeast` states it |
| `Day24Configurator.BestIsLeast` | day24/src/configurator.rs:136-152 | the best exists exactly when there are packing lists, is one of them, and none has fewer footwell packages or as many with a smaller entanglement |
| `Day24Layout.Cleared` | day24/bounded-permutation-generation/src/lib.rs:173-183 | exactly the slots in the range that held the compartment are emptied; the rest are kept |
| `Day24Layout.Run` | day24/bounded-permutation-generation/src/lib.rs:162-224 | the search from a position leaves a layout as long as the one it started from |
| `Day24Layout.RunLeaves` | day24/bounded-permutation-generation/src/lib.rs:162-224 | once the search runs out it has emptied every slot from its start that held the compartment and changed nothing else |
| `Day24Layout.RunLength` | day24/bounded-permutation-generation/src/lib.rs:197 | every layout yielded is as long as the shared layout |
| `Day24Layout.RunSound` | day24/bounded-permutation-generation/src/lib.rs:186-205 | every layout yielded tags packages weighing the target, and differs from the layout it started from only by tagging empty slots |
| `Day24Layout.TaggedNone` | day24/bounded-permutation-generation/src/lib.rs:10-18 | a layout with no slot of the compartment tags no weight |
| `Day24Layout.RunComplete` | day24/bounded-permutation-generation/src/lib.rs:162-224 | with positive packages, every way of tagging empty slots whose packages weigh the positive target is yielded |
| `Day24Layout.TaggedZero` | day24/bounded-permutation-generation/src/lib.rs:10-18 | with positive packages, tagging no weight means tagging nothing |
| `Day24Layout.Inner.Rem` | day24/bounded-permutation-generation/src/lib.rs:60-67 | what is still to come leaves a layout as long as the shared one |
| `Day24Layout.Inner.constructor` | day24/bounded-permutation-generation/src/lib.rs:149-157 | a generator over the packages and layout from the given position for the given target, with no child |
| `Day24Layout.Inner.NextSolutionFor` | day24/bounded-permutation-generation/src/lib.rs:162-224 | the next of the layouts still to come, which is then gone, or `None` when there is none; slots before the position and slots of other compartments are untouched |
| `Day24Layout.Inner.Examine` | day24/bounded-permutation-generation/src/lib.rs:166-206 | one round with no child: the slot and the package at the position either move the position on, tag the slot and start a child, or yield the next layout |
| `Day24Layout.Inner.Descend` | day24/bounded-permutation-generation/src/lib.rs:207-220 | one round with a child: its next layout is passed on, or the child is dropped once it has none |
| `Day24Layout.BoundedPermutationGenerator.Wrap` | day24/bounded-permutation-generation/src/lib.rs:91-100 | the generator holds the inner generator given |
| `Day24Layout.BoundedPermutationGenerator.NextSolutionFor` | day24/bounded-permutation-generation/src/lib.rs:106-108 | the inner generator's next layout, which is then gone |
| `Day24Layout.BoundedPermutationGenerator.New` | day24/bounded-permutation-generation/src/lib.rs:80-101 | an error when the packages are not sorted largest first, another when the layout is shorter than the packages, otherwise a generator at the first package with the whole target |
| `Day24Layout.Iter.constructor` | day24/bounded-permutation-generation/src/lib.rs:111-116 | an iterator asking the generator for one compartment |
| `Day24Layout.Iter.Next` | day24/bounded-permutation-generation/src/lib.rs:243-245 | the first remaining layout, which is then gone, or `None` once none remains; the layout array stays the same one |
| `Day24Layout.Collect` | day24/bounded-permutation-generation/src/lib.rs:235-246 | collecting the iterator gives every layout still to come, in order, and leaves none |
| `Day24Layout.IterationSix` | day24/bounded-permutation-generation/src/lib.rs:315-328 | the iterator of a new generator over 5, 3, 2, 1 for weight 6, collected for compartment 0, gives 5 with 1, then 3, 2 and 1 |
| `Day24Layout.ExampleEight` | day24/bounded-permutation-generation/src/lib.rs:260-274 | for weight 8 over 5, 3, 2, 1: first 5 and 3, then 5, 2 and 1, then nothing, with the layout left empty |
| `Day24Layout.EightWithFive` | day24/bounded-permutation-generation/src/lib.rs:260-274 | with 5 tagged, the remaining 3 is made by 3 alone and by 2 and 1 |
| `Day24Layout.EightWithoutFive` | day24/bounded-permutation-generation/src/lib.rs:260-274 | without 5, nothing among 3, 2 and 1 makes 8 |
| `Day24Layout.ExampleSix` | day24/bounded-permutation-generation/src/lib.rs:277-290 | the layouts for weight 6 over 5, 3, 2, 1 are 5 with 1, then 3, 2 and 1, and the layout passed in is left as it was |
| `Day24Layout.SixWithFive` | day24/bounded-permutation-generation/src/lib.rs:277-284 | with 5 taken, the only way to reach 6 is to add 1 |
| `Day24Layout.SixWithoutFive` | day24/bounded-permutation-generation/src/lib.rs:286-290 | without 5, the only way to reach 6 is 3, 2 and 1 |
| `Day24Layout.ExampleExistingData` | day24/bounded-permutation-generation/src/lib.rs:292-312 | the first layout for weight 5 tags the 5 alone, and a generator for another compartment over that layout yields one layout, adding 3 and 2, and then nothing |
| `Day24Layout.ThreeWithFive` | day24/bounded-permutation-generation/src/lib.rs:308-311 | with the 5 held by the first compartment and the 3 tagged, only the 2 makes up the weight, and the layout comes back as it was |
| `Day24Layout.WithoutThree` | day24/bounded-permutation-generation/src/lib.rs:311 | with the 5 held and the 3 left out, nothing among 2 and 1 makes 5 |
| `Day24Layout.SortedDown` | day24/bounded-permutation-generation/src/lib.rs:85 | true exactly when the packages are sorted largest first |
| `Day24Queue.SolsAsWritten` | day24/src/bounded_permutation_generator.rs:88-94 | the selections as written, where a package heavier than the target ends the level for good; `Day24Queue.BreakMissesSolution` shows that this misses 3 and 1 for weight 4 |
| `Day24Queue.BreakMissesSolution` | day24/src/bounded_permutation_generator.rs:88-94 | as written, packages 5, 3 and 1 give nothing for weight 4, while the corrected search yields 3 and 1 |
| `Day24Queue.Sols` | day24/src/bounded_permutation_generator.rs:75-132 | the selections the corrected generator yields from a position: a heavier package is passed over, one of exactly the target completes a selection, a lighter one is pushed while a child searches the rest, then the search goes on without it; `Day24Queue.SolsSound` and `Day24Queue.SolsComplete` state what they are |
| `Day24Queue.SolsSound` | day24/src/bounded_permutation_generator.rs:75-132 | every selection yielded is the queue followed by at least one package picked in order from the position on, weighing the target |
| `Day24Queue.SolsComplete` | day24/src/bounded_permutation_generator.rs:75-132 | with positive packages, every non-empty in-order pick weighing the target is yielded after the queue |
| `Day24Queue.PickedWeight` | day24/src/bounded_permutation_generator.rs:95-105 | a non-empty pick from positive packages weighs something |
| `Day24Queue.FirstCallAsWritten` | day24/src/bounded_permutation_generator.rs:78-109 | the first call as written: nothing, a lone package of the target weight, or a panic as soon as a lighter package makes the borrowed child be replaced; `Day24Queue.BorrowPanics` shows the panic |
| `Day24Queue.BorrowPanics` | day24/src/bounded_permutation_generator.rs:78-109 | as written, the first call on 3 and 1 for weight 4 panics, while the generator with the borrow ended first yields 3 and 1 |
| `Day24Queue.Queue.constructor` | day24/src/bounded_permutation_generator.rs:49 | the shared queue starts empty |
| `Day24Queue.BoundedPermutationGenerator.NewRc` | day24/src/bounded_permutation_generator.rs:45-54 | a generator over packages sorted largest first, with a fresh queue, that will yield every selection of the target weight |
| `Day24Queue.BoundedPermutationGenerator.Sharing` | day24/src/bounded_permutation_generator.rs:61-67 | a generator sharing the queue, from the given position for the given target, with no child |
| `Day24Queue.BoundedPermutationGenerator.Child` | day24/src/bounded_permutation_generator.rs:57-68 | a fresh generator from the next package for what the current package leaves of the target, sharing packages and queue |
| `Day24Queue.BoundedPermutationGenerator.NextSolution` | day24/src/bounded_permutation_generator.rs:75-132 | the first of the selections still to come, which is then gone, or `None` once there is none |
| `Day24Queue.BoundedPermutationGenerator.Examine` | day24/src/bounded_permutation_generator.rs:79-115 | one round with no child: the package moves the position on, starts a child, or yields the next selection |
| `Day24Queue.BoundedPermutationGenerator.Descend` | day24/src/bounded_permutation_generator.rs:116-127 | one round with a child: its next selection is passed on, or the child is dropped, the queue popped and the position moved on |
| `Day24Queue.BoundedPermutationGenerator.Next` | day24/src/bounded_permutation_generator.rs:138-140 | the first of the selections still to come, which is then gone |
| `Day24Subsets.Insert` | day24/src/summed_subsets.rs:22 | inserting into an ascending list keeps it ascending and adds exactly the one weight |
| `Day24Subsets.InsertLargest` | day24/src/summed_subsets.rs:22 | a weight no smaller than the last goes at the end |
| `Day24Subsets.SortAscending` | day24/src/summed_subsets.rs:20-22 | the sorted weights are ascending and a reordering of the weights |
| `Day24Subsets.SortSorted` | day24/src/summed_subsets.rs:22 | sorting an ascending list leaves it as it is |
| `Day24Subsets.PopAt` | day24/src/summed_subsets.rs:31-47 | `next_value` stops at the last weight that is neither 0 nor above the target, every weight after it being skipped, or at -1 when there is none |
| `Day24Subsets.Popped` | day24/src/summed_subsets.rs:31-47 | what `next_value` leaves of the weights and the weight it pops, 0 once they run out; `Day24Subsets.PopAt` and `Day24Subsets.PopAtUnique` state where it stops |
| `Day24Subsets.Extend` | day24/src/summed_subsets.rs:61-66 | appending a weight to every subset keeps their number and order |
| `Day24Subsets.SubsetsUnfold` | day24/src/summed_subsets.rs:69-88 | a skipped last weight adds no subsets; otherwise its subsets come first, then those of the weights before it |
| `Day24Subsets.WithinSelf` | day24/src/summed_subsets.rs:7 | a list picks all of itself |
| `Day24Subsets.WithinBound` | day24/src/summed_subsets.rs:7 | everything picked from a list is bounded by what bounds the list |
| `Day24Subsets.Subsets` | day24/src/summed_subsets.rs:61-88 | the subsets in the iterator's order: those holding the weight `next_value` pops, then those of the weights left; `Day24Subsets.SubsetsSound`, `Day24Subsets.SubsetsComplete` and `Day24Subsets.SubsetsOrder` state what they are |
| `Day24Subsets.SubsetsSound` | day24/src/summed_subsets.rs:4-7 | every subset yielded is non-empty, adds up to the target, is sorted ascending and picks each weight at most once |
| `Day24Subsets.PoppedSound` | day24/src/summed_subsets.rs:61-88 | every subset holding the popped weight is non-empty, adds up to the target, is ascending and picks from the weights |
| `Day24Subsets.SubsetsOrder` | day24/src/summed_subsets.rs:6 | the subsets come in descending order of their largest weight |
| `Day24Subsets.TailBelow` | day24/src/summed_subsets.rs:82-87 | subsets of the weights left after a pop end in a weight no larger than the popped one |
| `Day24Subsets.PoppedLast` | day24/src/summed_subsets.rs:61-66 | the subsets found for a popped weight all end in it |
| `Day24Subsets.SubsetsComplete` | day24/src/summed_subsets.rs:4-7 | every non-empty pick of positive weights adding up to the target is yielded |
| `Day24Subsets.PickedComplete` | day24/src/summed_subsets.rs:78-88 | every pick of positive weights taking the last weight and adding up to the target is yielded |
| `Day24Subsets.ExampleSubsets` | day24/src/summed_subsets.rs:97-126 | every one of the fifteen subsets the test lists is among those yielded for 1, 2, 3, 4, 5, 7, 8, 9, 10, 11 and 20 |
| `Day24Subsets.ExpectedYielded` | day24/src/summed_subsets.rs:101-125 | the `k`-th listed subset is yielded |
| `Day24Subsets.ExpectedFirstFive` | day24/src/summed_subsets.rs:102-106 | the listed subsets 9, 11 to 2, 8, 10 are yielded |
| `Day24Subsets.ExpectedMiddleFive` | day24/src/summed_subsets.rs:107-111 | the listed subsets 3, 7, 10 to 3, 8, 9 are yielded |
| `Day24Subsets.ExpectedLastFive` | day24/src/summed_subsets.rs:112-116 | the listed subsets 4, 7, 9 to 1, 3, 4, 5, 7 are yielded |
| `Day24Subsets.EarlyPickWithin` | day24/src/summed_subsets.rs:4-7 | a list that can be picked in order from the front of the weights is a pick of them from the end |
| `Day24Subsets.EarlyPickSubset` | day24/src/summed_subsets.rs:4-7 | a non-empty list of positive weights adding up to the target that can be picked in order from the weights is yielded |
| `Day24Subsets.SummedSubsets.constructor` | day24/src/summed_subsets.rs:20-28 | the weights are sorted ascending, nothing is popped yet, and every subset is still to come |
| `Day24Subsets.SummedSubsets.Next` | day24/src/summed_subsets.rs:56-89 | the first of the subsets still to come, which is then gone, or `None` once all are yielded |
| `Day24Subsets.SummedSubsets.Restart` | day24/src/summed_subsets.rs:69-88 | with no sub-iterator, the next weight is popped and the first subset still to come is returned and gone |
| `Day24Subsets.SummedSubsets.Choose` | day24/src/summed_subsets.rs:71-87 | either a sub-iterator is started with the subsets still to come unchanged, or the first of them is returned and gone |
| `Day24Subsets.SummedSubsets.Descend` | day24/src/summed_subsets.rs:57-88 | with a sub-iterator, the first subset still to come is returned and gone |
| `Day24Subsets.SummedSubsets.Advance` | day24/src/summed_subsets.rs:61 | the sub-iterator gives its next subset and moves past it |
| `Day24Subsets.SummedSubsets.NextValue` | day24/src/summed_subsets.rs:31-47 | the weights and the current weight end as `Popped` says: popped to the last usable weight, or 0 when they run out |
| `Day24Subsets.SummedSubsets.StartSubIterator` | day24/src/summed_subsets.rs:84-87 | the subsets still to come are those of the remaining weights for what the current weight leaves, each with the current weight appended, then those of the remaining weights |
| `Day24Subsets.PopAtUnique` | day24/src/summed_subsets.rs:37-46 | the stopping position of `next_value` is the only one with its two properties |
| `Parsing.IsJustLetters` | util/src/parse.rs:23-30 | true exactly when every char is a lower-case ASCII letter (so for the empty string too) |
| `Parsing.IsJustNumbers` | util/src/parse.rs:32-39 | true exactly when every char is an ASCII digit (so for the empty string too) |
| `Parsing.LettersAndNumbers` | util/src/parse.rs:23-39 | only the empty string is both just letters and just numbers |
| `Parsing.WithDirection` | util/src/parse.rs:81-83 | the options with the given direction |
| `Parsing.WithTokenizerSplit` | util/src/parse.rs:88-90 | the options with the given separator |
| `Parsing.WithFixedTokens` | util/src/parse.rs:103-105 | the options with the given fixed tokens |
| `Parsing.WithConsumeOnly` | util/src/parse.rs:114-116 | the options with the given cut-off |
| `Parsing.WithRequireAtLeast` | util/src/parse.rs:123-125 | the options with the given lower bound |
| `Parsing.WithRequireFewerThan` | util/src/parse.rs:132-134 | the options with the given upper bound |
| `Parsing.BuildersIndependent` | util/src/parse.rs:81-134 | each builder changes its own field and no other: builders of different fields commute, and of one field the last one wins |
| `Parsing.SplitOn` | util/src/parse.rs:177 | splitting always gives at least one token |
| `Parsing.Limit` | util/src/parse.rs:197-202 | the tokens read before the cut-off are never more than the tokens |
| `Parsing.Kept` | util/src/parse.rs:204-214 | the tokens kept before a position are never more than the position |
| `Parsing.ParseWithOptions` | util/src/parse.rs:163-217 | the result is the specification `Parse`: a blank input refused, then the token-count bounds, then the pass over the tokens |
| `Parsing.ReadTokens` | util/src/parse.rs:192-216 | the loop returns the specification `Read`: the first wrong fixed token is an error, otherwise the tokens not at fixed positions up to the cut-off and the rest after it |
| `Parsing.MismatchStep` | util/src/parse.rs:204-211 | one more token is a mismatch exactly when it sits at a fixed position and differs from the fixed token |
| `Parsing.KeptAll` | util/src/parse.rs:214 | with no fixed tokens every token before the limit is kept |
| `Parsing.ConsumeOnlyKeepsOneMore` | util/src/parse.rs:199-201 | with a cut-off of n, the first n + 1 tokens are kept and the rest starts at token n + 1 |
| `Parsing.IntendedLimit` | util/src/parse.rs:107-116 | the cut-off `consume_only(n)` describes, n tokens or all of them when fewer, is never more than the tokens |
| `Parsing.ConsumeOnlyKeepsN` | util/src/parse.rs:107-116 | with the cut test `i >= n`, `consume_only(n)` keeps exactly the first n tokens and hands back the rest from token n on; with n or fewer tokens all are kept and nothing is handed back |
| `Parsing.KeptSkipsFixed` | util/src/parse.rs:204-208 | the tokens dropped are exactly those at fixed positions |
| `Parsing.BlankRefused` | util/src/parse.rs:166-169 | a blank input is refused as empty whatever the options |
| `Parsing.LeftReverses` | util/src/parse.rs:178-181 | reading to the left gives the tokens in reverse order |
| `Parsing.TokensAsWritten` | util/src/parse.rs:166-177 | a line already trimmed and lower-case is split on the separator as it stands |
| `Parsing.ParseAll` | util/src/parse.rs:192-216 | a line whose tokens are all read, with no fixed token wrong, gives the tokens not at fixed positions and no rest |
| `Parsing.ArrowExample` | util/src/parse.rs:93-102 | with `1 => "->"`, the line `x -> y b` reads as x, y, b |

## Left out

- MD5 coin mining (day04, day4) is not part of this model. It relies on a cryptographic hash from a foreign crate, on thread parallelism and on atomics.
- The `main.rs`/`bin.rs` drivers, the `__main__` blocks, the `partN`/`roundtrip_input` readers and `util/src/lib.rs` are not modelled: they only read files or stdin and print. Inputs are passed as strings or lists of lines.
- day18/src/animate.rs is not modelled. It encodes GIFs, writes files and draws random sparkle.
- The derived and generated parsers (`parse_display` for day02, day09, day13, day14, day16 `Sue` and the day21 character, and `lalrpop` for day06 `Command` and day07 `Wire`) are not modelled. Their grammar is not in the source, so the model takes the parsed records as inputs. The day21 character format is the one exception: `Day21Character` gives it a parse/display pair with a round trip.
- `permutohedron::heap_recursive` (day09, day13, day20) is replaced by a `perms` input. It must hold every permutation of the items, and the searches are proved to find the best route or seating over all permutations. The order in which Heap's algorithm visits them is not modelled.
- HashMap and HashSet iteration order (day07 wires, day15 neighbours, day19 replacements, day20 factor sets) is replaced by the order of an input sequence. The properties are stated so that they hold for any order.
- serde_json and `json.load` (day12) are not modelled: JSON values are a datatype. A number with a fraction or exponent is only `Fractional`, which counts 0 as `as_i64().unwrap_or_default()` gives; its value is not modelled.
- day7/src/evaluator.rs is not modelled: its method bodies are `unimplemented!()`. Files that hold only doc comments, module declarations or types (day11, day9 and day7 `lib.rs`, day15/src/lib.rs, day22/src/effects/mod.rs) define no operation. day24/src/compartment.rs is used as a plain enum.
- `Day20.ISqrt`: `usqrt` takes the floor of an `f64` square root. It is modelled as the exact integer square root, so rounding of very large numbers is not captured.
- Machine integer widths are modelled as unbounded integers wherever no overflow is in reach of the puzzle: the day09 and day13 sums, day14 distances and points, day17 sums, day19 counts, day20 presents, day23 registers and the day24 weights and quantum entanglement. The exceptions are listed below.
- `Day06.ApplyLevels` and `Day06.Brighten` exclude the `u8` brightness overflow of day06 by a precondition: the cell's level plus the raise must stay within 255. The overflow panic is not modelled.
- `Day15Recipe.New` requires an ingredient count that is not a multiple of 65536. For the empty list and for such counts, the source's `u16` division by zero panics.
- `Day15Recipe.Goodness` takes the product modulo 2^32, as wrapping `i32` arithmetic and the `as u32` cast give it. The overflow panic of a debug build is not modelled, and neither are the `i32` sums overflowing on their own.
- `Day21.Combat` models the `u32` subtraction underflow as an explicit `Underflow` outcome rather than a panic.
- `Day22.Arena.Turn` requires (through `CanTurn`) that hit points and armour stay within `u8` and mana within `u16`, in place of the source's overflow panics.
- `Day23.CPU.Run` takes a ghost step count and requires that the program halts within it. A program that never halts makes the source loop for ever; that case is not modelled. `u64` register wrap-around is not modelled either.
- `Day3.FollowNSantas` requires at least one santa for a non-empty path. With none, the source's `i % n` divides by zero; that panic is not modelled.
- `Day03.FollowNSantas` requires at least one santa for a non-empty path, for the same `i % n` division by zero, which is not modelled.
- `Day06.Part1` and `Day06.Part2` require every command's corners inside the 1000 by 1000 grid. Outside it the source's array indexing panics; that panic is not modelled.
- `Day6.Through.constructor` and `Day6.Points` require both corners below `i32::MAX`. At `i32::MAX` the source's counter overflows when it steps past the corner; that overflow is not modelled.
- `Day09.Routes.FindExtreme` requires (`HasLegs`) a distance for every leg of every ordering. A missing leg makes the source's `unwrap` panic; that panic is not modelled.
- `Day18.CountAdjacentOn` requires the coordinate inside the grid. Outside it the source panics with "Invalid coordinate"; `step` never asks for one, and the panic is not modelled.
- `Day21Generator.LoadoutGenerator.New` requires the stock to hold a weapon. Without one the source's `first().unwrap()` panics (day21/src/loadout_generator.rs:53); that panic is not modelled.
- `Day22.Cast`, `Day22Effects.OnCast` and `Day22Effects.PerTurn` require (`Payable`, `CanCast`, `CanTick`) that mana and mana spent stay within `u16`, hit points and armour within `u8`, and that a shield wearing off has its 7 armour to give back. The source's overflow and underflow panics in those cases are not modelled.
- `Day01.CountParens` and `Day01.FloorAfter` count the floor as an unbounded integer. The source's `i32` floor overflow, beyond two billion parentheses, is not modelled.
- `Day02.SurfaceArea`, `Day02.Paper`, `Day02.Ribbon`, `Day2.SurfaceArea` and `Day2.Paper` compute on unbounded integers. The `i32` overflow of the source's products and sums is not modelled.
- `Day12.SumOfNumbersIn` adds unbounded integers. The `i64` overflow of the source's `sum` is not modelled; each number on its own is kept within `i64`.
- `Day18.CountOn` counts into an unbounded integer. The source's `u16` counter would overflow on a grid of more than 65535 lights; that overflow is not modelled.
- `Day21Loadout.EquippedSumBy` adds item costs, damage and armour as unbounded integers. The `u32` overflow of the source's sums is not modelled.
- Rust's `to_lowercase` is modelled on ASCII letters only (`Text.Lower`). Non-ASCII case mapping is not modelled. `trim` uses Unicode's White_Space list.
- The day16 doc comment before `matches_retro` says pomeranians must be greater, but the code tests fewer, as it does for goldfish and as the doc comment's own goldfish line says. The model follows the code; `Day16.PomeraniansFewer` states the difference.
- The day20 `factorize` drops the prime left over after trial division (see "## Findings"). The sieve is modelled as written. `Day20Houses.SmallTargetsMissed` shows that `first_house` then finds nothing for targets below 20 other than 10. When nothing is left over, `factorize` lists exactly the divisors (`Day20Divisors.FactorSetExactly`).
- day22 effects are updated on clones, so a stored effect never loses time to live and never expires. Shield's armour is never given back. This is modelled as written; see `Day22.NothingExpires` and `Day22.EffectsPersist`.
- `consume_only(n)` keeps n + 1 tokens (see "## Findings"). `Parsing.ParseWithOptions` is modelled as written; no solution in the repository sets `consume_only`.
- `Day08.Unescape` returns a `Panic` outcome where the source reaches `unreachable!()`: `hex.len()` counts bytes, so a first hex char of two or more bytes leaves the buffer at length 2 or more when the second char arrives. The panic's message is not modelled.
- `Day08Py.NdDigit` and `Day08Py.AsciiForm` follow the Unicode 15.0 character database of Python 3.12. Another Python version may add digit runs; that is not modelled.
- The Python day 8 decoder's divergences are modelled as written, in `Day08Py`. It returns partial output when a line ends inside an escape, lets a lone `"` pass the quote check, and checks only the first hex digit.
- day24/src/lib.rs:54 declares only `pub mod summed_subsets;`. So bounded_permutation_generator.rs, configurator.rs, packing_list.rs and compartment.rs are not compiled into the day24 crate, and their defects (the last two "## Findings" rows) cannot reach its answers. bounded_permutation_generator.rs is modelled twice. `Day24Queue.SolsAsWritten` and `Day24Queue.FirstCallAsWritten` follow the code as written: the `Greater => break` and the `self.child.replace` that panics on the live borrow. `Day24Queue.BoundedPermutationGenerator` and its members model the corrected generator: it passes over a package heavier than the target and ends the borrow before replacing the child. compartment.rs and packing_list.rs are modelled as written in `Day24Configurator`; configurator.rs is modelled over `Day24Layout`, as the next line says.
- `Day24Queue.BoundedPermutationGenerator.NewRc` requires packages sorted largest first. The source's `debug_assert!` (day24/src/bounded_permutation_generator.rs:46) panics on unsorted packages in a debug build and lets them through in a release build; neither outcome is modelled.
- day24/src/configurator.rs calls the permutation generator through `new(&pk, w)`, `from_solution` and `into_iter`. That interface belongs to no generator in the source. The configurator is modelled over the layout generator of the bounded-permutation-generation crate (`Day24Layout`), which is the closest interface in the source.
- day8/py/day8.py is a byte-identical copy of day08/py/day8.py, and day1_1 repeats day01. They share one model each, and the rows cite both copies where they differ only in path.
- The day14 `test_new_race` fixture (Dancer 689) is not derived as a lemma. The race is checked on the puzzle's two-reindeer example.
- `Day07.PresetWins` is the only statement about day07's part 2. That part re-runs the circuit with wire `b` preset, and the lemma shows that a preset value overrides the wire's instruction.

## Findings

| source | as written | input that shows it | evidently intended | confidence | as-written member | corrected member |
|---|---|---|---|---|---|---|
| day15/src/recipe.rs:48-52 | the loop clamps a temporary array, so negative property sums go into the product unclamped | one ingredient (-1, -1, 1, 1) at one teaspoon scores 1, and (-1, 1, 1, 1) scores 4294967295; both should score 0 | any property sum below zero counts as zero | high, not executed | `Day15Recipe.UnclampedSums` | `Day15Recipe.ClampedGoodness` |
| day15/src/recipe.rs:106-111 | `decr_it` is never reset when the next ingredient is taken for increase, so only the first increasable ingredient ever gets neighbours | two ingredients at 50 teaspoons each yield one neighbour instead of two | every increase paired with every other decreasable ingredient, as day15/src/neighbors.rs does | high, not executed | `Day15Neighbors.VersionsDiffer` | `Day15Neighbors.EveryMoveOnce` |
| day18/src/lib.rs:153 | `cx != cy` compares an x coordinate with a y coordinate | a 3 by 3 grid with every light on: the centre counts 6 neighbours instead of 8 | leave out only the cell itself, `(cx, cy) != (x, y)` | high, not executed | `Day18.DiagonalExample` | `Day18.CountNeighbours` |
| day20/src/lib.rs:82-99 | `factorize_prime` divides only by the primes up to the square root, so a prime factor above the square root is left over and dropped | 28: `factorize` lists 1, 2, 14 and 28, missing 4 and 7, so `presents_at(28)` is 450 where the elves deliver 560 | keep the leftover prime as a factor, so that `factorize` returns all factors, as its doc comment at line 101 says | high, not executed | `Day20Houses.HouseTwentyEightDisagrees` | `Day20Kept.FactorSetKeptExactly` |
| util/src/parse.rs:199 | the cut test `i > n` lets token n through, so `consume_only(n)` reads n + 1 tokens | `a b c` with `consume_only(Some(1))`: tokens `a` and `b`, rest `c`, where the doc comment at line 107 promises one token | cut at `i >= n` | medium, not executed | `Parsing.ConsumeOnlyKeepsOneMore` | `Parsing.ConsumeOnlyKeepsN` |
| day24/src/bounded_permutation_generator.rs:88-94 | a package heavier than the target ends the search at that level, though later packages are lighter | packages 5, 3, 1 and target 4: nothing is found, yet 3 and 1 weigh 4 | pass over the heavy package and go on | high, not executed | `Day24Queue.BreakMissesSolution` | `Day24Queue.SolsComplete` |
| day24/src/bounded_permutation_generator.rs:78-109 | the `match` keeps `self.child` borrowed while `self.child.replace` runs | packages 3, 1 and target 4: the first call panics on the borrow | end the borrow before the child is replaced | medium, not executed | `Day24Queue.BorrowPanics` | `Day24Queue.BoundedPermutationGenerator.NextSolution` |
