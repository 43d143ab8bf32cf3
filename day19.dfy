// Day 19: the molecules one replacement away from a medicine molecule.
// The replacements are read into a map from the text replaced to the texts
// that may replace it; `ChemTransformer` yields, for one replacement, the
// molecule with each occurrence of its left side replaced in turn, and
// `TransformEnumerator` chains the transformers of every replacement.
//
// The map is a hash map whose iteration order is not specified: the
// enumerator takes the order of its keys as a parameter, and what it yields
// is stated for every order.

module Day19 {
  import opened Text

  // ---------------------------------------------------------------------
  // Reading the replacements

  /** What one line of the replacement list says. */
  datatype Line = Blank | Malformed | Rule(from: string, to: string)

  /** A line is trimmed; a blank one says nothing, and any other must split
      at `=>` into exactly two halves, which are kept as they are. */
  function ReadLine(raw: string): (r: Line)
    ensures r == Blank <==> Trim(raw) == []
  {
    var line := Trim(raw);
    if line == [] then Blank
    else
      var halves := Split(line, "=>");
      if |halves| != 2 then Malformed else Rule(halves[0], halves[1])
  }

  function ReadAll(lines: seq<string>): (rs: seq<Line>)
    ensures |rs| == |lines| && forall k :: 0 <= k < |lines| ==> rs[k] == ReadLine(lines[k])
  {
    seq(|lines|, k requires 0 <= k < |lines| => ReadLine(lines[k]))
  }

  /** The replacements with one more for `from`, after those it has. */
  function Add(m: map<string, seq<string>>, from: string, to: string): map<string, seq<string>>
  {
    if from in m then m[from := m[from] + [to]] else m[from := [to]]
  }

  /** The lines read in order into `m`; a malformed one spoils them all. */
  function Gather(m: map<string, seq<string>>, rs: seq<Line>): Option<map<string, seq<string>>>
    decreases |rs|
  {
    if rs == [] then Some(m)
    else match rs[0]
      case Blank => Gather(m, rs[1..])
      case Malformed => None
      case Rule(f, t) => Gather(Add(m, f, t), rs[1..])
  }

  /** What `parse_replacements` gives for the text `lines`. */
  function Replacements(lines: string): Option<map<string, seq<string>>>
  {
    Gather(map[], ReadAll(Split(lines, "\n")))
  }

  /** `parse_replacements`. */
  method ParseReplacements(lines: string) returns (r: Option<map<string, seq<string>>>)
    ensures r == Replacements(lines)
  {
    var spl := Split(lines, "\n");
    ghost var rs := ReadAll(spl);
    var ret: map<string, seq<string>> := map[];
    for k := 0 to |spl|
      invariant Gather(ret, rs[k..]) == Replacements(lines)
    {
      assert rs[k..] == [rs[k]] + rs[k + 1..];
      var line := Trim(spl[k]);
      if line == [] {
        continue;
      }
      var halves := Split(line, "=>");
      if |halves| != 2 {
        return None;
      }
      var from, to := halves[0], halves[1];
      if from in ret {
        ret := ret[from := ret[from] + [to]];
      } else {
        ret := ret[from := [to]];
      }
    }
    r := Some(ret);
  }

  /** The texts that may replace `key`, by the lines `rs`, in their order. */
  function TosFor(rs: seq<Line>, key: string): seq<string>
    decreases |rs|
  {
    if rs == [] then []
    else (if rs[0].Rule? && rs[0].from == key then [rs[0].to] else []) + TosFor(rs[1..], key)
  }

  function Lookup(m: map<string, seq<string>>, key: string): seq<string>
  {
    if key in m then m[key] else []
  }

  /** One more text for `f` goes after the texts of `f`, and only there. */
  lemma AddLookup(m: map<string, seq<string>>, f: string, t: string, key: string)
    ensures Lookup(Add(m, f, t), key) == Lookup(m, key) + (if f == key then [t] else [])
  {
  }

  /** Gathering appends to a key the texts of its lines, in order. */
  lemma {:induction false} GatherCollects(m: map<string, seq<string>>, rs: seq<Line>, r: map<string, seq<string>>, key: string)
    requires Gather(m, rs) == Some(r)
    ensures Lookup(r, key) == Lookup(m, key) + TosFor(rs, key)
    decreases |rs|, 1
  {
    if rs != [] && rs[0].Blank? {
      assert Gather(m, rs[1..]) == Some(r) && TosFor(rs, key) == TosFor(rs[1..], key);
      GatherCollects(m, rs[1..], r, key);
    } else if rs != [] {
      GatherCollectsRule(m, rs, r, key);
    }
  }

  lemma {:induction false} GatherCollectsRule(m: map<string, seq<string>>, rs: seq<Line>, r: map<string, seq<string>>, key: string)
    requires rs != [] && rs[0].Rule? && Gather(m, rs) == Some(r)
    ensures Lookup(r, key) == Lookup(m, key) + TosFor(rs, key)
    decreases |rs|, 0
  {
    var f, t, rest := rs[0].from, rs[0].to, rs[1..];
    var here := if f == key then [t] else [];
    var m' := Add(m, f, t);
    assert Gather(m', rest) == Some(r);
    assert TosFor(rs, key) == here + TosFor(rest, key);
    AddLookup(m, f, t, key);
    GatherCollects(m', rest, r, key);
    Append3(Lookup(m, key), here, TosFor(rest, key));
  }

  lemma Append3(a: seq<string>, b: seq<string>, c: seq<string>)
    ensures a + b + c == a + (b + c)
  { }

  /** Gathering adds a key exactly when some line names it. */
  lemma {:induction false} GatherKeys(m: map<string, seq<string>>, rs: seq<Line>, r: map<string, seq<string>>, key: string)
    requires Gather(m, rs) == Some(r)
    ensures key in r <==> key in m || TosFor(rs, key) != []
    decreases |rs|
  {
    if rs != [] {
      match rs[0]
      case Blank =>
        GatherKeys(m, rs[1..], r, key);
      case Rule(f, t) =>
        GatherKeys(Add(m, f, t), rs[1..], r, key);
    }
  }

  /** Gathering fails exactly when some line is malformed. */
  lemma {:induction false} GatherFails(m: map<string, seq<string>>, rs: seq<Line>)
    ensures Gather(m, rs).None? <==> Malformed in rs
    decreases |rs|
  {
    if rs != [] {
      assert rs == [rs[0]] + rs[1..];
      match rs[0]
      case Blank =>
        GatherFails(m, rs[1..]);
      case Malformed =>
      case Rule(f, t) =>
        GatherFails(Add(m, f, t), rs[1..]);
    }
  }

  /** The replacements read hold, for each text replaced, the texts that
      replace it in the order of their lines, and no other key. */
  lemma ReplacementsCollect(lines: string)
    requires Replacements(lines).Some?
    ensures var r, rs := Replacements(lines).value, ReadAll(Split(lines, "\n"));
      (forall key :: key in r <==> TosFor(rs, key) != [])
      && forall key :: key in r ==> r[key] == TosFor(rs, key)
  {
    var r, rs := Replacements(lines).value, ReadAll(Split(lines, "\n"));
    forall key
      ensures (key in r <==> TosFor(rs, key) != []) && (key in r ==> r[key] == TosFor(rs, key))
    {
      GatherCollects(map[], rs, r, key);
      GatherKeys(map[], rs, r, key);
    }
  }

  /** A line is malformed when, trimmed, it is not blank and does not split
      at `=>` into two halves. */
  lemma ReadLineMalformed(raw: string)
    ensures ReadLine(raw) == Malformed <==> Trim(raw) != [] && |Split(Trim(raw), "=>")| != 2
  {
  }

  /** The text has no replacements exactly when one of its lines is
      malformed. */
  lemma ReplacementsFail(lines: string)
    ensures Replacements(lines).None? <==> Malformed in ReadAll(Split(lines, "\n"))
  {
    GatherFails(map[], ReadAll(Split(lines, "\n")));
  }

  /** `s` has no `=>` in it. */
  predicate NoArrow(s: string)
  {
    forall k :: 0 <= k <= |s| ==> !MatchAt(s, "=>", k)
  }

  /** The first match of a pattern is where it first occurs. */
  lemma IndexOfFirst(s: string, sep: string, k: nat)
    requires |sep| > 0 && MatchAt(s, sep, k)
    requires forall j: nat :: j < k ==> !MatchAt(s, sep, j)
    ensures IndexOf(s, sep) == Some(k)
  {
  }

  /** Two halves without `=>` around one split into exactly those. */
  lemma ArrowSplit(from: string, to: string)
    requires NoArrow(from) && NoArrow(to)
    ensures Split(from + "=>" + to, "=>") == [from, to]
  {
    var s := from + "=>" + to;
    forall j: nat | j < |from|
      ensures !MatchAt(s, "=>", j)
    {
      if j + 2 <= |from| {
        assert s[j..j + 2] == from[j..j + 2];
        assert !MatchAt(from, "=>", j);
      } else {
        assert s[j..j + 2][1] == '=';
      }
    }
    assert s[|from|..|from| + 2] == "=>";
    IndexOfFirst(s, "=>", |from|);
    assert s[..|from|] == from && s[|from| + 2..] == to;
    assert IndexOf(to, "=>").None?;
  }

  /** A line made of two halves around `=>` reads as the rule of exactly
      those halves: spaces around the arrow stay in them. */
  lemma ReadLineOfRule(from: string, to: string)
    requires NoArrow(from) && NoArrow(to)
    requires from != [] ==> !IsWhitespace(from[0])
    requires to != [] ==> !IsWhitespace(to[|to| - 1])
    ensures ReadLine(from + "=>" + to) == Rule(from, to)
  {
    TrimUnchanged(from + "=>" + to);
    ArrowSplit(from, to);
  }

  /** The puzzle's own layout, `H => HO`, keeps the spaces. */
  lemma SpacedRule()
    ensures ReadLine("H => HO") == Rule("H ", " HO")
  {
    forall k | 0 <= k <= |"H "|
      ensures !MatchAt("H ", "=>", k)
    {
      if k == 0 {
        assert "H "[0..2][0] != '=';
      }
    }
    forall k | 0 <= k <= |" HO"|
      ensures !MatchAt(" HO", "=>", k)
    {
      if k == 0 {
        assert " HO"[0..2][0] != '=';
      } else if k == 1 {
        assert " HO"[1..3][0] != '=';
      }
    }
    assert "H " + "=>" + " HO" == "H => HO";
    ReadLineOfRule("H ", " HO");
  }

  // ---------------------------------------------------------------------
  // One replacement

  /** Every character as a text of its own. */
  function Chars(s: string): (r: seq<string>)
    ensures |r| == |s| && forall i :: 0 <= i < |s| ==> r[i] == [s[i]]
  {
    seq(|s|, i requires 0 <= i < |s| => [s[i]])
  }

  /** `str::split` with a text pattern: the pieces between its occurrences;
      the empty pattern occurs at every character boundary. */
  function Pieces(s: string, sep: string): (r: seq<string>)
    ensures |r| >= 1
  {
    if sep == [] then [[]] + Chars(s) + [[]] else Split(s, sep)
  }

  lemma {:induction false} JoinChars(s: string)
    ensures Join(Chars(s) + [[]], []) == s
    decreases |s|
  {
    if s != [] {
      assert Chars(s) + [[]] == [[s[0]]] + (Chars(s[1..]) + [[]]);
      JoinCons([s[0]], Chars(s[1..]) + [[]], []);
      JoinChars(s[1..]);
      assert [s[0]] + s[1..] == s;
    }
  }

  /** The pieces joined by the pattern give back the text. */
  lemma PiecesRejoin(s: string, sep: string)
    ensures Join(Pieces(s, sep), sep) == s
  {
    if sep == [] {
      JoinChars(s);
      assert Pieces(s, sep) == [[]] + (Chars(s) + [[]]);
      JoinCons([], Chars(s) + [[]], []);
    } else {
      JoinSplit(s, sep);
    }
  }

  /** What `next` puts before chunk `i` when it replaces occurrence `k`. */
  function Filler(from: string, to: string, k: nat, i: nat): string
  {
    if i == 0 then [] else if i == k then to else from
  }

  /** The first `n` chunks with their fillers. */
  function Built(chunks: seq<string>, from: string, to: string, k: nat, n: nat): string
    requires n <= |chunks|
  {
    if n == 0 then [] else Built(chunks, from, to, k, n - 1) + Filler(from, to, k, n - 1) + chunks[n - 1]
  }

  /** The chunks put back together with occurrence `k` replaced. */
  function Substitute(chunks: seq<string>, from: string, to: string, k: nat): string
  {
    Built(chunks, from, to, k, |chunks|)
  }

  /** What a `ChemTransformer` yields: one molecule per occurrence of
      `from` in `input`. */
  function Outputs(from: string, to: string, input: string): (r: seq<string>)
    ensures |r| == |Pieces(input, from)| - 1
  {
    var c := Pieces(input, from);
    seq(|c| - 1, i requires 0 <= i < |c| - 1 => Substitute(c, from, to, i + 1))
  }

  lemma JoinSnoc(p: seq<string>, x: string, sep: string)
    requires |p| >= 1
    ensures Join(p + [x], sep) == Join(p, sep) + sep + x
    decreases |p|
  {
    if |p| == 1 {
      assert p + [x] == [p[0]] + [x];
      JoinCons(p[0], [x], sep);
    } else {
      assert p + [x] == [p[0]] + (p[1..] + [x]);
      JoinCons(p[0], p[1..] + [x], sep);
      JoinSnoc(p[1..], x, sep);
      JoinCons(p[0], p[1..], sep);
      assert [p[0]] + p[1..] == p;
    }
  }

  /** Before the replaced occurrence, the chunks are joined by `from`. */
  lemma {:induction false} BuiltPlain(c: seq<string>, from: string, to: string, k: nat, n: nat)
    requires 1 <= n <= |c| && (k == 0 || k >= n)
    ensures Built(c, from, to, k, n) == Join(c[..n], from)
    decreases n
  {
    if n == 1 {
      assert c[..1] == [c[0]];
    } else {
      BuiltPlain(c, from, to, k, n - 1);
      assert c[..n] == c[..n - 1] + [c[n - 1]];
      JoinSnoc(c[..n - 1], c[n - 1], from);
    }
  }

  /** From the replaced occurrence on, `to` stands at it and `from` at the
      others. */
  lemma {:induction false} BuiltReplaced(c: seq<string>, from: string, to: string, k: nat, n: nat)
    requires 1 <= k < n <= |c|
    ensures Built(c, from, to, k, n) == Join(c[..k], from) + to + Join(c[k..n], from)
    decreases n
  {
    var p := Join(c[..k], from);
    if n == k + 1 {
      BuiltPlain(c, from, to, k, k);
      assert c[k..n] == [c[k]];
      assert Built(c, from, to, k, n) == p + to + c[k];
    } else {
      BuiltReplaced(c, from, to, k, n - 1);
      var q := Join(c[k..n - 1], from);
      assert c[k..n] == c[k..n - 1] + [c[n - 1]];
      JoinSnoc(c[k..n - 1], c[n - 1], from);
      assert Built(c, from, to, k, n) == Built(c, from, to, k, n - 1) + from + c[n - 1];
      Regroup(p, to, q, from, c[n - 1]);
    }
  }

  lemma Regroup(a: string, b: string, c: string, d: string, e: string)
    ensures a + b + c + d + e == a + b + (c + d + e)
  { }

  /** Replacing by the same text makes no difference to which occurrence
      is replaced. */
  lemma {:induction false} BuiltSameText(c: seq<string>, from: string, k: nat, n: nat)
    requires n <= |c|
    ensures Built(c, from, from, k, n) == Built(c, from, from, 0, n)
    decreases n
  {
    if n > 0 {
      BuiltSameText(c, from, k, n - 1);
    }
  }

  /** Replacing occurrence `k` of the chunks puts `to` where the join
      puts `from`. */
  lemma SubstituteSplits(c: seq<string>, from: string, to: string, k: nat)
    requires 1 <= k < |c|
    ensures Join(c, from) == Join(c[..k], from) + from + Join(c[k..], from)
    ensures Substitute(c, from, to, k) == Join(c[..k], from) + to + Join(c[k..], from)
  {
    BuiltPlain(c, from, from, 0, |c|);
    BuiltSameText(c, from, k, |c|);
    BuiltReplaced(c, from, from, k, |c|);
    BuiltReplaced(c, from, to, k, |c|);
    assert c[..|c|] == c && c[k..|c|] == c[k..];
  }

  /** The `k`-th molecule yielded is the input with its `k`-th occurrence
      of `from` replaced by `to`: the input is `before + from + after`, and
      the molecule `before + to + after`. */
  lemma OutputReplacesOne(from: string, to: string, input: string, k: nat)
    requires 1 <= k <= |Outputs(from, to, input)|
    ensures var c := Pieces(input, from);
      var before, after := Join(c[..k], from), Join(c[k..], from);
      input == before + from + after && Outputs(from, to, input)[k - 1] == before + to + after
  {
    PiecesRejoin(input, from);
    SubstituteSplits(Pieces(input, from), from, to, k);
  }

  /** A replacement by the same text yields the input once per occurrence. */
  lemma SameTextOutputs(from: string, input: string)
    ensures forall i :: 0 <= i < |Outputs(from, from, input)| ==> Outputs(from, from, input)[i] == input
  {
    forall i | 0 <= i < |Outputs(from, from, input)|
      ensures Outputs(from, from, input)[i] == input
    {
      OutputReplacesOne(from, from, input, i + 1);
    }
  }

  /** O => HH on HOH yields HHHH alone. */
  lemma OxygenExample()
    ensures Outputs("O", "HH", "HOH") == ["HHHH"]
  {
    assert "HOH" == "H" + ['O'] + "H";
    SplitAtChar("H", 'O', "H");
    SplitNoSeparator("H", 'O');
    var c := ["H", "H"];
    assert Pieces("HOH", "O") == c;
    assert Built(c, "O", "HH", 1, 1) == "H";
    assert Substitute(c, "O", "HH", 1) == "HHHH";
  }

  lemma HydrogenPieces()
    ensures Pieces("HOH", "H") == ["", "O", ""]
  {
    assert "HOH" == "" + ['H'] + "OH";
    assert "OH" == "O" + ['H'] + "";
    SplitAtChar("", 'H', "OH");
    SplitAtChar("O", 'H', "");
    SplitNoSeparator("", 'H');
  }

  /** H => HO on HOH yields HOOH, then HOHO. */
  lemma HydrogenExample()
    ensures Outputs("H", "HO", "HOH") == ["HOOH", "HOHO"]
  {
    HydrogenPieces();
    var c := ["", "O", ""];
    assert Built(c, "H", "HO", 1, 2) == "HOO";
    assert Built(c, "H", "HO", 2, 2) == "HO";
    assert Substitute(c, "H", "HO", 1) == "HOOH";
    assert Substitute(c, "H", "HO", 2) == "HOHO";
  }

  /** The iterator over the molecules of one replacement. */
  class ChemTransformer {
    const from: string
    const to: string
    const chunks: seq<string>
    var replIndex: nat

    predicate Valid()
      reads this
    {
      1 <= |chunks| && replIndex < |chunks|
    }

    /** The molecules still to come: the occurrences after `replIndex`. */
    function Remaining(): seq<string>
      reads this
      requires Valid()
    {
      var c, f, t, k := chunks, from, to, replIndex;
      seq(|c| - 1 - k, i requires 0 <= i < |c| - 1 - k => Substitute(c, f, t, k + 1 + i))
    }

    /** `ChemTransformer::new`: the input cut at the occurrences of
        `transFrom`. */
    constructor (transFrom: string, transTo: string, replaceItem: string)
      ensures Valid() && from == transFrom && to == transTo && chunks == Pieces(replaceItem, transFrom)
      ensures Remaining() == Outputs(transFrom, transTo, replaceItem)
    {
      chunks := Pieces(replaceItem, transFrom);
      from := transFrom;
      to := transTo;
      replIndex := 0;
    }

    /** `ChemTransformer::next`: the next occurrence is replaced, and once
        they are all done, nothing. */
    method Next() returns (o: Option<string>)
      requires Valid()
      modifies this
      ensures Valid()
      ensures old(Remaining()) == [] ==> o.None? && Remaining() == []
      ensures old(Remaining()) != [] ==> o == Some(old(Remaining())[0]) && Remaining() == old(Remaining())[1..]
    {
      ghost var before := Remaining();
      if replIndex < |chunks| - 1 {
        replIndex := replIndex + 1;
      } else {
        return None;
      }
      assert Remaining() == before[1..];
      assert before[0] == Substitute(chunks, from, to, replIndex);
      var ret: string := [];
      for i := 0 to |chunks|
        invariant ret == Built(chunks, from, to, replIndex, i)
      {
        if i != 0 {
          ret := ret + (if i == replIndex then to else from);
        }
        ret := ret + chunks[i];
      }
      o := Some(ret);
      assert ret == before[0];
    }
  }

  // ---------------------------------------------------------------------
  // Every replacement

  /** `order` lists the keys of `m`, each once. */
  predicate Listing(m: map<string, seq<string>>, order: seq<string>)
  {
    (forall i :: 0 <= i < |order| ==> order[i] in m)
    && (forall key :: key in m ==> key in order)
    && forall i, j :: 0 <= i < j < |order| ==> order[i] != order[j]
  }

  /** The entries of `m` in the order `order`. */
  function Entries(m: map<string, seq<string>>, order: seq<string>): (es: seq<(string, seq<string>)>)
    requires forall i :: 0 <= i < |order| ==> order[i] in m
    ensures |es| == |order| && forall i :: 0 <= i < |order| ==> es[i] == (order[i], m[order[i]])
  {
    seq(|order|, i requires 0 <= i < |order| => (order[i], m[order[i]]))
  }

  /** The molecules of the replacements of `from` by each of `tos`. */
  function Yields(from: string, tos: seq<string>, input: string): seq<string>
    decreases |tos|
  {
    if tos == [] then [] else Outputs(from, tos[0], input) + Yields(from, tos[1..], input)
  }

  /** The molecules of every entry, in order. */
  function YieldsAll(es: seq<(string, seq<string>)>, input: string): seq<string>
    decreases |es|
  {
    if es == [] then [] else Yields(es[0].0, es[0].1, input) + YieldsAll(es[1..], input)
  }

  /** What a `TransformEnumerator` yields when the map gives its keys in
      the order `order`. */
  function Enumeration(m: map<string, seq<string>>, order: seq<string>, input: string): seq<string>
    requires Listing(m, order)
  {
    YieldsAll(Entries(m, order), input)
  }

  /** `x` is among the molecules of replacing `from` by `tos[i]`. */
  predicate OutputOf(from: string, tos: seq<string>, i: int, input: string, x: string)
  {
    0 <= i < |tos| && x in Outputs(from, tos[i], input)
  }

  /** `x` is among the molecules of entry `i`. */
  predicate YieldOf(es: seq<(string, seq<string>)>, i: int, input: string, x: string)
  {
    0 <= i < |es| && x in Yields(es[i].0, es[i].1, input)
  }

  lemma {:induction false} YieldsMember(from: string, tos: seq<string>, input: string, x: string)
    ensures x in Yields(from, tos, input) <==> exists i :: OutputOf(from, tos, i, input, x)
    decreases |tos|
  {
    if tos != [] {
      var t := tos[1..];
      YieldsMember(from, t, input, x);
      assert Yields(from, tos, input) == Outputs(from, tos[0], input) + Yields(from, t, input);
      if x in Yields(from, tos, input) {
        if x in Outputs(from, tos[0], input) {
          assert OutputOf(from, tos, 0, input, x);
        } else {
          var i :| OutputOf(from, t, i, input, x);
          assert t[i] == tos[i + 1];
          assert OutputOf(from, tos, i + 1, input, x);
        }
      }
      if exists i :: OutputOf(from, tos, i, input, x) {
        var i :| OutputOf(from, tos, i, input, x);
        if i > 0 {
          assert t[i - 1] == tos[i];
          assert OutputOf(from, t, i - 1, input, x);
        }
      }
    }
  }

  lemma {:induction false} YieldsAllMember(es: seq<(string, seq<string>)>, input: string, x: string)
    ensures x in YieldsAll(es, input) <==> exists i :: YieldOf(es, i, input, x)
    decreases |es|
  {
    if es != [] {
      var t := es[1..];
      YieldsAllMember(t, input, x);
      assert YieldsAll(es, input) == Yields(es[0].0, es[0].1, input) + YieldsAll(t, input);
      if x in YieldsAll(es, input) {
        if x in Yields(es[0].0, es[0].1, input) {
          assert YieldOf(es, 0, input, x);
        } else {
          var i :| YieldOf(t, i, input, x);
          assert t[i] == es[i + 1];
          assert YieldOf(es, i + 1, input, x);
        }
      }
      if exists i :: YieldOf(es, i, input, x) {
        var i :| YieldOf(es, i, input, x);
        if i > 0 {
          assert t[i - 1] == es[i];
          assert YieldOf(t, i - 1, input, x);
        }
      }
    }
  }

  /** Whatever the order of the keys, the enumerator yields exactly the
      molecules of some replacement of some key. */
  lemma EnumerationMember(m: map<string, seq<string>>, order: seq<string>, input: string, x: string)
    requires Listing(m, order)
    ensures x in Enumeration(m, order, input) <==>
      exists from, to :: from in m && to in m[from] && x in Outputs(from, to, input)
  {
    var es := Entries(m, order);
    YieldsAllMember(es, input, x);
    if x in Enumeration(m, order, input) {
      var i :| YieldOf(es, i, input, x);
      YieldsMember(es[i].0, es[i].1, input, x);
      var j :| OutputOf(es[i].0, es[i].1, j, input, x);
      assert order[i] in m && m[order[i]][j] in m[order[i]];
    }
    if exists from, to :: from in m && to in m[from] && x in Outputs(from, to, input) {
      var from, to :| from in m && to in m[from] && x in Outputs(from, to, input);
      var i :| 0 <= i < |order| && order[i] == from;
      var j :| 0 <= j < |m[from]| && m[from][j] == to;
      YieldsMember(from, m[from], input, x);
      assert OutputOf(from, m[from], j, input, x);
      assert es[i] == (from, m[from]);
      assert YieldOf(es, i, input, x);
    }
  }

  /** The enumerator over every molecule of every replacement. */
  class TransformEnumerator {
    var pending: seq<(string, seq<string>)>
    var from: Option<string>
    var tos: seq<string>
    const input: string
    var ct: ChemTransformer?

    predicate Valid()
      reads this, ct
    {
      ct != null ==> ct.Valid()
    }

    /** The molecules after the current transformer's: those of the
        texts left for the current key, then those of the entries not
        reached. */
    function Later(): seq<string>
      reads this
    {
      (if from.Some? then Yields(from.value, tos, input) else []) + YieldsAll(pending, input)
    }

    /** The molecules still to come: the rest of the current transformer's,
        then the later ones. */
    function Remaining(): seq<string>
      reads this, ct
      requires Valid()
    {
      (if ct != null then ct.Remaining() else []) + Later()
    }

    /** `TransformEnumerator::new`, with the map's keys in the order
        `order`. */
    constructor (transforms: map<string, seq<string>>, order: seq<string>, text: string)
      requires Listing(transforms, order)
      ensures Valid() && input == text && Remaining() == Enumeration(transforms, order, text)
    {
      pending := Entries(transforms, order);
      from := None;
      tos := [];
      ct := null;
      input := text;
    }

    /** `TransformEnumerator::next`: the current transformer's next
        molecule, or else what `Advance` finds. */
    method Next() returns (o: Option<string>)
      requires Valid()
      modifies this, ct
      ensures Valid()
      ensures old(Remaining()) == [] ==> o.None? && Remaining() == []
      ensures old(Remaining()) != [] ==> o == Some(old(Remaining())[0]) && Remaining() == old(Remaining())[1..]
      ensures ct == old(ct) || fresh(ct)
      decreases |pending|, if from.Some? then 1 else 0, |tos|, 1
    {
      o := Current();
      if o.None? {
        o := Advance();
      }
    }

    /** The start of `TransformEnumerator::next`: the current
        transformer's next molecule, if there is one. */
    method Current() returns (o: Option<string>)
      requires Valid()
      modifies ct
      ensures Valid()
      ensures o.None? ==> (ct != null ==> ct.Remaining() == []) && Remaining() == old(Remaining())
      ensures o.Some? ==> old(Remaining()) != [] && o == Some(old(Remaining())[0]) && Remaining() == old(Remaining())[1..]
    {
      if ct == null {
        return None;
      }
      ghost var later := Later();
      ghost var rest := ct.Remaining();
      assert old(Remaining()) == rest + later;
      o := ct.Next();
      assert Later() == later;
      assert Remaining() == ct.Remaining() + later;
    }

    /** The rest of `TransformEnumerator::next`, once the current
        transformer has nothing more: `Step`, and try again. */
    method Advance() returns (o: Option<string>)
      requires Valid() && (ct != null ==> ct.Remaining() == [])
      modifies this, ct
      ensures Valid()
      ensures old(Later()) == [] ==> o.None? && Remaining() == []
      ensures old(Later()) != [] ==> o == Some(old(Later())[0]) && Remaining() == old(Later())[1..]
      ensures ct == old(ct) || fresh(ct)
      decreases |pending|, if from.Some? then 1 else 0, |tos|, 0
    {
      var more := Step();
      if !more {
        return None;
      }
      o := Next();
    }

    /** One move of `next` between transformers: the next key when there
        is no current one (none left, and there is nothing more), then the
        next text for it and a new transformer for that text, or, with no
        text left, no current key. What is to come stays the same. */
    method Step() returns (more: bool)
      requires Valid() && (ct != null ==> ct.Remaining() == [])
      modifies this
      ensures Valid()
      ensures !more ==> old(Later()) == [] && Remaining() == []
      ensures more ==> Remaining() == old(Later())
      ensures ct == old(ct) || fresh(ct)
      ensures more ==> (|pending| < old(|pending|) || (|pending| == old(|pending|) &&
        ((from.None? && old(from.Some?)) || (from.Some? == old(from.Some?) && |tos| < old(|tos|)))))
    {
      if from.None? {
        if pending == [] {
          return false;
        }
        from := Some(pending[0].0);
        tos := pending[0].1;
        pending := pending[1..];
      }
      if tos == [] {
        from := None;
        return true;
      }
      var curTo := tos[0];
      tos := tos[1..];
      ct := new ChemTransformer(from.value, curTo, input);
      more := true;
    }
  }
}
