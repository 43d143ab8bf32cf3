// Day 16: what each Aunt Sue is remembered to own, read from lines such as
// `cats: 7, trees: 3`, and matched against the ticker tape of the analysis
// machine, exactly or with the retro-encabulator's ranges.

module Day16 {
  import opened Text

  /** The ten compounds the machine detects. */
  datatype Compound = Children | Cats | Samoyeds | Pomeranians | Akitas | Vizslas | Goldfish | Trees | Cars | Perfumes

  /** `MfcsamQtys`: a quantity per compound, or `None` when it is not
      remembered. */
  datatype Qtys = Qtys(
    children: Option<nat>, cats: Option<nat>, samoyeds: Option<nat>, pomeranians: Option<nat>,
    akitas: Option<nat>, vizslas: Option<nat>, goldfish: Option<nat>, trees: Option<nat>,
    cars: Option<nat>, perfumes: Option<nat>)

  /** `MfcsamQtys::default()`: nothing remembered. */
  const Blank := Qtys(None, None, None, None, None, None, None, None, None, None)

  /** `RESULT`: the machine's reading. */
  const Reading := Qtys(Some(3), Some(7), Some(2), Some(3), Some(0), Some(0), Some(5), Some(3), Some(2), Some(1))

  /** The field of a compound. */
  function Get(q: Qtys, c: Compound): Option<nat>
  {
    match c
    case Children => q.children
    case Cats => q.cats
    case Samoyeds => q.samoyeds
    case Pomeranians => q.pomeranians
    case Akitas => q.akitas
    case Vizslas => q.vizslas
    case Goldfish => q.goldfish
    case Trees => q.trees
    case Cars => q.cars
    case Perfumes => q.perfumes
  }

  /** Setting the field of a compound. */
  function Set(q: Qtys, c: Compound, n: nat): (r: Qtys)
    ensures Get(r, c) == Some(n)
    ensures forall d :: d != c ==> Get(r, d) == Get(q, d)
  {
    match c
    case Children => q.(children := Some(n))
    case Cats => q.(cats := Some(n))
    case Samoyeds => q.(samoyeds := Some(n))
    case Pomeranians => q.(pomeranians := Some(n))
    case Akitas => q.(akitas := Some(n))
    case Vizslas => q.(vizslas := Some(n))
    case Goldfish => q.(goldfish := Some(n))
    case Trees => q.(trees := Some(n))
    case Cars => q.(cars := Some(n))
    case Perfumes => q.(perfumes := Some(n))
  }

  /** Two records with the same field for every compound are the same. */
  lemma SameFields(a: Qtys, b: Qtys)
    requires forall c :: Get(a, c) == Get(b, c)
    ensures a == b
  {
    assert Get(a, Children) == Get(b, Children) && Get(a, Cats) == Get(b, Cats);
    assert Get(a, Samoyeds) == Get(b, Samoyeds) && Get(a, Pomeranians) == Get(b, Pomeranians);
    assert Get(a, Akitas) == Get(b, Akitas) && Get(a, Vizslas) == Get(b, Vizslas);
    assert Get(a, Goldfish) == Get(b, Goldfish) && Get(a, Trees) == Get(b, Trees);
    assert Get(a, Cars) == Get(b, Cars) && Get(a, Perfumes) == Get(b, Perfumes);
  }

  /** The name a compound goes by in the input. */
  function Name(c: Compound): string
  {
    match c
    case Children => "children"
    case Cats => "cats"
    case Samoyeds => "samoyeds"
    case Pomeranians => "pomeranians"
    case Akitas => "akitas"
    case Vizslas => "vizslas"
    case Goldfish => "goldfish"
    case Trees => "trees"
    case Cars => "cars"
    case Perfumes => "perfumes"
  }

  /** The compound an item name stands for; any other name is none. */
  function Named(name: string): (r: Option<Compound>)
    ensures r.Some? ==> Name(r.value) == name
  {
    if name == "children" then Some(Children)
    else if name == "cats" then Some(Cats)
    else if name == "samoyeds" then Some(Samoyeds)
    else if name == "pomeranians" then Some(Pomeranians)
    else if name == "akitas" then Some(Akitas)
    else if name == "vizslas" then Some(Vizslas)
    else if name == "goldfish" then Some(Goldfish)
    else if name == "trees" then Some(Trees)
    else if name == "cars" then Some(Cars)
    else if name == "perfumes" then Some(Perfumes)
    else None
  }

  /** Every compound is known by its name, and by no other. */
  lemma NamedName(c: Compound, name: string)
    ensures Named(Name(c)) == Some(c)
    ensures Named(name) == Some(c) <==> name == Name(c)
  {
  }

  // ---------------------------------------------------------------------
  // Reading a list of possessions

  datatype Error = MalformedItem(item: string) | ParseInt

  datatype Result<T> = Ok(value: T) | Err(error: Error)

  /** One comma-separated item, trimmed and split on `:`: a name and a
      trimmed `u32`. A missing quantity or a second `:` is malformed; a
      quantity that does not read is reported before a second `:`. */
  function ReadItem(raw: string): (r: Result<(string, nat)>)
    ensures r.Ok? ==> r.value.1 <= U32_MAX
  {
    var item := Trim(raw);
    var kvs := Split(item, ":");
    if |kvs| < 2 then Err(MalformedItem(item))
    else
      match ParseU32(Trim(kvs[1]))
      case None => Err(ParseInt)
      case Some(qty) => if |kvs| > 2 then Err(MalformedItem(item)) else Ok((kvs[0], qty))
  }

  /** A read item set on the record: a known name sets its compound, any
      other is ignored. */
  function Record(q: Qtys, name: string, qty: nat): (r: Qtys)
    ensures Named(name).None? ==> r == q
  {
    match Named(name)
    case None => q
    case Some(c) => Set(q, c, qty)
  }

  /** Every item of a list, read. */
  function ReadAll(items: seq<string>): (rs: seq<Result<(string, nat)>>)
    ensures |rs| == |items| && forall k :: 0 <= k < |items| ==> rs[k] == ReadItem(items[k])
  {
    seq(|items|, k requires 0 <= k < |items| => ReadItem(items[k]))
  }

  /** The read items applied in order to a record, stopping at the first
      that did not read. */
  function Apply(q: Qtys, rs: seq<Result<(string, nat)>>): Result<Qtys>
    decreases |rs|
  {
    if rs == [] then Ok(q)
    else
      match rs[0]
      case Err(e) => Err(e)
      case Ok(kv) => Apply(Record(q, kv.0, kv.1), rs[1..])
  }

  /** What `from_str` gives for the text after `Sue <n>: `. */
  function Possessions(s: string): Result<Qtys>
  {
    Apply(Blank, ReadAll(Split(s, ",")))
  }

  /** The `match` on an item's name: one of the ten names sets its field,
      any other leaves the record as it is. */
  method Store(qtys: Qtys, name: string, qty: nat) returns (r: Qtys)
    ensures r == Record(qtys, name, qty)
  {
    r := qtys;
    if name == "children" {
      r := r.(children := Some(qty));
    } else if name == "cats" {
      r := r.(cats := Some(qty));
    } else if name == "samoyeds" {
      r := r.(samoyeds := Some(qty));
    } else if name == "pomeranians" {
      r := r.(pomeranians := Some(qty));
    } else if name == "akitas" {
      r := r.(akitas := Some(qty));
    } else if name == "vizslas" {
      r := r.(vizslas := Some(qty));
    } else if name == "goldfish" {
      r := r.(goldfish := Some(qty));
    } else if name == "trees" {
      r := r.(trees := Some(qty));
    } else if name == "cars" {
      r := r.(cars := Some(qty));
    } else if name == "perfumes" {
      r := r.(perfumes := Some(qty));
    }
  }

  /** `MfcsamQtys::from_str`. */
  method FromStr(s: string) returns (r: Result<Qtys>)
    ensures r == Possessions(s)
  {
    var qtys := Blank;
    var items := Split(s, ",");
    ghost var rs := ReadAll(items);
    for k := 0 to |items|
      invariant Apply(qtys, rs[k..]) == Possessions(s)
    {
      assert rs[k..][1..] == rs[k + 1..];
      assert rs[k..][0] == ReadItem(items[k]);
      var item := Trim(items[k]);
      var kvs := Split(item, ":");
      if |kvs| < 2 {
        return Err(MalformedItem(item));
      }
      var name := kvs[0];
      var parsed := ParseU32(Trim(kvs[1]));
      if parsed.None? {
        return Err(ParseInt);
      }
      var qty := parsed.value;
      if |kvs| > 2 {
        return Err(MalformedItem(item));
      }
      qtys := Store(qtys, name, qty);
    }
    assert rs[|items|..] == [];
    return Ok(qtys);
  }

  /** The list reads exactly when every item does. */
  lemma {:induction false} ApplyOk(q: Qtys, rs: seq<Result<(string, nat)>>)
    ensures Apply(q, rs).Ok? <==> forall k :: 0 <= k < |rs| ==> rs[k].Ok?
    decreases |rs|
  {
    if rs != [] && rs[0].Ok? {
      ApplyOk(Record(q, rs[0].value.0, rs[0].value.1), rs[1..]);
      assert forall k :: 1 <= k < |rs| ==> rs[1..][k - 1] == rs[k];
    }
  }

  /** The error is the first failing item's. */
  lemma {:induction false} ApplyFirstError(q: Qtys, rs: seq<Result<(string, nat)>>, k: nat)
    requires k < |rs| && rs[k].Err?
    requires forall j :: 0 <= j < k ==> rs[j].Ok?
    ensures Apply(q, rs) == Err(rs[k].error)
    decreases k
  {
    if k > 0 {
      assert forall j :: 0 <= j < k - 1 ==> rs[1..][j] == rs[j + 1];
      ApplyFirstError(Record(q, rs[0].value.0, rs[0].value.1), rs[1..], k - 1);
    }
  }

  /** A read item naming a compound. */
  predicate Names(r: Result<(string, nat)>, c: Compound)
  {
    r.Ok? && r.value.0 == Name(c)
  }

  /** A record keeps the field of a compound an item does not name. */
  lemma RecordOther(q: Qtys, kv: (string, nat), c: Compound)
    requires kv.0 != Name(c)
    ensures Get(Record(q, kv.0, kv.1), c) == Get(q, c)
  {
    NamedName(c, kv.0);
  }

  /** A compound no item names keeps its field. */
  lemma {:induction false} ApplyUntouched(q: Qtys, rs: seq<Result<(string, nat)>>, c: Compound)
    requires Apply(q, rs).Ok?
    requires forall k :: 0 <= k < |rs| ==> !Names(rs[k], c)
    ensures Get(Apply(q, rs).value, c) == Get(q, c)
    decreases |rs|
  {
    if rs != [] {
      var kv := rs[0].value;
      assert !Names(rs[0], c);
      RecordOther(q, kv, c);
      assert forall k :: 0 <= k < |rs| - 1 ==> rs[1..][k] == rs[k + 1];
      ApplyUntouched(Record(q, kv.0, kv.1), rs[1..], c);
    }
  }

  /** A compound named by a read item, and by none after it, takes that
      item's quantity: a later duplicate wins. */
  lemma {:induction false} ApplyLast(q: Qtys, rs: seq<Result<(string, nat)>>, c: Compound, k: nat, n: nat)
    requires Apply(q, rs).Ok?
    requires k < |rs| && rs[k] == Ok((Name(c), n))
    requires forall j :: k < j < |rs| ==> !Names(rs[j], c)
    ensures Get(Apply(q, rs).value, c) == Some(n)
    decreases k
  {
    var kv := rs[0].value;
    var q' := Record(q, kv.0, kv.1);
    if k == 0 {
      NamedName(c, kv.0);
      assert forall j :: 0 <= j < |rs| - 1 ==> rs[1..][j] == rs[j + 1];
      ApplyUntouched(q', rs[1..], c);
    } else {
      assert forall j :: k - 1 < j < |rs| - 1 ==> rs[1..][j] == rs[j + 1];
      ApplyLast(q', rs[1..], c, k - 1, n);
    }
  }

  /** An item without a `:` is malformed. */
  lemma NoColonMalformed(raw: string)
    requires forall i :: 0 <= i < |Trim(raw)| ==> Trim(raw)[i] != ':'
    ensures ReadItem(raw) == Err(MalformedItem(Trim(raw)))
  {
    SplitNoSeparator(Trim(raw), ':');
  }

  /** An empty list of possessions is one malformed item. */
  lemma EmptyMalformed()
    ensures Possessions("") == Err(MalformedItem(""))
  {
    SplitNoSeparator("", ',');
    SplitNoSeparator("", ':');
    TrimUnchanged("");
  }

  // ---------------------------------------------------------------------
  // Writing a list of possessions

  const AllCompounds := [Children, Cats, Samoyeds, Pomeranians, Akitas, Vizslas, Goldfish, Trees, Cars, Perfumes]

  /** The place of a compound in `AllCompounds`. */
  function Index(c: Compound): (i: nat)
    ensures i < |AllCompounds| && AllCompounds[i] == c
  {
    match c
    case Children => 0
    case Cats => 1
    case Samoyeds => 2
    case Pomeranians => 3
    case Akitas => 4
    case Vizslas => 5
    case Goldfish => 6
    case Trees => 7
    case Cars => 8
    case Perfumes => 9
  }

  /** Each compound is listed once. */
  lemma AllCompoundsDistinct()
    ensures forall a, b :: 0 <= a < b < |AllCompounds| ==> AllCompounds[a] != AllCompounds[b]
  {
    forall a | 0 <= a < |AllCompounds|
      ensures Index(AllCompounds[a]) == a
    {
    }
  }

  /** The remembered compounds of `cs`, with their quantities, in order. */
  function EntriesOf(q: Qtys, cs: seq<Compound>): seq<(Compound, nat)>
  {
    if cs == [] then []
    else (if Get(q, cs[0]).Some? then [(cs[0], Get(q, cs[0]).value)] else []) + EntriesOf(q, cs[1..])
  }

  /** One item as the input writes it. */
  function ItemText(e: (Compound, nat)): string
  {
    Name(e.0) + ": " + DecimalString(e.1)
  }

  /** The items, each after the first with a space after its comma. */
  function Pieces(es: seq<(Compound, nat)>): (p: seq<string>)
    ensures |p| == |es|
  {
    if es == [] then [] else [ItemText(es[0])] + Spaced(es[1..])
  }

  function Spaced(es: seq<(Compound, nat)>): (p: seq<string>)
    ensures |p| == |es|
    ensures forall k :: 0 <= k < |es| ==> p[k] == " " + ItemText(es[k])
  {
    if es == [] then [] else [" " + ItemText(es[0])] + Spaced(es[1..])
  }

  /** The possessions written as `cats: 7, trees: 3`. */
  function Format(q: Qtys): string
  {
    Join(Pieces(EntriesOf(q, AllCompounds)), ",")
  }

  /** Every quantity fits a `u32`. */
  predicate Fits(q: Qtys)
  {
    forall c :: Get(q, c).Some? ==> Get(q, c).value <= U32_MAX
  }

  /** The entries are exactly the remembered compounds of `cs`. */
  lemma {:induction false} EntriesMember(q: Qtys, cs: seq<Compound>, e: (Compound, nat))
    ensures e in EntriesOf(q, cs) <==> e.0 in cs && Get(q, e.0) == Some(e.1)
    decreases |cs|
  {
    if cs != [] {
      var head := if Get(q, cs[0]).Some? then [(cs[0], Get(q, cs[0]).value)] else [];
      assert EntriesOf(q, cs) == head + EntriesOf(q, cs[1..]);
      assert e in EntriesOf(q, cs) <==> e in head || e in EntriesOf(q, cs[1..]);
      assert e.0 in cs <==> e.0 == cs[0] || e.0 in cs[1..];
      EntriesMember(q, cs[1..], e);
    }
  }

  /** Distinct compounds give entries with distinct compounds. */
  lemma {:induction false} DistinctEntries(q: Qtys, cs: seq<Compound>)
    requires forall a, b :: 0 <= a < b < |cs| ==> cs[a] != cs[b]
    ensures forall a, b :: 0 <= a < b < |EntriesOf(q, cs)| ==> EntriesOf(q, cs)[a].0 != EntriesOf(q, cs)[b].0
    decreases |cs|
  {
    if cs != [] {
      var head := if Get(q, cs[0]).Some? then [(cs[0], Get(q, cs[0]).value)] else [];
      var rest := EntriesOf(q, cs[1..]);
      DistinctEntries(q, cs[1..]);
      assert EntriesOf(q, cs) == head + rest;
      forall b | 0 <= b < |rest|
        ensures rest[b].0 != cs[0]
      {
        EntriesMember(q, cs[1..], rest[b]);
      }
    }
  }

  /** Names are non-empty runs of lower-case letters. */
  lemma NameLetters(c: Compound)
    ensures Name(c) != [] && forall i :: 0 <= i < |Name(c)| ==> IsAsciiLowerLetter(Name(c)[i])
  {
  }

  /** A text whose trimmed form splits on `:` into a name and a quantity
      reads as them. */
  lemma ReadItemOf(raw: string, name: string, qty: string, n: nat)
    requires Split(Trim(raw), ":") == [name, qty] && ParseU32(Trim(qty)) == Some(n)
    ensures ReadItem(raw) == Ok((name, n))
  {
  }

  /** A written item, with or without the space before it, trims to
      itself. */
  lemma ItemTextTrims(e: (Compound, nat), spaced: bool)
    ensures Trim(if spaced then " " + ItemText(e) else ItemText(e)) == ItemText(e)
  {
    var name, digits := Name(e.0), DecimalString(e.1);
    var text := ItemText(e);
    NameLetters(e.0);
    assert text[0] == name[0] && text[|text| - 1] == digits[|digits| - 1];
    if spaced {
      TrimSpaced(text);
    } else {
      TrimUnchanged(text);
    }
  }

  /** A written item splits on `:` into its name and the spaced
      quantity. */
  lemma ItemTextSplits(e: (Compound, nat))
    ensures Split(ItemText(e), ":") == [Name(e.0), " " + DecimalString(e.1)]
  {
    var name, digits := Name(e.0), DecimalString(e.1);
    NameLetters(e.0);
    assert ItemText(e) == name + [':'] + (" " + digits);
    SplitAtChar(name, ':', " " + digits);
    assert forall i :: 0 <= i < |" " + digits| ==> (" " + digits)[i] != ':';
    SplitNoSeparator(" " + digits, ':');
  }

  /** The spaced quantity reads back. */
  lemma SpacedQuantity(n: nat)
    requires n <= U32_MAX
    ensures ParseU32(Trim(" " + DecimalString(n))) == Some(n)
  {
    var digits := DecimalString(n);
    TrimSpaced(digits);
    ParseU32Decimal(n);
  }

  /** A written item, with or without the space before it, reads as its
      name and quantity. */
  lemma ReadItemText(e: (Compound, nat), spaced: bool)
    requires e.1 <= U32_MAX
    ensures ReadItem(if spaced then " " + ItemText(e) else ItemText(e)) == Ok((Name(e.0), e.1))
  {
    ItemTextTrims(e, spaced);
    ItemTextSplits(e);
    SpacedQuantity(e.1);
    ReadItemOf(if spaced then " " + ItemText(e) else ItemText(e), Name(e.0), " " + DecimalString(e.1), e.1);
  }

  /** No written item holds a comma. */
  lemma NoComma(e: (Compound, nat), spaced: bool)
    ensures var t := if spaced then " " + ItemText(e) else ItemText(e);
      forall i :: 0 <= i < |t| ==> t[i] != ','
  {
    NameLetters(e.0);
  }

  /** The written items read, each as its entry. */
  lemma PiecesRead(es: seq<(Compound, nat)>, k: nat)
    requires k < |es| && es[k].1 <= U32_MAX
    ensures ReadItem(Pieces(es)[k]) == Ok((Name(es[k].0), es[k].1))
  {
    ReadItemText(es[k], k > 0);
  }

  /** A record with something remembered has an entry. */
  lemma EntriesNonEmpty(q: Qtys)
    requires q != Blank
    ensures EntriesOf(q, AllCompounds) != []
  {
    var c: Compound :| Get(q, c).Some? by {
      if forall c: Compound :: Get(q, c).None? {
        SameFields(q, Blank);
      }
    }
    EntriesMember(q, AllCompounds, (c, Get(q, c).value));
  }

  /** The written form splits on commas into the written items. */
  lemma FormatSplits(q: Qtys)
    requires q != Blank
    ensures Split(Format(q), ",") == Pieces(EntriesOf(q, AllCompounds))
  {
    var es := EntriesOf(q, AllCompounds);
    var items := Pieces(es);
    EntriesNonEmpty(q);
    forall k, i | 0 <= k < |items| && 0 <= i < |items[k]|
      ensures items[k][i] != ','
    {
      NoComma(es[k], k > 0);
    }
    SplitJoinChar(items, ',');
  }

  /** The written items read as the entries. */
  lemma PiecesReadAll(q: Qtys)
    requires Fits(q)
    ensures var es := EntriesOf(q, AllCompounds);
      forall k :: 0 <= k < |es| ==> ReadAll(Pieces(es))[k] == Ok((Name(es[k].0), es[k].1))
  {
    var es := EntriesOf(q, AllCompounds);
    forall k | 0 <= k < |es|
      ensures ReadAll(Pieces(es))[k] == Ok((Name(es[k].0), es[k].1))
    {
      EntriesMember(q, AllCompounds, es[k]);
      PiecesRead(es, k);
    }
  }

  /** The written items all read. */
  lemma ReadBackOk(q: Qtys)
    requires Fits(q)
    ensures Apply(Blank, ReadAll(Pieces(EntriesOf(q, AllCompounds)))).Ok?
  {
    PiecesReadAll(q);
    ApplyOk(Blank, ReadAll(Pieces(EntriesOf(q, AllCompounds))));
  }

  /** A written item names the compound of its entry and no other. */
  lemma ReadBackNames(q: Qtys, c: Compound, j: nat)
    requires Fits(q) && j < |EntriesOf(q, AllCompounds)|
    ensures var es := EntriesOf(q, AllCompounds);
      Names(ReadAll(Pieces(es))[j], c) <==> es[j].0 == c
  {
    var es := EntriesOf(q, AllCompounds);
    PiecesReadAll(q);
    NamedName(es[j].0, Name(c));
    NamedName(c, Name(c));
  }

  /** A remembered compound has one entry, and none after it. */
  lemma EntryAt(q: Qtys, c: Compound, n: nat) returns (k: nat)
    requires Get(q, c) == Some(n)
    ensures var es := EntriesOf(q, AllCompounds);
      k < |es| && es[k] == (c, n) && forall j :: k < j < |es| ==> es[j].0 != c
  {
    var es := EntriesOf(q, AllCompounds);
    AllCompoundsDistinct();
    DistinctEntries(q, AllCompounds);
    EntriesMember(q, AllCompounds, (c, n));
    assert (c, n) in es;
    k :| 0 <= k < |es| && es[k] == (c, n);
  }

  /** Read back, a remembered compound has its quantity. */
  lemma FieldKept(q: Qtys, c: Compound, n: nat)
    requires Fits(q) && Get(q, c) == Some(n)
    ensures Apply(Blank, ReadAll(Pieces(EntriesOf(q, AllCompounds)))).Ok?
    ensures Get(Apply(Blank, ReadAll(Pieces(EntriesOf(q, AllCompounds)))).value, c) == Some(n)
  {
    var es := EntriesOf(q, AllCompounds);
    var rs := ReadAll(Pieces(es));
    ReadBackOk(q);
    var k := EntryAt(q, c, n);
    PiecesReadAll(q);
    forall j | k < j < |rs|
      ensures !Names(rs[j], c)
    {
      ReadBackNames(q, c, j);
    }
    ApplyLast(Blank, rs, c, k, n);
  }

  /** Read back, a compound not remembered is still not. */
  lemma FieldAbsent(q: Qtys, c: Compound)
    requires Fits(q) && Get(q, c).None?
    ensures Apply(Blank, ReadAll(Pieces(EntriesOf(q, AllCompounds)))).Ok?
    ensures Get(Apply(Blank, ReadAll(Pieces(EntriesOf(q, AllCompounds)))).value, c).None?
  {
    var es := EntriesOf(q, AllCompounds);
    var rs := ReadAll(Pieces(es));
    ReadBackOk(q);
    forall j | 0 <= j < |rs|
      ensures !Names(rs[j], c)
    {
      ReadBackNames(q, c, j);
      EntriesMember(q, AllCompounds, es[j]);
    }
    ApplyUntouched(Blank, rs, c);
  }

  /** A record with something remembered reads back from its written
      form. */
  lemma FormatRoundTrip(q: Qtys)
    requires q != Blank && Fits(q)
    ensures Possessions(Format(q)) == Ok(q)
  {
    var rs := ReadAll(Pieces(EntriesOf(q, AllCompounds)));
    FormatSplits(q);
    ReadBackOk(q);
    forall c: Compound
      ensures Get(Apply(Blank, rs).value, c) == Get(q, c)
    {
      if Get(q, c).Some? {
        FieldKept(q, c, Get(q, c).value);
      } else {
        FieldAbsent(q, c);
      }
    }
    SameFields(Apply(Blank, rs).value, q);
  }

  // ---------------------------------------------------------------------
  // Matching

  /** `x.map(|x| other == Some(x)).unwrap_or(true)`. */
  predicate Equal(mine: Option<nat>, theirs: Option<nat>)
  {
    match mine
    case None => true
    case Some(x) => theirs == Some(x)
  }

  /** The ordering of Rust's `Option`: `None` below every `Some`. */
  predicate OptionLess(a: Option<nat>, b: Option<nat>)
  {
    match (a, b)
    case (_, None) => false
    case (None, Some(_)) => true
    case (Some(x), Some(y)) => x < y
  }

  /** `x.map(|x| other < Some(x)).unwrap_or(true)`. */
  predicate Above(mine: Option<nat>, theirs: Option<nat>)
  {
    match mine
    case None => true
    case Some(x) => OptionLess(theirs, Some(x))
  }

  /** `x.map(|x| other > Some(x)).unwrap_or(true)`. */
  predicate Below(mine: Option<nat>, theirs: Option<nat>)
  {
    match mine
    case None => true
    case Some(x) => OptionLess(Some(x), theirs)
  }

  /** `matches`. */
  predicate Matches(a: Qtys, other: Qtys)
  {
    Equal(a.children, other.children) && Equal(a.cats, other.cats) && Equal(a.samoyeds, other.samoyeds)
    && Equal(a.pomeranians, other.pomeranians) && Equal(a.akitas, other.akitas)
    && Equal(a.vizslas, other.vizslas) && Equal(a.goldfish, other.goldfish)
    && Equal(a.trees, other.trees) && Equal(a.cars, other.cars) && Equal(a.perfumes, other.perfumes)
  }

  /** `matches_retro`: cats and trees must be more than the other's,
      pomeranians and goldfish fewer. */
  predicate MatchesRetro(a: Qtys, other: Qtys)
  {
    Equal(a.children, other.children) && Above(a.cats, other.cats) && Equal(a.samoyeds, other.samoyeds)
    && Below(a.pomeranians, other.pomeranians) && Equal(a.akitas, other.akitas)
    && Equal(a.vizslas, other.vizslas) && Below(a.goldfish, other.goldfish)
    && Above(a.trees, other.trees) && Equal(a.cars, other.cars) && Equal(a.perfumes, other.perfumes)
  }

  /** Every remembered compound has the other's quantity; a compound not
      remembered matches anything. */
  lemma MatchesExactly(a: Qtys, other: Qtys)
    ensures Matches(a, other) <==> forall c :: Get(a, c).Some? ==> Get(other, c) == Get(a, c)
  {
    if !Matches(a, other) {
      var c :| Get(a, c).Some? && Get(other, c) != Get(a, c) by {
        if !Equal(a.children, other.children) { assert Get(a, Children).Some?; }
        else if !Equal(a.cats, other.cats) { assert Get(a, Cats).Some?; }
        else if !Equal(a.samoyeds, other.samoyeds) { assert Get(a, Samoyeds).Some?; }
        else if !Equal(a.pomeranians, other.pomeranians) { assert Get(a, Pomeranians).Some?; }
        else if !Equal(a.akitas, other.akitas) { assert Get(a, Akitas).Some?; }
        else if !Equal(a.vizslas, other.vizslas) { assert Get(a, Vizslas).Some?; }
        else if !Equal(a.goldfish, other.goldfish) { assert Get(a, Goldfish).Some?; }
        else if !Equal(a.trees, other.trees) { assert Get(a, Trees).Some?; }
        else if !Equal(a.cars, other.cars) { assert Get(a, Cars).Some?; }
        else { assert Get(a, Perfumes).Some?; }
      }
    }
  }

  /** The test `matches_retro` makes of one remembered quantity. */
  predicate RetroFits(c: Compound, mine: nat, theirs: Option<nat>)
  {
    match c
    case Cats => theirs.None? || theirs.value < mine
    case Trees => theirs.None? || theirs.value < mine
    case Pomeranians => theirs.Some? && mine < theirs.value
    case Goldfish => theirs.Some? && mine < theirs.value
    case _ => theirs == Some(mine)
  }

  /** `matches_retro` applies its test to every remembered compound. */
  lemma MatchesRetroExactly(a: Qtys, other: Qtys)
    ensures MatchesRetro(a, other) <==> forall c :: Get(a, c).Some? ==> RetroFits(c, Get(a, c).value, Get(other, c))
  {
    if !MatchesRetro(a, other) {
      var c :| Get(a, c).Some? && !RetroFits(c, Get(a, c).value, Get(other, c)) by {
        if !Equal(a.children, other.children) { assert Get(a, Children).Some?; }
        else if !Above(a.cats, other.cats) { assert Get(a, Cats).Some?; }
        else if !Equal(a.samoyeds, other.samoyeds) { assert Get(a, Samoyeds).Some?; }
        else if !Below(a.pomeranians, other.pomeranians) { assert Get(a, Pomeranians).Some?; }
        else if !Equal(a.akitas, other.akitas) { assert Get(a, Akitas).Some?; }
        else if !Equal(a.vizslas, other.vizslas) { assert Get(a, Vizslas).Some?; }
        else if !Below(a.goldfish, other.goldfish) { assert Get(a, Goldfish).Some?; }
        else if !Above(a.trees, other.trees) { assert Get(a, Trees).Some?; }
        else if !Equal(a.cars, other.cars) { assert Get(a, Cars).Some?; }
        else { assert Get(a, Perfumes).Some?; }
      }
    }
  }

  /** Against the reading, which remembers everything, a retro match
      wants more cats and trees, and fewer pomeranians and goldfish, than
      the tape shows. */
  lemma RetroAgainstReading(a: Qtys, c: Compound)
    requires Get(a, c).Some?
    ensures var mine, shown := Get(a, c).value, Get(Reading, c).value;
      RetroFits(c, mine, Get(Reading, c)) <==>
        if c == Cats || c == Trees then mine > shown
        else if c == Pomeranians || c == Goldfish then mine < shown
        else mine == shown
  {
  }

  /** Remembering nothing matches any reading. */
  lemma MatchesBlank(other: Qtys)
    ensures Matches(Blank, other) && MatchesRetro(Blank, other)
  {
  }

  /** Every record matches itself. */
  lemma MatchesSelf(a: Qtys)
    ensures Matches(a, a)
  {
  }

  /** The retro test takes pomeranians as fewer than the tape's three,
      though the comment before `matches_retro` says more: two matches and
      four does not. */
  lemma PomeraniansFewer()
    ensures MatchesRetro(Blank.(pomeranians := Some(2)), Reading)
    ensures !MatchesRetro(Blank.(pomeranians := Some(4)), Reading)
  {
  }

  /** Aunt Sue `num` and what she is remembered to own. */
  datatype Sue = Sue(num: nat, possessions: Qtys)

  /** `Sue::can_be`. */
  function CanBe(sue: Sue, qtys: Qtys): (b: bool)
    ensures b <==> forall c :: Get(sue.possessions, c).Some? ==> Get(qtys, c) == Get(sue.possessions, c)
  {
    MatchesExactly(sue.possessions, qtys);
    Matches(sue.possessions, qtys)
  }

  /** `Sue::can_be_retro`. */
  function CanBeRetro(sue: Sue, qtys: Qtys): (b: bool)
    ensures b <==> forall c :: Get(sue.possessions, c).Some? ==>
      RetroFits(c, Get(sue.possessions, c).value, Get(qtys, c))
  {
    MatchesRetroExactly(sue.possessions, qtys);
    MatchesRetro(sue.possessions, qtys)
  }
}
