// Day 12, the Python solution: generators that yield every number of a
// decoded JSON document, and a variant that skips objects with a "red"
// value. The document is the same JSON datatype as the Rust solution's.

module Day12Py {
  import opened Text
  import opened Day12

  /** `json_numbers`: an int yields itself, and so does a bool (True is 1
      in Python); a list yields its items' numbers in order; a dict yields
      the numbers of each key and then of its value; strings, floats and
      None yield nothing. */
  function JsonNumbers(data: Json): (r: seq<int>)
    ensures data.Null? || data.Str? ==> r == []
    ensures data.Bool? ==> r == [if data.b then 1 else 0]
    ensures data.Num? ==> (r == [] <==> data.n.Fractional?)
    decreases data
  {
    match data
    case Array(items) => ItemNumbers(items)
    case Object(entries) => EntryNumbers(entries)
    case _ => ScalarNumbers(data)
  }

  /** The branch for a value that is neither a list nor a dict. */
  function ScalarNumbers(data: Json): seq<int>
  {
    match data
    case Bool(b) => [if b then 1 else 0]
    case Num(n) => if n.Integer? then [n.i] else []
    case _ => []
  }

  function ItemNumbers(items: seq<Json>): seq<int>
    decreases items
  {
    if items == [] then [] else JsonNumbers(items[0]) + ItemNumbers(items[1..])
  }

  function EntryNumbers(entries: seq<(string, Json)>): seq<int>
    decreases entries
  {
    if entries == [] then []
    else
      assert entries[0].1 < entries[0];
      KeyNumbers(entries[0].0) + JsonNumbers(entries[0].1) + EntryNumbers(entries[1..])
  }

  /** `"red" in data.values()`. */
  predicate HasRedValue(entries: seq<(string, Json)>)
  {
    exists k :: 0 <= k < |entries| && entries[k].1 == Str("red")
  }

  /** `json_numbers_unred`: as `json_numbers`, but a dict with a "red"
      value yields nothing at all. */
  function JsonNumbersUnred(data: Json): seq<int>
    decreases data
  {
    match data
    case Array(items) => ItemNumbersUnred(items)
    case Object(entries) => if HasRedValue(entries) then [] else EntryNumbersUnred(entries)
    case _ => ScalarNumbers(data)
  }

  function ItemNumbersUnred(items: seq<Json>): seq<int>
    decreases items
  {
    if items == [] then [] else JsonNumbersUnred(items[0]) + ItemNumbersUnred(items[1..])
  }

  function EntryNumbersUnred(entries: seq<(string, Json)>): seq<int>
    decreases entries
  {
    if entries == [] then []
    else
      assert entries[0].1 < entries[0];
      KeyNumbers(entries[0].0) + JsonNumbersUnred(entries[0].1) + EntryNumbersUnred(entries[1..])
  }

  /** What the generator yields for a dict key, which is always a string. */
  function KeyNumbers(k: string): seq<int>
  {
    ScalarNumbers(Str(k))
  }

  /** A key yields nothing. */
  lemma KeysYieldNothing(k: string)
    ensures KeyNumbers(k) == []
  {
  }

  lemma EntryCons(entries: seq<(string, Json)>)
    requires entries != []
    ensures EntryNumbers(entries) == JsonNumbers(entries[0].1) + EntryNumbers(entries[1..])
    ensures EntryNumbersUnred(entries) == JsonNumbersUnred(entries[0].1) + EntryNumbersUnred(entries[1..])
  {
    EntryConsAll(entries);
    EntryConsUnred(entries);
  }

  lemma EntryConsAll(entries: seq<(string, Json)>)
    requires entries != []
    ensures EntryNumbers(entries) == JsonNumbers(entries[0].1) + EntryNumbers(entries[1..])
  {
    KeysYieldNothing(entries[0].0);
    var x, y := JsonNumbers(entries[0].1), EntryNumbers(entries[1..]);
    assert [] + x + y == x + y;
  }

  lemma EntryConsUnred(entries: seq<(string, Json)>)
    requires entries != []
    ensures EntryNumbersUnred(entries) == JsonNumbersUnred(entries[0].1) + EntryNumbersUnred(entries[1..])
  {
    KeysYieldNothing(entries[0].0);
    var u, w := JsonNumbersUnred(entries[0].1), EntryNumbersUnred(entries[1..]);
    assert [] + u + w == u + w;
  }

  /** No booleans, and every integer fits in an i64: the documents on
      which both solutions agree. */
  predicate Plain(v: Json)
    decreases v
  {
    match v
    case Bool(_) => false
    case Num(n) => n.Integer? ==> I64_MIN <= n.i <= I64_MAX
    case Array(items) => forall k :: 0 <= k < |items| ==> Plain(items[k])
    case Object(entries) => forall k :: 0 <= k < |entries| ==> Plain(entries[k].1)
    case _ => true
  }

  /** On a plain document the sum of `json_numbers` is the Rust sum with
      every object accepted. */
  lemma {:induction false} AgreesWithRust(v: Json)
    requires Plain(v)
    ensures Sum(JsonNumbers(v)) == SumOfNumbersIn(v, AcceptAll)
    decreases v
  {
    match v
    case Array(items) => ItemsAgree(items);
    case Object(entries) => EntriesAgree(entries);
    case _ =>
  }

  lemma {:induction false} ItemsAgree(items: seq<Json>)
    requires forall k :: 0 <= k < |items| ==> Plain(items[k])
    ensures Sum(ItemNumbers(items)) == SumItems(items, AcceptAll)
    decreases items
  {
    if items != [] {
      AgreesWithRust(items[0]);
      ItemsAgree(items[1..]);
      SumAppend(JsonNumbers(items[0]), ItemNumbers(items[1..]));
    }
  }

  lemma {:induction false} EntriesAgree(entries: seq<(string, Json)>)
    requires forall k :: 0 <= k < |entries| ==> Plain(entries[k].1)
    ensures Sum(EntryNumbers(entries)) == SumValues(entries, AcceptAll)
    decreases entries
  {
    if entries != [] {
      assert entries[0].1 < entries[0];
      AgreesWithRust(entries[0].1);
      EntriesAgree(entries[1..]);
      EntryCons(entries);
      SumAppend(JsonNumbers(entries[0].1), EntryNumbers(entries[1..]));
    }
  }

  /** On a plain document the sum of `json_numbers_unred` is the Rust sum
      with the red filter: both skip exactly the objects with a "red"
      value. */
  lemma {:induction false} UnredAgreesWithRust(v: Json)
    requires Plain(v)
    ensures Sum(JsonNumbersUnred(v)) == SumOfNumbersIn(v, NotRed)
    decreases v
  {
    match v
    case Array(items) => ItemsUnredAgree(items);
    case Object(entries) => EntriesUnredAgree(entries);
    case _ =>
  }

  lemma {:induction false} ItemsUnredAgree(items: seq<Json>)
    requires forall k :: 0 <= k < |items| ==> Plain(items[k])
    ensures Sum(ItemNumbersUnred(items)) == SumItems(items, NotRed)
    decreases items
  {
    if items != [] {
      UnredAgreesWithRust(items[0]);
      ItemsUnredAgree(items[1..]);
      SumAppend(JsonNumbersUnred(items[0]), ItemNumbersUnred(items[1..]));
    }
  }

  lemma {:induction false} EntriesUnredAgree(entries: seq<(string, Json)>)
    requires forall k :: 0 <= k < |entries| ==> Plain(entries[k].1)
    ensures Sum(EntryNumbersUnred(entries)) == SumValues(entries, NotRed)
    decreases entries
  {
    if entries != [] {
      assert entries[0].1 < entries[0];
      UnredAgreesWithRust(entries[0].1);
      EntriesUnredAgree(entries[1..]);
      EntryCons(entries);
      SumAppend(JsonNumbersUnred(entries[0].1), EntryNumbersUnred(entries[1..]));
    }
  }

  /** Where the two solutions part: a boolean counts 1 in Python and 0 in
      Rust. */
  lemma BooleanDiffers()
    ensures Sum(JsonNumbers(Array([Bool(true)]))) == 1
    ensures SumOfNumbersIn(Array([Bool(true)]), AcceptAll) == 0
  {
    assert [Bool(true)][1..] == [];
  }

  // The docstring examples: [1,2,3] gives 6, [[[3]]] gives 3,
  // {"a":[-1,1]} gives 0 and [] gives 0.

  lemma ExampleFlat()
    ensures Sum(JsonNumbers(Array([Num(Integer(1)), Num(Integer(2)), Num(Integer(3))]))) == 6
  {
    AgreesWithRust(Array([Num(Integer(1)), Num(Integer(2)), Num(Integer(3))]));
    Day12.Examples();
  }

  lemma ExampleNested()
    ensures Sum(JsonNumbers(Array([Array([Array([Num(Integer(3))])])]))) == 3
  {
    AgreesWithRust(Array([Array([Array([Num(Integer(3))])])]));
    Day12.Examples();
  }

  lemma ExampleObject()
    ensures Sum(JsonNumbers(Object([("a", Array([Num(Integer(-1)), Num(Integer(1))]))]))) == 0
    ensures Sum(JsonNumbers(Array([]))) == 0
  {
    AgreesWithRust(Object([("a", Array([Num(Integer(-1)), Num(Integer(1))]))]));
    Day12.Examples();
  }
}
