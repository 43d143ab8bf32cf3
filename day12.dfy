// Day 12: adding up every number in a JSON document, optionally skipping
// objects that a filter rejects.

module Day12 {

  const I64_MIN: int := -0x8000_0000_0000_0000
  const I64_MAX: int := 0x7FFF_FFFF_FFFF_FFFF

  /** A JSON number: an integer, or one written with a fraction or an
      exponent. */
  datatype Number = Integer(i: int) | Fractional

  /** A parsed JSON value; an object keeps its entries in document order. */
  datatype Json =
    | Null
    | Bool(b: bool)
    | Num(n: Number)
    | Str(s: string)
    | Array(items: seq<Json>)
    | Object(entries: seq<(string, Json)>)

  /** `as_i64().unwrap_or_default()`: an integer that fits in an i64, else 0. */
  function AsI64OrZero(n: Number): (r: int)
    ensures r != 0 ==> n.Integer? && r == n.i
    ensures n.Integer? && I64_MIN <= n.i <= I64_MAX ==> r == n.i
    ensures I64_MIN <= r <= I64_MAX
  {
    if n.Integer? && I64_MIN <= n.i <= I64_MAX then n.i else 0
  }

  /** `sum_of_numbers_in`: numbers count as themselves, arrays as the sum of
      their items, objects as the sum of their values if `keep` accepts
      them and 0 otherwise; strings, booleans and null count 0. */
  function SumOfNumbersIn(v: Json, keep: seq<(string, Json)> -> bool): (r: int)
    ensures v.Null? || v.Bool? || v.Str? ==> r == 0
    ensures v.Num? ==> I64_MIN <= r <= I64_MAX && (r != 0 ==> v.n.Integer?)
    ensures v.Object? && !keep(v.entries) ==> r == 0
    decreases v
  {
    match v
    case Num(n) => AsI64OrZero(n)
    case Array(items) => SumItems(items, keep)
    case Object(entries) => if keep(entries) then SumValues(entries, keep) else 0
    case _ => 0
  }

  function SumItems(items: seq<Json>, keep: seq<(string, Json)> -> bool): int
    decreases items
  {
    if items == [] then 0 else SumOfNumbersIn(items[0], keep) + SumItems(items[1..], keep)
  }

  function SumValues(entries: seq<(string, Json)>, keep: seq<(string, Json)> -> bool): int
    decreases entries
  {
    if entries == [] then 0
    else
      assert entries[0].1 < entries[0];
      SumOfNumbersIn(entries[0].1, keep) + SumValues(entries[1..], keep)
  }

  /** The first part's filter: every object counts. */
  function AcceptAll(entries: seq<(string, Json)>): (r: bool)
    ensures r
  {
    true
  }

  /** The second part's filter: an object is skipped when one of its own
      values is the string "red". */
  function NotRed(entries: seq<(string, Json)>): (r: bool)
    ensures r <==> forall k :: 0 <= k < |entries| ==> entries[k].1 != Str("red")
  {
    forall k :: 0 <= k < |entries| ==> entries[k].1 != Str("red")
  }

  /** No object anywhere in `v` has the value "red". */
  predicate NoRed(v: Json)
    decreases v
  {
    match v
    case Array(items) => forall k :: 0 <= k < |items| ==> NoRed(items[k])
    case Object(entries) =>
      NotRed(entries) && forall k :: 0 <= k < |entries| ==> NoRed(entries[k].1)
    case _ => true
  }

  /** Without a red object both filters give the same sum. */
  lemma {:induction false} NoRedSameSum(v: Json)
    requires NoRed(v)
    ensures SumOfNumbersIn(v, NotRed) == SumOfNumbersIn(v, AcceptAll)
    decreases v
  {
    match v
    case Array(items) => NoRedItems(items);
    case Object(entries) => NoRedValues(entries);
    case _ =>
  }

  lemma {:induction false} NoRedItems(items: seq<Json>)
    requires forall k :: 0 <= k < |items| ==> NoRed(items[k])
    ensures SumItems(items, NotRed) == SumItems(items, AcceptAll)
    decreases items
  {
    if items != [] {
      NoRedSameSum(items[0]);
      NoRedItems(items[1..]);
    }
  }

  lemma {:induction false} NoRedValues(entries: seq<(string, Json)>)
    requires forall k :: 0 <= k < |entries| ==> NoRed(entries[k].1)
    ensures SumValues(entries, NotRed) == SumValues(entries, AcceptAll)
    decreases entries
  {
    if entries != [] {
      assert entries[0].1 < entries[0];
      NoRedSameSum(entries[0].1);
      NoRedValues(entries[1..]);
    }
  }

  /** Only an object's own values decide: a red string inside an array,
      or deeper inside a value, does not remove the object. */
  lemma RedInArrayKept(key: string, n: int)
    requires I64_MIN <= n <= I64_MAX
    ensures SumOfNumbersIn(Object([(key, Array([Str("red"), Num(Integer(n))]))]), NotRed) == n
  {
    TwoItems(Str("red"), Num(Integer(n)), NotRed);
    var entries := [(key, Array([Str("red"), Num(Integer(n))]))];
    assert NotRed(entries);
    assert entries[1..] == [];
    assert SumValues(entries, NotRed) == SumOfNumbersIn(entries[0].1, NotRed) + SumValues([], NotRed);
  }

  /** A red value removes the whole object, numbers and all. */
  lemma RedValueSkipsObject(entries: seq<(string, Json)>, k: nat)
    requires k < |entries| && entries[k].1 == Str("red")
    ensures SumOfNumbersIn(Object(entries), NotRed) == 0
  {
  }

  // The examples: [1,2,3] and {"a":2,"b":4} sum to 6; [[[3]]] and
  // {"a":{"b":4},"c":-1} to 3; {"a":[-1,1]} and [-1,{"a":1}] to 0;
  // [] and {} to 0; [1,{"c":"red","b":2},3] to 4 without red objects.

  lemma ThreeItems(a: Json, b: Json, c: Json, keep: seq<(string, Json)> -> bool)
    ensures SumItems([a, b, c], keep)
      == SumOfNumbersIn(a, keep) + SumOfNumbersIn(b, keep) + SumOfNumbersIn(c, keep)
  {
    TwoItems(b, c, keep);
    assert [a, b, c][1..] == [b, c];
  }

  lemma TwoItems(a: Json, b: Json, keep: seq<(string, Json)> -> bool)
    ensures SumItems([a, b], keep) == SumOfNumbersIn(a, keep) + SumOfNumbersIn(b, keep)
  {
    assert [a, b][1..] == [b] && [b][1..] == [];
    assert SumItems([b], keep) == SumOfNumbersIn(b, keep) + SumItems([], keep);
  }

  lemma TwoValues(a: (string, Json), b: (string, Json), keep: seq<(string, Json)> -> bool)
    ensures SumValues([a, b], keep) == SumOfNumbersIn(a.1, keep) + SumOfNumbersIn(b.1, keep)
  {
    assert [a, b][1..] == [b] && [b][1..] == [];
    assert SumValues([b], keep) == SumOfNumbersIn(b.1, keep) + SumValues([], keep);
  }

  lemma Examples()
    ensures SumOfNumbersIn(Array([Num(Integer(1)), Num(Integer(2)), Num(Integer(3))]), AcceptAll) == 6
    ensures SumOfNumbersIn(Object([("a", Num(Integer(2))), ("b", Num(Integer(4)))]), AcceptAll) == 6
    ensures SumOfNumbersIn(Array([Array([Array([Num(Integer(3))])])]), AcceptAll) == 3
    ensures SumOfNumbersIn(Object([("a", Object([("b", Num(Integer(4)))])), ("c", Num(Integer(-1)))]), AcceptAll) == 3
    ensures SumOfNumbersIn(Object([("a", Array([Num(Integer(-1)), Num(Integer(1))]))]), AcceptAll) == 0
    ensures SumOfNumbersIn(Array([Num(Integer(-1)), Object([("a", Num(Integer(1)))])]), AcceptAll) == 0
    ensures SumOfNumbersIn(Array([]), AcceptAll) == 0
    ensures SumOfNumbersIn(Object([]), AcceptAll) == 0
  {
    ExamplesPositive();
    ExamplesCancelling();
  }

  lemma ExamplesPositive()
    ensures SumOfNumbersIn(Array([Num(Integer(1)), Num(Integer(2)), Num(Integer(3))]), AcceptAll) == 6
    ensures SumOfNumbersIn(Object([("a", Num(Integer(2))), ("b", Num(Integer(4)))]), AcceptAll) == 6
    ensures SumOfNumbersIn(Array([Array([Array([Num(Integer(3))])])]), AcceptAll) == 3
    ensures SumOfNumbersIn(Object([("a", Object([("b", Num(Integer(4)))])), ("c", Num(Integer(-1)))]), AcceptAll) == 3
  {
    ThreeItems(Num(Integer(1)), Num(Integer(2)), Num(Integer(3)), AcceptAll);
    TwoValues(("a", Num(Integer(2))), ("b", Num(Integer(4))), AcceptAll);
    TwoValues(("a", Object([("b", Num(Integer(4)))])), ("c", Num(Integer(-1))), AcceptAll);
  }

  lemma ExamplesCancelling()
    ensures SumOfNumbersIn(Object([("a", Array([Num(Integer(-1)), Num(Integer(1))]))]), AcceptAll) == 0
    ensures SumOfNumbersIn(Array([Num(Integer(-1)), Object([("a", Num(Integer(1)))])]), AcceptAll) == 0
    ensures SumOfNumbersIn(Array([]), AcceptAll) == 0
    ensures SumOfNumbersIn(Object([]), AcceptAll) == 0
  {
    TwoItems(Num(Integer(-1)), Num(Integer(1)), AcceptAll);
    TwoItems(Num(Integer(-1)), Object([("a", Num(Integer(1)))]), AcceptAll);
  }

  lemma RedExample()
    ensures SumOfNumbersIn(Array([Num(Integer(1)), Object([("c", Str("red")), ("b", Num(Integer(2)))]), Num(Integer(3))]), NotRed) == 4
  {
    var red := Object([("c", Str("red")), ("b", Num(Integer(2)))]);
    RedValueSkipsObject(red.entries, 0);
    ThreeItems(Num(Integer(1)), red, Num(Integer(3)), NotRed);
  }
}
