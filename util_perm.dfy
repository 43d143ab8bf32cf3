// All orderings of a sequence. Several solutions hand every permutation of
// a list to a callback; this module gives the set of those permutations a
// definition of its own, so that "best over all permutations" can be stated
// and an enumeration can be checked against it.

module Permutations {

  function RemoveAt<T>(s: seq<T>, i: nat): (r: seq<T>)
    requires i < |s|
    ensures |r| == |s| - 1
    ensures multiset(r) == multiset(s) - multiset{s[i]}
  {
    assert s == s[..i] + [s[i]] + s[i + 1..];
    s[..i] + s[i + 1..]
  }

  /** Puts `x` in front of every sequence of `ps`. */
  function Prefix<T>(x: T, ps: seq<seq<T>>): (r: seq<seq<T>>)
    ensures |r| == |ps|
    ensures forall k :: 0 <= k < |r| ==> r[k] == [x] + ps[k]
  {
    if ps == [] then [] else [[x] + ps[0]] + Prefix(x, ps[1..])
  }

  /** Every ordering of `s`: for each position, its element followed by
      every ordering of the rest. */
  function Perms<T>(s: seq<T>): (r: seq<seq<T>>)
    decreases |s|, 1
  {
    if |s| == 0 then [[]] else PermsFrom(s, 0)
  }

  function PermsFrom<T>(s: seq<T>, i: nat): (r: seq<seq<T>>)
    requires i <= |s|
    decreases |s|, 0, |s| - i
  {
    if i == |s| then [] else Prefix(s[i], Perms(RemoveAt(s, i))) + PermsFrom(s, i + 1)
  }

  /** Everything listed is a rearrangement of `s`. */
  lemma {:induction false} PermsSound<T>(s: seq<T>, p: seq<T>)
    requires p in Perms(s)
    ensures multiset(p) == multiset(s)
    decreases |s|, 1
  {
    if |s| > 0 {
      PermsFromSound(s, 0, p);
    }
  }

  lemma {:induction false} PermsFromSound<T>(s: seq<T>, i: nat, p: seq<T>)
    requires i <= |s| && p in PermsFrom(s, i)
    ensures multiset(p) == multiset(s)
    decreases |s|, 0, |s| - i
  {
    if i < |s| {
      var pre := Prefix(s[i], Perms(RemoveAt(s, i)));
      if p in pre {
        var k :| 0 <= k < |pre| && pre[k] == p;
        var q := Perms(RemoveAt(s, i))[k];
        PermsSound(RemoveAt(s, i), q);
        assert p == [s[i]] + q;
        assert multiset(p) == multiset{s[i]} + multiset(q);
      } else {
        PermsFromSound(s, i + 1, p);
      }
    }
  }

  /** Every rearrangement of `s` is listed. */
  lemma {:induction false} PermsComplete<T>(s: seq<T>, p: seq<T>)
    requires multiset(p) == multiset(s)
    ensures p in Perms(s)
    decreases |s|
  {
    if |s| > 0 {
      assert |p| == |s| by {
        assert |multiset(p)| == |p| && |multiset(s)| == |s|;
      }
      assert p[0] in multiset(s) by {
        assert p == [p[0]] + p[1..];
      }
      var i :| 0 <= i < |s| && s[i] == p[0];
      assert multiset(p[1..]) == multiset(RemoveAt(s, i)) by {
        assert p == [p[0]] + p[1..];
      }
      PermsComplete(RemoveAt(s, i), p[1..]);
      var ps := Perms(RemoveAt(s, i));
      var k :| 0 <= k < |ps| && ps[k] == p[1..];
      assert Prefix(s[i], ps)[k] == p;
      PermsFromHas(s, 0, i, p);
    }
  }

  lemma {:induction false} PermsFromHas<T>(s: seq<T>, j: nat, i: nat, p: seq<T>)
    requires j <= i < |s| && p in Prefix(s[i], Perms(RemoveAt(s, i)))
    ensures p in PermsFrom(s, j)
    decreases i - j
  {
    if j < i {
      PermsFromHas(s, j + 1, i, p);
    }
  }

  /** The listing is exactly the rearrangements of `s`. */
  lemma PermsExactly<T>(s: seq<T>)
    ensures forall p :: p in Perms(s) <==> multiset(p) == multiset(s)
  {
    forall p
      ensures p in Perms(s) <==> multiset(p) == multiset(s)
    {
      if p in Perms(s) {
        PermsSound(s, p);
      }
      if multiset(p) == multiset(s) {
        PermsComplete(s, p);
      }
    }
  }

  /** Hands back every ordering of `s`, in some order. */
  method AllOrderings<T>(s: seq<T>) returns (ps: seq<seq<T>>)
    ensures forall p :: p in ps <==> multiset(p) == multiset(s)
  {
    PermsExactly(s);
    ps := Perms(s);
  }

  function Ind<T(==)>(x: T, w: T): nat
  {
    if x == w then 1 else 0
  }

  lemma CountThree<T>(x: T, y: T, z: T, w: T)
    ensures multiset([x, y, z])[w] == Ind(x, w) + Ind(y, w) + Ind(z, w)
  {
    assert [x, y, z] == [x, y] + [z] && [x, y] == [x] + [y];
    assert multiset([x, y]) == multiset([x]) + multiset([y]);
    assert multiset([x, y, z]) == multiset([x, y]) + multiset([z]);
    CountOne(x, w);
    CountOne(y, w);
    CountOne(z, w);
  }

  lemma CountOne<T>(x: T, w: T)
    ensures multiset([x])[w] == Ind(x, w)
  {
  }

  /** The orderings of three distinct elements. */
  lemma ThreeOrderings<T>(a: T, b: T, c: T, p: seq<T>)
    requires a != b && b != c && a != c && multiset(p) == multiset([a, b, c])
    ensures p == [a, b, c] || p == [a, c, b] || p == [b, a, c]
         || p == [b, c, a] || p == [c, a, b] || p == [c, b, a]
  {
    assert |p| == 3 by {
      assert |multiset(p)| == |p|;
    }
    assert p == [p[0], p[1], p[2]];
    CountThree(p[0], p[1], p[2], p[0]);
    CountThree(p[0], p[1], p[2], p[1]);
    CountThree(p[0], p[1], p[2], p[2]);
    CountThree(a, b, c, p[0]);
    CountThree(a, b, c, p[1]);
    CountThree(a, b, c, p[2]);
  }
}
