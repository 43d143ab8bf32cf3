// Day 3 (second generation): the same walk, but a char that is not a
// direction is an error that stops the walk.

module Day03 {
  import opened Day3

  datatype Error = ParseDirection(ch: char)

  datatype Result<T> = Ok(value: T) | Err(error: Error)

  /** Every char of `s` is one of `^v<>`. */
  ghost predicate AllMoves(s: string)
  {
    forall i :: 0 <= i < |s| ==> IsMove(s[i])
  }

  /** The error a walk over `s` stops at: the first char that is not a
      direction. */
  ghost predicate StopsAt(s: string, e: Error)
  {
    exists i :: 0 <= i < |s| && AllMoves(s[..i]) && !IsMove(s[i]) && e == ParseDirection(s[i])
  }

  lemma AllMovesSnoc(s: string, ch: char)
    ensures AllMoves(s + [ch]) <==> AllMoves(s) && IsMove(ch)
  {
    if AllMoves(s) && IsMove(ch) {
      assert forall i :: 0 <= i < |s| ==> (s + [ch])[i] == s[i];
    }
    if AllMoves(s + [ch]) {
      assert forall i :: 0 <= i < |s| ==> (s + [ch])[i] == s[i];
      assert (s + [ch])[|s|] == ch;
    }
  }

  /** On a path of directions every char delivers a present: the origin's
      plus one per char. */
  lemma {:induction false} DeliversEveryStep(p: Point, s: string)
    requires AllMoves(s)
    ensures |Deliveries(p, s)| == |s|
    decreases |s|
  {
    if s != [] {
      Moves(p, s[0]);
      assert AllMoves(s[1..]) by {
        assert forall i :: 0 <= i < |s[1..]| ==> s[1..][i] == s[i + 1];
      }
      DeliversEveryStep(p.MoveFromChar(s[0]), s[1..]);
    }
  }

  class CookieCrumbs {
    var santa: Point
    var trail: map<Point, nat>

    ghost predicate Follows(path: string)
      reads this
    {
      santa == End(Origin, path) && Records(trail, Houses(path))
    }

    /** `CookieCrumbs::default`: Santa at the origin, which has had one
        present. */
    constructor()
      ensures santa == Origin && trail == map[Origin := 1]
      ensures Follows([])
    {
      santa := Origin;
      trail := map[Origin := 1];
    }

    /** `move_from_char`: a direction moves Santa and delivers a present
        where he lands; any other char is refused and changes nothing. */
    method MoveFromChar(ch: char) returns (r: Result<()>)
      modifies this
      ensures r.Ok? <==> IsMove(ch)
      ensures r.Err? ==> r.error == ParseDirection(ch) && santa == old(santa) && trail == old(trail)
      ensures r.Ok? ==> santa == old(santa).MoveFromChar(ch)
      ensures r.Ok? ==>
        trail == old(trail)[santa := (if santa in old(trail) then old(trail)[santa] else 0) + 1]
    {
      if !(ch == '^' || ch == 'v' || ch == '<' || ch == '>') {
        return Err(ParseDirection(ch));
      }
      santa := santa.MoveFromChar(ch);
      trail := trail[santa := (if santa in trail then trail[santa] else 0) + 1];
      return Ok(());
    }
  }

  /** A direction keeps the state in step with the path. */
  lemma FollowsMove(path: string, ch: char, santa: Point, trail: map<Point, nat>)
    requires IsMove(ch)
    requires santa == End(Origin, path) && Records(trail, Houses(path))
    ensures var q := santa.MoveFromChar(ch);
      q == End(Origin, path + [ch]) &&
      Records(trail[q := (if q in trail then trail[q] else 0) + 1], Houses(path + [ch]))
  {
    Moves(santa, ch);
    FollowsSnoc(path, ch, santa, trail);
  }

  /** `follow_santa`: the walk over the whole path, or the first char that
      is not a direction. */
  method FollowSanta(path: string) returns (r: Result<CookieCrumbs>)
    ensures r.Ok? <==> AllMoves(path)
    ensures r.Ok? ==> fresh(r.value) && r.value.Follows(path)
    ensures r.Err? ==> StopsAt(path, r.error)
  {
    var cc := new CookieCrumbs();
    assert path[..0] == [];
    for i := 0 to |path|
      invariant AllMoves(path[..i])
      invariant fresh(cc) && cc.Follows(path[..i])
    {
      assert path[..i + 1] == path[..i] + [path[i]];
      AllMovesSnoc(path[..i], path[i]);
      if IsMove(path[i]) {
        FollowsMove(path[..i], path[i], cc.santa, cc.trail);
      }
      var moved := cc.MoveFromChar(path[i]);
      if moved.Err? {
        assert !AllMoves(path) by {
          assert path[i] == path[..i + 1][i];
        }
        return Err(moved.error);
      }
    }
    assert path[..|path|] == path;
    return Ok(cc);
  }

  /** `n` fresh trails, all at the origin: `vec![CookieCrumbs::default(); n]`. */
  method NewCrumbs(n: nat) returns (vout: seq<CookieCrumbs>)
    ensures |vout| == n
    ensures forall j, k :: 0 <= j < k < n ==> vout[j] != vout[k]
    ensures forall k :: 0 <= k < n ==> fresh(vout[k]) && vout[k].Follows([])
  {
    vout := [];
    while |vout| < n
      invariant |vout| <= n
      invariant forall j, k :: 0 <= j < k < |vout| ==> vout[j] != vout[k]
      invariant forall k :: 0 <= k < |vout| ==> fresh(vout[k]) && vout[k].Follows([])
    {
      var cc := new CookieCrumbs();
      vout := vout + [cc];
    }
  }

  /** `follow_n_santas`: char `i` moves santa `i % n`; the first char that is
      not a direction ends the walk with its error. With no santas the
      source divides by zero on the first char, so a non-empty path needs at
      least one. */
  method FollowNSantas(path: string, n: nat) returns (r: Result<seq<CookieCrumbs>>)
    requires n > 0 || path == []
    ensures r.Ok? <==> AllMoves(path)
    ensures r.Ok? ==> |r.value| == n
    ensures r.Ok? ==> forall j, k :: 0 <= j < k < n ==> r.value[j] != r.value[k]
    ensures r.Ok? ==> forall k :: 0 <= k < n ==> fresh(r.value[k]) && r.value[k].Follows(Every(path, n, k))
    ensures r.Err? ==> StopsAt(path, r.error)
  {
    var vout := NewCrumbs(n);
    if n == 0 {
      assert path == [];
      return Ok(vout);
    }
    assert forall k :: 0 <= k < n ==> Every(path[..0], n, k) == [];
    for i := 0 to |path|
      invariant AllMoves(path[..i])
      invariant forall k :: 0 <= k < n ==> fresh(vout[k]) && vout[k].Follows(Every(path[..i], n, k))
    {
      var who := i % n;
      var cc := vout[who];
      assert path[..i + 1] == path[..i] + [path[i]];
      AllMovesSnoc(path[..i], path[i]);
      EveryStep(path, i, n);
      if IsMove(path[i]) {
        FollowsMove(Every(path[..i], n, who), path[i], cc.santa, cc.trail);
      }
      var moved := cc.MoveFromChar(path[i]);
      if moved.Err? {
        assert !AllMoves(path) by {
          assert path[i] == path[..i + 1][i];
        }
        return Err(moved.error);
      }
      forall k | 0 <= k < n
        ensures vout[k].Follows(Every(path[..i + 1], n, k))
      {
        if k != who {
          assert vout[k] != cc;
        }
      }
    }
    assert path[..|path|] == path;
    return Ok(vout);
  }

  ghost function Footprint(v: seq<CookieCrumbs>): set<object>
  {
    set k | 0 <= k < |v| :: v[k]
  }

  /** Every house that one of the trails holds. */
  ghost function HouseSet(v: seq<CookieCrumbs>): set<Point>
    reads Footprint(v)
  {
    set k, q | 0 <= k < |v| && q in v[k].trail :: q
  }

  /** `unique_houses`: the number of distinct houses across all trails. */
  method UniqueHouses(v: seq<CookieCrumbs>) returns (r: nat)
    ensures r == |HouseSet(v)|
  {
    var houses: set<Point> := {};
    for i := 0 to |v|
      invariant houses == set k, q | 0 <= k < i && q in v[k].trail :: q
    {
      houses := houses + v[i].trail.Keys;
    }
    r := |houses|;
  }

  /** The trails that `follow_n_santas` builds hold exactly the shared
      houses of the santas' turns. */
  lemma HouseSetOfFollowers(v: seq<CookieCrumbs>, path: string, n: nat)
    requires n > 0 && |v| == n
    requires forall k :: 0 <= k < n ==> v[k].Follows(Every(path, n, k))
    ensures HouseSet(v) == SharedHouses(path, n)
  {
  }

  /** A char outside `^v<>` is reported, wherever it comes. */
  lemma StopsAtExamples()
    ensures StopsAt("x", ParseDirection('x'))
    ensures StopsAt("^^ v", ParseDirection(' '))
    ensures !AllMoves("^^ v")
  {
    assert "x"[..0] == [];
    assert AllMoves("^^ v"[..2]) by {
      assert "^^ v"[..2] == "^^";
    }
    assert "^^ v"[2] == ' ';
  }
}
