// Day 14: the reindeer race. Each reindeer alternates between flying at
// its speed and resting; after every second the reindeer in the lead
// (all of them, when tied) earn a point.

module Day14 {
  import opened Text

  datatype ReindeerState = Flying | Resting

  /** `ReindeerState::toggle`. */
  function Toggle(s: ReindeerState): (r: ReindeerState)
    ensures r != s
  {
    match s
    case Flying => Resting
    case Resting => Flying
  }

  /** Everything a reindeer records, as one value. */
  datatype Deer = Deer(
    name: string, speed: nat, flyDuration: nat, restDuration: nat,
    distance: nat, state: ReindeerState, durationInState: nat, points: nat)

  /** `Reindeer::new`: flying, having gone nowhere and earned nothing. */
  function NewDeer(name: string, speed: nat, fly: nat, rest: nat): Deer
  {
    Deer(name, speed, fly, rest, 0, Flying, 0, 0)
  }

  /** One second of `Reindeer::tick`: the second counts, a flying reindeer
      moves on by its speed, and once the phase has lasted its full length
      the reindeer switches phase and starts counting again. */
  function TickDeer(d: Deer): (r: Deer)
    ensures r.name == d.name && r.speed == d.speed && r.flyDuration == d.flyDuration
    ensures r.restDuration == d.restDuration && r.points == d.points
    ensures r.distance == d.distance + (if d.state == Flying then d.speed else 0)
    ensures r.state != d.state <==> d.durationInState + 1 >= (if d.state == Flying then d.flyDuration else d.restDuration)
    ensures r.durationInState == (if r.state == d.state then d.durationInState + 1 else 0)
  {
    var dur := d.durationInState + 1;
    var dist := if d.state == Flying then d.distance + d.speed else d.distance;
    var target := if d.state == Flying then d.flyDuration else d.restDuration;
    if dur >= target then d.(distance := dist, state := Toggle(d.state), durationInState := 0)
    else d.(distance := dist, durationInState := dur)
  }

  /** `t` seconds of ticking. */
  function Ticks(d: Deer, t: nat): Deer
  {
    if t == 0 then d else TickDeer(Ticks(d, t - 1))
  }

  // ---------------------------------------------------------------------
  // Where a reindeer is after t seconds, in closed form

  function Max1(n: nat): (r: nat)
    ensures r >= 1 && (n >= 1 ==> r == n)
  {
    if n == 0 then 1 else n
  }

  function Min(a: nat, b: nat): (r: nat)
    ensures r <= a && r <= b && (r == a || r == b)
  {
    if a < b then a else b
  }

  /** A phase lasts at least one second: the test comes after the tick. */
  function FlyPhase(d: Deer): nat { Max1(d.flyDuration) }
  function RestPhase(d: Deer): nat { Max1(d.restDuration) }

  /** A flying phase and a resting phase. */
  function Cycle(d: Deer): nat { FlyPhase(d) + RestPhase(d) }

  /** How far into its cycle a reindeer is after `t` seconds. */
  function PhaseAt(t: nat, p: nat): (c: nat)
    requires p > 0
    ensures c < p
    decreases t
  {
    if t < p then t else PhaseAt(t - p, p)
  }

  /** The seconds spent flying in the first `t`: a full flying phase per
      completed cycle, plus the flying part of the cycle under way. */
  function FlySeconds(d: Deer, t: nat): nat
    decreases t
  {
    if t < Cycle(d) then Min(FlyPhase(d), t) else FlyPhase(d) + FlySeconds(d, t - Cycle(d))
  }

  /** `d` is where `start`, a new reindeer, is after `t` seconds. */
  predicate After(start: Deer, t: nat, d: Deer)
  {
    var c := PhaseAt(t, Cycle(start));
    d == start.(distance := start.speed * FlySeconds(start, t),
                state := if c < FlyPhase(start) then Flying else Resting,
                durationInState := if c < FlyPhase(start) then c else c - FlyPhase(start))
  }

  lemma {:induction false} PhaseStep(t: nat, p: nat)
    requires p > 0
    ensures PhaseAt(t + 1, p) == if PhaseAt(t, p) + 1 < p then PhaseAt(t, p) + 1 else 0
    decreases t
  {
    if t + 1 == p {
      assert PhaseAt(t + 1, p) == PhaseAt(0, p);
    } else if t >= p {
      PhaseStep(t - p, p);
      assert t + 1 - p == (t - p) + 1;
    }
  }

  lemma {:induction false} FlyStep(d: Deer, t: nat)
    ensures FlySeconds(d, t + 1) == FlySeconds(d, t) + (if PhaseAt(t, Cycle(d)) < FlyPhase(d) then 1 else 0)
    decreases t
  {
    var p := Cycle(d);
    if t + 1 == p {
      assert FlySeconds(d, t + 1) == FlyPhase(d) + FlySeconds(d, 0);
    } else if t >= p {
      FlyStep(d, t - p);
      assert t + 1 - p == (t - p) + 1;
    }
  }

  /** One more second keeps the closed form. */
  lemma TickAfter(start: Deer, t: nat, d: Deer)
    requires start.distance == 0 && start.state == Flying && start.durationInState == 0
    requires After(start, t, d)
    ensures After(start, t + 1, TickDeer(d))
  {
    PhaseStep(t, Cycle(start));
    FlyStep(start, t);
    if PhaseAt(t, Cycle(start)) < FlyPhase(start) {
      TickFlying(start, t, d);
    } else {
      TickResting(start, t, d);
    }
  }

  lemma TickFlying(start: Deer, t: nat, d: Deer)
    requires After(start, t, d) && PhaseAt(t, Cycle(start)) < FlyPhase(start)
    requires PhaseAt(t + 1, Cycle(start)) == PhaseAt(t, Cycle(start)) + 1
    requires FlySeconds(start, t + 1) == FlySeconds(start, t) + 1
    ensures After(start, t + 1, TickDeer(d))
  {
    FlyingStep(start, d, PhaseAt(t, Cycle(start)), FlySeconds(start, t));
  }

  /** A tick in the flying phase, on the phase and the flown seconds. */
  lemma FlyingStep(start: Deer, d: Deer, c: nat, x: nat)
    requires c < FlyPhase(start)
    requires d == start.(distance := start.speed * x, state := Flying, durationInState := c)
    ensures TickDeer(d) == start.(distance := start.speed * (x + 1),
      state := if c + 1 < FlyPhase(start) then Flying else Resting,
      durationInState := if c + 1 < FlyPhase(start) then c + 1 else c + 1 - FlyPhase(start))
  {
    assert start.speed * (x + 1) == start.speed * x + start.speed;
  }

  lemma TickResting(start: Deer, t: nat, d: Deer)
    requires After(start, t, d) && PhaseAt(t, Cycle(start)) >= FlyPhase(start)
    requires PhaseAt(t + 1, Cycle(start))
      == if PhaseAt(t, Cycle(start)) + 1 < Cycle(start) then PhaseAt(t, Cycle(start)) + 1 else 0
    requires FlySeconds(start, t + 1) == FlySeconds(start, t)
    ensures After(start, t + 1, TickDeer(d))
  {
  }

  /** The distance and phase of a new reindeer after `t` seconds. */
  lemma {:induction false} TicksClosedForm(start: Deer, t: nat)
    requires start.distance == 0 && start.state == Flying && start.durationInState == 0
    ensures After(start, t, Ticks(start, t))
  {
    if t > 0 {
      TicksClosedForm(start, t - 1);
      TickAfter(start, t - 1, Ticks(start, t - 1));
    }
  }

  /** The examples: Comet flies 14 km/s for 10 s and rests 127 s, Dancer
      16 km/s for 11 s and rests 162 s. */
  lemma ExampleSeconds()
    ensures Ticks(NewDeer("Comet", 14, 10, 127), 1).distance == 14
    ensures Ticks(NewDeer("Dancer", 16, 11, 162), 1).distance == 16
    ensures Ticks(NewDeer("Comet", 14, 10, 127), 10).distance == 140
    ensures Ticks(NewDeer("Dancer", 16, 11, 162), 10).distance == 160
    ensures var c := Ticks(NewDeer("Comet", 14, 10, 127), 11); c.distance == 140 && c.state == Resting
    ensures Ticks(NewDeer("Dancer", 16, 11, 162), 11).distance == 176
    ensures var c := Ticks(NewDeer("Comet", 14, 10, 127), 12); c.distance == 140 && c.state == Resting
    ensures var d := Ticks(NewDeer("Dancer", 16, 11, 162), 12); d.distance == 176 && d.state == Resting
  {
    var comet, dancer := NewDeer("Comet", 14, 10, 127), NewDeer("Dancer", 16, 11, 162);
    TicksClosedForm(comet, 1);
    TicksClosedForm(dancer, 1);
    TicksClosedForm(comet, 10);
    TicksClosedForm(dancer, 10);
    TicksClosedForm(comet, 11);
    TicksClosedForm(dancer, 11);
    TicksClosedForm(comet, 12);
    TicksClosedForm(dancer, 12);
  }

  /** After 1000 seconds both rest; Comet has gone 1120 km and Dancer 1056. */
  lemma ExampleThousand()
    ensures var c := Ticks(NewDeer("Comet", 14, 10, 127), 1000); c.distance == 1120 && c.state == Resting
    ensures var d := Ticks(NewDeer("Dancer", 16, 11, 162), 1000); d.distance == 1056 && d.state == Resting
  {
    TicksClosedForm(NewDeer("Comet", 14, 10, 127), 1000);
    TicksClosedForm(NewDeer("Dancer", 16, 11, 162), 1000);
  }

  // ---------------------------------------------------------------------
  // The race

  function Distances(h: seq<Deer>): (r: seq<nat>)
    ensures |r| == |h| && forall i :: 0 <= i < |h| ==> r[i] == h[i].distance
  {
    seq(|h|, i requires 0 <= i < |h| => h[i].distance)
  }

  function Points(h: seq<Deer>): (r: seq<nat>)
    ensures |r| == |h| && forall i :: 0 <= i < |h| ==> r[i] == h[i].points
  {
    seq(|h|, i requires 0 <= i < |h| => h[i].points)
  }

  /** The largest key, 0 for none. */
  function Max(keys: seq<nat>): nat
  {
    if keys == [] then 0
    else
      var m := Max(keys[1..]);
      if keys[0] >= m then keys[0] else m
  }

  lemma {:induction false} MaxIsMax(keys: seq<nat>)
    ensures forall i :: 0 <= i < |keys| ==> keys[i] <= Max(keys)
    ensures keys != [] ==> exists i :: 0 <= i < |keys| && keys[i] == Max(keys)
  {
    if keys != [] {
      MaxIsMax(keys[1..]);
      assert forall i :: 1 <= i < |keys| ==> keys[i] == keys[1..][i - 1];
      if keys[0] >= Max(keys[1..]) {
        assert keys[0] == Max(keys);
      } else {
        var i :| 0 <= i < |keys[1..]| && keys[1..][i] == Max(keys[1..]);
        assert keys[i + 1] == Max(keys);
      }
    }
  }

  /** The positions from `i` on whose key is `best`, in order. */
  function LeadersFrom(keys: seq<nat>, best: nat, i: nat): (r: seq<nat>)
    requires i <= |keys|
    ensures forall k :: k in r <==> i <= k < |keys| && keys[k] == best
    ensures forall a, b :: 0 <= a < b < |r| ==> r[a] < r[b]
    decreases |keys| - i
  {
    if i == |keys| then []
    else
      var rest := LeadersFrom(keys, best, i + 1);
      if keys[i] == best then
        assert forall b :: 0 <= b < |rest| ==> rest[b] in rest;
        [i] + rest
      else rest
  }

  /** `get_reindeer`: the positions of every reindeer whose key is the
      largest, in order; none for an empty race. */
  function Leaders(keys: seq<nat>): (r: seq<nat>)
    ensures forall a, b :: 0 <= a < b < |r| ==> r[a] < r[b]
    ensures forall k :: 0 <= k < |r| ==> r[k] < |keys|
  {
    if keys == [] then []
    else
      var r := LeadersFrom(keys, Max(keys), 0);
      assert forall k :: 0 <= k < |r| ==> r[k] in r;
      r
  }

  /** The leaders are exactly the positions holding the largest key, and
      a race with reindeer has at least one. */
  lemma LeadersAreMax(keys: seq<nat>)
    ensures forall k :: k in Leaders(keys) <==> 0 <= k < |keys| && keys[k] == Max(keys)
    ensures keys != [] ==> Leaders(keys) != []
  {
    if keys != [] {
      MaxIsMax(keys);
      var i :| 0 <= i < |keys| && keys[i] == Max(keys);
      assert i in Leaders(keys);
    }
  }

  /** `by_distance` and `by_points`. */
  function ByDistance(h: seq<Deer>): seq<nat> { Leaders(Distances(h)) }
  function ByPoints(h: seq<Deer>): seq<nat> { Leaders(Points(h)) }

  /** A point for a reindeer that has gone `best`. */
  function Score(d: Deer, best: nat): Deer
  {
    if d.distance == best then d.(points := d.points + 1) else d
  }

  function ScoreAll(h: seq<Deer>, best: nat): (r: seq<Deer>)
    ensures |r| == |h|
  {
    if h == [] then [] else [Score(h[0], best)] + ScoreAll(h[1..], best)
  }

  lemma {:induction false} ScoreAllAt(h: seq<Deer>, best: nat)
    ensures forall j :: 0 <= j < |h| ==> ScoreAll(h, best)[j] == Score(h[j], best)
  {
    if h != [] {
      ScoreAllAt(h[1..], best);
      assert forall j :: 1 <= j < |h| ==> h[j] == h[1..][j - 1];
    }
  }

  /** A point for every reindeer in the lead by distance. */
  function Award(h: seq<Deer>): (r: seq<Deer>)
    ensures |r| == |h|
  {
    ScoreAll(h, Max(Distances(h)))
  }

  /** Every reindeer ticks once. */
  function Ticked(h: seq<Deer>): (r: seq<Deer>)
    ensures |r| == |h|
  {
    if h == [] then [] else [TickDeer(h[0])] + Ticked(h[1..])
  }

  lemma {:induction false} TickedAt(h: seq<Deer>)
    ensures forall j :: 0 <= j < |h| ==> Ticked(h)[j] == TickDeer(h[j])
  {
    if h != [] {
      TickedAt(h[1..]);
      assert forall j :: 1 <= j < |h| ==> h[j] == h[1..][j - 1];
    }
  }

  /** One second of the race: every reindeer ticks, then the leaders score. */
  function RaceTick(h: seq<Deer>): (r: seq<Deer>)
    ensures |r| == |h|
  {
    Award(Ticked(h))
  }

  function Rounds(h: seq<Deer>, n: nat): (r: seq<Deer>)
    ensures |r| == |h|
  {
    if n == 0 then h else RaceTick(Rounds(h, n - 1))
  }

  lemma RoundsSucc(h: seq<Deer>, n: nat)
    ensures Rounds(h, n + 1) == RaceTick(Rounds(h, n))
  {
  }

  /** Scoring touches only the points, and adds at most one. */
  lemma AwardAt(h: seq<Deer>, j: nat)
    requires j < |h|
    ensures Award(h)[j] == h[j].(points := Award(h)[j].points)
    ensures h[j].points <= Award(h)[j].points <= h[j].points + 1
  {
    ScoreAllAt(h, Max(Distances(h)));
  }

  /** A point for each reindeer whose position is in `winners`. */
  function Bumped(h: seq<Deer>, winners: seq<nat>): (r: seq<Deer>)
    ensures |r| == |h|
  {
    seq(|h|, j requires 0 <= j < |h| => if j in winners then h[j].(points := h[j].points + 1) else h[j])
  }

  /** One more winner, not already listed, gains exactly one point. */
  lemma BumpedSnoc(h: seq<Deer>, winners: seq<nat>, w: nat)
    requires w < |h| && w !in winners
    ensures var b := Bumped(h, winners); Bumped(h, winners + [w]) == b[w := b[w].(points := b[w].points + 1)]
  {
  }

  /** Scoring the first `k + 1` of strictly increasing winners is scoring
      the first `k` and then the next. */
  lemma BumpedStep(h: seq<Deer>, winners: seq<nat>, k: nat)
    requires forall a, b :: 0 <= a < b < |winners| ==> winners[a] < winners[b]
    requires k < |winners| && winners[k] < |h|
    ensures var b := Bumped(h, winners[..k]); var w := winners[k];
      Bumped(h, winners[..k + 1]) == b[w := b[w].(points := b[w].points + 1)]
  {
    var w := winners[k];
    assert winners[..k + 1] == winners[..k] + [w];
    assert w !in winners[..k] by {
      assert forall a :: 0 <= a < k ==> winners[..k][a] < w;
    }
    BumpedSnoc(h, winners[..k], w);
  }

  /** Scoring the positions `by_distance` lists is scoring every reindeer
      at the largest distance. */
  /** Ticking every reindeer and then a point for each one `by_distance`
      lists is one second of the race. */
  lemma RaceTickSteps(before: seq<Deer>, ticked: seq<Deer>, after: seq<Deer>)
    requires ticked == Ticked(before) && after == Bumped(ticked, ByDistance(ticked))
    ensures after == RaceTick(before)
  {
    AwardLeaders(ticked);
  }

  lemma AwardLeaders(h: seq<Deer>)
    ensures Bumped(h, ByDistance(h)) == Award(h)
  {
    LeadersAreMax(Distances(h));
    ScoreAllAt(h, Max(Distances(h)));
  }

  /** Ticking ignores the points and keeps them. */
  lemma TickPoints(a: Deer, k: nat)
    ensures TickDeer(a.(points := k)) == TickDeer(a).(points := k)
    ensures TickDeer(a).points == a.points
  {
  }

  /** Scoring changes nothing but the points: each reindeer in a race moves
      exactly as it would alone, and gains at most a point a second. */
  lemma {:induction false} RoundsMove(h: seq<Deer>, n: nat, j: nat)
    requires j < |h|
    ensures Rounds(h, n)[j] == Ticks(h[j], n).(points := Rounds(h, n)[j].points)
    ensures Rounds(h, n)[j].points <= h[j].points + n
  {
    if n > 0 {
      RoundsMove(h, n - 1, j);
      var prev := Rounds(h, n - 1);
      var t := Ticked(prev);
      assert Rounds(h, n) == Award(t);
      var a := Award(t)[j];
      AwardAt(t, j);
      var old_ := Ticks(h[j], n - 1);
      TickPoints(old_, prev[j].points);
      TickedAt(prev);
      assert t[j] == TickDeer(prev[j]) == TickDeer(old_).(points := prev[j].points);
      assert a == Ticks(h[j], n).(points := a.points);
    } else {
      assert Rounds(h, n) == h;
    }
  }

  lemma {:induction false} SumMonotone(a: seq<int>, b: seq<int>)
    requires |a| == |b| && forall i :: 0 <= i < |a| ==> a[i] <= b[i]
    ensures Sum(a) <= Sum(b)
    decreases |a|
  {
    if a != [] {
      SumMonotone(a[1..], b[1..]);
    }
  }

  /** Someone always leads: a race with reindeer hands out at least one
      point every second. */
  lemma AwardScores(h: seq<Deer>)
    requires h != []
    ensures Sum(Points(Award(h))) >= Sum(Points(h)) + 1
  {
    var ds := Distances(h);
    MaxIsMax(ds);
    var m :| 0 <= m < |ds| && ds[m] == Max(ds);
    var ps := Points(h);
    var bumped := ps[m := ps[m] + 1];
    ScoreAllAt(h, Max(ds));
    SumUpdate(ps, m, ps[m] + 1);
    SumMonotone(bumped, Points(Award(h)));
  }

  lemma {:induction false} RoundsScore(h: seq<Deer>, n: nat)
    requires h != []
    ensures Sum(Points(Rounds(h, n))) >= Sum(Points(h)) + n
  {
    if n > 0 {
      RoundsScore(h, n - 1);
      var t := Ticked(Rounds(h, n - 1));
      TickedAt(Rounds(h, n - 1));
      assert Points(t) == Points(Rounds(h, n - 1));
      AwardScores(t);
    }
  }

  /** The race of the examples after 1000 seconds: both rest, Comet at
      1120 km and Dancer at 1056 km. */
  lemma ExampleRace(h: seq<Deer>)
    requires h == [NewDeer("Comet", 14, 10, 127), NewDeer("Dancer", 16, 11, 162)]
    ensures Rounds(h, 1000)[0].distance == 1120 && Rounds(h, 1000)[0].state == Resting
    ensures Rounds(h, 1000)[1].distance == 1056 && Rounds(h, 1000)[1].state == Resting
  {
    RoundsMove(h, 1000, 0);
    RoundsMove(h, 1000, 1);
    ExampleThousand();
    assert h[0] == NewDeer("Comet", 14, 10, 127) && h[1] == NewDeer("Dancer", 16, 11, 162);
  }

  // ---------------------------------------------------------------------
  // The objects

  class Reindeer {
    var name: string
    var speed: nat
    var flyDuration: nat
    var restDuration: nat
    var distance: nat
    var state: ReindeerState
    var durationInState: nat
    var points: nat

    function Snapshot(): Deer
      reads this
    {
      Deer(name, speed, flyDuration, restDuration, distance, state, durationInState, points)
    }

    /** `Reindeer::new`. */
    constructor New(name: string, speed: nat, fly: nat, rest: nat)
      ensures Snapshot() == NewDeer(name, speed, fly, rest)
    {
      this.name := name;
      this.speed := speed;
      flyDuration := fly;
      restDuration := rest;
      distance := 0;
      state := Flying;
      durationInState := 0;
      points := 0;
    }

    /** `Reindeer::tick`. */
    method Tick()
      modifies this
      ensures Snapshot() == TickDeer(old(Snapshot()))
    {
      durationInState := durationInState + 1;
      if state == Flying {
        distance := distance + speed;
      }
      var targetDuration := if state == Flying then flyDuration else restDuration;
      if durationInState >= targetDuration {
        state := Toggle(state);
        durationInState := 0;
      }
    }

    /** The `points += 1` of `Race::tick`. */
    method AddPoint()
      modifies this
      ensures Snapshot() == old(Snapshot()).(points := old(Snapshot()).points + 1)
    {
      points := points + 1;
    }

    /** `Reindeer::reset`: back to the start, keeping the points. */
    method Reset()
      modifies this
      ensures Snapshot() == old(Snapshot()).(distance := 0, state := Flying, durationInState := 0)
    {
      distance := 0;
      state := Flying;
      durationInState := 0;
    }
  }

  /** The values the reindeer `rs` hold, in order. */
  function HerdOf(rs: seq<Reindeer>): (h: seq<Deer>)
    reads rs
    ensures |h| == |rs|
  {
    if rs == [] then [] else [rs[0].Snapshot()] + HerdOf(rs[1..])
  }

  lemma {:induction false} HerdOfAt(rs: seq<Reindeer>)
    ensures forall i :: 0 <= i < |rs| ==> HerdOf(rs)[i] == rs[i].Snapshot()
  {
    if rs != [] {
      HerdOfAt(rs[1..]);
      assert forall i :: 1 <= i < |rs| ==> rs[i] == rs[1..][i - 1];
    }
  }

  /** The reindeer hold `h` when each holds its entry of it. */
  lemma HerdIs(rs: seq<Reindeer>, h: seq<Deer>)
    requires |h| == |rs| && forall i :: 0 <= i < |rs| ==> rs[i].Snapshot() == h[i]
    ensures HerdOf(rs) == h
  {
    HerdOfAt(rs);
  }

  class Race {
    var reindeer: seq<Reindeer>
    var timer: nat

    /** The vector owns its reindeer: no two entries are the same one. */
    ghost predicate Valid()
      reads this`reindeer
    {
      forall i, j :: 0 <= i < j < |reindeer| ==> reindeer[i] != reindeer[j]
    }

    /** What the reindeer currently hold. */
    function Herd(): (h: seq<Deer>)
      reads this`reindeer, reindeer
      ensures |h| == |reindeer|
    {
      HerdOf(reindeer)
    }

    /** `Race::from_iter`. */
    constructor FromIter(rs: seq<Reindeer>)
      requires forall i, j :: 0 <= i < j < |rs| ==> rs[i] != rs[j]
      ensures Valid() && reindeer == rs && timer == 0
    {
      reindeer := rs;
      timer := 0;
    }

    /** `Race::tick`: every reindeer ticks, each one in the lead by distance
        gains a point, and the clock moves on. */
    method Tick()
      requires Valid()
      modifies this, reindeer
      ensures Valid() && reindeer == old(reindeer)
      ensures Herd() == RaceTick(old(Herd()))
      ensures timer == old(timer) + 1
    {
      ghost var before := Herd();
      TickEach();
      ghost var ticked := Herd();
      var winnerIndices := ByDistance(Herd());
      AddPoints(winnerIndices);
      RaceTickSteps(before, ticked, Herd());
      timer := timer + 1;
    }

    /** The first loop of `Race::tick`. */
    method TickEach()
      requires Valid()
      modifies reindeer
      ensures Herd() == Ticked(old(Herd()))
    {
      ghost var before := Herd();
      HerdOfAt(reindeer);
      for i := 0 to |reindeer|
        invariant forall j :: 0 <= j < i ==> reindeer[j].Snapshot() == TickDeer(before[j])
        invariant forall j :: i <= j < |reindeer| ==> reindeer[j].Snapshot() == before[j]
      {
        reindeer[i].Tick();
      }
      TickedAt(before);
      HerdIs(reindeer, Ticked(before));
    }

    /** The second loop of `Race::tick`: a point for each winner. */
    method AddPoints(winnerIndices: seq<nat>)
      requires Valid()
      requires forall a, b :: 0 <= a < b < |winnerIndices| ==> winnerIndices[a] < winnerIndices[b]
      requires forall k :: 0 <= k < |winnerIndices| ==> winnerIndices[k] < |reindeer|
      modifies reindeer
      ensures Herd() == Bumped(old(Herd()), winnerIndices)
    {
      ghost var before := Herd();
      HerdOfAt(reindeer);
      BumpEach(winnerIndices, before);
      HerdIs(reindeer, Bumped(before, winnerIndices));
    }

    /** The loop itself, from reindeer holding `before`. */
    method BumpEach(winnerIndices: seq<nat>, ghost before: seq<Deer>)
      requires Valid()
      requires forall a, b :: 0 <= a < b < |winnerIndices| ==> winnerIndices[a] < winnerIndices[b]
      requires forall k :: 0 <= k < |winnerIndices| ==> winnerIndices[k] < |reindeer|
      requires |before| == |reindeer| && forall j :: 0 <= j < |reindeer| ==> reindeer[j].Snapshot() == before[j]
      modifies reindeer
      ensures forall j :: 0 <= j < |reindeer| ==> reindeer[j].Snapshot() == Bumped(before, winnerIndices)[j]
    {
      ghost var cur := before;
      assert Bumped(before, []) == before;
      for k := 0 to |winnerIndices|
        invariant cur == Bumped(before, winnerIndices[..k])
        invariant forall j :: 0 <= j < |reindeer| ==> reindeer[j].Snapshot() == cur[j]
      {
        var w := winnerIndices[k];
        BumpedStep(before, winnerIndices, k);
        reindeer[w].AddPoint();
        cur := cur[w := cur[w].(points := cur[w].points + 1)];
      }
      assert winnerIndices[..|winnerIndices|] == winnerIndices;
    }

    /** `Race::run_to_time`: ticks until the clock reaches `finishTime`. */
    method RunToTime(finishTime: nat)
      requires Valid()
      modifies this, reindeer
      ensures Valid() && reindeer == old(reindeer)
      ensures timer == if old(timer) < finishTime then finishTime else old(timer)
      ensures Herd() == Rounds(old(Herd()), timer - old(timer))
    {
      ghost var start := Herd();
      ghost var n: nat := 0;
      while timer < finishTime
        invariant Ran(start, n, old(timer), old(reindeer))
        invariant n == 0 || timer <= finishTime
        decreases finishTime - timer
      {
        Advance(start, n, old(timer), old(reindeer));
        n := n + 1;
      }
    }

    /** The race has run `n` seconds since the clock read `t0` and the herd
        was `start`. */
    ghost predicate Ran(start: seq<Deer>, n: nat, t0: nat, rs: seq<Reindeer>)
      reads this`reindeer, this`timer, reindeer
    {
      Valid() && reindeer == rs && timer == t0 + n && Herd() == Rounds(start, n)
    }

    /** One more second of the race. */
    method Advance(ghost start: seq<Deer>, ghost n: nat, ghost t0: nat, ghost rs: seq<Reindeer>)
      requires Ran(start, n, t0, rs)
      modifies this, reindeer
      ensures Ran(start, n + 1, t0, rs)
    {
      Tick();
      RoundsSucc(start, n);
    }
  }
}
