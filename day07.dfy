// Day 7 (second generation): a circuit of 16-bit gates. Each wire gets its
// signal from one gate; the signal table is filled by repeated passes over
// the wires still waiting for their inputs.

module Day07 {
  import opened Text

  datatype Signal = Literal(v: nat) | Reference(r: string)

  datatype Instruction =
    | Copy(x: Signal)
    | And(x: Signal, y: Signal)
    | Or(x: Signal, y: Signal)
    | LShift(x: Signal, y: Signal)
    | RShift(x: Signal, y: Signal)
    | Not(x: Signal)

  datatype Wire = Wire(instruction: Instruction, destination: string)

  /** The table of known signals: wire name to 16-bit value. */
  type Signals = map<string, nat>

  predicate Fits(s: Signals)
  {
    forall k :: k in s ==> s[k] <= U16_MAX
  }

  predicate ValidSignal(x: Signal)
  {
    x.Literal? ==> x.v <= U16_MAX
  }

  predicate ValidInstruction(i: Instruction)
  {
    ValidSignal(i.x) && (!i.Copy? && !i.Not? ==> ValidSignal(i.y))
  }

  /** `s` keeps every signal of `t`. */
  predicate Extends(s: Signals, t: Signals)
  {
    forall k :: k in t ==> k in s && s[k] == t[k]
  }

  /** `Signal::value`: a literal is itself; a reference is looked up. */
  function SignalValue(x: Signal, s: Signals): (r: Option<nat>)
    requires Fits(s) && ValidSignal(x)
    ensures x.Literal? ==> r == Some(x.v)
    ensures x.Reference? ==> (r.Some? <==> x.r in s) && (r.Some? ==> r.value == s[x.r])
    ensures r.Some? ==> r.value <= U16_MAX
  {
    match x
    case Literal(l) => Some(l)
    case Reference(name) => if name in s then Some(s[name]) else None
  }

  // 16-bit gate arithmetic.

  function And16(a: nat, b: nat): (r: nat)
    requires a <= U16_MAX && b <= U16_MAX
    ensures r <= U16_MAX
  {
    ((a as bv16) & (b as bv16)) as nat
  }

  function Or16(a: nat, b: nat): (r: nat)
    requires a <= U16_MAX && b <= U16_MAX
    ensures r <= U16_MAX
  {
    ((a as bv16) | (b as bv16)) as nat
  }

  function Pow2(n: nat): (r: nat)
    ensures r >= 1
  {
    if n == 0 then 1 else 2 * Pow2(n - 1)
  }

  /** `u16 << n` for n < 16: the bits shifted past bit 15 are lost. */
  function Shl16(a: nat, n: nat): (r: nat)
    requires n < 16
    ensures r <= U16_MAX
  {
    (a * Pow2(n)) % 0x1_0000
  }

  /** `u16 >> n` for n < 16: halving `n` times, the low bits dropped. */
  function Shr16(a: nat, n: nat): (r: nat)
    requires a <= U16_MAX && n < 16
    ensures r <= a
  {
    if n == 0 then a else Shr16(a / 2, n - 1)
  }

  /** `!u16`. */
  function Not16(a: nat): (r: nat)
    requires a <= U16_MAX
    ensures r <= U16_MAX && U16_MAX - r == a
  {
    U16_MAX - a
  }

  /** What evaluating a gate gives: nothing while an input is missing, a
      16-bit value, or the overflow panic of a shift by 16 or more. */
  datatype Eval = Unknown | Known(v: nat) | ShiftOverflow

  /** `Instruction::value`. The `?` operator stops at the first missing
      input, left operand first. */
  function Value(i: Instruction, s: Signals): (r: Eval)
    requires Fits(s) && ValidInstruction(i)
    ensures r.Known? ==> r.v <= U16_MAX
    ensures r == Unknown <==>
      SignalValue(i.x, s).None? || (!i.Copy? && !i.Not? && SignalValue(i.y, s).None?)
    ensures r == ShiftOverflow <==>
      (i.LShift? || i.RShift?) && SignalValue(i.x, s).Some? && SignalValue(i.y, s).Some?
      && SignalValue(i.y, s).value >= 16
  {
    match SignalValue(i.x, s)
    case None => Unknown
    case Some(a) =>
      if i.Copy? then Known(a)
      else if i.Not? then Known(Not16(a))
      else
        match SignalValue(i.y, s)
        case None => Unknown
        case Some(b) =>
          match i
          case And(_, _) => Known(And16(a, b))
          case Or(_, _) => Known(Or16(a, b))
          case LShift(_, _) => if b < 16 then Known(Shl16(a, b)) else ShiftOverflow
          case RShift(_, _) => if b < 16 then Known(Shr16(a, b)) else ShiftOverflow
  }

  /** Once a gate's inputs are known its result never changes: a larger
      table gives the same answer. */
  lemma ValueKept(i: Instruction, s: Signals, t: Signals)
    requires Fits(s) && Fits(t) && ValidInstruction(i)
    requires Extends(t, s) && Value(i, s) != Unknown
    ensures Value(i, t) == Value(i, s)
  {
  }

  /** What one attempt to apply a wire gives. */
  datatype Applied = Applied(ok: bool, signals: Signals) | Panicked

  /** `Wire::try_apply`: a wire whose destination already has a signal is
      done and changes nothing, so a preset signal wins; otherwise the
      gate's value is inserted, or the wire must wait. */
  function TryApply(w: Wire, s: Signals): (r: Applied)
    requires Fits(s) && ValidInstruction(w.instruction)
    ensures w.destination in s ==> r == Applied(true, s)
    ensures r.Panicked? <==> w.destination !in s && Value(w.instruction, s) == ShiftOverflow
    ensures r.Applied? && !r.ok <==> w.destination !in s && Value(w.instruction, s) == Unknown
    ensures r.Applied? && !r.ok ==> r.signals == s
    ensures r.Applied? && r.ok && w.destination !in s ==>
      r.signals == s[w.destination := Value(w.instruction, s).v]
    ensures r.Applied? ==> Fits(r.signals) && Extends(r.signals, s)
  {
    if w.destination in s then Applied(true, s)
    else
      match Value(w.instruction, s)
      case Known(v) => Applied(true, s[w.destination := v])
      case Unknown => Applied(false, s)
      case ShiftOverflow => Panicked
  }

  /** How `compute_all_signals` ends: every wire has a signal; the
      `assert_eq!` fails because the remaining wires wait on each other or
      on inputs nobody drives; or a shift overflows. */
  datatype Outcome =
    | Done(signals: Signals)
    | Stuck(signals: Signals, pending: seq<Wire>)
    | Overflow(signals: Signals, wire: Wire)

  /** Every signal not preset comes from a wire whose gate gives it. */
  ghost predicate Justified(s: Signals, preset: Signals, wires: seq<Wire>)
    requires Fits(s)
    requires forall w :: w in wires ==> ValidInstruction(w.instruction)
  {
    forall k :: k in s ==>
      (k in preset ||
       exists w :: w in wires && w.destination == k && Value(w.instruction, s) == Known(s[k]))
  }

  /** Adding a signal keeps the others justified. */
  lemma JustifiedInsert(s: Signals, preset: Signals, wires: seq<Wire>, w: Wire)
    requires Fits(s) && forall u :: u in wires ==> ValidInstruction(u.instruction)
    requires Justified(s, preset, wires) && w in wires && w.destination !in s
    requires Value(w.instruction, s).Known?
    ensures var t := s[w.destination := Value(w.instruction, s).v];
      Fits(t) && Justified(t, preset, wires)
  {
    var t := s[w.destination := Value(w.instruction, s).v];
    forall k | k in t && k !in preset
      ensures exists u :: u in wires && u.destination == k && Value(u.instruction, t) == Known(t[k])
    {
      if k == w.destination {
        ValueKept(w.instruction, s, t);
      } else {
        var u :| u in wires && u.destination == k && Value(u.instruction, s) == Known(s[k]);
        ValueKept(u.instruction, s, t);
      }
    }
  }

  /** `compute_all_signals`: passes over the waiting wires until none is
      left or a pass makes no progress. The presets are kept, every new
      signal is the value of a wire driving it, and on success every wire
      has a signal; when stuck, each remaining wire still lacks an input. */
  method ComputeAllSignals(wires: seq<Wire>, signals: Signals) returns (r: Outcome)
    requires Fits(signals)
    requires forall w :: w in wires ==> ValidInstruction(w.instruction)
    ensures Fits(r.signals) && Extends(r.signals, signals) && Justified(r.signals, signals, wires)
    ensures r.Done? ==> forall w :: w in wires ==> w.destination in r.signals
    ensures r.Stuck? ==> r.pending != [] && forall w :: w in r.pending ==>
      w in wires && w.destination !in r.signals && Value(w.instruction, r.signals) == Unknown
    ensures r.Overflow? ==>
      (r.wire in wires && r.wire.destination !in r.signals
       && Value(r.wire.instruction, r.signals) == ShiftOverflow)
  {
    var waiting := wires;
    var s := signals;
    var prev := 0;
    while |waiting| != prev && waiting != []
      invariant Fits(s) && Extends(s, signals) && Justified(s, signals, wires)
      invariant forall w :: w in waiting ==> w in wires
      invariant forall w :: w in wires ==> w in waiting || w.destination in s
      invariant |waiting| == prev && waiting != [] ==> forall w :: w in waiting ==>
        w.destination !in s && Value(w.instruction, s) == Unknown
      decreases if |waiting| == prev then 0 else |waiting| + 1
    {
      prev := |waiting|;
      var pending, overflow;
      s, pending, overflow := Pass(waiting, s, signals, wires);
      if overflow.Some? {
        return Overflow(s, overflow.value);
      }
      waiting := pending;
    }
    if waiting != [] {
      return Stuck(s, waiting);
    }
    return Done(s);
  }

  /** `t` keeps what `s` and the seeded `signals` hold, fits in 16 bits,
      and every signal of it not seeded comes from one of the wires. */
  ghost predicate Grown(t: Signals, s: Signals, signals: Signals, wires: seq<Wire>)
    requires forall w :: w in wires ==> ValidInstruction(w.instruction)
  {
    Fits(t) && Extends(t, s) && Extends(t, signals) && Justified(t, signals, wires)
  }

  /** One pass of `compute_all_signals` over the waiting wires: the wires
      that could not be applied stay pending, in order, and a pass that
      leaves every wire pending has changed nothing. */
  method Pass(waiting: seq<Wire>, s: Signals, ghost signals: Signals, ghost wires: seq<Wire>)
    returns (s': Signals, pending: seq<Wire>, overflow: Option<Wire>)
    requires Fits(s) && Extends(s, signals)
    requires forall w :: w in wires ==> ValidInstruction(w.instruction)
    requires Justified(s, signals, wires)
    requires forall w :: w in waiting ==> w in wires
    ensures Grown(s', s, signals, wires)
    ensures overflow.Some? ==> (overflow.value in wires && overflow.value.destination !in s'
      && Value(overflow.value.instruction, s') == ShiftOverflow)
    ensures overflow.None? ==> |pending| <= |waiting| && forall w :: w in pending ==> w in waiting
    ensures overflow.None? ==> forall w :: w in waiting ==> w in pending || w.destination in s'
    ensures overflow.None? && |pending| == |waiting| ==> forall w :: w in pending ==>
      w.destination !in s' && Value(w.instruction, s') == Unknown
  {
    s', pending, overflow := s, [], None;
    ghost var applied := 0;
    for j := 0 to |waiting|
      invariant Grown(s', s, signals, wires)
      invariant |pending| + applied == j
      invariant forall w :: w in pending ==> w in waiting
      invariant forall w :: w in waiting[..j] ==> w in pending || w.destination in s'
      invariant applied == 0 ==> forall w :: w in pending ==>
        w.destination !in s' && Value(w.instruction, s') == Unknown
    {
      var w := waiting[j];
      assert waiting[..j + 1] == waiting[..j] + [w];
      var step := TryApply(w, s');
      if step.Panicked? {
        return s', pending, Some(w);
      }
      if step.ok {
        AppliedKeeps(w, s', s, signals, wires);
        s' := step.signals;
        applied := applied + 1;
      } else {
        pending := pending + [w];
      }
    }
    assert waiting[..|waiting|] == waiting;
  }

  /** Applying a wire keeps everything the pass maintains and gives its
      destination a signal. */
  lemma AppliedKeeps(w: Wire, cur: Signals, s: Signals, signals: Signals, wires: seq<Wire>)
    requires Fits(cur) && Extends(cur, s) && Extends(cur, signals)
    requires forall u :: u in wires ==> ValidInstruction(u.instruction)
    requires Justified(cur, signals, wires) && w in wires
    requires TryApply(w, cur).Applied? && TryApply(w, cur).ok
    ensures var t := TryApply(w, cur).signals;
      Grown(t, s, signals, wires) && Extends(t, cur) && w.destination in t
  {
    if w.destination !in cur {
      JustifiedInsert(cur, signals, wires, w);
    }
  }

  /** A wire whose destination is preset is done at once and changes
      nothing; `b` keeps its preset value against its own gate. */
  lemma PresetWins()
    ensures TryApply(Wire(Copy(Literal(3)), "b"), map["b" := 7]) == Applied(true, map["b" := 7])
  {
  }

  /** `123 -> x` then `NOT x -> h`: h is 65412. */
  lemma NotExample()
    ensures Value(Not(Reference("x")), map["x" := 123]) == Known(65412)
  {
  }
}
