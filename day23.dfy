// Day 23: the two-register computer. Registers `a` and `b` hold
// non-negative integers and start at 0; the program is a list of six
// kinds of instruction, and the instruction pointer moves on by one or by
// a signed jump offset. The computer halts when the pointer leaves the
// program.

module Day23 {

  datatype Register = A | B

  /** The register's slot in the register array. */
  function Slot(r: Register): (i: nat)
    ensures i < 2
    ensures (r == A) == (i == 0)
  {
    match r
    case A => 0
    case B => 1
  }

  datatype Instruction =
    | Hlf(r: Register)
    | Tpl(r: Register)
    | Inc(r: Register)
    | Jmp(offset: int)
    | Jie(r: Register, offset: int)
    | Jio(r: Register, offset: int)

  /** The registers and the instruction pointer, as one value. */
  datatype Machine = Machine(a: nat, b: nat, ip: int)

  function Value(m: Machine, r: Register): nat
  {
    match r
    case A => m.a
    case B => m.b
  }

  function Set(m: Machine, r: Register, v: nat): (m': Machine)
    ensures Value(m', r) == v && m'.ip == m.ip
    ensures forall q :: q != r ==> Value(m', q) == Value(m, q)
  {
    match r
    case A => m.(a := v)
    case B => m.(b := v)
  }

  /** The machine the computer starts in, and returns to on `reset`. */
  function Start(): (m: Machine)
    ensures m.a == 0 && m.b == 0 && m.ip == 0
  {
    Machine(0, 0, 0)
  }

  /** What one instruction does: the three arithmetic instructions change
      their register and move on by one; a jump moves by its offset when
      its condition holds, and on by one otherwise. */
  function Exec(m: Machine, ins: Instruction): (r: Machine)
    ensures forall q :: ins.Jmp? || ins.r != q ==> Value(r, q) == Value(m, q)
    ensures r.ip == m.ip + 1 || ((ins.Jmp? || ins.Jie? || ins.Jio?) && r.ip == m.ip + ins.offset)
    ensures ins.Jmp? || ins.Jie? || ins.Jio? ==> r.a == m.a && r.b == m.b
  {
    match ins
    case Hlf(r) => Set(m, r, Value(m, r) / 2).(ip := m.ip + 1)
    case Tpl(r) => Set(m, r, Value(m, r) * 3).(ip := m.ip + 1)
    case Inc(r) => Set(m, r, Value(m, r) + 1).(ip := m.ip + 1)
    case Jmp(o) => m.(ip := m.ip + o)
    case Jie(r, o) => m.(ip := if Value(m, r) % 2 == 0 then m.ip + o else m.ip + 1)
    case Jio(r, o) => m.(ip := if Value(m, r) == 1 then m.ip + o else m.ip + 1)
  }

  /** Each instruction changes only the register it names, or none. */
  lemma ExecFrame(m: Machine, ins: Instruction, q: Register)
    requires ins.Jmp? || ins.r != q
    ensures Value(Exec(m, ins), q) == Value(m, q)
  {
  }

  /** The three arithmetic instructions: floor-halving, tripling and
      incrementing the named register, each moving on by one. */
  lemma ExecArithmetic(m: Machine, r: Register)
    ensures var h := Exec(m, Hlf(r)); 2 * Value(h, r) <= Value(m, r) <= 2 * Value(h, r) + 1 && h.ip == m.ip + 1
    ensures var t := Exec(m, Tpl(r)); Value(t, r) == 3 * Value(m, r) && t.ip == m.ip + 1
    ensures var i := Exec(m, Inc(r)); Value(i, r) == Value(m, r) + 1 && i.ip == m.ip + 1
  {
  }

  /** A conditional jump jumps exactly when its condition holds: `jie` on
      an even register, `jio` on a register holding 1 (not on odd ones). */
  lemma ExecJumps(m: Machine, r: Register, o: int)
    requires o != 1
    ensures Exec(m, Jmp(o)).ip == m.ip + o
    ensures Exec(m, Jie(r, o)).ip == m.ip + o <==> Value(m, r) % 2 == 0
    ensures Exec(m, Jio(r, o)).ip == m.ip + o <==> Value(m, r) == 1
    ensures Exec(m, Jie(r, o)).ip != m.ip + o ==> Exec(m, Jie(r, o)).ip == m.ip + 1
    ensures Exec(m, Jio(r, o)).ip != m.ip + o ==> Exec(m, Jio(r, o)).ip == m.ip + 1
  {
  }

  /** The computer has halted once the pointer is outside the program. */
  predicate Halted(prog: seq<Instruction>, m: Machine)
  {
    !(0 <= m.ip < |prog|)
  }

  /** One step of `run`: the instruction under the pointer, if any. */
  function Step(prog: seq<Instruction>, m: Machine): Machine
  {
    if Halted(prog, m) then m else Exec(m, prog[m.ip])
  }

  /** `n` steps of `run`; a halted machine stays as it is. */
  function Steps(prog: seq<Instruction>, m: Machine, n: nat): (r: Machine)
    ensures Halted(prog, m) ==> r == m
    decreases n
  {
    if n == 0 then m else Steps(prog, Step(prog, m), n - 1)
  }

  /** Running `i` steps and then `j` more is running `i + j`. */
  lemma {:induction false} StepsAdd(prog: seq<Instruction>, m: Machine, i: nat, j: nat)
    ensures Steps(prog, Steps(prog, m, i), j) == Steps(prog, m, i + j)
    decreases i
  {
    if i > 0 {
      StepsAdd(prog, Step(prog, m), i - 1, j);
    }
  }

  /** Once halted, the machine stays halted and unchanged. */
  lemma {:induction false} HaltedStays(prog: seq<Instruction>, m: Machine, n: nat)
    requires Halted(prog, m)
    ensures Steps(prog, m, n) == m
  {
    if n > 0 {
      HaltedStays(prog, m, n - 1);
    }
  }

  /** Where the computer halts does not depend on how many steps past the
      halt are counted: any two step counts that reach a halt agree. */
  lemma HaltUnique(prog: seq<Instruction>, m: Machine, i: nat, j: nat)
    requires i <= j && Halted(prog, Steps(prog, m, i))
    ensures Steps(prog, m, j) == Steps(prog, m, i)
  {
    StepsAdd(prog, m, i, j - i);
    HaltedStays(prog, Steps(prog, m, i), j - i);
  }

  /** `jmp +0` jumps back to itself forever: a pointer resting on it never
      moves and nothing else changes. */
  lemma {:induction false} JumpToSelf(prog: seq<Instruction>, m: Machine, n: nat)
    requires 0 <= m.ip < |prog| && prog[m.ip] == Jmp(0)
    ensures Steps(prog, m, n) == m
  {
    if n > 0 {
      assert Step(prog, m) == m;
      JumpToSelf(prog, m, n - 1);
    }
  }

  /** The program of the puzzle's example: `inc a`, `jio a, +2`, `tpl a`,
      `inc a`. */
  function ExampleProgram(): seq<Instruction>
  {
    [Inc(A), Jio(A, 2), Tpl(A), Inc(A)]
  }

  /** The example halts after three steps, having skipped the `tpl`, with
      `a` at 2. */
  lemma ExampleRun()
    ensures var m := Steps(ExampleProgram(), Start(), 3);
      Halted(ExampleProgram(), m) && m.a == 2 && m.b == 0 && m.ip == 4
  {
    var p := ExampleProgram();
    var m1 := Step(p, Start());
    assert m1 == Machine(1, 0, 1);
    var m2 := Step(p, m1);
    assert m2 == Machine(1, 0, 3);
    var m3 := Step(p, m2);
    assert m3 == Machine(2, 0, 4);
    assert Steps(p, m3, 0) == m3;
    assert Steps(p, m2, 1) == m3;
    assert Steps(p, m1, 2) == m3;
  }

  // ---------------------------------------------------------------------
  // The computer

  class CPU {
    var registers: array<nat>
    var instructions: seq<Instruction>
    var ip: int

    /** Two registers. */
    predicate Valid()
      reads this
    {
      registers.Length == 2
    }

    function State(): Machine
      reads this, registers
      requires Valid()
    {
      Machine(registers[0], registers[1], ip)
    }

    /** `CPU::default`: both registers at 0, no program, pointer at 0. */
    constructor ()
      ensures Valid() && fresh(registers)
      ensures State() == Start() && instructions == []
    {
      registers := new nat[2](_ => 0);
      instructions := [];
      ip := 0;
    }

    /** `get`: the value of a register. */
    method Get(r: Register) returns (v: nat)
      requires Valid()
      ensures v == Value(State(), r)
    {
      v := registers[Slot(r)];
    }

    /** `hlf`. */
    method Hlf(r: Register)
      requires Valid()
      modifies registers, this`ip
      ensures Valid() && State() == Exec(old(State()), Instruction.Hlf(r))
    {
      registers[Slot(r)] := registers[Slot(r)] / 2;
      ip := ip + 1;
    }

    /** `tpl`. */
    method Tpl(r: Register)
      requires Valid()
      modifies registers, this`ip
      ensures Valid() && State() == Exec(old(State()), Instruction.Tpl(r))
    {
      registers[Slot(r)] := registers[Slot(r)] * 3;
      ip := ip + 1;
    }

    /** `inc`. */
    method Inc(r: Register)
      requires Valid()
      modifies registers, this`ip
      ensures Valid() && State() == Exec(old(State()), Instruction.Inc(r))
    {
      registers[Slot(r)] := registers[Slot(r)] + 1;
      ip := ip + 1;
    }

    /** `jmp`. */
    method Jmp(offset: int)
      requires Valid()
      modifies this`ip
      ensures Valid() && State() == Exec(old(State()), Instruction.Jmp(offset))
    {
      ip := ip + offset;
    }

    /** `jie`. */
    method Jie(r: Register, offset: int)
      requires Valid()
      modifies this`ip
      ensures Valid() && State() == Exec(old(State()), Instruction.Jie(r, offset))
    {
      var v := Get(r);
      if v % 2 == 0 {
        ip := ip + offset;
      } else {
        ip := ip + 1;
      }
    }

    /** `jio`. */
    method Jio(r: Register, offset: int)
      requires Valid()
      modifies this`ip
      ensures Valid() && State() == Exec(old(State()), Instruction.Jio(r, offset))
    {
      var v := Get(r);
      if v == 1 {
        ip := ip + offset;
      } else {
        ip := ip + 1;
      }
    }

    /** `run`: execute until the pointer leaves the program. The source
        loops for ever on a program that never halts; here the caller
        names a step count `n` after which the computer has halted, and
        the computer ends where `n` steps take it. */
    method Run(ghost n: nat)
      requires Valid() && Halted(instructions, Steps(instructions, State(), n))
      modifies registers, this`ip
      ensures Valid() && State() == Steps(instructions, old(State()), n)
      ensures Halted(instructions, State())
    {
      ghost var k := n;
      ghost var m0 := State();
      ghost var done: nat := 0;
      while 0 <= ip < |instructions|
        invariant Valid() && done + k == n
        invariant State() == Steps(instructions, m0, done)
        invariant Steps(instructions, State(), k) == Steps(instructions, m0, n)
        decreases k
      {
        if k == 0 {
          assert false;
        }
        ghost var before := State();
        match instructions[ip] {
          case Hlf(r) => Hlf(r);
          case Tpl(r) => Tpl(r);
          case Inc(r) => Inc(r);
          case Jmp(o) => Jmp(o);
          case Jie(r, o) => Jie(r, o);
          case Jio(r, o) => Jio(r, o);
        }
        assert State() == Step(instructions, before);
        StepsAdd(instructions, m0, done, 1);
        k, done := k - 1, done + 1;
      }
      HaltedStays(instructions, State(), k);
    }

    /** `reset`: pointer and registers back to 0; the program stays. */
    method Reset()
      requires Valid()
      modifies registers, this`ip
      ensures Valid() && State() == Start()
    {
      ip := 0;
      registers[0] := 0;
      registers[1] := 0;
    }

    /** `load`: a new program, from the start. */
    method Load(prog: seq<Instruction>)
      requires Valid()
      modifies registers, this`ip, this`instructions
      ensures Valid() && State() == Start() && instructions == prog
    {
      instructions := prog;
      Reset();
    }
  }
}
