/** The interpreter of the three-bit computer (rust/17/src/interpreter.rs and
  the state record of rust/17/src/state.rs). Registers are Rust `u64`s. */
module VmInterpreter {
  import opened Wrappers
  import opened VmInstructions
  import opened VmProgram

  const TWO_TO_64: nat := 0x1_0000_0000_0000_0000

  /** A Rust `u64`. */
  type U64 = x: int | 0 <= x < TWO_TO_64

  datatype RegisterState = RegisterState(a: U64, b: U64, c: U64)

  /** A snapshot of the machine state: program counter, registers, output. */
  datatype Machine = Machine(pc: nat, registers: RegisterState, out: seq<U8>)

  function Pow2(e: nat): (r: nat)
    ensures r >= 1
  {
    if e == 0 then 1 else 2 * Pow2(e - 1)
  }

  lemma {:induction false} Pow2Add(m: nat, n: nat)
    ensures Pow2(m + n) == Pow2(m) * Pow2(n)
    decreases m
  {
    if m > 0 {
      Pow2Add(m - 1, n);
    }
  }

  lemma Pow2Of64()
    ensures Pow2(64) == TWO_TO_64
  {
    assert Pow2(4) == 16;
    Pow2Add(4, 4);
    Pow2Add(8, 8);
    Pow2Add(16, 16);
    Pow2Add(32, 32);
  }

  /** Bitwise exclusive or of two naturals, bit by bit from the lowest. */
  function Xor(x: nat, y: nat): nat
    decreases x + y
  {
    if x == 0 then y
    else if y == 0 then x
    else 2 * Xor(x / 2, y / 2) + (if x % 2 == y % 2 then 0 else 1)
  }

  /** Xor of two k-bit numbers is a k-bit number. */
  lemma {:induction false} XorBound(x: nat, y: nat, k: nat)
    requires x < Pow2(k) && y < Pow2(k)
    ensures Xor(x, y) < Pow2(k)
    decreases k
  {
    if x == 0 || y == 0 {
    } else {
      XorBound(x / 2, y / 2, k - 1);
    }
  }

  /** Xor of a number with itself is 0. */
  lemma {:induction false} XorSelf(x: nat)
    ensures Xor(x, x) == 0
    decreases x
  {
    if x > 0 {
      XorSelf(x / 2);
    }
  }

  /** Xor with the same value twice is the identity. */
  lemma {:induction false} XorTwice(x: nat, y: nat)
    ensures Xor(Xor(x, y), y) == x
    decreases x + y
  {
    if x == 0 {
      XorSelf(y);
    } else if y > 0 {
      XorTwice(x / 2, y / 2);
      var q := Xor(x / 2, y / 2);
      var bit := if x % 2 == y % 2 then 0 else 1;
      assert Xor(x, y) == 2 * q + bit;
      if 2 * q + bit == 0 {
        assert x / 2 == y / 2 && x % 2 == y % 2;
      } else {
        assert (2 * q + bit) / 2 == q;
        assert (2 * q + bit) % 2 == bit;
      }
    }
  }

  function XorU64(x: U64, y: U64): (r: U64)
  {
    Pow2Of64();
    XorBound(x, y, 64);
    Xor(x, y)
  }

  /** `parse_operand`: a combo operand's value in the given registers. */
  function ParseOperand(operand: Combo, registers: RegisterState): (r: U64)
    ensures operand.Lit? ==> r == operand.n
    ensures operand == Reg(A) ==> r == registers.a
    ensures operand == Reg(B) ==> r == registers.b
    ensures operand == Reg(C) ==> r == registers.c
  {
    match operand
    case Lit(n) => n
    case Reg(A) => registers.a
    case Reg(B) => registers.b
    case Reg(C) => registers.c
  }

  /** `a / 2_u64.pow(e)`, which panics when `2^e` does not fit in a `u64`. */
  function DivPow(a: U64, e: U64): (r: Result<U64>)
    ensures r.Ok? <==> e < 64
    ensures r.Ok? ==> r.value * Pow2(e) <= a < (r.value + 1) * Pow2(e)
  {
    if e >= 64 then Err("attempt to multiply with overflow") else Ok(Quotient(a, Pow2(e)))
  }

  /** Rounded-down division of a register by a positive divisor. */
  function Quotient(a: U64, p: nat): (q: U64)
    requires p >= 1
    ensures q * p <= a < (q + 1) * p
  {
    DivBounds(a, p);
    a / p
  }

  /** Integer division rounds down: the quotient times the divisor stays
    within one divisor of the dividend. */
  lemma DivBounds(a: nat, p: nat)
    requires p >= 1
    ensures (a / p) * p <= a < (a / p + 1) * p
    ensures a / p <= a
  {
    var q := a / p;
    assert a == q * p + a % p;
    assert (q + 1) * p == q * p + p;
    assert q * p == q + q * (p - 1);
  }

  /** `execute_instruction` on a snapshot: the one-step semantics. It fails
    only on the power overflow; otherwise JNZ with A nonzero jumps to its
    literal and every other instruction advances the pc by one instruction. */
  function Execute(m: Machine, i: Instruction): (r: Result<Machine>)
    ensures r.Err? <==> Overflows(m, i)
    ensures r.Ok? ==> r.value.pc == if i.JNZ? && m.registers.a != 0 then i.literal.n else m.pc + 2
  {
    var regs := m.registers;
    var next := m.pc + 2;
    match i
    case ADV(op) =>
      var q := DivPow(regs.a, ParseOperand(op, regs));
      if q.Err? then Err(q.error)
      else Ok(Machine(next, regs.(a := q.value), m.out))
    case BXL(Literal(n)) => Ok(Machine(next, regs.(b := XorU64(regs.b, n)), m.out))
    case BST(op) => Ok(Machine(next, regs.(b := ParseOperand(op, regs) % 8), m.out))
    case JNZ(Literal(n)) => Ok(Machine(if regs.a != 0 then n else next, regs, m.out))
    case BXC(_) => Ok(Machine(next, regs.(b := XorU64(regs.b, regs.c)), m.out))
    case OUT(op) => Ok(Machine(next, regs, m.out + [ParseOperand(op, regs) % 8]))
    case BDV(op) =>
      var q := DivPow(regs.a, ParseOperand(op, regs));
      if q.Err? then Err(q.error)
      else Ok(Machine(next, regs.(b := q.value), m.out))
    case CDV(op) =>
      var q := DivPow(regs.a, ParseOperand(op, regs));
      if q.Err? then Err(q.error)
      else Ok(Machine(next, regs.(c := q.value), m.out))
  }

  /** `step` on a snapshot. */
  function StepMachine(p: Program, m: Machine): (r: Result<Machine>)
    ensures r.Err? <==> !ValidPc(p, m.pc) || Overflows(m, p.instructions[m.pc / 2])
  {
    match GetInstruction(p, m.pc)
    case None => Err("Invalid pc")
    case Some(i) => Execute(m, i)
  }

  /** Whether executing `i` in `m` hits the `u64` power overflow. */
  predicate Overflows(m: Machine, i: Instruction)
  {
    (i.ADV? || i.BDV? || i.CDV?) && ParseOperand(i.combo, m.registers) >= 64
  }

  /** Executing fails exactly on the power overflow. */
  lemma ExecuteFails(m: Machine, i: Instruction)
    ensures Execute(m, i).Err? <==> Overflows(m, i)
  {
  }

  /** ADV, BDV and CDV store A / 2^operand in A, B and C respectively and leave
    the other registers alone. */
  lemma ExecuteDivision(m: Machine, i: Instruction)
    requires i.ADV? || i.BDV? || i.CDV?
    requires !Overflows(m, i)
    ensures var r := Execute(m, i).value.registers;
      var q := m.registers.a / Pow2(ParseOperand(i.combo, m.registers));
      (if i.ADV? then r.a == q else r.a == m.registers.a) &&
      (if i.BDV? then r.b == q else r.b == m.registers.b) &&
      (if i.CDV? then r.c == q else r.c == m.registers.c)
  {
  }

  /** BXL xors B with its literal, BXC xors B with C, BST stores the operand
    modulo 8 in B; none of them touches A or C. */
  lemma ExecuteRegisterB(m: Machine, i: Instruction)
    requires i.BXL? || i.BXC? || i.BST?
    ensures var r := Execute(m, i).value.registers;
      r.a == m.registers.a && r.c == m.registers.c &&
      r.b == (if i.BXL? then Xor(m.registers.b, i.literal.n)
              else if i.BXC? then Xor(m.registers.b, m.registers.c)
              else ParseOperand(i.combo, m.registers) % 8)
  {
  }

  /** JNZ jumps to its literal iff A is not 0; every other successful step
    advances the pc by 2. */
  lemma ExecutePc(m: Machine, i: Instruction)
    requires Execute(m, i).Ok?
    ensures Execute(m, i).value.pc ==
      if i.JNZ? && m.registers.a != 0 then i.literal.n else m.pc + 2
  {
  }

  /** Only OUT changes the output, and it appends one value below 8. */
  lemma ExecuteOut(m: Machine, i: Instruction)
    requires Execute(m, i).Ok?
    ensures var out := Execute(m, i).value.out;
      if i.OUT? then |out| == |m.out| + 1 && out[..|m.out|] == m.out && out[|m.out|] < 8
      else out == m.out
  {
  }

  /** A BXL applied twice with the same literal restores B. */
  lemma BxlTwice(m: Machine, n: U8)
    requires n < 8
    ensures Execute(Execute(m, BXL(Literal(n))).value, BXL(Literal(n))).value.registers == m.registers
  {
    XorTwice(m.registers.b, n);
  }

  /** A step fails iff the pc names no instruction or the instruction there
    overflows. */
  lemma StepFails(p: Program, m: Machine)
    ensures StepMachine(p, m).Err? <==>
      !ValidPc(p, m.pc) || Overflows(m, p.instructions[m.pc / 2])
  {
    ExecuteFails(m, if ValidPc(p, m.pc) then p.instructions[m.pc / 2] else ADV(Lit(0)));
  }

  /** The machine state that `step` updates in place. */
  class State {
    var pc: nat
    var registers: RegisterState
    var out: seq<U8>

    function Snapshot(): Machine
      reads this
    {
      Machine(pc, registers, out)
    }

    /** A fresh state with the given registers, pc 0 and no output. */
    constructor (registers: RegisterState)
      ensures Snapshot() == Machine(0, registers, [])
    {
      pc := 0;
      this.registers := registers;
      out := [];
    }

    /** `execute_instruction`: updates the registers, the pc and the output
      in place as `Execute` says; on the power overflow the source panics
      and nothing has been changed. */
    method ExecuteInstruction(instruction: Instruction) returns (r: Result<()>)
      modifies this
      ensures r.Ok? <==> Execute(old(Snapshot()), instruction).Ok?
      ensures r.Ok? ==> Snapshot() == Execute(old(Snapshot()), instruction).value
      ensures r.Err? ==> Snapshot() == old(Snapshot())
    {
      var jumped := false;
      match instruction {
        case ADV(op) =>
          var q := DivPow(registers.a, ParseOperand(op, registers));
          if q.Err? {
            return Err(q.error);
          }
          registers := registers.(a := q.value);
        case BXL(Literal(n)) =>
          registers := registers.(b := XorU64(registers.b, n));
        case BST(op) =>
          registers := registers.(b := ParseOperand(op, registers) % 8);
        case JNZ(Literal(n)) =>
          if registers.a != 0 {
            pc := n;
            jumped := true;
          }
        case BXC(_) =>
          registers := registers.(b := XorU64(registers.b, registers.c));
        case OUT(op) =>
          out := out + [ParseOperand(op, registers) % 8];
        case BDV(op) =>
          var q := DivPow(registers.a, ParseOperand(op, registers));
          if q.Err? {
            return Err(q.error);
          }
          registers := registers.(b := q.value);
        case CDV(op) =>
          var q := DivPow(registers.a, ParseOperand(op, registers));
          if q.Err? {
            return Err(q.error);
          }
          registers := registers.(c := q.value);
      }
      if !jumped {
        pc := pc + 2;
      }
      r := Ok(());
    }

    /** `step`: fetch the instruction at the pc, or fail with "Invalid pc"
      leaving the state as it was, and execute it. */
    method Step(program: Program) returns (r: Result<()>)
      modifies this
      ensures r.Ok? <==> StepMachine(program, old(Snapshot())).Ok?
      ensures r.Ok? ==> Snapshot() == StepMachine(program, old(Snapshot())).value
      ensures r.Err? ==> Snapshot() == old(Snapshot())
      ensures !ValidPc(program, old(pc)) ==> r.Err?
    {
      var instruction := GetInstruction(program, pc);
      if instruction.None? {
        return Err("Invalid pc");
      }
      r := ExecuteInstruction(instruction.value);
    }
  }

  /** Worked single steps: B = 29 xor 7 is 26, and BST of C = 9 gives 1. */
  lemma ExamplesRegisterB()
    ensures Execute(Machine(0, RegisterState(0, 29, 0), []), BXL(Literal(7))).value.registers.b == 26
    ensures Execute(Machine(0, RegisterState(0, 0, 9), []), BST(Reg(C))).value.registers.b == 1
  {
    assert Xor(29, 7) == 26;
  }

  /** Worked single steps: OUT of A = 10 appends 2, and ADV 3 divides 729 by 8. */
  lemma ExamplesOutAdv()
    ensures Execute(Machine(4, RegisterState(10, 0, 0), [1]), OUT(Reg(A))).value == Machine(6, RegisterState(10, 0, 0), [1, 2])
    ensures Execute(Machine(4, RegisterState(729, 0, 0), []), ADV(Lit(3))).value.registers.a == 91
  {
    assert Pow2(3) == 8;
  }
}
