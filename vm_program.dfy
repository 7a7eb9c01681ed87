/** A three-bit program (rust/17/src/program.rs): a list of instructions,
  each occupying two cells, so the program counter counts cells. */
module VmProgram {
  import opened Wrappers
  import opened VmInstructions

  datatype Program = Program(instructions: seq<Instruction>)

  /** `get_instruction`: the instruction whose cells include `pc`. */
  function GetInstruction(p: Program, pc: nat): (r: Option<Instruction>)
    ensures r.Some? <==> pc / 2 < |p.instructions|
  {
    if pc / 2 < |p.instructions| then Some(p.instructions[pc / 2]) else None
  }

  /** `valid_pc`: the pc is one of the program's cells, two per
    instruction. */
  predicate ValidPc(p: Program, pc: nat)
    ensures ValidPc(p, pc) <==> pc < 2 * |p.instructions|
  {
    pc / 2 < |p.instructions|
  }

  /** A valid pc is exactly one that has an instruction, namely the one at
    index pc / 2. */
  lemma GetInstructionValid(p: Program, pc: nat)
    ensures ValidPc(p, pc) <==> GetInstruction(p, pc).Some?
    ensures ValidPc(p, pc) ==> GetInstruction(p, pc).value == p.instructions[pc / 2]
  {
  }

  /** An odd pc names the same instruction as the even pc before it. */
  lemma OddPc(p: Program, pc: nat)
    requires pc % 2 == 1
    ensures GetInstruction(p, pc) == GetInstruction(p, pc - 1)
  {
  }

  /** Once a pc is invalid, every larger one is invalid too. */
  lemma ValidPcMonotone(p: Program, pc: nat, larger: nat)
    requires pc <= larger
    requires !ValidPc(p, pc)
    ensures !ValidPc(p, larger)
  {
  }
}
