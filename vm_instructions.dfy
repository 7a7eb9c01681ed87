/** Instructions of the three-bit computer (rust/17/src/instructions.rs):
  decoding an (opcode, operand) pair of three-bit numbers into an instruction
  and encoding it back. */
module VmInstructions {
  import opened Wrappers

  /** A Rust `u8`. */
  type U8 = x: int | 0 <= x < 256

  datatype Register = A | B | C

  /** A literal operand: the number itself. */
  datatype Literal = Literal(n: U8)

  /** A combo operand: 0..3 stand for themselves, 4, 5, 6 for the registers. */
  datatype Combo = Lit(n: U8) | Reg(register: Register)

  datatype Instruction =
    | ADV(combo: Combo)
    | BXL(literal: Literal)
    | BST(combo: Combo)
    | JNZ(literal: Literal)
    | BXC(literal: Literal)
    | OUT(combo: Combo)
    | BDV(combo: Combo)
    | CDV(combo: Combo)

  /** `Literal::parse`: operands 0..7 are accepted unchanged. */
  function ParseLiteral(operand: U8): (r: Result<Literal>)
    ensures r.Ok? <==> operand < 8
    ensures r.Ok? ==> EncodeLiteral(r.value) == operand
  {
    if operand >= 8 then Err("Invalid literal") else Ok(Literal(operand))
  }

  function EncodeLiteral(l: Literal): U8
  {
    l.n
  }

  /** `Combo::parse`. */
  function ParseCombo(operand: U8): (r: Result<Combo>)
    ensures r.Ok? <==> operand <= 6
    ensures r.Ok? ==> (r.value.Lit? <==> operand <= 3)
    ensures r.Ok? ==> EncodeCombo(r.value) == operand
  {
    if operand <= 3 then Ok(Lit(operand))
    else if operand == 4 then Ok(Reg(A))
    else if operand == 5 then Ok(Reg(B))
    else if operand == 6 then Ok(Reg(C))
    else Err("Invalid combo operand")
  }

  function EncodeCombo(c: Combo): U8
  {
    match c
    case Lit(n) => n
    case Reg(A) => 4
    case Reg(B) => 5
    case Reg(C) => 6
  }

  /** The opcodes whose operand is a combo operand. */
  predicate TakesCombo(opcode: U8)
  {
    opcode == 0 || opcode == 2 || opcode == 5 || opcode == 6 || opcode == 7
  }

  /** `Instruction::parse`: the opcode picks the instruction, then its operand
    is parsed as a literal or a combo operand. */
  function Parse(opcode: U8, operand: U8): (r: Result<Instruction>)
    ensures r.Ok? ==> Encode(r.value) == (opcode, operand)
  {
    match opcode
    case 0 => (var c := ParseCombo(operand); if c.Err? then Err(c.error) else Ok(ADV(c.value)))
    case 1 => (var l := ParseLiteral(operand); if l.Err? then Err(l.error) else Ok(BXL(l.value)))
    case 2 => (var c := ParseCombo(operand); if c.Err? then Err(c.error) else Ok(BST(c.value)))
    case 3 => (var l := ParseLiteral(operand); if l.Err? then Err(l.error) else Ok(JNZ(l.value)))
    case 4 => (var l := ParseLiteral(operand); if l.Err? then Err(l.error) else Ok(BXC(l.value)))
    case 5 => (var c := ParseCombo(operand); if c.Err? then Err(c.error) else Ok(OUT(c.value)))
    case 6 => (var c := ParseCombo(operand); if c.Err? then Err(c.error) else Ok(BDV(c.value)))
    case 7 => (var c := ParseCombo(operand); if c.Err? then Err(c.error) else Ok(CDV(c.value)))
    case _ => Err("Invalid opcode")
  }

  /** The encoding `Into<(u8, u8)>`: the opcode and the operand's own encoding. */
  function Encode(i: Instruction): (r: (U8, U8))
    ensures r.0 < 8
  {
    match i
    case ADV(c) => (0, EncodeCombo(c))
    case BXL(l) => (1, EncodeLiteral(l))
    case BST(c) => (2, EncodeCombo(c))
    case JNZ(l) => (3, EncodeLiteral(l))
    case BXC(l) => (4, EncodeLiteral(l))
    case OUT(c) => (5, EncodeCombo(c))
    case BDV(c) => (6, EncodeCombo(c))
    case CDV(c) => (7, EncodeCombo(c))
  }

  /** The instructions that parsing can produce: literals below 8 and combo
    literals below 4. */
  predicate WellFormed(i: Instruction)
  {
    if i.BXL? || i.JNZ? || i.BXC? then i.literal.n < 8
    else i.combo.Lit? ==> i.combo.n <= 3
  }

  /** Exactly the opcodes 0..7 with an operand in range for that opcode parse,
    and what they parse to is well formed. */
  lemma ParseAccepts(opcode: U8, operand: U8)
    ensures Parse(opcode, operand).Ok? <==>
      opcode < 8 && operand < (if TakesCombo(opcode) then 7 else 8)
    ensures Parse(opcode, operand).Ok? ==> WellFormed(Parse(opcode, operand).value)
  {
  }

  /** Encoding a well-formed instruction and parsing it back gives it back. */
  lemma ParseEncode(i: Instruction)
    requires WellFormed(i)
    ensures Parse(Encode(i).0, Encode(i).1) == Ok(i)
  {
  }

  /** Parsing then encoding returns the original pair. */
  lemma EncodeParse(opcode: U8, operand: U8)
    requires Parse(opcode, operand).Ok?
    ensures Encode(Parse(opcode, operand).value) == (opcode, operand)
  {
  }

  /** The combo encoding is the inverse of combo parsing on 0..6. */
  lemma ComboRoundTrip(c: Combo)
    requires c.Lit? ==> c.n <= 3
    ensures ParseCombo(EncodeCombo(c)) == Ok(c)
  {
  }
}
