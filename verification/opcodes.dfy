/** The fixed LS-8 instruction table, the opcode bit tests that drive the
    generic program-counter advance, and the dispatch from an opcode byte to
    an instruction. */
module Opcodes {
  import opened Wrappers

  const HLT: int := 0x01 // 00000001
  const LDI: int := 0x82 // 10000010
  const PRN: int := 0x47 // 01000111
  const MUL: int := 0xA2 // 10100010
  const ADD: int := 0xA0 // 10100000
  const CMP: int := 0xA7 // 10100111
  const PUSH: int := 0x45 // 01000101
  const POP: int := 0x46 // 01000110
  const CALL: int := 0x50 // 01010000
  const RET: int := 0x11 // 00010001
  const JMP: int := 0x54 // 01010100
  const JEQ: int := 0x55 // 01010101
  const JNE: int := 0x56 // 01010110

  datatype Instr =
    | Hlt | Ldi | Prn | Mul | Add | Cmp | Push | Pop | Call | Ret | Jmp | Jeq | Jne

  /** The opcode byte of each instruction. */
  function Opcode(i: Instr): int {
    match i
    case Hlt => HLT
    case Ldi => LDI
    case Prn => PRN
    case Mul => MUL
    case Add => ADD
    case Cmp => CMP
    case Push => PUSH
    case Pop => POP
    case Call => CALL
    case Ret => RET
    case Jmp => JMP
    case Jeq => JEQ
    case Jne => JNE
  }

  /** The documented operand count of each instruction, independent of the
      bits of its opcode. */
  function Operands(i: Instr): nat {
    match i
    case Hlt | Ret => 0
    case Prn | Push | Pop | Call | Jmp | Jeq | Jne => 1
    case Ldi | Mul | Add | Cmp => 2
  }

  /** The instructions that set the program counter themselves. */
  predicate TransfersControl(i: Instr) {
    i.Call? || i.Ret? || i.Jmp? || i.Jeq? || i.Jne?
  }

  /** The instructions the ALU dispatch table serves. */
  predicate IsAluOp(i: Instr) {
    i.Add? || i.Mul? || i.Cmp?
  }

  /** `x & mask` is non-zero, for a single-bit mask: on unbounded two's
      complement integers, bit k of x is the parity of floor(x / 2^k), and
      Dafny's division by a positive divisor rounds down. */
  predicate HasBit(x: int, mask: nat)
    requires mask > 0
  {
    (x / mask) % 2 == 1
  }

  /** Bit 4: the instruction sets the program counter itself. */
  predicate SetsPc(ir: int) {
    HasBit(ir, 0x10)
  }

  /** Bit 5: an ALU-class instruction. */
  predicate IsAluClass(ir: int) {
    HasBit(ir, 0x20)
  }

  /** The generic advance for an opcode: 3 when bit 7 is set, else 2 when
      bit 6 is set, else 1. */
  function Length(ir: int): (n: nat)
    ensures 1 <= n <= 3
    ensures n == 3 <==> HasBit(ir, 0x80)
    ensures n == 2 <==> !HasBit(ir, 0x80) && HasBit(ir, 0x40)
  {
    if HasBit(ir, 0x80) then 3
    else if HasBit(ir, 0x40) then 2
    else 1
  }

  /** The ALU dispatch table: an opcode-keyed map of the three ALU
      instructions. */
  const Bt: map<int, Instr> := map[MUL := Mul, ADD := Add, CMP := Cmp]

  /** The instruction the engine dispatches an opcode byte to: the ten
      opcodes compared directly, then, for an ALU-class byte, a lookup in the
      ALU table; None when neither recognises the byte. */
  function Decode(ir: int): (r: Option<Instr>)
    ensures r.Some? ==> Opcode(r.value) == ir
  {
    if ir == PRN then Some(Prn)
    else if ir == LDI then Some(Ldi)
    else if ir == HLT then Some(Hlt)
    else if ir == PUSH then Some(Push)
    else if ir == POP then Some(Pop)
    else if ir == CALL then Some(Call)
    else if ir == RET then Some(Ret)
    else if ir == JMP then Some(Jmp)
    else if ir == JEQ then Some(Jeq)
    else if ir == JNE then Some(Jne)
    else if IsAluClass(ir) then
      if ir in Bt then Some(Bt[ir]) else None
    else None
  }

  /** Every instruction's opcode decodes back to it, so the thirteen opcodes
      are pairwise distinct. */
  lemma {:induction false} DecodeOpcode(i: Instr)
    ensures Decode(Opcode(i)) == Some(i)
  {
    match i
    case Mul => assert IsAluClass(MUL) && MUL in Bt;
    case Add => assert IsAluClass(ADD) && ADD in Bt;
    case Cmp => assert IsAluClass(CMP) && CMP in Bt;
    case _ =>
  }

  /** The opcode bits agree with the documented table: the generic advance
      is one more than the operand count, bit 4 is set exactly on the five
      control-transfer instructions, and bit 5 exactly on the ALU ones. */
  lemma {:induction false} OpcodeBits(i: Instr)
    ensures Length(Opcode(i)) == 1 + Operands(i)
    ensures SetsPc(Opcode(i)) <==> TransfersControl(i)
    ensures IsAluClass(Opcode(i)) <==> IsAluOp(i)
  {
    match i
    case Hlt =>
    case Ldi =>
    case Prn =>
    case Mul =>
    case Add =>
    case Cmp =>
    case Push =>
    case Pop =>
    case Call =>
    case Ret =>
    case Jmp =>
    case Jeq =>
    case Jne =>
  }

  /** An ALU-class byte missing from the ALU table and a byte with no class
      bit that matches no opcode are both unrecognised. */
  lemma UnrecognisedBytes(ir: int)
    ensures Decode(ir).None? <==> forall i: Instr :: Opcode(i) != ir
  {
    if Decode(ir).None? {
      forall i: Instr ensures Opcode(i) != ir {
        DecodeOpcode(i);
      }
    }
  }
}
