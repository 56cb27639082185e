/** The per-instruction state changes of the LS-8 engine: stack, subroutine,
    jump and ALU instructions. Each returns None exactly when the original
    program would raise an indexing error part-way through the instruction. */
module Instructions {
  import opened Wrappers
  import opened Machine
  import opened Opcodes

  /** The comparison outcomes as flag values: bit 2 less-than, bit 1
      greater-than, bit 0 equal. */
  const FlLess: int := 0x04
  const FlGreater: int := 0x02
  const FlEqual: int := 0x01

  /** Bit 0 of the flags: the last comparison found its operands equal. */
  predicate EqualFlag(s: State) {
    HasBit(s.fl, FlEqual)
  }

  /** PUSH: decrement the stack pointer, then store register a (read after
      the decrement, so pushing the stack pointer stores its new value) at the
      cell the new stack pointer names. */
  function Push(s: State, a: int): (r: Option<State>)
    requires Valid(s)
    ensures r.Some? <==> IsReg(a) && IsAddr(s.reg[SP] - 1)
    ensures r.Some? ==> Valid(r.value)
    ensures r.Some? ==> r.value.reg[SP] == s.reg[SP] - 1
    ensures r.Some? ==> RegSameExcept(s, r.value, SP)
    ensures r.Some? ==> r.value.ram[Cell(s.reg[SP] - 1)]
                        == if Slot(a) == SP then s.reg[SP] - 1 else s.reg[Slot(a)]
    ensures r.Some? ==> RamSameExcept(s, r.value, Cell(s.reg[SP] - 1))
    ensures r.Some? ==> r.value.pc == s.pc && r.value.fl == s.fl
  {
    var s1 := s.(reg := s.reg[SP := s.reg[SP] - 1]);
    var v :- RegRead(s1, a);
    RamWrite(s1, s1.reg[SP], v)
  }

  /** POP: load the cell the stack pointer names into register a, then
      increment the stack pointer (read after the load, so popping into the
      stack pointer leaves it one above the loaded value). */
  function Pop(s: State, a: int): (r: Option<State>)
    requires Valid(s)
    ensures r.Some? <==> IsAddr(s.reg[SP]) && IsReg(a)
    ensures r.Some? ==> Valid(r.value)
    ensures r.Some? && Slot(a) == SP ==> r.value.reg[SP] == s.ram[Cell(s.reg[SP])] + 1
    ensures r.Some? && Slot(a) != SP ==>
              && r.value.reg[Slot(a)] == s.ram[Cell(s.reg[SP])]
              && r.value.reg[SP] == s.reg[SP] + 1
    ensures r.Some? ==> forall j :: 0 <= j < RegCount && j != SP && j != Slot(a) ==> r.value.reg[j] == s.reg[j]
    ensures r.Some? ==> r.value.ram == s.ram && r.value.pc == s.pc && r.value.fl == s.fl
  {
    var v :- RamRead(s, s.reg[SP]);
    var s1 :- RegWrite(s, a, v);
    Some(s1.(reg := s1.reg[SP := s1.reg[SP] + 1]))
  }

  /** CALL: push the address two past the call (the next instruction), then
      jump to the address in register a, read after the push. */
  function Call(s: State, a: int): (r: Option<State>)
    requires Valid(s)
    ensures r.Some? <==> IsAddr(s.reg[SP] - 1) && IsReg(a)
    ensures r.Some? ==> Valid(r.value)
    ensures r.Some? ==> r.value.reg[SP] == s.reg[SP] - 1 && RegSameExcept(s, r.value, SP)
    ensures r.Some? ==> r.value.ram[Cell(s.reg[SP] - 1)] == s.pc + 2
    ensures r.Some? ==> RamSameExcept(s, r.value, Cell(s.reg[SP] - 1))
    ensures r.Some? ==> r.value.pc == if Slot(a) == SP then s.reg[SP] - 1 else s.reg[Slot(a)]
    ensures r.Some? ==> r.value.fl == s.fl
  {
    var next := s.pc + 2;
    var s1 := s.(reg := s.reg[SP := s.reg[SP] - 1]);
    var s2 :- RamWrite(s1, s1.reg[SP], next);
    var target :- RegRead(s2, a);
    Some(s2.(pc := target))
  }

  /** RET: jump to the address in the cell the stack pointer names, then
      increment the stack pointer. */
  function Ret(s: State): (r: Option<State>)
    requires Valid(s)
    ensures r.Some? <==> IsAddr(s.reg[SP])
    ensures r.Some? ==> Valid(r.value)
    ensures r.Some? ==> r.value.pc == s.ram[Cell(s.reg[SP])]
    ensures r.Some? ==> r.value.reg[SP] == s.reg[SP] + 1 && RegSameExcept(s, r.value, SP)
    ensures r.Some? ==> r.value.ram == s.ram && r.value.fl == s.fl
  {
    var target :- RamRead(s, s.reg[SP]);
    Some(s.(pc := target, reg := s.reg[SP := s.reg[SP] + 1]))
  }

  /** JMP: jump to the address in register a. */
  function Jmp(s: State, a: int): (r: Option<State>)
    requires Valid(s)
    ensures r.Some? <==> IsReg(a)
    ensures r.Some? ==> r.value == s.(pc := s.reg[Slot(a)])
  {
    var target :- RegRead(s, a);
    Some(s.(pc := target))
  }

  /** JEQ: jump to register a when the equal flag is set, otherwise step
      over the two-byte instruction. The register is only read when the jump
      is taken. */
  function Jeq(s: State, a: int): (r: Option<State>)
    requires Valid(s)
    ensures r.Some? <==> !EqualFlag(s) || IsReg(a)
    ensures r.Some? ==> r.value == s.(pc := if EqualFlag(s) then s.reg[Slot(a)] else s.pc + 2)
  {
    if EqualFlag(s) then Jmp(s, a) else Some(s.(pc := s.pc + 2))
  }

  /** JNE: jump to register a when the equal flag is clear, otherwise step
      over the two-byte instruction. */
  function Jne(s: State, a: int): (r: Option<State>)
    requires Valid(s)
    ensures r.Some? <==> EqualFlag(s) || IsReg(a)
    ensures r.Some? ==> r.value == s.(pc := if !EqualFlag(s) then s.reg[Slot(a)] else s.pc + 2)
  {
    if !EqualFlag(s) then Jmp(s, a) else Some(s.(pc := s.pc + 2))
  }

  /** The flags a comparison of x with y leaves: all bits cleared, then bit 2
      for less-than, bit 1 for greater-than, bit 0 for equal. */
  function CompareFlags(x: int, y: int): (f: int)
    ensures f == FlLess || f == FlGreater || f == FlEqual
    ensures f == FlLess <==> x < y
    ensures f == FlGreater <==> x > y
    ensures f == FlEqual <==> x == y
  {
    if x < y then FlLess
    else if x > y then FlGreater
    else FlEqual
  }

  /** The ALU: ADD and MUL update register a in place, with no reduction to
      a byte; CMP only sets the flags. Any other instruction is an
      unsupported ALU operation, an error. */
  function Alu(s: State, op: Instr, a: int, b: int): (r: Option<State>)
    requires Valid(s)
    ensures r.Some? <==> IsAluOp(op) && IsReg(a) && IsReg(b)
    ensures r.Some? ==> Valid(r.value) && r.value.ram == s.ram && r.value.pc == s.pc
    ensures r.Some? && op.Add? ==>
              && r.value.reg[Slot(a)] == s.reg[Slot(a)] + s.reg[Slot(b)]
              && RegSameExcept(s, r.value, Slot(a)) && r.value.fl == s.fl
    ensures r.Some? && op.Mul? ==>
              && r.value.reg[Slot(a)] == s.reg[Slot(a)] * s.reg[Slot(b)]
              && RegSameExcept(s, r.value, Slot(a)) && r.value.fl == s.fl
    ensures r.Some? && op.Cmp? ==>
              && r.value.reg == s.reg
              && (r.value.fl == FlLess <==> s.reg[Slot(a)] < s.reg[Slot(b)])
              && (r.value.fl == FlGreater <==> s.reg[Slot(a)] > s.reg[Slot(b)])
              && (r.value.fl == FlEqual <==> s.reg[Slot(a)] == s.reg[Slot(b)])
              && (r.value.fl == FlLess || r.value.fl == FlGreater || r.value.fl == FlEqual)
  {
    if !IsAluOp(op) then None
    else
      var x :- RegRead(s, a);
      var y :- RegRead(s, b);
      match op
      case Add => RegWrite(s, a, x + y)
      case Mul => RegWrite(s, a, x * y)
      case Cmp => Some(s.(fl := CompareFlags(x, y)))
  }
}
