/** Properties of the LS-8 engine: what each instruction does in one step of
    the run loop, the stack and subroutine round trips, the comparison and
    conditional-jump pairing, the behaviour on unrecognised opcodes, and how
    runs compose. */
module Properties {
  import opened Wrappers
  import opened Machine
  import opened Opcodes
  import opened Instructions
  import opened Cpu

  /** The instruction at pc is fetchable and has opcode op. */
  predicate At(s: State, op: int)
    requires Valid(s)
  {
    Fetch(s).Some? && Fetch(s).value.ir == op
  }

  /** The first operand byte of a fetchable instruction. */
  function OperandA(s: State): int
    requires Valid(s) && Fetch(s).Some?
  {
    Fetch(s).value.a
  }

  /** The second operand byte of a fetchable instruction. */
  function OperandB(s: State): int
    requires Valid(s) && Fetch(s).Some?
  {
    Fetch(s).value.b
  }

  // ---------------------------------------------------------------------
  // The program-counter advance rule

  /** A recognised instruction that does not transfer control leaves pc just
      past its operands: one byte for the opcode plus its documented operand
      count. */
  lemma StepAdvancesPastOperands(s: State, i: Instr)
    requires Valid(s) && At(s, Opcode(i)) && !TransfersControl(i)
    requires Step(s).Continue?
    ensures Step(s).next.pc == s.pc + 1 + Operands(i)
  {
    OpcodeBits(i);
  }

  /** HLT ends the run with the state exactly as it was. */
  lemma HltHalts(s: State, fuel: nat)
    requires Valid(s) && At(s, HLT) && fuel > 0
    ensures Step(s) == Halt(s)
    ensures Run(s, fuel) == Halted(s, [])
  {
  }

  // ---------------------------------------------------------------------
  // Data movement, output and arithmetic

  /** PRN prints register a and changes nothing but pc, which moves past the
      two-byte instruction. */
  lemma PrnStep(s: State)
    requires Valid(s) && At(s, PRN)
    ensures Step(s) == if IsReg(OperandA(s))
                       then Continue(s.(pc := s.pc + 2), [Print(s.reg[Slot(OperandA(s))])])
                       else Fault
  {
    DecodeOpcode(Prn);
  }

  /** LDI loads its second operand byte into register a; nothing else but pc
      changes. */
  lemma LdiStep(s: State)
    requires Valid(s) && At(s, LDI)
    ensures Step(s) == if IsReg(OperandA(s))
                       then Continue(s.(reg := s.reg[Slot(OperandA(s)) := OperandB(s)],
                                        pc := s.pc + 3), [])
                       else Fault
  {
    DecodeOpcode(Ldi);
  }

  /** ADD and MUL replace register a by the exact sum or product of
      registers a and b, with no reduction modulo 256; memory, the flags and
      the other registers are unchanged, and pc moves past the three-byte
      instruction. */
  lemma ArithStep(s: State, i: Instr)
    requires Valid(s) && (i == Add || i == Mul) && At(s, Opcode(i))
    ensures IsReg(OperandA(s)) && IsReg(OperandB(s)) ==>
              var x, y := s.reg[Slot(OperandA(s))], s.reg[Slot(OperandB(s))];
              Step(s) == Continue(s.(reg := s.reg[Slot(OperandA(s)) := if i == Add then x + y else x * y],
                                     pc := s.pc + 3), [])
    ensures !(IsReg(OperandA(s)) && IsReg(OperandB(s))) ==> Step(s) == Fault
  {
    DecodeOpcode(i);
    OpcodeBits(i);
    if IsReg(OperandA(s)) && IsReg(OperandB(s)) {
      var t := Alu(s, i, OperandA(s), OperandB(s)).value;
      assert t.reg == s.reg[Slot(OperandA(s)) := t.reg[Slot(OperandA(s))]];
    }
  }

  /** CMP changes only the flags and pc: the flags become exactly the
      comparison outcome of register a against register b, and pc moves past
      the three-byte instruction. */
  lemma CmpStep(s: State)
    requires Valid(s) && At(s, CMP)
    ensures Step(s) == if IsReg(OperandA(s)) && IsReg(OperandB(s))
                       then var x, y := s.reg[Slot(OperandA(s))], s.reg[Slot(OperandB(s))];
                            Continue(s.(fl := CompareFlags(x, y), pc := s.pc + 3), [])
                       else Fault
  {
    DecodeOpcode(Cmp);
  }

  /** The equal bit of the flags a comparison leaves is set exactly when the
      operands are equal. */
  lemma EqualFlagAfterCompare(x: int, y: int)
    ensures HasBit(CompareFlags(x, y), FlEqual) <==> x == y
  {
  }

  // ---------------------------------------------------------------------
  // Conditional jumps

  /** JEQ jumps to register a exactly when the equal flag is set; otherwise
      pc moves past the two-byte instruction and no further advance is
      applied. Nothing but pc changes. */
  lemma JeqStep(s: State)
    requires Valid(s) && At(s, JEQ)
    ensures Step(s).Fault? <==> EqualFlag(s) && !IsReg(OperandA(s))
    ensures Step(s).Continue? ==>
              Step(s) == Continue(s.(pc := if EqualFlag(s) then s.reg[Slot(OperandA(s))]
                                           else s.pc + 2), [])
  {
    DecodeOpcode(Jeq);
  }

  /** JNE jumps to register a exactly when the equal flag is clear; otherwise
      pc moves past the two-byte instruction. */
  lemma JneStep(s: State)
    requires Valid(s) && At(s, JNE)
    ensures Step(s).Fault? <==> !EqualFlag(s) && !IsReg(OperandA(s))
    ensures Step(s).Continue? ==>
              Step(s) == Continue(s.(pc := if !EqualFlag(s) then s.reg[Slot(OperandA(s))]
                                           else s.pc + 2), [])
  {
    DecodeOpcode(Jne);
  }

  /** JMP sets pc to register a and nothing else; the generic advance is
      not applied. */
  lemma JmpStep(s: State)
    requires Valid(s) && At(s, JMP)
    ensures Step(s) == if IsReg(OperandA(s))
                       then Continue(s.(pc := s.reg[Slot(OperandA(s))]), [])
                       else Fault
  {
    DecodeOpcode(Jmp);
  }

  /** CMP x, y followed by a conditional jump on register c: JEQ jumps to
      register c exactly when registers x and y were equal, JNE exactly when
      they were not; the jump not taken lands just after the pair. */
  lemma JumpAfterCompare(s: State)
    requires Valid(s) && At(s, CMP) && Step(s).Continue?
    requires var t := Step(s).next; At(t, JEQ) || At(t, JNE)
    requires Step(Step(s).next).Continue?
    ensures var t := Step(s).next;
            var x, y := s.reg[Slot(OperandA(s))], s.reg[Slot(OperandB(s))];
            var taken := if At(t, JEQ) then x == y else x != y;
            Step(t).next.pc == if taken then t.reg[Slot(OperandA(t))] else s.pc + 5
  {
    CmpStep(s);
    var t := Step(s).next;
    var x, y := s.reg[Slot(OperandA(s))], s.reg[Slot(OperandB(s))];
    assert t.fl == CompareFlags(x, y);
    EqualFlagAfterCompare(x, y);
    if At(t, JEQ) {
      JeqStep(t);
    } else {
      JneStep(t);
    }
  }

  // ---------------------------------------------------------------------
  // The stack

  /** PUSH lowers the stack pointer by one and stores register a, read
      after the decrement, in the cell the new stack pointer names; pc moves
      past the two-byte instruction. It faults exactly when the operand is
      not a register or the lowered stack pointer is not an address. */
  lemma PushStep(s: State)
    requires Valid(s) && At(s, PUSH)
    ensures var a, sp := OperandA(s), s.reg[SP];
            Step(s) == if IsReg(a) && IsAddr(sp - 1)
                       then Continue(s.(reg := s.reg[SP := sp - 1],
                                        ram := s.ram[Cell(sp - 1) := if Slot(a) == SP then sp - 1
                                                                     else s.reg[Slot(a)]],
                                        pc := s.pc + 2), [])
                       else Fault
  {
    DecodeOpcode(Push);
    var a, sp := OperandA(s), s.reg[SP];
    if IsReg(a) && IsAddr(sp - 1) {
      var t := Instructions.Push(s, a).value;
      assert t.reg == s.reg[SP := sp - 1];
      assert t.ram == s.ram[Cell(sp - 1) := t.ram[Cell(sp - 1)]];
    }
  }

  /** POP loads the cell the stack pointer names into register a and then
      raises the stack pointer by one; pc moves past the two-byte
      instruction. It faults exactly when the stack pointer is not an
      address or the operand is not a register. */
  lemma PopStep(s: State)
    requires Valid(s) && At(s, POP)
    ensures var a, sp := OperandA(s), s.reg[SP];
            Step(s) == if IsAddr(sp) && IsReg(a)
                       then var loaded := s.reg[Slot(a) := s.ram[Cell(sp)]];
                            Continue(s.(reg := loaded[SP := loaded[SP] + 1], pc := s.pc + 2), [])
                       else Fault
  {
    DecodeOpcode(Pop);
    var a, sp := OperandA(s), s.reg[SP];
    if IsAddr(sp) && IsReg(a) {
      var t := Instructions.Pop(s, a).value;
      var loaded := s.reg[Slot(a) := s.ram[Cell(sp)]];
      assert t.reg == loaded[SP := loaded[SP] + 1];
    }
  }

  /** PUSH r followed directly by POP r restores every register, the stack
      pointer included, and the flags; only the cell below the old stack top
      keeps the pushed value, and pc has moved past both instructions. */
  lemma PushPopRoundTrip(s: State)
    requires Valid(s) && At(s, PUSH) && IsReg(OperandA(s)) && IsAddr(s.reg[SP] - 1)
    requires var t := Step(s).next; At(t, POP) && OperandA(t) == OperandA(s)
    ensures var t := Step(s).next;
            Step(t) == Continue(s.(ram := t.ram, pc := s.pc + 4), [])
  {
    PushStep(s);
    var a, sp := OperandA(s), s.reg[SP];
    var t := Step(s).next;
    PopStep(t);
    var loaded := t.reg[Slot(a) := t.ram[Cell(t.reg[SP])]];
    assert loaded[SP := loaded[SP] + 1] == s.reg;
  }


  /** CALL stores the address two past it in the cell below the stack top,
      lowers the stack pointer, and jumps to register a, read after the
      decrement; the generic advance is not applied. It faults exactly when
      the lowered stack pointer is not an address or the operand is not a
      register. */
  lemma CallStep(s: State)
    requires Valid(s) && At(s, CALL)
    ensures var a, sp := OperandA(s), s.reg[SP];
            Step(s) == if IsAddr(sp - 1) && IsReg(a)
                       then Continue(s.(reg := s.reg[SP := sp - 1],
                                        ram := s.ram[Cell(sp - 1) := s.pc + 2],
                                        pc := if Slot(a) == SP then sp - 1 else s.reg[Slot(a)]), [])
                       else Fault
  {
    DecodeOpcode(Call);
    var a, sp := OperandA(s), s.reg[SP];
    if IsAddr(sp - 1) && IsReg(a) {
      var t := Instructions.Call(s, a).value;
      assert t.reg == s.reg[SP := sp - 1];
      assert t.ram == s.ram[Cell(sp - 1) := s.pc + 2];
    }
  }

  /** RET jumps to the address in the cell the stack pointer names and
      raises the stack pointer by one; the generic advance is not applied. It
      faults exactly when the stack pointer is not an address. */
  lemma RetStep(s: State)
    requires Valid(s) && At(s, RET)
    ensures var sp := s.reg[SP];
            Step(s) == if IsAddr(sp)
                       then Continue(s.(reg := s.reg[SP := sp + 1], pc := s.ram[Cell(sp)]), [])
                       else Fault
  {
    DecodeOpcode(Ret);
    var sp := s.reg[SP];
    if IsAddr(sp) {
      var t := Instructions.Ret(s).value;
      assert t.reg == s.reg[SP := sp + 1];
    }
  }

  /** CALL followed, possibly much later, by RET with the stack pointer back
      where CALL left it and the return-address cell untouched: RET resumes
      at the instruction after the CALL and restores the stack pointer it had
      before the CALL. */
  lemma CallRetRoundTrip(s: State, t: State)
    requires Valid(s) && At(s, CALL) && IsAddr(s.reg[SP] - 1) && IsReg(OperandA(s))
    requires Valid(t) && At(t, RET)
    requires t.reg[SP] == Step(s).next.reg[SP]
    requires RamRead(t, t.reg[SP]) == RamRead(Step(s).next, t.reg[SP])
    ensures Step(t) == Continue(t.(pc := s.pc + 2, reg := t.reg[SP := s.reg[SP]]), [])
  {
    CallStep(s);
    RetStep(t);
    assert t.ram[Cell(t.reg[SP])] == s.pc + 2;
  }


  // ---------------------------------------------------------------------
  // Unrecognised opcodes

  /** An unrecognised opcode, whether ALU-class and missing from the ALU
      table or not, prints a diagnostic naming it and its address, changes
      nothing, and leaves pc to the generic advance. */
  lemma UnknownOpcodeStep(s: State)
    requires Valid(s) && Fetch(s).Some? && Decode(Fetch(s).value.ir).None?
    ensures var ir := Fetch(s).value.ir;
            Step(s) == Continue(s.(pc := if SetsPc(ir) then s.pc else s.pc + Length(ir)),
                                [NoCommand(ir, s.pc)])
  {
  }

  /** An unrecognised opcode with bit 4 set is a fixpoint: the run never
      leaves it, printing the same diagnostic on every iteration. */
  lemma {:induction false} UnknownSelfSetSpins(s: State, fuel: nat)
    requires Valid(s) && Fetch(s).Some?
    requires Decode(Fetch(s).value.ir).None? && SetsPc(Fetch(s).value.ir)
    ensures Run(s, fuel) == OutOfFuel(s, seq(fuel, _ => NoCommand(Fetch(s).value.ir, s.pc)))
    decreases fuel
  {
    var e := NoCommand(Fetch(s).value.ir, s.pc);
    if fuel > 0 {
      UnknownOpcodeStep(s);
      UnknownSelfSetSpins(s, fuel - 1);
      assert [e] + seq(fuel - 1, _ => e) == seq(fuel, _ => e);
    }
  }

  // ---------------------------------------------------------------------
  // Runs

  /** Continues a run that ran out of fuel for n more iterations; a run that
      halted or faulted stays as it is. */
  function Resume(r: RunResult, n: nat): RunResult
    requires r.OutOfFuel? ==> Valid(r.last)
  {
    match r
    case OutOfFuel(t, tr) => Emit(tr, Run(t, n))
    case _ => r
  }

  /** A run whose first iteration continues starts its output with that
      iteration's output, and ends the same way the run from the next state
      with one iteration less does. */
  lemma OutputFirst(s: State, fuel: nat)
    requires Valid(s) && fuel > 0 && Step(s).Continue?
    ensures var r, o := Run(s, fuel), Step(s);
            && |o.out| <= |r.trace|
            && r.trace[..|o.out|] == o.out
            && r.trace[|o.out|..] == Run(o.next, fuel - 1).trace
            && r.Halted? == Run(o.next, fuel - 1).Halted?
            && r.Faulted? == Run(o.next, fuel - 1).Faulted?
  {
    var o := Step(s);
    var rest := Run(o.next, fuel - 1);
    assert Run(s, fuel) == Emit(o.out, rest);
    assert (o.out + rest.trace)[..|o.out|] == o.out;
    assert (o.out + rest.trace)[|o.out|..] == rest.trace;
  }

  /** One iteration of a run with fuel left: the step's outcome decides
      whether the run ends here or continues with its output in front. */
  lemma RunOnce(s: State, fuel: nat)
    requires Valid(s) && fuel > 0
    ensures Step(s).Halt? ==> Run(s, fuel) == Halted(Step(s).final, [])
    ensures Step(s).Fault? ==> Run(s, fuel) == Faulted([])
    ensures Step(s).Continue? ==> Run(s, fuel) == Emit(Step(s).out, Run(Step(s).next, fuel - 1))
  {
  }

  /** A step that continues to t with output out contributes out to the
      front of the run's output and hands t the remaining fuel. */
  lemma RunCons(s: State, t: State, out: seq<Event>, rest: nat)
    requires Valid(s) && Step(s) == Continue(t, out)
    ensures Run(s, rest + 1) == Emit(out, Run(t, rest))
  {
    assert Run(s, rest + 1) == Proceed(s, rest);
  }

  /** Output produced before a run is unaffected by resuming it. */
  lemma ResumeAfterEmit(out: seq<Event>, r: RunResult, n: nat)
    requires r.OutOfFuel? ==> Valid(r.last)
    ensures Resume(Emit(out, r), n) == Emit(out, Resume(r, n))
  {
    if r.OutOfFuel? {
      var rest := Run(r.last, n);
      assert out + (r.trace + rest.trace) == (out + r.trace) + rest.trace;
    }
  }

  /** If a is out followed by the resumption of r, and b is out followed
      by r, then a is the resumption of b. */
  lemma ResumeEmitted(a: RunResult, b: RunResult, out: seq<Event>, r: RunResult, n: nat)
    requires r.OutOfFuel? ==> Valid(r.last)
    requires a == Emit(out, Resume(r, n)) && b == Emit(out, r)
    ensures a == Resume(b, n)
  {
    ResumeAfterEmit(out, r, n);
  }

  /** The inductive step of RunSplit: a first step that continues to t
      moves the split point one step along. */
  lemma {:induction false} RunSplitStep(s: State, t: State, out: seq<Event>, k: nat, n: nat, g: nat)
    requires Valid(s) && Step(s) == Continue(t, out) && g == k + n
    ensures Run(s, g + 1) == Resume(Run(s, k + 1), n)
    decreases k + 1, 0
  {
    RunSplitAt(t, k, n, g);
    RunCons(s, t, out, k);
    RunCons(s, t, out, g);
    ResumeEmitted(Run(s, g + 1), Run(s, k + 1), out, Run(t, k), n);
  }

  /** A first step that halts or faults ends the run whatever the fuel. */
  lemma RunSplitEnd(s: State, m: nat, n: nat, f: nat)
    requires Valid(s) && !Step(s).Continue? && m > 0 && f == m + n
    ensures Run(s, f) == Resume(Run(s, m), n)
  {
    RunOnce(s, m);
    RunOnce(s, f);
  }

  /** RunSplitAt for a first part of m = k + 1 iterations, f = g + 1 in
      all: split on how the first step ends. */
  lemma {:induction false} RunSplitFirst(s: State, m: nat, n: nat, f: nat, k: nat, g: nat)
    requires Valid(s) && m == k + 1 && f == g + 1 && g == k + n
    ensures Run(s, f) == Resume(Run(s, m), n)
    decreases m, 1
  {
    if Step(s).Continue? {
      RunSplitStep(s, Step(s).next, Step(s).out, k, n, g);
    } else {
      RunSplitEnd(s, m, n, f);
    }
  }

  /** RunSplit with the total fuel f named. The fuel quantities the proof
      uses are parameters tied by requires, so that the runs it relates are
      written with the same fuel terms. */
  lemma {:induction false} RunSplitAt(s: State, m: nat, n: nat, f: nat)
    requires Valid(s) && f == m + n
    ensures Run(s, f) == Resume(Run(s, m), n)
    decreases m, 2
  {
    if m == 0 {
      assert [] + Run(s, f).trace == Run(s, f).trace;
    } else {
      RunSplitFirst(s, m, n, f, m - 1, f - 1);
    }
  }

  /** Running for m + n iterations is running for m and then resuming for n
      more: the loop carries no state besides the machine's. */
  lemma RunSplit(s: State, m: nat, n: nat)
    requires Valid(s)
    ensures Run(s, m + n) == Resume(Run(s, m), n)
  {
    RunSplitAt(s, m, n, m + n);
  }

  /** A run that has halted or faulted gives the same result with more fuel. */
  lemma RunStable(s: State, m: nat, k: nat)
    requires Valid(s) && !Run(s, m).OutOfFuel?
    ensures Run(s, m + k) == Run(s, m)
  {
    RunSplit(s, m, k);
  }
}
