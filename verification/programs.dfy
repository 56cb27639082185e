/** Whole LS-8 programs run to completion: the short programs that exercise
    loading, printing and arithmetic end to end. */
module Programs {
  import opened Wrappers
  import opened Machine
  import opened Opcodes
  import opened Instructions
  import opened Cpu
  import opened Properties

  /** LDI r, v at pc, with both operand bytes inside memory. */
  lemma LdiAt(s: State, r: int, v: int)
    requires Valid(s) && IsReg(r) && 0 <= s.pc && s.pc + 2 < RamSize
    requires s.ram[s.pc] == LDI && s.ram[s.pc + 1] == r && s.ram[s.pc + 2] == v
    ensures Step(s) == Continue(s.(reg := s.reg[Slot(r) := v], pc := s.pc + 3), [])
  {
    assert Fetch(s) == Some(Fetched(LDI, r, v));
    LdiStep(s);
  }

  /** PRN r at pc, with both following bytes inside memory. */
  lemma PrnAt(s: State, r: int)
    requires Valid(s) && IsReg(r) && 0 <= s.pc && s.pc + 2 < RamSize
    requires s.ram[s.pc] == PRN && s.ram[s.pc + 1] == r
    ensures Step(s) == Continue(s.(pc := s.pc + 2), [Print(s.reg[Slot(r)])])
  {
    assert Fetch(s) == Some(Fetched(PRN, r, s.ram[s.pc + 2]));
    PrnStep(s);
  }

  /** ADD R0,R1 (or MUL R0,R1) at pc. */
  lemma ArithAt(s: State, i: Instr)
    requires Valid(s) && (i == Add || i == Mul) && 0 <= s.pc && s.pc + 2 < RamSize
    requires s.ram[s.pc] == Opcode(i) && s.ram[s.pc + 1] == 0 && s.ram[s.pc + 2] == 1
    ensures var z := if i == Add then s.reg[0] + s.reg[1] else s.reg[0] * s.reg[1];
            Step(s) == Continue(s.(reg := s.reg[0 := z], pc := s.pc + 3), [])
  {
    assert Fetch(s) == Some(Fetched(Opcode(i), 0, 1));
    assert OperandA(s) == 0 && OperandB(s) == 1 && Slot(0) == 0 && Slot(1) == 1;
    ArithStep(s, i);
  }

  /** HLT at pc, with both following bytes inside memory. */
  lemma HltAt(s: State, fuel: nat)
    requires Valid(s) && 0 <= s.pc && s.pc + 2 < RamSize && s.ram[s.pc] == HLT && fuel >= 1
    ensures Run(s, fuel) == Halted(s, [])
  {
    assert Fetch(s).Some? && Fetch(s).value.ir == HLT;
    HltHalts(s, fuel);
  }

  /** PRN r; HLT prints register r once and halts. */
  lemma PrnHlt(t: State, r: int, fuel: nat)
    requires Valid(t) && IsReg(r) && 0 <= t.pc && t.pc + 4 < RamSize && fuel >= 2
    requires t.ram[t.pc] == PRN && t.ram[t.pc + 1] == r && t.ram[t.pc + 2] == HLT
    ensures Run(t, fuel) == Halted(t.(pc := t.pc + 2), [Print(t.reg[Slot(r)])])
  {
    var u, rest := t.(pc := t.pc + 2), fuel - 1;
    PrnAt(t, r);
    HltAt(u, rest);
    RunCons(t, u, [Print(t.reg[Slot(r)])], rest);
  }

  /** LDI r, v at pc prints nothing: the run from it for fuel iterations is
      the run from the state t it leaves for the rest. */
  lemma LdiThen(s: State, r: int, v: int, t: State, fuel: nat, rest: nat)
    requires Valid(s) && IsReg(r) && 0 <= s.pc && s.pc + 2 < RamSize && fuel == rest + 1
    requires s.ram[s.pc] == LDI && s.ram[s.pc + 1] == r && s.ram[s.pc + 2] == v
    requires t == s.(reg := s.reg[Slot(r) := v], pc := s.pc + 3)
    ensures Run(s, fuel) == Run(t, rest)
  {
    LdiAt(s, r, v);
    RunCons(s, t, [], rest);
    assert [] + Run(t, rest).trace == Run(t, rest).trace;
  }

  /** ADD R0,R1 (or MUL R0,R1) at pc prints nothing: the run from it for
      fuel iterations is the run for the rest from the state t it leaves,
      whose R0 holds the exact result. */
  lemma ArithThen(s: State, i: Instr, t: State, fuel: nat, rest: nat)
    requires Valid(s) && (i == Add || i == Mul) && 0 <= s.pc && s.pc + 2 < RamSize && fuel == rest + 1
    requires s.ram[s.pc] == Opcode(i) && s.ram[s.pc + 1] == 0 && s.ram[s.pc + 2] == 1
    requires t == s.(reg := s.reg[0 := if i == Add then s.reg[0] + s.reg[1] else s.reg[0] * s.reg[1]],
                     pc := s.pc + 3)
    ensures Run(s, fuel) == Run(t, rest)
  {
    ArithAt(s, i);
    RunCons(s, t, [], rest);
    assert [] + Run(t, rest).trace == Run(t, rest).trace;
  }

  /** LDI r, v; PRN r; HLT prints exactly v and halts, given fuel for its
      three instructions. */
  lemma LdiPrnHlt(s: State, r: int, v: int, fuel: nat)
    requires Valid(s) && 0 <= s.pc && s.pc + 7 < RamSize && IsReg(r) && fuel >= 3
    requires s.ram[s.pc] == LDI && s.ram[s.pc + 1] == r && s.ram[s.pc + 2] == v
    requires s.ram[s.pc + 3] == PRN && s.ram[s.pc + 4] == r && s.ram[s.pc + 5] == HLT
    ensures Run(s, fuel) == Halted(s.(reg := s.reg[Slot(r) := v], pc := s.pc + 5), [Print(v)])
  {
    var t := s.(reg := s.reg[Slot(r) := v], pc := s.pc + 3);
    assert Valid(t) && t.ram[t.pc] == PRN && t.ram[t.pc + 1] == r && t.ram[t.pc + 2] == HLT;
    assert t.reg[Slot(r)] == v;
    var rest := fuel - 1;
    LdiThen(s, r, v, t, fuel, rest);
    PrnHlt(t, r, rest);
  }

  /** The program LDI R0,8; PRN R0; HLT prints 8 and halts. */
  lemma PrintEight(fuel: nat)
    requires fuel >= 3
    ensures var p := [LDI, 0, 8, PRN, 0, HLT];
            && Boot(p).Some?
            && Run(Boot(p).value, fuel).Halted?
            && Run(Boot(p).value, fuel).trace == [Print(8)]
  {
    var p := [LDI, 0, 8, PRN, 0, HLT];
    var s := Boot(p).value;
    assert s.ram[..6] == p;
    assert s.ram[0] == p[0] && s.ram[1] == p[1] && s.ram[2] == p[2];
    assert s.ram[3] == p[3] && s.ram[4] == p[4] && s.ram[5] == p[5];
    LdiPrnHlt(s, 0, 8, fuel);
  }

  /** LDI R0,x; LDI R1,y; ADD R0,R1 (or MUL R0,R1); PRN R0; HLT, placed at
      address 0, prints the exact sum (or product) of x and y, not its
      remainder modulo 256. */
  lemma ArithProgram(s: State, i: Instr, x: int, y: int, fuel: nat)
    requires Valid(s) && s.pc == 0 && (i == Add || i == Mul) && fuel >= 5
    requires s.ram[..12] == [LDI, 0, x, LDI, 1, y, Opcode(i), 0, 1, PRN, 0, HLT]
    ensures Run(s, fuel).Halted?
    ensures Run(s, fuel).trace == [Print(if i == Add then x + y else x * y)]
  {
    var p := [LDI, 0, x, LDI, 1, y, Opcode(i), 0, 1, PRN, 0, HLT];
    forall k | 0 <= k < 12
      ensures s.ram[k] == p[k]
    {
      assert s.ram[..12][k] == p[k];
    }
    var z := if i == Add then x + y else x * y;
    var s1 := s.(reg := s.reg[0 := x], pc := 3);
    var s2 := s1.(reg := s1.reg[1 := y], pc := 6);
    var s3 := s2.(reg := s2.reg[0 := z], pc := 9);
    assert Slot(0) == 0 && Slot(1) == 1;
    assert Valid(s1) && s1.ram[3] == LDI && s1.ram[4] == 1 && s1.ram[5] == y;
    assert s2 == s1.(reg := s1.reg[Slot(1) := y], pc := s1.pc + 3);
    assert s2.reg[0] == x && s2.reg[1] == y;
    assert Valid(s2) && s2.ram[6] == Opcode(i) && s2.ram[7] == 0 && s2.ram[8] == 1;
    assert s3 == s2.(reg := s2.reg[0 := if i == Add then s2.reg[0] + s2.reg[1] else s2.reg[0] * s2.reg[1]],
                     pc := s2.pc + 3);
    assert s3.reg[0] == z;
    assert Valid(s3) && s3.ram[9] == PRN && s3.ram[10] == 0 && s3.ram[11] == HLT;
    var f1, f2, f3 := fuel - 1, fuel - 2, fuel - 3;
    LdiThen(s, 0, x, s1, fuel, f1);
    LdiThen(s1, 1, y, s2, f1, f2);
    ArithThen(s2, i, s3, f2, f3);
    PrnHlt(s3, 0, f3);
  }
}
