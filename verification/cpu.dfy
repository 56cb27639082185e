/** The LS-8 fetch/decode/execute cycle: one step of the run loop, a
    fuel-bounded run that collects the printed output, and the construction
    of a machine with a program placed at address 0. */
module Cpu {
  import opened Wrappers
  import opened Machine
  import opened Opcodes
  import opened Instructions

  /** Observable output: a value printed by PRN, or the diagnostic for an
      unrecognised opcode, naming the opcode and its address. */
  datatype Event = Print(value: int) | NoCommand(opcode: int, address: int)

  /** The opcode byte and the two bytes after it, all read before dispatch. */
  datatype Fetched = Fetched(ir: int, a: int, b: int)

  /** The result of one iteration of the run loop. */
  datatype Outcome =
    | Continue(next: State, out: seq<Event>)
    | Halt(final: State)
    | Fault

  /** The result of running until HLT, an indexing error, or the fuel runs
      out, with the output produced on the way. */
  datatype RunResult =
    | Halted(final: State, trace: seq<Event>)
    | Faulted(trace: seq<Event>)
    | OutOfFuel(last: State, trace: seq<Event>)

  /** Reads the opcode at pc and the bytes at pc+1 and pc+2, whatever the
      opcode's length: all three must be valid addresses. */
  function Fetch(s: State): (r: Option<Fetched>)
    requires Valid(s)
    ensures r.Some? <==> -(RamSize as int) <= s.pc && s.pc + 2 < RamSize
    ensures r.Some? ==> && RamRead(s, s.pc) == Some(r.value.ir)
                        && RamRead(s, s.pc + 1) == Some(r.value.a)
                        && RamRead(s, s.pc + 2) == Some(r.value.b)
  {
    var ir :- RamRead(s, s.pc);
    var a :- RamRead(s, s.pc + 1);
    var b :- RamRead(s, s.pc + 2);
    Some(Fetched(ir, a, b))
  }

  /** Executes a decoded instruction other than HLT on operands a and b,
      before the generic advance. */
  function Execute(s: State, i: Instr, a: int, b: int): (r: Option<(State, seq<Event>)>)
    requires Valid(s) && !i.Hlt?
    ensures r.Some? ==> Valid(r.value.0)
    ensures r.Some? && i.Prn? ==> IsReg(a) && r.value == (s, [Print(s.reg[Slot(a)])])
    ensures r.Some? && !i.Prn? ==> r.value.1 == []
    ensures r.Some? && !TransfersControl(i) ==> r.value.0.pc == s.pc
  {
    match i
    case Prn =>
      var v :- RegRead(s, a);
      Some((s, [Print(v)]))
    case Ldi =>
      var t :- RegWrite(s, a, b);
      Some((t, []))
    case Push =>
      var t :- Instructions.Push(s, a);
      Some((t, []))
    case Pop =>
      var t :- Instructions.Pop(s, a);
      Some((t, []))
    case Call =>
      var t :- Instructions.Call(s, a);
      Some((t, []))
    case Ret =>
      var t :- Instructions.Ret(s);
      Some((t, []))
    case Jmp =>
      var t :- Instructions.Jmp(s, a);
      Some((t, []))
    case Jeq =>
      var t :- Instructions.Jeq(s, a);
      Some((t, []))
    case Jne =>
      var t :- Instructions.Jne(s, a);
      Some((t, []))
    case Add | Mul | Cmp =>
      var t :- Alu(s, i, a, b);
      Some((t, []))
  }

  /** The generic advance after an instruction with opcode ir: skipped when
      the opcode says the instruction sets pc itself. */
  function Advance(s: State, ir: int): (r: State)
    ensures r.ram == s.ram && r.reg == s.reg && r.fl == s.fl
    ensures r.pc == s.pc <==> SetsPc(ir)
    ensures !SetsPc(ir) ==> r.pc - s.pc == Length(ir)
  {
    if SetsPc(ir) then s else s.(pc := s.pc + Length(ir))
  }

  /** One iteration of the run loop. */
  function Step(s: State): (o: Outcome)
    requires Valid(s)
    ensures o.Continue? ==> Valid(o.next) && |o.out| <= 1
    ensures !o.Fault? ==> Fetch(s).Some?
    ensures o.Halt? <==> Fetch(s).Some? && Fetch(s).value.ir == HLT
    ensures o.Halt? ==> o.final == s
    ensures o.Continue? && !SetsPc(Fetch(s).value.ir) ==>
              o.next.pc == s.pc + Length(Fetch(s).value.ir)
    ensures o.Continue? && Decode(Fetch(s).value.ir).None? ==>
              o.out == [NoCommand(Fetch(s).value.ir, s.pc)]
  {
    match Fetch(s)
    case None => Fault
    case Some(f) =>
      match Decode(f.ir)
      case None => Continue(Advance(s, f.ir), [NoCommand(f.ir, s.pc)])
      case Some(Hlt) => Halt(s)
      case Some(i) =>
        OpcodeBits(i);
        match Execute(s, i, f.a, f.b)
        case None => Fault
        case Some((t, out)) => Continue(Advance(t, f.ir), out)
  }

  /** Prefixes the output of one step to the output of the rest of a run. */
  function Emit(out: seq<Event>, r: RunResult): (r': RunResult)
  {
    r.(trace := out + r.trace)
  }

  /** Runs at most fuel iterations of the loop. */
  function Run(s: State, fuel: nat): (r: RunResult)
    requires Valid(s)
    ensures r.Halted? ==> Valid(r.final)
    ensures r.OutOfFuel? ==> Valid(r.last)
    ensures |r.trace| <= fuel
    decreases fuel, 0
  {
    if fuel == 0 then OutOfFuel(s, [])
    else Proceed(s, fuel - 1)
  }

  /** One iteration from s followed by at most rest more: HLT and an
      indexing error end the run, otherwise the step's output comes first. */
  function Proceed(s: State, rest: nat): (r: RunResult)
    requires Valid(s)
    ensures r.Halted? ==> Valid(r.final)
    ensures r.OutOfFuel? ==> Valid(r.last)
    ensures |r.trace| <= rest + 1
    decreases rest, 1
  {
    match Step(s)
    case Halt(t) => Halted(t, [])
    case Fault => Faulted([])
    case Continue(t, out) => Emit(out, Run(t, rest))
  }

  /** Writes program into consecutive cells from addr on; an indexing error
      once the program runs past the last cell. */
  function LoadFrom(s: State, program: seq<int>, addr: nat): (r: Option<State>)
    requires Valid(s) && addr <= RamSize
    ensures r.Some? <==> addr + |program| <= RamSize
    ensures r.Some? ==> Valid(r.value)
    ensures r.Some? ==> r.value.reg == s.reg && r.value.pc == s.pc && r.value.fl == s.fl
    ensures r.Some? ==> forall k :: 0 <= k < |program| ==> r.value.ram[addr + k] == program[k]
    ensures r.Some? ==> forall k :: 0 <= k < RamSize && !(addr <= k < addr + |program|) ==>
                          r.value.ram[k] == s.ram[k]
    decreases |program|
  {
    if program == [] then Some(s)
    else
      var t :- RamWrite(s, addr, program[0]);
      LoadFrom(t, program[1..], addr + 1)
  }

  /** A freshly constructed machine with program placed at address 0. */
  function Boot(program: seq<int>): (r: Option<State>)
    ensures r.Some? <==> |program| <= RamSize
    ensures r.Some? ==> && Valid(r.value)
                        && r.value.ram[..|program|] == program
                        && (forall k :: |program| <= k < RamSize ==> r.value.ram[k] == 0)
                        && r.value.reg[SP] == SpInit
                        && (forall k :: 0 <= k < SP ==> r.value.reg[k] == 0)
                        && r.value.pc == 0 && r.value.fl == 0
  {
    LoadFrom(Init(), program, 0)
  }
}
