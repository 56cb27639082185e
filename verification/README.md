# LS-8 execution engine in Dafny

This project models the LS-8 virtual CPU in `ls8/cpu.py`. The LS-8 is a small 8-bit teaching machine. Its state is:

- a 256-cell memory;
- eight registers, where register 7 is the stack pointer and starts at `0xF4`;
- a program counter;
- a flags byte.

The `run` loop repeats the same cycle:

1. It reads the opcode at `pc` and the two bytes after it.
2. It dispatches on a fixed table of thirteen opcodes. ADD, MUL and CMP go through an opcode-keyed ALU table.
3. It advances `pc` by the length encoded in the opcode's top two bits. The advance is skipped when bit 4 says the instruction set `pc` itself.

The model is functional. A `State` datatype is updated by pure functions:

- `Step` is one iteration of the loop. Its outcome is `Continue` with the next state and the output, `Halt`, or `Fault`.
- `Run` is a fuel-bounded loop that collects the output as a trace of events.

The modules follow the structure of the original file:

- `Wrappers`: an `Option` type with early return.
- `Machine`: the state, construction, and memory and register access with Python's list-index rules.
- `Opcodes`: the opcode constants, the bit tests, the instruction length and the dispatch.
- `Instructions`: PUSH, POP, CALL, RET, JMP, JEQ, JNE and the ALU.
- `Cpu`: the fetch, the dispatch, one step, the run loop and loading a program.
- `Properties`: per-instruction step lemmas, round trips, compare-and-jump, unknown opcodes and run composition.
- `Programs`: whole programs run to completion.

The model follows the code, not the intended hardware:

- **Values are unbounded integers.** The code stores whatever integer it computes, so ADD and MUL are not reduced modulo 256, although the machine is nominally 8-bit. `Properties.ArithStep` and `Programs.ArithProgram` state the exact sum or product.
- **Addresses neither wrap nor clamp.** An out-of-range memory or register index is an indexing error: the run stops with `Fault`. A negative index in `-n..-1` counts from the end of the list, as Python does. So a PUSH with the stack pointer at 0 writes to cell 255.
- **Both operand bytes are always read.** Even a one-byte instruction faults when `pc + 2` is past the end of memory.
- **HLT leaves the loop without setting the `halted` field.** The field is never set anywhere, so it is not part of the state.

## Model

| member | source | states |
|---|---|---|
| Machine.Init | ls8/cpu.py:27-34 | A new machine has 256 memory cells, all zero, and 8 registers, all zero except the stack pointer, which holds `0xF4`. pc and the flags are zero. |
| Machine.PyIndex | ls8/cpu.py:68-72 | An index in `-n..n-1` denotes a position below n congruent to it modulo n. Negative indices count from the end. |
| Machine.RamRead | ls8/cpu.py:68-69 | A read succeeds exactly for addresses in `-256..255`. A non-negative address reads that cell; a negative address reads cell 256 + address. |
| Machine.RamWrite | ls8/cpu.py:71-72 | A write succeeds exactly for addresses in `-256..255`. Reading the address back gives the written value. Every other cell, the registers, pc and flags are unchanged. |
| Machine.RegRead | ls8/cpu.py:126 | A register read succeeds exactly for operands in `-8..7`, with negative operands counting from register 7 down. |
| Machine.RegWrite | ls8/cpu.py:130 | A register write succeeds exactly for operands in `-8..7`. Reading back gives the value. Other registers, memory, pc and flags are unchanged. |
| Opcodes.Length | ls8/cpu.py:217-222 | The generic advance is 3 exactly when bit 7 is set, 2 exactly when bit 7 is clear and bit 6 is set, and otherwise 1. |
| Opcodes.Decode | ls8/cpu.py:189-214 | Any instruction the dispatch chain or the ALU table recognises has exactly the dispatched byte as its opcode. |
| Opcodes.DecodeOpcode | ls8/cpu.py:9-21 | Every one of the thirteen opcodes dispatches to its own instruction, so the opcodes are pairwise distinct and none is shadowed by an earlier branch. |
| Opcodes.OpcodeBits | ls8/cpu.py:9-21 | For every opcode in the table, the length bits give one more than the instruction's documented operand count. Bit 4 is set exactly on CALL, RET, JMP, JEQ and JNE. Bit 5 is set exactly on ADD, MUL and CMP. |
| Opcodes.UnrecognisedBytes | ls8/cpu.py:209-214 | A byte is rejected by the dispatch exactly when it is not one of the thirteen opcodes. |
| Instructions.Push | ls8/cpu.py:132-138 | PUSH faults exactly when the operand is not a register or the decremented stack pointer is not an address. Otherwise the stack pointer drops by one. The cell it names receives the register, read after the decrement, so pushing the stack pointer stores its new value. Nothing else changes. |
| Instructions.Pop | ls8/cpu.py:140-146 | POP faults exactly when the stack pointer is not an address or the operand is not a register. Otherwise the register receives the top cell and the stack pointer rises by one. Popping into the stack pointer leaves it at the loaded value plus one. Memory, pc, flags and other registers are unchanged. |
| Instructions.Call | ls8/cpu.py:148-155 | CALL stores pc + 2 in the cell below the stack top and decrements the stack pointer. It then sets pc to the operand register, read after the decrement. No other cell, register or the flags change. |
| Instructions.Ret | ls8/cpu.py:157-161 | RET sets pc to the top cell and increments the stack pointer. It faults exactly when the stack pointer is not an address. |
| Instructions.Jmp | ls8/cpu.py:163-165 | JMP sets pc to the operand register and changes nothing else. It faults exactly when the operand is not a register. |
| Instructions.Jeq | ls8/cpu.py:167-171 | JEQ jumps to the register when flag bit 0 is set, otherwise pc advances by 2. It faults only when the jump is taken with an invalid register. |
| Instructions.Jne | ls8/cpu.py:173-176 | JNE is the mirror of JEQ: it jumps when flag bit 0 is clear. |
| Instructions.CompareFlags | ls8/cpu.py:85-91 | After the flags are cleared, exactly one of 0b100, 0b010 and 0b001 results, each exactly when a < b, a > b or a == b respectively. |
| Instructions.Alu | ls8/cpu.py:75-103 | The ALU succeeds exactly for ADD, MUL and CMP with two valid registers; anything else is the unsupported-operation error. ADD and MUL put the exact sum or product in register a and leave everything else unchanged. CMP changes only the flags, each comparison outcome exactly when it holds. |
| Cpu.Fetch | ls8/cpu.py:182-186 | The fetch succeeds exactly when pc and pc + 2 are both addresses, and it yields the values stored at pc, pc + 1 and pc + 2. |
| Cpu.Execute | ls8/cpu.py:189-214 | Executing an instruction keeps the state well formed. Only PRN produces output: the operand register's value, with the state unchanged. Instructions that do not transfer control leave pc alone. |
| Cpu.Step | ls8/cpu.py:178-222 | A step halts exactly when the fetched opcode is HLT, and the halt carries the unchanged state. Any non-faulting step had a successful fetch. A continuing step whose opcode has bit 4 clear advances pc by the opcode's length. An unrecognised opcode produces the diagnostic naming it and its address. |
| Cpu.Advance | ls8/cpu.py:216-222 | The generic advance changes only pc. pc stays put exactly when bit 4 of the opcode is set; otherwise it moves by the opcode's length. |
| Cpu.Run | ls8/cpu.py:178-180 | The loop produces at most one event per iteration, and the state it stops in is well formed. |
| Cpu.Proceed | ls8/cpu.py:180-194 | One iteration followed by at most rest more produces at most one event per iteration. A run stopped by HLT, or by running out of iterations, ends in a well-formed machine. |
| Cpu.LoadFrom | ls8/cpu.py:62-63 | Writing a program from an address succeeds exactly when it fits in memory. The program's values land in consecutive cells, and every other cell, the registers, pc and flags are unchanged. |
| Cpu.Boot | ls8/cpu.py:27-34 | A new machine loaded with a program of at most 256 values holds the program at address 0 and zeros after it. Registers 0-6 are zero, the stack pointer is `0xF4`, and pc and flags are zero. |
| Properties.StepAdvancesPastOperands | ls8/cpu.py:217-222 | A recognised instruction that does not transfer control leaves pc one past its documented operands. |
| Properties.HltHalts | ls8/cpu.py:193-194 | HLT ends the run with no output and every part of the state unchanged. |
| Properties.PrnStep | ls8/cpu.py:125-126 | PRN prints the operand register and moves pc by 2, changing nothing else. It faults exactly on an invalid register. |
| Properties.LdiStep | ls8/cpu.py:128-130 | LDI loads the second operand byte into the register and moves pc by 3, changing nothing else. It faults exactly on an invalid register. |
| Properties.ArithStep | ls8/cpu.py:78-81 | ADD and MUL replace register a by the exact sum or product, with no reduction modulo 256. Memory, flags and other registers are unchanged, and pc moves by 3. They fault exactly when an operand is not a register. |
| Properties.CmpStep | ls8/cpu.py:82-91 | Within the loop, CMP sets the flags to the comparison outcome of register a against register b and moves pc by 3, changing nothing else. It faults exactly when an operand is not a register. |
| Properties.EqualFlagAfterCompare | ls8/cpu.py:90-91 | The equal bit of the comparison flags is set exactly when the operands are equal. |
| Properties.JeqStep | ls8/cpu.py:205-206 | Within the loop, JEQ jumps exactly when the equal bit is set. A jump not taken moves pc by exactly 2, and the generic advance is not added. |
| Properties.JneStep | ls8/cpu.py:207-208 | Within the loop, JNE jumps exactly when the equal bit is clear. A jump not taken moves pc by exactly 2. |
| Properties.JmpStep | ls8/cpu.py:163-165 | Within the loop, JMP sets pc to the operand register with no generic advance and changes nothing else. It faults exactly when the operand is not a register. |
| Properties.JumpAfterCompare | ls8/cpu.py:167-176 | After CMP, JEQ jumps exactly when the compared registers were equal and JNE exactly when they were not. Otherwise execution continues right after the pair. |
| Properties.PushStep | ls8/cpu.py:132-138 | Within the loop, PUSH lowers the stack pointer by one, stores the register (read after the decrement) in the cell it names, and moves pc by 2. It faults exactly when the operand is not a register or the lowered stack pointer is not an address. |
| Properties.PopStep | ls8/cpu.py:140-146 | Within the loop, POP loads the top cell into the register, then raises the stack pointer by one, and moves pc by 2. Memory and flags are unchanged. It faults exactly when the stack pointer is not an address or the operand is not a register. |
| Properties.PushPopRoundTrip | ls8/cpu.py:132-146 | A PUSH r that does not fault, followed by POP r, restores every register, the stack pointer included, and the flags. |
| Properties.CallStep | ls8/cpu.py:148-155 | Within the loop, CALL stores pc + 2 in the cell below the stack top, lowers the stack pointer and jumps to the operand register, read after the decrement, with no generic advance. It faults exactly when the lowered stack pointer is not an address or the operand is not a register. |
| Properties.RetStep | ls8/cpu.py:157-161 | Within the loop, RET jumps to the top cell and raises the stack pointer by one, with no generic advance. It faults exactly when the stack pointer is not an address. |
| Properties.CallRetRoundTrip | ls8/cpu.py:148-161 | After a CALL that does not fault, a later RET, with the stack pointer and return cell as CALL left them, resumes at the CALL's address + 2 and restores the stack pointer. |
| Properties.UnknownOpcodeStep | ls8/cpu.py:209-222 | An unrecognised opcode emits the diagnostic, does not halt, changes no register, cell or flag, and applies the generic advance. |
| Properties.UnknownSelfSetSpins | ls8/cpu.py:214-217 | An unrecognised opcode with bit 4 set is a fixpoint: the run repeats its diagnostic on every iteration and never moves. |
| Properties.OutputFirst | ls8/cpu.py:180-222 | When an iteration continues, the run's output begins with that iteration's output. The rest of the output is exactly that of the run from the next state with one iteration fewer, and the two runs both halt or both stop on an indexing error. |
| Properties.RunSplit | ls8/cpu.py:180 | Running m + n iterations is running m and then resuming for n. |
| Properties.RunStable | ls8/cpu.py:180-194 | A run that has halted or faulted gives the same result with more fuel. |
| Programs.LdiPrnHlt | ls8/cpu.py:189-194 | LDI r,v; PRN r; HLT prints exactly v and halts. |
| Programs.PrintEight | ls8/cpu.py:27-34 | The program LDI R0,8; PRN R0; HLT, loaded into a new machine, prints 8 and halts. |
| Programs.ArithProgram | ls8/cpu.py:78-81 | LDI R0,x; LDI R1,y; ADD (or MUL) R0,R1; PRN R0; HLT prints exactly x + y (or x * y), not its remainder modulo 256. |

## Left out

- Loading from a file: opening the file, skipping blank and comment lines, parsing binary literals, and the two exit codes (ls8/cpu.py:42-66). `Cpu.Boot` covers only placing the parsed values from address 0, with an indexing error past cell 255.
- The debugging dump `trace` (ls8/cpu.py:105-123): it only prints.
- The text of printed lines. PRN output and the unknown-opcode diagnostic are abstract `Print` and `NoCommand` events; the binary formatting of the diagnostic is not modelled.
- Cpu.Step: a `Fault` carries no state. The model does not record what an instruction had already changed before the indexing error, for example PUSH's decremented stack pointer when the write then fails. Nothing after the error can observe it, since the loop ends.
- The `halted` field: it is initialised to false and tested by the loop condition, but nothing ever sets it, so it is not part of the state (ls8/cpu.py:33, 180).
- The error raised by the ALU for an unsupported operation is `Alu` returning None. It cannot be reached from `Step`, because the ALU table holds only ADD, MUL and CMP.
- Cpu.Run: the original loop has no bound. The fuel parameter bounds the number of iterations; `Properties.RunSplit` and `Properties.RunStable` show that more fuel only extends a run.
