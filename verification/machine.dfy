/** The LS-8 machine state and its memory and register accessors.

    Cells and registers hold unbounded integers: the original program stores
    whatever integer it computes (a sum, a product, a return address) without
    reducing it to a byte. Indexing follows Python's list rules: an
    index i into a list of length n is accepted when -n <= i < n, a negative
    index counts from the end, and anything else is an indexing error, which
    every accessor here reports as None. */
module Machine {
  import opened Wrappers

  const RamSize: nat := 256
  const RegCount: nat := 8
  /** Register 7 is the stack pointer. */
  const SP: nat := 7
  /** The stack pointer's value after construction. */
  const SpInit: int := 0xF4

  /** The engine's state: memory, register file, program counter, flags. */
  datatype State = State(ram: seq<int>, reg: seq<int>, pc: int, fl: int)

  /** Memory has 256 cells and the register file 8 registers; no operation
      changes either length. */
  predicate Valid(s: State) {
    |s.ram| == RamSize && |s.reg| == RegCount
  }

  /** The state right after construction: zeroed memory and registers, except
      the stack pointer, and pc and flags at zero. */
  function Init(): (s: State)
    ensures Valid(s)
    ensures forall k :: 0 <= k < RamSize ==> s.ram[k] == 0
    ensures s.reg[SP] == SpInit && forall k :: 0 <= k < SP ==> s.reg[k] == 0
    ensures s.pc == 0 && s.fl == 0
  {
    State(seq(RamSize, _ => 0), seq(RegCount, k => if k == SP then SpInit else 0), 0, 0)
  }

  /** The position a list index i denotes in a list of length n. */
  function PyIndex(n: nat, i: int): (k: nat)
    requires -(n as int) <= i < n
    ensures k < n
    ensures k % n == i % n
  {
    if i < 0 then
      assert (i + n) % n == i % n by {
        assert i + n == i + 1 * n;
      }
      i + n
    else
      i
  }

  predicate IsAddr(x: int) {
    -(RamSize as int) <= x < RamSize
  }

  predicate IsReg(a: int) {
    -(RegCount as int) <= a < RegCount
  }

  /** The memory cell an accepted address denotes. */
  function Cell(x: int): nat
    requires IsAddr(x)
  {
    PyIndex(RamSize, x)
  }

  /** The register an accepted register operand denotes. */
  function Slot(a: int): nat
    requires IsReg(a)
  {
    PyIndex(RegCount, a)
  }

  /** All memory cells other than cell k agree. */
  predicate RamSameExcept(s: State, t: State, k: int)
    requires Valid(s) && Valid(t)
  {
    forall j :: 0 <= j < RamSize && j != k ==> t.ram[j] == s.ram[j]
  }

  /** All registers other than register k agree. */
  predicate RegSameExcept(s: State, t: State, k: int)
    requires Valid(s) && Valid(t)
  {
    forall j :: 0 <= j < RegCount && j != k ==> t.reg[j] == s.reg[j]
  }

  /** Reads memory at x. */
  function RamRead(s: State, x: int): (r: Option<int>)
    requires Valid(s)
    ensures r.Some? <==> IsAddr(x)
    ensures 0 <= x < RamSize ==> r == Some(s.ram[x])
    ensures -(RamSize as int) <= x < 0 ==> r == Some(s.ram[RamSize + x])
  {
    if IsAddr(x) then Some(s.ram[Cell(x)]) else None
  }

  /** Writes v into memory at x. */
  function RamWrite(s: State, x: int, v: int): (r: Option<State>)
    requires Valid(s)
    ensures r.Some? <==> IsAddr(x)
    ensures r.Some? ==> Valid(r.value) && RamRead(r.value, x) == Some(v)
    ensures r.Some? ==> RamSameExcept(s, r.value, Cell(x))
    ensures r.Some? ==> r.value.reg == s.reg && r.value.pc == s.pc && r.value.fl == s.fl
  {
    if IsAddr(x) then Some(s.(ram := s.ram[Cell(x) := v])) else None
  }

  /** Reads register a. */
  function RegRead(s: State, a: int): (r: Option<int>)
    requires Valid(s)
    ensures r.Some? <==> IsReg(a)
    ensures 0 <= a < RegCount ==> r == Some(s.reg[a])
    ensures -(RegCount as int) <= a < 0 ==> r == Some(s.reg[RegCount + a])
  {
    if IsReg(a) then Some(s.reg[Slot(a)]) else None
  }

  /** Writes v into register a. */
  function RegWrite(s: State, a: int, v: int): (r: Option<State>)
    requires Valid(s)
    ensures r.Some? <==> IsReg(a)
    ensures r.Some? ==> Valid(r.value) && RegRead(r.value, a) == Some(v)
    ensures r.Some? ==> RegSameExcept(s, r.value, Slot(a))
    ensures r.Some? ==> r.value.ram == s.ram && r.value.pc == s.pc && r.value.fl == s.fl
  {
    if IsReg(a) then Some(s.(reg := s.reg[Slot(a) := v])) else None
  }
}
