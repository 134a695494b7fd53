// RV32I over the integers, from sections 2.2 to 2.6 of the RISC-V Unprivileged
// ISA manual: fields by division, arithmetic modulo 2^32, memory as numbers
// below 256. It shares nothing with the machine's decoder, memory or
// arithmetic, and its codes are the manual's numerals. The simulator's own
// conventions are its halt word and its megabyte of memory.
module Manuals {

  const WORD_VALUES := 0x1_0000_0000
  const MEMORY_BYTES := 0x10_0000

  datatype State = State(pc: int, regs: seq<int>, mem: seq<int>)

  datatype Outcome =
    | Continues(state: State)
    | Halts(exitCode: int)
    | FetchFails
    | Illegal
    | AccessFails

  predicate IsState(s: State) { 0 <= s.pc && |s.regs| == 32 && |s.mem| == MEMORY_BYTES }

  // --- Fields of an instruction word ------------------------------------------------

  function OpcodeOf(w: int): int { w % 128 }
  function RdOf(w: int): int { w / 128 % 32 }
  function Funct3Of(w: int): int { w / 4096 % 8 }
  function Rs1Of(w: int): int { w / 32768 % 32 }
  function Rs2Of(w: int): int { w / 1048576 % 32 }
  function Funct7Of(w: int): int { w / 33554432 }

  /** A field of the given number of values, read as a two's complement number. */
  function SignedField(v: int, values: int): int { if v >= values / 2 then v - values else v }

  function ImmediateI(w: int): int { SignedField(w / 1048576, 4096) }
  function ImmediateS(w: int): int { SignedField(w / 33554432 * 32 + w / 128 % 32, 4096) }

  function ImmediateB(w: int): int {
    SignedField(w / 2147483648 * 4096 + w / 128 % 2 * 2048 + w / 33554432 % 64 * 32 + w / 256 % 16 * 2, 8192)
  }

  function ImmediateU(w: int): int { w / 4096 * 4096 }

  function ImmediateJ(w: int): int {
    SignedField(w / 2147483648 * 1048576 + w / 4096 % 256 * 4096 + w / 1048576 % 2 * 2048 + w / 2097152 % 1024 * 2,
                2097152)
  }

  // --- Arithmetic ---------------------------------------------------------------------

  function Wrap(v: int): int { v % WORD_VALUES }
  function AsSigned(v: int): int { SignedField(v, WORD_VALUES) }

  function TwoTo(n: int): (p: int)
    ensures p > 0
  {
    if n <= 0 then 1 else 2 * TwoTo(n - 1)
  }

  /** One bit of XOR (code 4), OR (6) or AND (7). */
  function BitOf(code: int, a: int, b: int): int {
    if code == 4 then (a + b) % 2 else if code == 6 then a + b - a * b else a * b
  }

  function Bitwise(code: int, x: int, y: int, bits: nat): int
    decreases bits
  {
    if bits == 0 then 0 else BitOf(code, x % 2, y % 2) + 2 * Bitwise(code, x / 2, y / 2, bits - 1)
  }

  /** The operations of sections 2.4.1 and 2.4.2; `alternate` tells SUB from ADD and SRA from SRL. */
  function Operate(code: int, alternate: bool, x: int, y: int): int {
    if code == 0 then (if alternate then Wrap(x - y) else Wrap(x + y))
    else if code == 1 then Wrap(x * TwoTo(y % 32))
    else if code == 2 then (if AsSigned(x) < AsSigned(y) then 1 else 0)
    else if code == 3 then (if x < y then 1 else 0)
    else if code == 5 then (if alternate then Wrap(AsSigned(x) / TwoTo(y % 32)) else x / TwoTo(y % 32))
    else Bitwise(code, x, y, 32)
  }

  /** Section 2.5.2. */
  predicate BranchCode(code: int) { code == 0 || code == 1 || 4 <= code <= 7 }

  predicate Taken(code: int, x: int, y: int) {
    if code == 0 then x == y
    else if code == 1 then x != y
    else if code == 4 then AsSigned(x) < AsSigned(y)
    else if code == 5 then AsSigned(x) >= AsSigned(y)
    else if code == 6 then x < y
    else x >= y
  }

  // --- Registers and memory -----------------------------------------------------------------

  function Register(s: State, i: int): int
    requires |s.regs| == 32 && 0 <= i < 32
  {
    if i == 0 then 0 else s.regs[i]
  }

  /** The state with register i set, unless it is x0, and a new pc. */
  function Put(s: State, i: int, v: int, pc: int): Outcome
    requires |s.regs| == 32 && 0 <= i < 32
  {
    Continues(State(pc, if i == 0 then s.regs else s.regs[i := v], s.mem))
  }

  /** How many bytes an access moves. */
  function BytesMoved(code: int): int { if code % 4 == 0 then 1 else if code % 4 == 1 then 2 else 4 }

  predicate InMemory(address: int, count: int) { address + count <= MEMORY_BYTES }

  function Little(mem: seq<int>, address: int, count: int): int
    requires count == 1 || count == 2 || count == 4
    requires 0 <= address && InMemory(address, count) && |mem| == MEMORY_BYTES
  {
    if count == 1 then mem[address]
    else if count == 2 then mem[address] + 256 * mem[address + 1]
    else mem[address] + 256 * mem[address + 1] + 65536 * mem[address + 2] + 16777216 * mem[address + 3]
  }

  /** Section 2.6: LB (0) and LH (1) sign-extend, LW (2), LBU (4) and LHU (5) do not. */
  function Extended(code: int, v: int): int {
    if code == 0 then Wrap(SignedField(v, 256)) else if code == 1 then Wrap(SignedField(v, 65536)) else v
  }

  function Stored(mem: seq<int>, address: int, count: int, v: int): seq<int>
    requires count == 1 || count == 2 || count == 4
    requires 0 <= address && InMemory(address, count) && |mem| == MEMORY_BYTES
  {
    if count == 1 then mem[address := v % 256]
    else if count == 2 then mem[address := v % 256][address + 1 := v / 256 % 256]
    else mem[address := v % 256][address + 1 := v / 256 % 256]
            [address + 2 := v / 65536 % 256][address + 3 := v / 16777216 % 256]
  }

  // --- One instruction -----------------------------------------------------------------------

  function Load(s: State, w: int): Outcome
    requires IsState(s)
  {
    var code := Funct3Of(w);
    var address := Wrap(Register(s, Rs1Of(w)) + ImmediateI(w));
    if code == 3 || code > 5 then Illegal
    else if !InMemory(address, BytesMoved(code)) then AccessFails
    else Put(s, RdOf(w), Extended(code, Little(s.mem, address, BytesMoved(code))), Wrap(s.pc + 4))
  }

  function Store(s: State, w: int): Outcome
    requires IsState(s)
  {
    var code := Funct3Of(w);
    var address := Wrap(Register(s, Rs1Of(w)) + ImmediateS(w));
    if code > 2 then Illegal
    else if !InMemory(address, BytesMoved(code)) then AccessFails
    else
      var mem := Stored(s.mem, address, BytesMoved(code), Register(s, Rs2Of(w)));
      Continues(State(Wrap(s.pc + 4), s.regs, mem))
  }

  function Branch(s: State, w: int): Outcome
    requires IsState(s)
  {
    var taken := Taken(Funct3Of(w), Register(s, Rs1Of(w)), Register(s, Rs2Of(w)));
    if !BranchCode(Funct3Of(w)) then Illegal
    else Continues(s.(pc := Wrap(s.pc + if taken then ImmediateB(w) else 4)))
  }

  function OperateImmediate(s: State, w: int): Outcome
    requires IsState(s)
  {
    var code := Funct3Of(w);
    var x := Register(s, Rs1Of(w));
    if code == 1 || code == 5 then
      if Funct7Of(w) != 0 && !(code == 5 && Funct7Of(w) == 32) then Illegal
      else Put(s, RdOf(w), Operate(code, Funct7Of(w) == 32, x, Rs2Of(w)), Wrap(s.pc + 4))
    else Put(s, RdOf(w), Operate(code, false, x, Wrap(ImmediateI(w))), Wrap(s.pc + 4))
  }

  function OperateRegisters(s: State, w: int): Outcome
    requires IsState(s)
  {
    var code := Funct3Of(w);
    if Funct7Of(w) != 0 && !(Funct7Of(w) == 32 && (code == 0 || code == 5)) then Illegal
    else
      var v := Operate(code, Funct7Of(w) == 32, Register(s, Rs1Of(w)), Register(s, Rs2Of(w)));
      Put(s, RdOf(w), v, Wrap(s.pc + 4))
  }

  function Jump(s: State, w: int, target: int): Outcome
    requires IsState(s)
  {
    Put(s, RdOf(w), Wrap(s.pc + 4), target)
  }

  function Execute(s: State, w: int): Outcome
    requires IsState(s)
  {
    var opcode := OpcodeOf(w);
    if w == 0x0ff00513 then Halts(s.regs[10] % 256)
    else if opcode == 0x03 then Load(s, w)
    else if opcode == 0x13 then OperateImmediate(s, w)
    else if opcode == 0x17 then Put(s, RdOf(w), Wrap(s.pc + ImmediateU(w)), Wrap(s.pc + 4))
    else if opcode == 0x23 then Store(s, w)
    else if opcode == 0x33 then OperateRegisters(s, w)
    else if opcode == 0x37 then Put(s, RdOf(w), ImmediateU(w), Wrap(s.pc + 4))
    else if opcode == 0x63 then Branch(s, w)
    else if opcode == 0x67 then
      if Funct3Of(w) != 0 then Illegal
      else Jump(s, w, Wrap(Register(s, Rs1Of(w)) + ImmediateI(w)) / 2 * 2)
    else if opcode == 0x6f then Jump(s, w, Wrap(s.pc + ImmediateJ(w)))
    else Illegal
  }

  /** One step. */
  function Step(s: State): (o: Outcome)
    requires IsState(s)
    ensures o.Continues? ==> IsState(o.state)
  {
    if !InMemory(s.pc, 4) then FetchFails else Execute(s, Little(s.mem, s.pc, 4))
  }

  /** What has come of n steps; a machine that stopped stays stopped. */
  function Run(s: State, n: nat): (o: Outcome)
    requires IsState(s)
    ensures o.Continues? ==> IsState(o.state)
  {
    if n == 0 then Continues(s)
    else
      var before := Run(s, n - 1);
      if before.Continues? then Step(before.state) else before
  }
}
