// The sequential meaning of RV32I programs, written from chapter 2 of the
// RISC-V Unprivileged ISA manual (sections 2.4 to 2.6), with the simulator's
// halt word and error outcomes.
module Isa {
  import opened Types
  import opened Image
  import opened Decoder
  import opened WordArithmetic

  type Registers = s: seq<Word> | |s| == REGISTER_COUNT witness Repeat(REGISTER_COUNT, 0 as Word)

  /** The state software can see: pc, registers (x0 reads 0) and memory. */
  datatype Arch = Arch(pc: Address, regs: Registers, mem: Bytes)

  datatype StepResult =
    | Next(state: Arch)
    | Halted(exitCode: Word)
    | FetchFault
    | IllegalInstruction
    | MemoryFault

  function ReadRegister(regs: Registers, index: RegisterIndex): Word {
    if index == 0 || index >= REGISTER_COUNT then 0 else regs[index]
  }

  function WriteRegister(regs: Registers, index: RegisterIndex, value: Word): Registers {
    if index == 0 || index >= REGISTER_COUNT then regs else regs[index := value]
  }

  function AsWord(b: bool): Word { if b then 1 else 0 }

  /** Section 2.4.2: register-register operations. */
  function RegisterRegister(op: Op, x: Word, y: Word): Word {
    match op
    case ADD => Add(x, y)
    case SUB => Subtract(x, y)
    case AND => And(x, y)
    case OR => Or(x, y)
    case XOR => Xor(x, y)
    case SLL => ShiftLeft(x, y)
    case SRL => ShiftRight(x, y)
    case SRA => ShiftRightArithmetic(x, ShiftAmount(y))
    case SLT => AsWord(SignedLess(x, y))
    case SLTU => AsWord(Less(x, y))
    case _ => 0
  }

  /** Section 2.4.1: register-immediate operations. */
  function RegisterImmediate(op: Op, x: Word, immediate: Word): Word {
    match op
    case ADDI => Add(x, immediate)
    case SLTI => AsWord(SignedLess(x, immediate))
    case SLTIU => AsWord(Less(x, immediate))
    case ANDI => And(x, immediate)
    case ORI => Or(x, immediate)
    case XORI => Xor(x, immediate)
    case SLLI => ShiftLeft(x, immediate)
    case SRLI => ShiftRight(x, immediate)
    case SRAI => ShiftRightArithmetic(x, ShiftAmount(immediate))
    case _ => 0
  }

  /** The register result of an instruction that does not read memory. */
  function ComputedValue(d: DecodedInstruction, pc: Address, x: Word, y: Word): Word {
    if d.op.LUI? then d.immediate
    else if d.op.AUIPC? then Add(pc, d.immediate)
    else if IsJumpOp(d.op) then Add(pc, INSTRUCTION_WIDTH)
    else if IsImmediateOp(d.op) then RegisterImmediate(d.op, x, d.immediate)
    else RegisterRegister(d.op, x, y)
  }

  /** Section 2.5.2: which conditional branches are taken. */
  predicate BranchTaken(op: Op, x: Word, y: Word) {
    match op
    case BEQ => x == y
    case BNE => x != y
    case BLT => SignedLess(x, y)
    case BGE => !SignedLess(x, y)
    case BLTU => Less(x, y)
    case BGEU => !Less(x, y)
    case _ => false
  }

  /** Section 2.5: the address of the next instruction. */
  function NextPc(d: DecodedInstruction, pc: Address, x: Word, y: Word): Address {
    if d.op.JAL? then Add(pc, d.immediate)
    else if d.op.JALR? then ClearLowBit(Add(x, d.immediate))
    else if BranchTaken(d.op, x, y) then Add(pc, d.immediate)
    else Add(pc, INSTRUCTION_WIDTH)
  }

  function WidthOf(op: Op): MemoryWidth {
    if op.LB? || op.LBU? || op.SB? then BYTE
    else if op.LH? || op.LHU? || op.SH? then HALF
    else WORD
  }

  /** The unextended bytes a load fetches. */
  function RawRead(mem: Bytes, address: Address, width: MemoryWidth): Option<Word> {
    match width
    case BYTE => (match ReadByte(mem, address) case None => None case Some(b) => Some(b as Word))
    case HALF => (match ReadHalf(mem, address) case None => None case Some(h) => Some(h as Word))
    case WORD => ReadWord(mem, address)
  }

  /** Section 2.6: LB and LH sign-extend, LBU and LHU zero-extend. */
  function Extend(op: Op, raw: Word): Word {
    match op
    case LB => SignExtend(raw, 8)
    case LH => SignExtend(raw, 16)
    case LBU => ZeroExtend(raw, 8)
    case LHU => ZeroExtend(raw, 16)
    case _ => raw
  }

  function DataAddress(d: DecodedInstruction, a: Arch): Address {
    Add(ReadRegister(a.regs, d.rs1), d.immediate)
  }

  predicate Faults(d: DecodedInstruction, a: Arch) {
    (d.isLoad || d.isStore) && !InBounds(DataAddress(d, a), WidthInBytes(WidthOf(d.op)))
  }

  /** The value an instruction produces for rd; a faulting load produces 0. */
  function ResultValue(d: DecodedInstruction, a: Arch): Word {
    if d.isLoad then
      match RawRead(a.mem, DataAddress(d, a), WidthOf(d.op))
      case None => 0
      case Some(raw) => Extend(d.op, raw)
    else ComputedValue(d, a.pc, ReadRegister(a.regs, d.rs1), ReadRegister(a.regs, d.rs2))
  }

  /** Where control goes after an instruction. */
  function Successor(d: DecodedInstruction, a: Arch): Address {
    NextPc(d, a.pc, ReadRegister(a.regs, d.rs1), ReadRegister(a.regs, d.rs2))
  }

  /** Memory after an instruction; a faulting store changes nothing. */
  function MemoryAfter(d: DecodedInstruction, a: Arch): Bytes {
    if d.isStore then
      match Write(a.mem, DataAddress(d, a), WidthOf(d.op), ReadRegister(a.regs, d.rs2))
      case None => a.mem
      case Some(mem) => mem
    else a.mem
  }

  function RegistersAfter(d: DecodedInstruction, a: Arch): Registers {
    if d.writesRd then WriteRegister(a.regs, d.rd, ResultValue(d, a)) else a.regs
  }

  /** The state after an instruction, continuing at `pc`. */
  function After(d: DecodedInstruction, a: Arch, pc: Address): Arch {
    Arch(pc, RegistersAfter(d, a), MemoryAfter(d, a))
  }

  /** One sequential step. */
  function Step(a: Arch): StepResult {
    match ReadWord(a.mem, a.pc)
    case None => FetchFault
    case Some(word) =>
      var d := Decode(word);
      if d.op.HALT? then Halted(And(a.regs[10], 0xff))
      else if d.op.INVALID? then IllegalInstruction
      else if Faults(d, a) then MemoryFault
      else Next(After(d, a, Successor(d, a)))
  }

  /** The sequential state after exactly n instructions, if the program gets that far. */
  function StateAt(start: Arch, n: nat): Option<Arch> {
    if n == 0 then Some(start)
    else
      match StateAt(start, n - 1)
      case None => None
      case Some(a) => match Step(a) { case Next(b) => Some(b) case _ => None }
  }

  /** The state the machine starts in once an image is loaded. */
  function Boot(mem: Bytes): Arch {
    Arch(0, Repeat(REGISTER_COUNT, 0 as Word), mem)
  }
}
