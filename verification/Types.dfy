// Machine words, reorder-buffer tags and the records the modules exchange
// (include/common/types.hpp, include/isa/instruction.hpp,
// include/tomasulo/signals.hpp).
module Types {

  type Byte = bv8
  type HalfWord = bv16
  type Word = bv32
  type Address = bv32
  // A register number is an unsigned 8-bit integer.
  type RegisterIndex = i: int | 0 <= i < 256
  // Generations wrap around at 2^32.
  type Generation = bv32

  const REGISTER_COUNT := 32
  const INSTRUCTION_WIDTH: Word := 4

  /** A slot of the reorder buffer together with how often that slot was allocated. */
  datatype RobTag = RobTag(index: nat, generation: Generation, valid: bool)

  const NO_TAG := RobTag(0, 0, false)

  datatype Op =
    | LUI | AUIPC
    | ADDI | SLTI | SLTIU | XORI | ORI | ANDI | SLLI | SRLI | SRAI
    | JALR
    | LB | LH | LW | LBU | LHU
    | ADD | SUB | AND | XOR | OR | SLL | SLT | SLTU | SRL | SRA
    | BEQ | BNE | BLT | BGE | BLTU | BGEU
    | SB | SH | SW
    | JAL
    | HALT
    | INVALID

  datatype OperandSource = FromImmediate | FromRegister | FromProgramCounter | FromZero

  datatype DecodedInstruction = DecodedInstruction(
    op: Op,
    rd: RegisterIndex,
    rs1: RegisterIndex,
    rs2: RegisterIndex,
    immediate: Word,
    lhsSource: OperandSource,
    rhsSource: OperandSource,
    usesRs1: bool,
    usesRs2: bool,
    writesRd: bool,
    isLoad: bool,
    isStore: bool,
    isBranch: bool,
    isJump: bool)

  const NO_INSTRUCTION :=
    DecodedInstruction(INVALID, 0, 0, 0, 0, FromZero, FromZero,
                       false, false, false, false, false, false, false)

  /** A source operand: a value, or the tag whose broadcast will supply it. */
  datatype Operand = Operand(value: Word, tag: RobTag, ready: bool)

  const NO_OPERAND := Operand(0, NO_TAG, false)

  /** A result broadcast on the common data bus. */
  datatype CdbMessage = CdbMessage(tag: RobTag, value: Word, valid: bool)

  const NO_MESSAGE := CdbMessage(NO_TAG, 0, false)

  /** Reservation station to functional unit. */
  datatype Dispatch = Dispatch(
    op: Op, operand1: Word, operand2: Word, immediate: Word,
    pc: Address, tag: RobTag, valid: bool)

  const NO_DISPATCH := Dispatch(INVALID, 0, 0, 0, 0, NO_TAG, false)

  /** A finished execution; control instructions also report where they go. */
  datatype FUResult = FUResult(
    tag: RobTag, result: Word, actualNextPc: Address,
    branchTaken: bool, hasControlResult: bool, valid: bool)

  const NO_RESULT := FUResult(NO_TAG, 0, 0, false, false, false)

  datatype MemoryAccessType = LOAD | STORE
  datatype MemoryWidth = BYTE | HALF | WORD

  datatype MemoryRequest = MemoryRequest(
    kind: MemoryAccessType, width: MemoryWidth, address: Address,
    value: Word, tag: RobTag, valid: bool)

  const NO_REQUEST := MemoryRequest(LOAD, WORD, 0, 0, NO_TAG, false)

  datatype MemoryResponse = MemoryResponse(
    tag: RobTag, value: Word, isStore: bool, success: bool, valid: bool)

  const NO_RESPONSE := MemoryResponse(NO_TAG, 0, false, false, false)

  /** A sequence holding n copies of x. */
  function Repeat<T>(n: nat, x: T): (s: seq<T>)
    ensures |s| == n && forall i :: 0 <= i < n ==> s[i] == x
  {
    seq(n, _ => x)
  }

  /** The low `width` bits set. */
  function BitMask(width: Word): Word {
    if width == 0 then 0
    else if width >= 32 then 0xffff_ffff
    else ((1 as Word) << width) - 1
  }

  function GetBit(value: Word, position: Word): bool {
    position < 32 && (value >> position) & 1 != 0
  }

  /** Bits high..low, both inclusive; an empty range is 0, high is capped at 31. */
  function ExtractBits(value: Word, high: Word, low: Word): Word {
    if low >= 32 || high < low then 0
    else
      var boundedHigh := if high < 32 then high else 31;
      (value >> low) & BitMask(boundedHigh - low + 1)
  }

  function SignBit(width: Word): Word
    requires 0 < width < 32
  {
    (1 as Word) << (width - 1)
  }

  function SignExtend(value: Word, width: Word): Word {
    if width == 0 then 0
    else if width >= 32 then value
    else
      var narrowed := value & BitMask(width);
      if narrowed & SignBit(width) != 0 then narrowed | !BitMask(width) else narrowed
  }

  function ZeroExtend(value: Word, width: Word): Word {
    value & BitMask(width)
  }

  function WakeOperand(operand: Operand, cdb: CdbMessage): Operand {
    if operand.ready || !operand.tag.valid || !cdb.valid || !cdb.tag.valid then operand
    else if operand.tag == cdb.tag then Operand(cdb.value, NO_TAG, true)
    else operand
  }
}
