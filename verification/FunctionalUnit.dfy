// The integer functional unit with its one-entry result register
// (src/tomasulo/functional_unit.cpp).
module FunctionalUnits {
  import opened Types
  import opened WordArithmetic

  function SequentialPc(pc: Address): Address { Add(pc, INSTRUCTION_WIDTH) }

  predicate SignedLessThan(lhs: Word, rhs: Word) { Signed(lhs) < Signed(rhs) }

  predicate SignedGreaterEqual(lhs: Word, rhs: Word) { Signed(lhs) >= Signed(rhs) }

  /** Logical shift, then the sign bit copied into the vacated positions. */
  function ArithmeticShiftRight(value: Word, amount: Word): Word {
    var n := amount & 31;
    if n == 0 then value
    else
      var shifted := value >> n;
      if value & 0x8000_0000 != 0 then shifted | (0xffff_ffff << (32 - n)) else shifted
  }

  // The result word; control instructions other than jumps leave it 0.
  function ResultWord(x: Dispatch): Word {
    var lhs := x.operand1;
    var rhs := x.operand2;
    match x.op
    case ADD => Add(lhs, rhs)
    case ADDI => Add(lhs, rhs)
    case AND => And(lhs, rhs)
    case ANDI => And(lhs, rhs)
    case LUI => Add(lhs, rhs)
    case AUIPC => Add(lhs, rhs)
    case JAL => SequentialPc(x.pc)
    case JALR => SequentialPc(x.pc)
    case OR => Or(lhs, rhs)
    case ORI => Or(lhs, rhs)
    case SLL => ShiftLeft(lhs, rhs)
    case SLLI => ShiftLeft(lhs, rhs)
    case SLTU => if Less(lhs, rhs) then 1 else 0
    case SLTIU => if Less(lhs, rhs) then 1 else 0
    case SLT => if SignedLessThan(lhs, rhs) then 1 else 0
    case SLTI => if SignedLessThan(lhs, rhs) then 1 else 0
    case SRA => ArithmeticShiftRight(lhs, ShiftAmount(rhs))
    case SRAI => ArithmeticShiftRight(lhs, ShiftAmount(rhs))
    case SRL => ShiftRight(lhs, rhs)
    case SRLI => ShiftRight(lhs, rhs)
    case SUB => Subtract(lhs, rhs)
    case XOR => Xor(lhs, rhs)
    case XORI => Xor(lhs, rhs)
    case _ => 0
  }

  predicate Taken(x: Dispatch) {
    match x.op
    case BEQ => x.operand1 == x.operand2
    case BGE => SignedGreaterEqual(x.operand1, x.operand2)
    case BGEU => !Less(x.operand1, x.operand2)
    case BLT => SignedLessThan(x.operand1, x.operand2)
    case BLTU => Less(x.operand1, x.operand2)
    case BNE => x.operand1 != x.operand2
    case JAL => true
    case JALR => true
    case _ => false
  }

  predicate HasControlResult(op: Op) {
    op.BEQ? || op.BGE? || op.BGEU? || op.BLT? || op.BLTU? || op.BNE? || op.JAL? || op.JALR?
  }

  // Loads, stores, HALT and INVALID never execute here.
  predicate Executable(op: Op) {
    !(op.LB? || op.LH? || op.LW? || op.LBU? || op.LHU? || op.SB? || op.SH? || op.SW? || op.HALT? || op.INVALID?)
  }

  function ActualNextPc(x: Dispatch): Address {
    if x.op.JALR? then ClearLowBit(Add(x.operand1, x.immediate))
    else if Taken(x) then Add(x.pc, x.immediate)
    else SequentialPc(x.pc)
  }

  function ExecuteInstruction(x: Dispatch): FUResult {
    if !Executable(x.op) then NO_RESULT
    else FUResult(x.tag, ResultWord(x), ActualNextPc(x), Taken(x), HasControlResult(x.op), true)
  }

  predicate CanAccept(current: FUResult, resultAccepted: bool) {
    resultAccepted || !current.valid
  }

  predicate Accepts(current: FUResult, execute: Dispatch, flush: bool, resultAccepted: bool) {
    !flush && execute.valid && CanAccept(current, resultAccepted) && ExecuteInstruction(execute).valid
  }

  /** The result register after a cycle. */
  function NextResult(current: FUResult, execute: Dispatch, flush: bool, resultAccepted: bool): FUResult {
    if flush then NO_RESULT
    else if Accepts(current, execute, flush, resultAccepted) then ExecuteInstruction(execute)
    else if resultAccepted && current.valid then NO_RESULT
    else current
  }
}
