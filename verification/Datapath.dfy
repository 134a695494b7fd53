// Decode, operand selection and execution together compute what one
// sequential instruction computes.
module Datapath {
  import opened Types
  import opened Isa
  import opened WordArithmetic
  import opened Decoder
  import opened FunctionalUnits
  import opened Invariants
  import Image
  import RS = ReservationStations
  import Issue = IssueUnits

  // --- Shifts ------------------------------------------------------------------

  lemma NegativeShiftsAgree(x: Word, n: Word)
    requires 0 < n <= 31 && x >= 0x8000_0000
    ensures ArithmeticShiftRight(x, n) == ShiftRightArithmetic(x, n)
  {
    SmallAmount(n);
    SignBitTells(x);
    VacatedBits(n);
  }

  lemma NonNegativeShiftsAgree(x: Word, n: Word)
    requires 0 < n <= 31 && x < 0x8000_0000
    ensures ArithmeticShiftRight(x, n) == ShiftRightArithmetic(x, n)
  {
    SmallAmount(n);
    SignBitTells(x);
  }

  lemma UnitShiftsByNothing(x: Word, n: Word)
    requires n == 0
    ensures ArithmeticShiftRight(x, n) == x
  {
  }

  lemma ZeroShiftsAgree(x: Word, n: Word)
    requires n == 0
    ensures ArithmeticShiftRight(x, n) == ShiftRightArithmetic(x, n)
  {
    hide ArithmeticShiftRight, ShiftRightArithmetic;
    UnitShiftsByNothing(x, n);
    ShiftByNothing(x, n);
  }

  /** The functional unit's arithmetic shift is the manual's. */
  lemma ShiftsAgree(x: Word, n: Word)
    requires n <= 31
    ensures ArithmeticShiftRight(x, n) == ShiftRightArithmetic(x, n)
  {
    hide ArithmeticShiftRight, ShiftRightArithmetic;
    if n == 0 {
      ZeroShiftsAgree(x, n);
    } else if x >= 0x8000_0000 {
      NegativeShiftsAgree(x, n);
    } else {
      NonNegativeShiftsAgree(x, n);
    }
  }

  // --- One instruction ----------------------------------------------------------

  /** The dispatch of a slot's instruction with its in-order operands. */
  ghost predicate Carries(x: Dispatch, s: Slot) {
    && x.op == s.dec.op && x.immediate == s.dec.immediate && x.pc == s.pre.pc
    && x.operand1 == LhsValue(s) && x.operand2 == RhsValue(s)
  }

  lemma RegisterArithmetic(x: Dispatch)
    requires x.op.ADD? || x.op.SUB? || x.op.SLT? || x.op.SLTU?
    ensures ResultWord(x) == RegisterRegister(x.op, x.operand1, x.operand2)
  {
    hide ArithmeticShiftRight, ShiftRightArithmetic, Signed, Add, Subtract, And, Or, Xor, ShiftLeft, ShiftRight,
         ShiftAmount, Less;
  }

  lemma RegisterLogic(x: Dispatch)
    requires x.op.AND? || x.op.OR? || x.op.XOR?
    ensures ResultWord(x) == RegisterRegister(x.op, x.operand1, x.operand2)
  {
    hide ArithmeticShiftRight, ShiftRightArithmetic, Signed, Add, Subtract, And, Or, Xor, ShiftLeft, ShiftRight,
         ShiftAmount, Less;
  }

  lemma RegisterShift(x: Dispatch)
    requires x.op.SLL? || x.op.SRL?
    ensures ResultWord(x) == RegisterRegister(x.op, x.operand1, x.operand2)
  {
    hide ArithmeticShiftRight, ShiftRightArithmetic, Signed, Add, Subtract, And, Or, Xor, ShiftLeft, ShiftRight,
         ShiftAmount, Less;
  }

  lemma RegisterArithmeticShift(x: Dispatch)
    requires x.op.SRA?
    ensures ResultWord(x) == RegisterRegister(x.op, x.operand1, x.operand2)
  {
    hide ArithmeticShiftRight, ShiftRightArithmetic, Signed, Add, Subtract, And, Or, Xor, ShiftLeft, ShiftRight,
         ShiftAmount, Less;
    ShiftsAgree(x.operand1, ShiftAmount(x.operand2));
  }

  lemma RegisterResult(x: Dispatch)
    requires IsRegisterOp(x.op)
    ensures ResultWord(x) == RegisterRegister(x.op, x.operand1, x.operand2)
  {
    hide ResultWord, RegisterRegister;
    if x.op.ADD? || x.op.SUB? || x.op.SLT? || x.op.SLTU? { RegisterArithmetic(x); }
    else if x.op.AND? || x.op.OR? || x.op.XOR? { RegisterLogic(x); }
    else if x.op.SLL? || x.op.SRL? { RegisterShift(x); }
    else { RegisterArithmeticShift(x); }
  }

  lemma ImmediateArithmetic(x: Dispatch)
    requires x.op.ADDI? || x.op.SLTI? || x.op.SLTIU?
    ensures ResultWord(x) == RegisterImmediate(x.op, x.operand1, x.operand2)
  {
    hide ArithmeticShiftRight, ShiftRightArithmetic, Signed, Add, Subtract, And, Or, Xor, ShiftLeft, ShiftRight,
         ShiftAmount, Less;
  }

  lemma ImmediateLogic(x: Dispatch)
    requires x.op.ANDI? || x.op.ORI? || x.op.XORI?
    ensures ResultWord(x) == RegisterImmediate(x.op, x.operand1, x.operand2)
  {
    hide ArithmeticShiftRight, ShiftRightArithmetic, Signed, Add, Subtract, And, Or, Xor, ShiftLeft, ShiftRight,
         ShiftAmount, Less;
  }

  lemma ImmediateShift(x: Dispatch)
    requires x.op.SLLI? || x.op.SRLI?
    ensures ResultWord(x) == RegisterImmediate(x.op, x.operand1, x.operand2)
  {
    hide ArithmeticShiftRight, ShiftRightArithmetic, Signed, Add, Subtract, And, Or, Xor, ShiftLeft, ShiftRight,
         ShiftAmount, Less;
  }

  lemma ImmediateArithmeticShift(x: Dispatch)
    requires x.op.SRAI?
    ensures ResultWord(x) == RegisterImmediate(x.op, x.operand1, x.operand2)
  {
    hide ArithmeticShiftRight, ShiftRightArithmetic, Signed, Add, Subtract, And, Or, Xor, ShiftLeft, ShiftRight,
         ShiftAmount, Less;
    ShiftsAgree(x.operand1, ShiftAmount(x.operand2));
  }

  lemma ImmediateResult(x: Dispatch)
    requires IsImmediateOp(x.op)
    ensures ResultWord(x) == RegisterImmediate(x.op, x.operand1, x.operand2)
  {
    hide ResultWord, RegisterImmediate;
    if x.op.ADDI? || x.op.SLTI? || x.op.SLTIU? { ImmediateArithmetic(x); }
    else if x.op.ANDI? || x.op.ORI? || x.op.XORI? { ImmediateLogic(x); }
    else if x.op.SLLI? || x.op.SRLI? { ImmediateShift(x); }
    else { ImmediateArithmeticShift(x); }
  }

  lemma ZeroPlus(x: Word)
    ensures Add(0, x) == x
  {
  }

  lemma UpperResult(op: Op, x: Dispatch, d: DecodedInstruction)
    requires x.op == op && (op.LUI? || op.AUIPC?)
    requires d.op == op && x.operand2 == d.immediate
    requires x.operand1 == if op.LUI? then 0 else x.pc
    ensures ResultWord(x) == ComputedValue(d, x.pc, 0, 0)
  {
    hide ArithmeticShiftRight, Signed, Add, Subtract, And, Or, Xor, ShiftLeft, ShiftRight, ShiftAmount, Less,
         RegisterImmediate, RegisterRegister;
    ZeroPlus(x.operand2);
  }

  /** What decides how a value-producing instruction is computed. */
  lemma ValueShapes(s: Slot)
    requires WellDecoded(s.dec) && s.dec.writesRd && !s.dec.isLoad && !s.dec.isJump
    ensures (s.dec.op.LUI? || s.dec.op.AUIPC?) || IsRegisterOp(s.dec.op) || IsImmediateOp(s.dec.op)
    ensures !IsJumpOp(s.dec.op)
    ensures s.dec.op.LUI? ==> LhsValue(s) == 0
    ensures s.dec.op.AUIPC? ==> LhsValue(s) == s.pre.pc
    ensures IsRegisterOp(s.dec.op) || IsImmediateOp(s.dec.op) ==> LhsValue(s) == s.x
    ensures RhsValue(s) == if IsRegisterOp(s.dec.op) then s.y else s.dec.immediate
  {
  }

  lemma JumpResult(s: Slot, x: Dispatch)
    requires WellDecoded(s.dec) && Carries(x, s) && s.dec.isJump
    ensures ResultWord(x) == ComputedValue(s.dec, s.pre.pc, s.x, s.y)
  {
    hide ArithmeticShiftRight, ShiftRightArithmetic, Signed, Add, Subtract, And, Or, Xor, ShiftLeft, ShiftRight,
         ShiftAmount, Less;
    hide RegisterRegister, RegisterImmediate;
  }

  lemma ComputedByClass(d: DecodedInstruction, pc: Address, x: Word, y: Word)
    ensures IsRegisterOp(d.op) ==> ComputedValue(d, pc, x, y) == RegisterRegister(d.op, x, y)
    ensures IsImmediateOp(d.op) ==> ComputedValue(d, pc, x, y) == RegisterImmediate(d.op, x, d.immediate)
    ensures d.op.LUI? || d.op.AUIPC? ==> ComputedValue(d, pc, x, y) == ComputedValue(d, pc, 0, 0)
  {
    hide RegisterRegister, RegisterImmediate, Add;
  }

  /** The functional unit's result is the value the sequential step computes. */
  lemma ResultAgrees(s: Slot, x: Dispatch)
    requires WellDecoded(s.dec) && Carries(x, s)
    requires s.dec.writesRd && !s.dec.isLoad
    ensures ResultWord(x) == ComputedValue(s.dec, s.pre.pc, s.x, s.y)
  {
    hide WellDecoded, ResultWord, ComputedValue, RegisterRegister, RegisterImmediate, LhsValue, RhsValue,
         IsRegisterOp, IsImmediateOp, IsJumpOp;
    if s.dec.isJump {
      JumpResult(s, x);
    } else {
      ValueShapes(s);
      ComputedByClass(s.dec, s.pre.pc, s.x, s.y);
      if IsRegisterOp(s.dec.op) { RegisterResult(x); }
      else if IsImmediateOp(s.dec.op) { ImmediateResult(x); }
      else { UpperResult(s.dec.op, x, s.dec); }
    }
  }

  lemma BranchAgrees(x: Dispatch)
    requires IsBranchOp(x.op)
    ensures Taken(x) == BranchTaken(x.op, x.operand1, x.operand2)
  {
    hide Signed, Less;
  }

  lemma JumpsAreTaken(x: Dispatch)
    requires x.op.JAL? || x.op.JALR?
    ensures Taken(x)
  {
    hide Signed, Less;
  }

  /** It reports the successor the sequential step takes. */
  lemma SuccessorAgrees(s: Slot, x: Dispatch)
    requires WellDecoded(s.dec) && Carries(x, s)
    requires ControlInstruction(s.dec)
    ensures ActualNextPc(x) == NextPc(s.dec, s.pre.pc, s.x, s.y)
  {
    hide Taken, BranchTaken, Add, ClearLowBit;
    if IsBranchOp(x.op) { BranchAgrees(x); } else { JumpsAreTaken(x); }
  }

  /** And the outcome it reports is that branch's; a jump is always taken, nothing else ever is. */
  lemma OutcomeAgrees(s: Slot, x: Dispatch)
    requires WellDecoded(s.dec) && Carries(x, s)
    ensures Taken(x) == (s.dec.isJump || BranchTaken(s.dec.op, s.x, s.y))
  {
    hide Signed, Less;
  }

  lemma ControlFlagAgrees(d: DecodedInstruction)
    requires WellDecoded(d)
    ensures HasControlResult(d.op) <==> ControlInstruction(d)
    ensures Executable(d.op) <==> !MemoryInstruction(d) && !d.op.HALT? && !d.op.INVALID?
  {
  }

  /** Executing a dispatched instruction yields exactly its in-order result and successor. */
  lemma ExecuteAgrees(s: Slot, x: Dispatch)
    requires Meaning(s) && Carries(x, s)
    requires !MemoryInstruction(s.dec) && !s.dec.op.HALT?
    ensures var r := ExecuteInstruction(x);
            && r.valid && r.tag == x.tag
            && (s.dec.writesRd ==> r.result == s.value)
            && (r.hasControlResult <==> ControlInstruction(s.dec))
            && (ControlInstruction(s.dec) ==> r.actualNextPc == s.nextPc)
            && r.branchTaken == (s.dec.isJump || BranchTaken(s.dec.op, s.x, s.y))
  {
    ControlFlagAgrees(s.dec);
    OutcomeAgrees(s, x);
    if s.dec.writesRd { ResultAgrees(s, x); }
    if ControlInstruction(s.dec) { SuccessorAgrees(s, x); }
  }

  // The slot of the instruction d in state a.
  ghost function SlotOf(a: Arch, d: DecodedInstruction, predicted: Address): Slot {
    Slot(0, d, a, After(d, a, predicted), ReadRegister(a.regs, d.rs1), ReadRegister(a.regs, d.rs2),
         ResultValue(d, a), Successor(d, a), Faults(d, a), 0, 0)
  }

  lemma SlotOfIsMeaningful(a: Arch, d: DecodedInstruction, predicted: Address)
    requires WellDecoded(d) && !d.op.INVALID?
    ensures Meaning(SlotOf(a, d, predicted))
  {
    hide WellDecoded, ResultValue, Successor, Faults, RegistersAfter, MemoryAfter;
  }

  /** What the functional unit receives for instruction d issued in state a. */
  function Received(a: Arch, d: DecodedInstruction, tag: RobTag, predicted: Address): Dispatch {
    RS.MakeExecute(Issue.MakeRsEntry(Issue.DecodePacket(a.pc, d, predicted, true), tag,
                                     Issue.ReadyOperand(ReadRegister(a.regs, d.rs1)),
                                     Issue.ReadyOperand(ReadRegister(a.regs, d.rs2))))
  }

  lemma ReceivedCarries(a: Arch, d: DecodedInstruction, tag: RobTag, predicted: Address)
    ensures Carries(Received(a, d, tag, predicted), SlotOf(a, d, predicted))
  {
    hide ResultValue, Successor, Faults, After;
  }

  lemma StraightAhead(d: DecodedInstruction, a: Arch)
    requires WellDecoded(d) && !ControlInstruction(d)
    ensures Successor(d, a) == Add(a.pc, INSTRUCTION_WIDTH)
  {
    hide Add, SignedLess, Less, ClearLowBit;
  }

  /** Fetched word to finished result: decoding, operand selection and execution of an integer or control
      instruction are one sequential step, for every word, register contents and pc. */
  lemma DatapathAgrees(a: Arch, word: Word, tag: RobTag, predicted: Address)
    requires Image.ReadWord(a.mem, a.pc) == Image.Some(word)
    requires var d := Decode(word);
             !d.op.INVALID? && !d.op.HALT? && !MemoryInstruction(d)
    ensures var d := Decode(word);
            var r := ExecuteInstruction(Received(a, d, tag, predicted));
            && r.valid && r.tag == tag
            && Isa.Step(a) == Next(Arch(if r.hasControlResult then r.actualNextPc else Add(a.pc, INSTRUCTION_WIDTH),
                                        if d.writesRd then WriteRegister(a.regs, d.rd, r.result) else a.regs,
                                        a.mem))
  {
    hide Decode, WellDecoded, ExecuteInstruction, ResultValue, Successor, DataAddress, WriteRegister, Received, Carries,
         Meaning, Add, Image.ReadWord;
    var d := Decode(word);
    DecodeIsWellFormed(word);
    SlotOfIsMeaningful(a, d, predicted);
    ReceivedCarries(a, d, tag, predicted);
    ExecuteAgrees(SlotOf(a, d, predicted), Received(a, d, tag, predicted));
    ReceivedTag(a, d, tag, predicted);
    if !ControlInstruction(d) { StraightAhead(d, a); }
  }

  lemma ReceivedTag(a: Arch, d: DecodedInstruction, tag: RobTag, predicted: Address)
    ensures Received(a, d, tag, predicted).tag == tag
  {
  }
}
