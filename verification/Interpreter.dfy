// The sequential interpreter's step as a function (src/reference/interpreter.cpp),
// and exactly when it agrees with the instruction set: always, except that it
// compares SLT and SLTU with the instruction's immediate instead of rs2.
module Interpreters {
  import opened Types
  import opened WordArithmetic
  import opened Image
  import opened Isa
  import opened Decoder
  import FU = FunctionalUnits
  import Datapath
  import ReadOverWrite

  /** The value written back by an instruction that does not read memory. */
  function Writeback(d: DecodedInstruction, pc: Address, x: Word, y: Word): Word {
    var immediate := d.immediate;
    match d.op
    case LUI => immediate
    case AUIPC => Add(pc, immediate)
    case ADDI => Add(x, immediate)
    case SLT => if SignedLess(x, immediate) then 1 else 0
    case SLTI => if SignedLess(x, immediate) then 1 else 0
    case SLTU => if Less(x, immediate) then 1 else 0
    case SLTIU => if Less(x, immediate) then 1 else 0
    case XORI => Xor(x, immediate)
    case ORI => Or(x, immediate)
    case ANDI => And(x, immediate)
    case SLLI => ShiftLeft(x, immediate)
    case SRLI => ShiftRight(x, immediate)
    case SRAI => FU.ArithmeticShiftRight(x, ShiftAmount(immediate))
    case ADD => Add(x, y)
    case SUB => Subtract(x, y)
    case AND => And(x, y)
    case XOR => Xor(x, y)
    case OR => Or(x, y)
    case SLL => ShiftLeft(x, y)
    case SRL => ShiftRight(x, y)
    case SRA => FU.ArithmeticShiftRight(x, ShiftAmount(y))
    case JAL => Add(pc, INSTRUCTION_WIDTH)
    case JALR => Add(pc, INSTRUCTION_WIDTH)
    case _ => 0
  }

  function NextAddress(d: DecodedInstruction, pc: Address, x: Word, y: Word): Address {
    var sequential := Add(pc, INSTRUCTION_WIDTH);
    var target := Add(pc, d.immediate);
    match d.op
    case JAL => target
    case JALR => ClearLowBit(Add(x, d.immediate))
    case BEQ => if x == y then target else sequential
    case BNE => if x != y then target else sequential
    case BLT => if SignedLess(x, y) then target else sequential
    case BGE => if FU.SignedGreaterEqual(x, y) then target else sequential
    case BLTU => if Less(x, y) then target else sequential
    case BGEU => if !Less(x, y) then target else sequential
    case _ => sequential
  }

  function Widen(op: Op, raw: Word): Word {
    match op
    case LB => SignExtend(raw, 8)
    case LH => SignExtend(raw, 16)
    case _ => raw
  }

  /** The registers after writing `value`, with x0 forced to 0. */
  function Retired(regs: Registers, d: DecodedInstruction, value: Word): Registers {
    (if HasWriteback(d.op) && d.rd != 0 && d.rd < REGISTER_COUNT then regs[d.rd := value] else regs)[0 := 0]
  }

  predicate HasWriteback(op: Op) { !IsStoreOp(op) && !IsBranchOp(op) }

  /** What an executable instruction does. */
  function Executed(a: Arch, d: DecodedInstruction): (r: StepResult)
    ensures r.Next? || r.MemoryFault?
  {
    var x, y := ReadRegister(a.regs, d.rs1), ReadRegister(a.regs, d.rs2);
    if IsLoadOp(d.op) then
      match RawRead(a.mem, Add(x, d.immediate), WidthOf(d.op))
      case None => MemoryFault
      case Some(raw) => Next(Arch(Add(a.pc, INSTRUCTION_WIDTH), Retired(a.regs, d, Widen(d.op, raw)), a.mem))
    else if IsStoreOp(d.op) then
      match Write(a.mem, Add(x, d.immediate), WidthOf(d.op), y)
      case None => MemoryFault
      case Some(mem) => Next(Arch(Add(a.pc, INSTRUCTION_WIDTH), Retired(a.regs, d, 0), mem))
    else Next(Arch(NextAddress(d, a.pc, x, y), Retired(a.regs, d, Writeback(d, a.pc, x, y)), a.mem))
  }

  /** One step of the interpreter. */
  function InterpretedStep(a: Arch): StepResult {
    match ReadWord(a.mem, a.pc)
    case None => FetchFault
    case Some(word) =>
      var d := Decode(word);
      if d.op.HALT? then Halted(And(a.regs[10], 0xff))
      else if d.op.INVALID? then IllegalInstruction
      else Executed(a, d)
  }

  // --- Agreement with the instruction set ----------------------------------------------

  /** The comparison the interpreter makes differs from the one the instruction asks for. */
  predicate Misjudged(d: DecodedInstruction, x: Word, y: Word) {
    d.rd != 0
    && (|| (d.op.SLT? && SignedLess(x, 0) != SignedLess(x, y))
        || (d.op.SLTU? && Less(x, y)))
  }

  /** The next instruction of state a is such a comparison. */
  predicate Misstep(a: Arch) {
    match ReadWord(a.mem, a.pc)
    case None => false
    case Some(word) =>
      var d := Decode(word);
      Misjudged(d, ReadRegister(a.regs, d.rs1), ReadRegister(a.regs, d.rs2))
  }

  lemma RegisterFormat(bits: Word)
    ensures DecodeR(bits).immediate == 0
  {
    hide ExtractBits, DecodeRd, DecodeRs1, DecodeRs2, Funct3, Funct7, OpOfR;
  }

  lemma OpImmediateFormat(bits: Word)
    ensures !IsRegisterOp(DecodeOpImmediate(bits).op)
  {
    hide ExtractBits, DecodeRd, DecodeRs1, DecodeImmediateI, Funct3, Funct7, OpOfImmediate;
  }

  lemma LoadFormat(bits: Word)
    ensures !IsRegisterOp(DecodeLoad(bits).op)
  {
    hide ExtractBits, DecodeRd, DecodeRs1, DecodeImmediateI, Funct3, OpOfLoad;
  }

  lemma JalrFormat(bits: Word)
    ensures !IsRegisterOp(DecodeJalr(bits).op)
  {
    hide ExtractBits, DecodeRd, DecodeRs1, DecodeImmediateI, Funct3;
  }

  lemma StoreFormat(bits: Word)
    ensures !IsRegisterOp(DecodeS(bits).op)
  {
    hide ExtractBits, DecodeRs1, DecodeRs2, DecodeImmediateS, Funct3, OpOfStore;
  }

  lemma BranchFormat(bits: Word)
    ensures !IsRegisterOp(DecodeB(bits).op)
  {
    hide ExtractBits, DecodeRs1, DecodeRs2, DecodeImmediateB, Funct3, OpOfBranch;
  }

  lemma UpperFormat(bits: Word)
    ensures !IsRegisterOp(DecodeU(bits).op)
  {
    hide ExtractBits, DecodeRd, DecodeImmediateU, Opcode;
  }

  lemma JumpFormat(bits: Word)
    ensures !IsRegisterOp(DecodeJ(bits).op)
  {
    hide ExtractBits, DecodeRd, DecodeImmediateJ;
  }

  lemma RegisterOpsHaveNoImmediate(bits: Word)
    ensures IsRegisterOp(Decode(bits).op) ==> Decode(bits).immediate == 0
  {
    hide Opcode, DecodeR, DecodeOpImmediate, DecodeLoad, DecodeJalr, DecodeS, DecodeB, DecodeU, DecodeJ;
    RegisterFormat(bits);
    OpImmediateFormat(bits);
    LoadFormat(bits);
    JalrFormat(bits);
    StoreFormat(bits);
    BranchFormat(bits);
    UpperFormat(bits);
    JumpFormat(bits);
  }

  lemma NothingIsLessThanZero(x: Word)
    ensures !Less(x, 0)
  {
  }

  lemma RegisterWritebackAgrees(d: DecodedInstruction, pc: Address, x: Word, y: Word)
    requires IsRegisterOp(d.op) && d.immediate == 0
    ensures !d.op.SLT? && !d.op.SLTU? ==> Writeback(d, pc, x, y) == RegisterRegister(d.op, x, y)
    ensures d.op.SLT? ==> Writeback(d, pc, x, y) == AsWord(SignedLess(x, 0))
    ensures d.op.SLTU? ==> Writeback(d, pc, x, y) == AsWord(Less(x, 0))
  {
    hide Add, Subtract, And, Or, Xor, ShiftLeft, ShiftRight, SignedLess, Less, ShiftRightArithmetic,
         FU.ArithmeticShiftRight, ShiftAmount;
    if d.op.SRA? { Datapath.ShiftsAgree(x, ShiftAmount(y)); }
  }

  lemma ImmediateWritebackAgrees(d: DecodedInstruction, pc: Address, x: Word, y: Word)
    requires IsImmediateOp(d.op)
    ensures Writeback(d, pc, x, y) == RegisterImmediate(d.op, x, d.immediate)
  {
    hide Add, Subtract, And, Or, Xor, ShiftLeft, ShiftRight, SignedLess, Less, ShiftRightArithmetic,
         FU.ArithmeticShiftRight, ShiftAmount;
    if d.op.SRAI? { Datapath.ShiftsAgree(x, ShiftAmount(d.immediate)); }
  }

  lemma OtherWritebackAgrees(d: DecodedInstruction, pc: Address, x: Word, y: Word)
    requires d.op.LUI? || d.op.AUIPC? || IsJumpOp(d.op)
    ensures Writeback(d, pc, x, y) == ComputedValue(d, pc, x, y)
  {
    hide Add;
  }

  lemma ComparisonsOfRegisters(x: Word, y: Word)
    ensures RegisterRegister(SLT, x, y) == AsWord(SignedLess(x, y))
    ensures RegisterRegister(SLTU, x, y) == AsWord(Less(x, y))
  {
    hide SignedLess, Less, AsWord;
  }

  lemma WritebackAgrees(d: DecodedInstruction, pc: Address, x: Word, y: Word)
    requires !IsMemoryOp(d.op) && !IsBranchOp(d.op) && !d.op.HALT? && !d.op.INVALID?
    requires IsRegisterOp(d.op) ==> d.immediate == 0
    ensures !d.op.SLT? && !d.op.SLTU? ==> Writeback(d, pc, x, y) == ComputedValue(d, pc, x, y)
    ensures d.op.SLT? ==>
              && Writeback(d, pc, x, y) == AsWord(SignedLess(x, 0))
              && ComputedValue(d, pc, x, y) == AsWord(SignedLess(x, y))
    ensures d.op.SLTU? ==> Writeback(d, pc, x, y) == AsWord(false) && ComputedValue(d, pc, x, y) == AsWord(Less(x, y))
  {
    hide Add, SignedLess, Less, AsWord, Writeback, RegisterImmediate, RegisterRegister;
    if IsRegisterOp(d.op) {
      RegisterWritebackAgrees(d, pc, x, y);
      NothingIsLessThanZero(x);
      ComparisonsOfRegisters(x, y);
    } else if IsImmediateOp(d.op) {
      ImmediateWritebackAgrees(d, pc, x, y);
    } else {
      OtherWritebackAgrees(d, pc, x, y);
    }
  }

  lemma NextAddressAgrees(d: DecodedInstruction, pc: Address, x: Word, y: Word)
    ensures NextAddress(d, pc, x, y) == NextPc(d, pc, x, y)
  {
    hide Add, ClearLowBit, Signed, Less;
  }

  lemma WidenAgrees(op: Op, raw: Word)
    requires IsLoadOp(op) && ReadOverWrite.Fits(raw, WidthOf(op))
    ensures Widen(op, raw) == Extend(op, raw)
  {
    hide SignExtend, ZeroExtend;
    if op.LBU? { ReadOverWrite.ExtendByte(raw); }
    if op.LHU? { ReadOverWrite.ZeroExtendHalf(raw); }
  }

  lemma LoadAgrees(op: Op, mem: Bytes, address: Address)
    requires IsLoadOp(op)
    ensures RawRead(mem, address, WidthOf(op)).Some? <==> InBounds(address, WidthInBytes(WidthOf(op)))
    ensures RawRead(mem, address, WidthOf(op)).Some? ==>
              Widen(op, RawRead(mem, address, WidthOf(op)).value)
                  == Extend(op, RawRead(mem, address, WidthOf(op)).value)
  {
    hide Position, RawRead, Widen, Extend, ReadOverWrite.RawAt, ByteOf, WidthOf;
    ReadOverWrite.LoadIsBytewise(mem, address, WidthOf(op));
    if InBounds(address, WidthInBytes(WidthOf(op))) {
      ReadOverWrite.ReadsRaw(mem, address, WidthOf(op));
      ReadOverWrite.RawFits(mem, Position(address), WidthOf(op));
      WidenAgrees(op, RawRead(mem, address, WidthOf(op)).value);
    }
  }

  lemma RetiredAgrees(d: DecodedInstruction, regs: Registers, value: Word)
    requires WellDecoded(d) && regs[0] == 0
    ensures Retired(regs, d, value) == if d.writesRd then WriteRegister(regs, d.rd, value) else regs
  {
    assert regs[0 := 0] == regs;
  }

  /** What one step does to a state whose next word decodes to d. */
  lemma LoadStepAgrees(a: Arch, word: Word, d: DecodedInstruction)
    requires ReadWord(a.mem, a.pc) == Some(word) && d == Decode(word) && WellDecoded(d) && IsLoadOp(d.op)
    requires a.regs[0] == 0
    ensures InterpretedStep(a) == Isa.Step(a)
  {
    hide Decode, ReadWord, RawRead, Widen, Extend, Retired, WidthOf, InBounds, Add, WriteRegister, Writeback,
         NextAddress, Write, Less, Signed, ComputedValue;
    LoadAgrees(d.op, a.mem, DataAddress(d, a));
    if RawRead(a.mem, DataAddress(d, a), WidthOf(d.op)).Some? {
      RetiredAgrees(d, a.regs, Widen(d.op, RawRead(a.mem, DataAddress(d, a), WidthOf(d.op)).value));
    }
  }

  lemma StoreStepAgrees(a: Arch, word: Word, d: DecodedInstruction)
    requires ReadWord(a.mem, a.pc) == Some(word) && d == Decode(word) && WellDecoded(d) && IsStoreOp(d.op)
    requires a.regs[0] == 0
    ensures InterpretedStep(a) == Isa.Step(a)
  {
    hide Decode, ReadWord, RawRead, Widen, Extend, Retired, WidthOf, Add, Writeback, NextAddress, Patched, Position,
         Less, Signed, ComputedValue;
    RetiredAgrees(d, a.regs, 0);
  }

  lemma ComputeStepAgrees(a: Arch, word: Word, d: DecodedInstruction)
    requires ReadWord(a.mem, a.pc) == Some(word) && d == Decode(word) && WellDecoded(d) && a.regs[0] == 0
    requires !IsMemoryOp(d.op) && !d.op.HALT? && !d.op.INVALID?
    ensures var x, y := ReadRegister(a.regs, d.rs1), ReadRegister(a.regs, d.rs2);
            && InterpretedStep(a) == Next(Arch(NextPc(d, a.pc, x, y),
                if d.writesRd then WriteRegister(a.regs, d.rd, Writeback(d, a.pc, x, y)) else a.regs, a.mem))
            && Isa.Step(a) == Next(Arch(NextPc(d, a.pc, x, y),
                if d.writesRd then WriteRegister(a.regs, d.rd, ComputedValue(d, a.pc, x, y)) else a.regs, a.mem))
  {
    hide Decode, ReadWord, RawRead, Retired, Add, Writeback, NextAddress, NextPc, ComputedValue, WriteRegister;
    var x, y := ReadRegister(a.regs, d.rs1), ReadRegister(a.regs, d.rs2);
    NextAddressAgrees(d, a.pc, x, y);
    RetiredAgrees(d, a.regs, Writeback(d, a.pc, x, y));
  }

  lemma DifferentWrites(regs: Registers, rd: RegisterIndex, v: Word, w: Word)
    requires 0 < rd < REGISTER_COUNT
    ensures WriteRegister(regs, rd, v) == WriteRegister(regs, rd, w) <==> v == w
  {
    if v != w {
      assert WriteRegister(regs, rd, v)[rd] == v && WriteRegister(regs, rd, w)[rd] == w;
    }
  }

  lemma DifferentJudgements(p: bool, q: bool)
    ensures AsWord(p) == AsWord(q) <==> p == q
  {
  }

  /** The interpreter takes the instruction set's step exactly when it is not about to misjudge an SLT or SLTU. */
  lemma StepAgrees(a: Arch)
    requires a.regs[0] == 0
    ensures InterpretedStep(a) == Isa.Step(a) <==> !Misstep(a)
  {
    hide Decode, ReadWord, WellDecoded, Writeback, ComputedValue, NextPc, WriteRegister, AsWord, SignedLess, Less,
         InterpretedStep, Isa.Step;
    match ReadWord(a.mem, a.pc)
    case None => FixedSteps(a);
    case Some(word) =>
      var d := Decode(word);
      DecodeIsWellFormed(word);
      if d.op.HALT? || d.op.INVALID? {
        FixedSteps(a);
      } else if IsLoadOp(d.op) {
        LoadStepAgrees(a, word, d);
      } else if IsStoreOp(d.op) {
        StoreStepAgrees(a, word, d);
      } else {
        JudgementDecides(a, word, d);
      }
  }

  lemma FixedSteps(a: Arch)
    requires ReadWord(a.mem, a.pc).Some? ==>
               Decode(ReadWord(a.mem, a.pc).value).op.HALT? || Decode(ReadWord(a.mem, a.pc).value).op.INVALID?
    ensures InterpretedStep(a) == Isa.Step(a)
  {
    hide Decode, ReadWord, And;
  }

  lemma JudgementDecides(a: Arch, word: Word, d: DecodedInstruction)
    requires ReadWord(a.mem, a.pc) == Some(word) && d == Decode(word) && WellDecoded(d) && a.regs[0] == 0
    requires !IsMemoryOp(d.op) && !d.op.HALT? && !d.op.INVALID?
    ensures InterpretedStep(a) == Isa.Step(a) <==>
              !Misjudged(d, ReadRegister(a.regs, d.rs1), ReadRegister(a.regs, d.rs2))
  {
    hide Decode, ReadWord, Writeback, ComputedValue, NextPc, WriteRegister, AsWord, SignedLess, Less, InterpretedStep,
         Isa.Step, ReadRegister;
    var x, y := ReadRegister(a.regs, d.rs1), ReadRegister(a.regs, d.rs2);
    ComputeStepAgrees(a, word, d);
    RegisterOpsHaveNoImmediate(word);
    if d.writesRd {
      DifferentWrites(a.regs, d.rd, Writeback(d, a.pc, x, y), ComputedValue(d, a.pc, x, y));
      WritebackAgrees(d, a.pc, x, y);
      DifferentJudgements(SignedLess(x, 0), SignedLess(x, y));
      DifferentJudgements(false, Less(x, y));
    }
  }
}
