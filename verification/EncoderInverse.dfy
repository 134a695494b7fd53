// The converse of DecoderInverse: every record of the six instruction formats
// survives encoding and decoding, so each immediate in its signed range, each
// register number and each operation comes back unchanged. The one word that
// does not is `addi x10, x0, 255`, which the decoder reserves for HALT.
module EncoderInverse {
  import opened Types
  import opened Decoder
  import opened DecoderInverse

  // --- Records of each format ------------------------------------------------------

  function RecordR(op: Op, rd: RegisterIndex, rs1: RegisterIndex, rs2: RegisterIndex): DecodedInstruction {
    DecodedInstruction(op, rd, rs1, rs2, 0, FromRegister, FromRegister,
                       true, true, rd != 0, false, false, false, false)
  }

  function RecordI(op: Op, rd: RegisterIndex, rs1: RegisterIndex, immediate: Word): DecodedInstruction {
    DecodedInstruction(op, rd, rs1, 0, immediate, FromRegister, FromImmediate,
                       true, false, rd != 0, IsLoadOp(op), false, false, op.JALR?)
  }

  function RecordS(op: Op, rs1: RegisterIndex, rs2: RegisterIndex, immediate: Word): DecodedInstruction {
    DecodedInstruction(op, 0, rs1, rs2, immediate, FromRegister, FromImmediate,
                       true, true, false, false, true, false, false)
  }

  function RecordB(op: Op, rs1: RegisterIndex, rs2: RegisterIndex, immediate: Word): DecodedInstruction {
    DecodedInstruction(op, 0, rs1, rs2, immediate, FromRegister, FromRegister,
                       true, true, false, false, false, true, false)
  }

  function RecordU(op: Op, rd: RegisterIndex, immediate: Word): DecodedInstruction {
    DecodedInstruction(op, rd, 0, 0, immediate, if op.LUI? then FromZero else FromProgramCounter, FromImmediate,
                       false, false, rd != 0, false, false, false, false)
  }

  function RecordJ(rd: RegisterIndex, immediate: Word): DecodedInstruction {
    DecodedInstruction(JAL, rd, 0, 0, immediate, FromProgramCounter, FromImmediate,
                       false, false, rd != 0, false, false, false, true)
  }

  // --- Ranges ----------------------------------------------------------------------

  // -2048 .. 2047 as a word.
  predicate Fits12(immediate: Word) { immediate < 0x800 || immediate >= 0xffff_f800 }

  // Even offsets in -4096 .. 4094.
  predicate FitsBranch(immediate: Word) { immediate & 1 == 0 && (immediate < 0x1000 || immediate >= 0xffff_f000) }

  // Even offsets in -2^20 .. 2^20 - 2.
  predicate FitsJump(immediate: Word) { immediate & 1 == 0 && (immediate < 0x10_0000 || immediate >= 0xfff0_0000) }

  predicate FitsUpper(immediate: Word) { immediate & 0xfff == 0 }

  // --- Fields of an encoded word ------------------------------------------------------

  lemma FieldsOfR(funct7: Word, rs2: Word, rs1: Word, funct3: Word, rd: Word)
    requires funct7 <= 0x7f && rs2 <= 31 && rs1 <= 31 && funct3 <= 7 && rd <= 31
    ensures var w := EncodeR(funct7, rs2, rs1, funct3, rd);
            && w & 0x7f == OP_OPCODE && (w >> 12) & 7 == funct3 && w >> 25 == funct7
            && (w >> 7) & 0x1f == rd && (w >> 15) & 0x1f == rs1 && (w >> 20) & 0x1f == rs2
  {
  }

  lemma FieldsOfI(immediate: Word, rs1: Word, funct3: Word, rd: Word, opcode: Word)
    requires rs1 <= 31 && funct3 <= 7 && rd <= 31 && opcode <= 0x7f
    ensures var w := EncodeI(immediate, rs1, funct3, rd, opcode);
            && w & 0x7f == opcode && (w >> 12) & 7 == funct3
            && (w >> 7) & 0x1f == rd && (w >> 15) & 0x1f == rs1 && w >> 20 == immediate & 0xfff
  {
  }

  lemma FieldsOfS(immediate: Word, rs2: Word, rs1: Word, funct3: Word)
    requires rs2 <= 31 && rs1 <= 31 && funct3 <= 7
    ensures var w := EncodeS(immediate, rs2, rs1, funct3);
            && w & 0x7f == STORE_OPCODE && (w >> 12) & 7 == funct3
            && (w >> 15) & 0x1f == rs1 && (w >> 20) & 0x1f == rs2
            && ((w >> 25) << 5) | ((w >> 7) & 0x1f) == immediate & 0xfff
  {
  }

  lemma FieldsOfB(immediate: Word, rs2: Word, rs1: Word, funct3: Word)
    requires rs2 <= 31 && rs1 <= 31 && funct3 <= 7 && immediate & 1 == 0
    ensures var w := EncodeB(immediate, rs2, rs1, funct3);
            && w & 0x7f == BRANCH_OPCODE && (w >> 12) & 7 == funct3
            && (w >> 15) & 0x1f == rs1 && (w >> 20) & 0x1f == rs2
            && ((w >> 31) << 12) | (((w >> 7) & 1) << 11) | (((w >> 25) & 0x3f) << 5) | (((w >> 8) & 0xf) << 1)
               == immediate & 0x1fff
  {
  }

  lemma FieldsOfU(immediate: Word, rd: Word, opcode: Word)
    requires rd <= 31 && opcode <= 0x7f && immediate & 0xfff == 0
    ensures var w := EncodeU(immediate, rd, opcode);
            w & 0x7f == opcode && (w >> 7) & 0x1f == rd && w & 0xffff_f000 == immediate
  {
  }

  lemma FieldsOfJ(immediate: Word, rd: Word)
    requires rd <= 31 && immediate & 1 == 0
    ensures var w := EncodeJ(immediate, rd);
            && w & 0x7f == JAL_OPCODE && (w >> 7) & 0x1f == rd
            && ((w >> 31) << 20) | (((w >> 12) & 0xff) << 12) | (((w >> 20) & 1) << 11) | (((w >> 21) & 0x3ff) << 1)
               == immediate & 0x1f_ffff
  {
  }

  // --- Sign extension undoes truncation ---------------------------------------------------

  // Truncation and extension as named operations, so that the solver need not see their bits.
  function Low12(x: Word): Word { x & 0xfff }
  function Raised12(n: Word): Word { n | 0xffff_f000 }
  predicate Negative12(n: Word) { n & 0x800 != 0 }
  predicate Only12(n: Word) { n & 0xfff == n }

  lemma Forward12(n: Word)
    requires !Negative12(n) && Only12(n)
    ensures SignExtend(n, 12) == n
  {
    hide BitMask, SignBit, SignExtend;
    Masks();
    Restores(n, 12);
  }

  lemma Backward12(n: Word)
    requires Negative12(n) && Only12(n)
    ensures SignExtend(n, 12) == Raised12(n)
  {
    hide BitMask, SignBit, SignExtend;
    Masks();
    Restores(n, 12);
  }

  lemma Truncate12(x: Word)
    requires Fits12(x)
    ensures Only12(Low12(x))
    ensures if Negative12(Low12(x)) then Raised12(Low12(x)) == x else Low12(x) == x
  {
  }

  function Low13(x: Word): Word { x & 0x1fff }
  function Raised13(n: Word): Word { n | 0xffff_e000 }
  predicate Negative13(n: Word) { n & 0x1000 != 0 }
  predicate Only13(n: Word) { n & 0x1fff == n }

  lemma Forward13(n: Word)
    requires !Negative13(n) && Only13(n)
    ensures SignExtend(n, 13) == n
  {
    hide BitMask, SignBit, SignExtend;
    Masks();
    Restores(n, 13);
  }

  lemma Backward13(n: Word)
    requires Negative13(n) && Only13(n)
    ensures SignExtend(n, 13) == Raised13(n)
  {
    hide BitMask, SignBit, SignExtend;
    Masks();
    Restores(n, 13);
  }

  lemma Truncate13(x: Word)
    requires FitsBranch(x)
    ensures Only13(Low13(x))
    ensures if Negative13(Low13(x)) then Raised13(Low13(x)) == x else Low13(x) == x
  {
  }

  function Low21(x: Word): Word { x & 0x1f_ffff }
  function Raised21(n: Word): Word { n | 0xffe0_0000 }
  predicate Negative21(n: Word) { n & 0x10_0000 != 0 }
  predicate Only21(n: Word) { n & 0x1f_ffff == n }

  lemma Forward21(n: Word)
    requires !Negative21(n) && Only21(n)
    ensures SignExtend(n, 21) == n
  {
    hide BitMask, SignBit, SignExtend;
    Masks();
    Restores(n, 21);
  }

  lemma Backward21(n: Word)
    requires Negative21(n) && Only21(n)
    ensures SignExtend(n, 21) == Raised21(n)
  {
    hide BitMask, SignBit, SignExtend;
    Masks();
    Restores(n, 21);
  }

  lemma TruncateForward(x: Word)
    requires x < 0x10_0000
    ensures Low21(x) == x && !Negative21(x) && Only21(x)
  {
  }

  lemma TruncateTwice(x: Word)
    ensures Only21(Low21(x))
  {
  }

  lemma KeepsSign(x: Word)
    requires x >= 0xfff0_0000
    ensures Negative21(Low21(x))
  {
  }

  lemma RaiseAgain(x: Word)
    requires x >= 0xfff0_0000
    ensures Raised21(Low21(x)) == x
  {
  }

  lemma Restores12(x: Word)
    requires Fits12(x)
    ensures SignExtend(Low12(x), 12) == x
  {
    hide SignExtend, Fits12, Low12, Raised12, Negative12, Only12;
    Truncate12(x);
    if Negative12(Low12(x)) { Backward12(Low12(x)); } else { Forward12(Low12(x)); }
  }

  lemma Restores13(x: Word)
    requires FitsBranch(x)
    ensures SignExtend(Low13(x), 13) == x
  {
    hide SignExtend, FitsBranch, Low13, Raised13, Negative13, Only13;
    Truncate13(x);
    if Negative13(Low13(x)) { Backward13(Low13(x)); } else { Forward13(Low13(x)); }
  }

  lemma Restores21(x: Word)
    requires FitsJump(x)
    ensures SignExtend(Low21(x), 21) == x
  {
    hide SignExtend, Low21, Raised21, Negative21, Only21;
    if x < 0x10_0000 {
      TruncateForward(x);
      Forward21(x);
    } else {
      TruncateTwice(x);
      KeepsSign(x);
      RaiseAgain(x);
      Backward21(Low21(x));
    }
  }

  // --- Registers -----------------------------------------------------------------------------

  lemma FieldRange(r: RegisterIndex)
    requires r < 32
    ensures Field(r) <= 31
  {
  }

  lemma FieldReturns(r: RegisterIndex)
    requires r < 32
    ensures Field(r) as int == r
  {
  }

  lemma FieldIsInjective(a: RegisterIndex, b: RegisterIndex)
    requires a < 32 && b < 32 && Field(a) == Field(b)
    ensures a == b
  {
    hide Field;
    FieldReturns(a);
    FieldReturns(b);
  }

  lemma RdOf(w: Word, rd: RegisterIndex)
    requires rd < 32 && (w >> 7) & 0x1f == Field(rd)
    ensures DecodeRd(w) == rd
  {
    hide Field;
    RegisterFields(w);
    FieldIsInjective(DecodeRd(w), rd);
  }

  lemma Rs1Of(w: Word, rs1: RegisterIndex)
    requires rs1 < 32 && (w >> 15) & 0x1f == Field(rs1)
    ensures DecodeRs1(w) == rs1
  {
    hide Field;
    RegisterFields(w);
    FieldIsInjective(DecodeRs1(w), rs1);
  }

  lemma Rs2Of(w: Word, rs2: RegisterIndex)
    requires rs2 < 32 && (w >> 20) & 0x1f == Field(rs2)
    ensures DecodeRs2(w) == rs2
  {
    hide Field;
    RegisterFields(w);
    FieldIsInjective(DecodeRs2(w), rs2);
  }

  // --- Records survive encoding and decoding ----------------------------------------------------

  lemma CodesR(op: Op)
    requires IsRegisterOp(op)
    ensures Funct3Of(op) <= 7 && Funct7Of(op) <= 0x7f
  {
  }

  lemma OpsOfR(op: Op)
    requires IsRegisterOp(op)
    ensures OpOfR(Funct3Of(op), Funct7Of(op)) == op
  {
    hide OpOfR;
    RegisterCodes();
    match op
    case ADD => case SUB => case SLL => case SLT => case SLTU =>
    case XOR => case SRL => case SRA => case OR => case AND =>
  }

  lemma RegisterCodes()
    ensures OpOfR(0, BASE_FUNCT7) == ADD && OpOfR(0, ALTERNATE_FUNCT7) == SUB && OpOfR(1, BASE_FUNCT7) == SLL
    ensures OpOfR(2, BASE_FUNCT7) == SLT && OpOfR(3, BASE_FUNCT7) == SLTU && OpOfR(4, BASE_FUNCT7) == XOR
    ensures OpOfR(5, BASE_FUNCT7) == SRL && OpOfR(5, ALTERNATE_FUNCT7) == SRA
    ensures OpOfR(6, BASE_FUNCT7) == OR && OpOfR(7, BASE_FUNCT7) == AND
  {
  }

  lemma OpsOfI(op: Op, funct7: Word)
    requires IsImmediateOp(op) && (IsShiftImmediate(op) ==> funct7 == Funct7Of(op))
    ensures Funct3Of(op) <= 7 && OpOfImmediate(Funct3Of(op), funct7) == op
  {
  }

  lemma OpsOfLoad(op: Op)
    requires IsLoadOp(op)
    ensures Funct3Of(op) <= 7 && OpOfLoad(Funct3Of(op)) == op && !IsImmediateOp(op) && !IsRegisterOp(op)
    ensures !IsShiftImmediate(op)
  {
  }

  lemma OpsOfS(op: Op)
    requires IsStoreOp(op)
    ensures Funct3Of(op) <= 7 && OpOfStore(Funct3Of(op)) == op && !IsLoadOp(op) && !IsImmediateOp(op)
    ensures !IsRegisterOp(op)
  {
  }

  lemma OpsOfB(op: Op)
    requires IsBranchOp(op)
    ensures Funct3Of(op) <= 7 && OpOfBranch(Funct3Of(op)) == op
    ensures !IsStoreOp(op) && !IsLoadOp(op) && !IsImmediateOp(op) && !IsRegisterOp(op)
  {
  }

  lemma WordOfR(op: Op, rd: RegisterIndex, rs1: RegisterIndex, rs2: RegisterIndex) returns (w: Word)
    requires IsRegisterOp(op) && rd < 32 && rs1 < 32 && rs2 < 32
    ensures w == Encode(RecordR(op, rd, rs1, rs2))
    ensures Opcode(w) == OP_OPCODE && OpOfR(Funct3(w), Funct7(w)) == op
    ensures DecodeRd(w) == rd && DecodeRs1(w) == rs1 && DecodeRs2(w) == rs2
  {
    hide Field, Opcode, Funct3, Funct7, EncodeR, Funct3Of, Funct7Of, OpOfR, DecodeRd, DecodeRs1, DecodeRs2;
    FieldRange(rd);
    FieldRange(rs1);
    FieldRange(rs2);
    CodesR(op);
    OpsOfR(op);
    w := EncodeR(Funct7Of(op), Field(rs2), Field(rs1), Funct3Of(op), Field(rd));
    FieldsOfR(Funct7Of(op), Field(rs2), Field(rs1), Funct3Of(op), Field(rd));
    CodeFields(w);
    RdOf(w, rd);
    Rs1Of(w, rs1);
    Rs2Of(w, rs2);
  }

  /** Every register-register record survives. */
  lemma RoundTripR(op: Op, rd: RegisterIndex, rs1: RegisterIndex, rs2: RegisterIndex)
    requires IsRegisterOp(op) && rd < 32 && rs1 < 32 && rs2 < 32
    ensures Decode(Encode(RecordR(op, rd, rs1, rs2))) == RecordR(op, rd, rs1, rs2)
  {
    hide Encode, Opcode, Funct3, Funct7, OpOfR, DecodeRd, DecodeRs1, DecodeRs2, DecodeI, DecodeOpImmediate,
         DecodeLoad, DecodeJalr, DecodeS, DecodeB, DecodeU, DecodeJ;
    var w := WordOfR(op, rd, rs1, rs2);
    NotHalt(w);
  }

  lemma NotHalt(w: Word)
    requires Opcode(w) != OP_IMMEDIATE_OPCODE
    ensures w != HALT_ENCODING
  {
  }

  lemma WordOfI(rd: RegisterIndex, rs1: RegisterIndex, funct3: Word, immediate: Word, opcode: Word) returns (w: Word)
    requires rd < 32 && rs1 < 32 && funct3 <= 7 && opcode <= 0x7f
    ensures w == EncodeI(immediate, Field(rs1), funct3, Field(rd), opcode)
    ensures Opcode(w) == opcode && Funct3(w) == funct3 && w >> 20 == immediate & 0xfff
    ensures DecodeRd(w) == rd && DecodeRs1(w) == rs1
  {
    hide Field, Opcode, Funct3, EncodeI, DecodeRd, DecodeRs1;
    FieldRange(rd);
    FieldRange(rs1);
    w := EncodeI(immediate, Field(rs1), funct3, Field(rd), opcode);
    FieldsOfI(immediate, Field(rs1), funct3, Field(rd), opcode);
    CodeFields(w);
    RdOf(w, rd);
    Rs1Of(w, rs1);
  }

  lemma TopImmediate(w: Word)
    ensures DecodeImmediateI(w) == SignExtend(w >> 20, 12)
  {
    hide SignExtend;
  }

  lemma SignedImmediateI(w: Word, immediate: Word)
    requires Fits12(immediate) && w >> 20 == Low12(immediate)
    ensures DecodeImmediateI(w) == immediate
  {
    hide DecodeImmediateI, Fits12, SignExtend, Low12;
    TopImmediate(w);
    Restores12(immediate);
  }

  lemma ShiftImmediateI(w: Word, funct7: Word, amount: Word)
    requires w >> 20 == ShiftField(funct7, amount) & 0xfff && funct7 <= 0x7f && amount <= 31
    ensures Funct7(w) == funct7 && ExtractBits(w, 24, 20) == amount
  {
  }

  /** The one record whose word the decoder takes for HALT. */
  predicate ReadsAsHalt(op: Op, rd: RegisterIndex, rs1: RegisterIndex, immediate: Word) {
    op.ADDI? && rd == 10 && rs1 == 0 && immediate == 255
  }

  lemma HaltFields(w: Word)
    ensures w == HALT_ENCODING <==>
              && Opcode(w) == OP_IMMEDIATE_OPCODE && Funct3(w) == 0 && DecodeRd(w) == 10 && DecodeRs1(w) == 0
              && w >> 20 == 255
  {
    hide Opcode, Funct3, DecodeRd, DecodeRs1;
    CodeFields(w);
    RegisterFields(w);
    FieldIsExact(DecodeRd(w), 10, 10);
    FieldIsExact(DecodeRs1(w), 0, 0);
  }

  lemma FieldIsExact(r: RegisterIndex, n: RegisterIndex, field: Word)
    requires r < 32 && n < 32 && Field(n) == field
    ensures r == n <==> r as Word == field
  {
    if Field(r) == field { FieldIsInjective(r, n); }
  }

  lemma TruncatedTo255(immediate: Word)
    requires Fits12(immediate)
    ensures immediate & 0xfff == 255 <==> immediate == 255
  {
  }

  lemma EncodesOpImmediate(op: Op, rd: RegisterIndex, rs1: RegisterIndex, immediate: Word)
    requires IsImmediateOp(op) && !IsShiftImmediate(op)
    ensures Encode(RecordI(op, rd, rs1, immediate))
              == EncodeI(immediate, Field(rs1), Funct3Of(op), Field(rd), OP_IMMEDIATE_OPCODE)
  {
    hide EncodeR, EncodeI, EncodeS, EncodeB, EncodeU, EncodeJ, Field, ShiftField, Funct3Of, Funct7Of;
  }

  // The funct3 of ADDI alone is 0.
  lemma OnlyAddiIsZero(op: Op)
    requires IsImmediateOp(op)
    ensures Funct3Of(op) == 0 <==> op.ADDI?
  {
  }

  lemma WordOfOpImmediate(op: Op, rd: RegisterIndex, rs1: RegisterIndex, immediate: Word) returns (w: Word)
    requires IsImmediateOp(op) && !IsShiftImmediate(op) && rd < 32 && rs1 < 32 && Fits12(immediate)
    ensures w == Encode(RecordI(op, rd, rs1, immediate))
    ensures Opcode(w) == OP_IMMEDIATE_OPCODE && OpOfImmediate(Funct3(w), Funct7(w)) == op
    ensures DecodeRd(w) == rd && DecodeRs1(w) == rs1 && DecodeImmediateI(w) == immediate
    ensures w == HALT_ENCODING <==> ReadsAsHalt(op, rd, rs1, immediate)
  {
    hide Opcode, Funct3, Funct7, Encode, EncodeI, Field, Fits12, DecodeRd, DecodeRs1, DecodeImmediateI, OpOfImmediate,
         Funct3Of, IsImmediateOp, IsShiftImmediate;
    EncodesOpImmediate(op, rd, rs1, immediate);
    OnlyAddiIsZero(op);
    ImmediateCodes(op);
    w := WordOfI(rd, rs1, Funct3Of(op), immediate, OP_IMMEDIATE_OPCODE);
    HaltFields(w);
    OpsOfI(op, Funct7(w));
    SignedImmediateI(w, immediate);
    TruncatedTo255(immediate);
  }

  lemma ImmediateCodes(op: Op)
    requires IsImmediateOp(op)
    ensures Funct3Of(op) <= 7
  {
  }

  /** Every register-immediate record survives with any signed 12-bit immediate, but for the word taken as HALT. */
  lemma RoundTripOpImmediate(op: Op, rd: RegisterIndex, rs1: RegisterIndex, immediate: Word)
    requires IsImmediateOp(op) && !IsShiftImmediate(op) && rd < 32 && rs1 < 32 && Fits12(immediate)
    ensures Decode(Encode(RecordI(op, rd, rs1, immediate)))
            == if ReadsAsHalt(op, rd, rs1, immediate) then NO_INSTRUCTION.(op := HALT)
                else RecordI(op, rd, rs1, immediate)
  {
    hide Opcode, Funct3, Funct7, Encode, Fits12, DecodeRd, DecodeRs1, DecodeImmediateI, OpOfImmediate, ExtractBits,
         ReadsAsHalt, DecodeR, DecodeLoad, DecodeJalr, DecodeS, DecodeB, DecodeU, DecodeJ;
    var w := WordOfOpImmediate(op, rd, rs1, immediate);
  }

  lemma ShiftRange(op: Op)
    requires IsShiftImmediate(op)
    ensures Funct7Of(op) <= 0x7f
  {
  }

  lemma ShiftIsNot255(funct7: Word, amount: Word)
    requires amount <= 31 && (funct7 == BASE_FUNCT7 || funct7 == ALTERNATE_FUNCT7)
    ensures ShiftField(funct7, amount) & 0xfff != 255
  {
  }

  /** Every immediate shift survives with any amount below 32. */
  lemma RoundTripShift(op: Op, rd: RegisterIndex, rs1: RegisterIndex, amount: Word)
    requires IsShiftImmediate(op) && rd < 32 && rs1 < 32 && amount <= 31
    ensures Decode(Encode(RecordI(op, rd, rs1, amount))) == RecordI(op, rd, rs1, amount)
  {
    hide Opcode, Funct3, Funct7, EncodeI, Field, DecodeRd, DecodeRs1, DecodeImmediateI, OpOfImmediate, ExtractBits,
         ShiftField, EncodeR, EncodeS, EncodeB, EncodeU, EncodeJ, DecodeR, DecodeLoad, DecodeJalr, DecodeS, DecodeB,
         DecodeU, DecodeJ;
    OpsOfI(op, Funct7Of(op));
    ShiftRange(op);
    ShiftIsNot255(Funct7Of(op), amount);
    var w := WordOfI(rd, rs1, Funct3Of(op), ShiftField(Funct7Of(op), amount), OP_IMMEDIATE_OPCODE);
    HaltFields(w);
    ShiftImmediateI(w, Funct7Of(op), amount);
  }

  /** Every load survives with any signed 12-bit offset. */
  lemma RoundTripLoad(op: Op, rd: RegisterIndex, rs1: RegisterIndex, immediate: Word)
    requires IsLoadOp(op) && rd < 32 && rs1 < 32 && Fits12(immediate)
    ensures Decode(Encode(RecordI(op, rd, rs1, immediate))) == RecordI(op, rd, rs1, immediate)
  {
    hide Opcode, Funct3, EncodeI, Field, Fits12, DecodeRd, DecodeRs1, DecodeImmediateI, OpOfLoad, ExtractBits,
         ShiftField, Funct3Of, Funct7Of, EncodeR, EncodeS, EncodeB, EncodeU, EncodeJ, DecodeR, DecodeOpImmediate,
         DecodeJalr, DecodeS, DecodeB, DecodeU, DecodeJ;
    OpsOfLoad(op);
    var w := WordOfI(rd, rs1, Funct3Of(op), immediate, LOAD_OPCODE);
    NotHalt(w);
    SignedImmediateI(w, immediate);
  }

  /** JALR survives with any signed 12-bit offset. */
  lemma RoundTripJalr(rd: RegisterIndex, rs1: RegisterIndex, immediate: Word)
    requires rd < 32 && rs1 < 32 && Fits12(immediate)
    ensures Decode(Encode(RecordI(JALR, rd, rs1, immediate))) == RecordI(JALR, rd, rs1, immediate)
  {
    hide Opcode, Funct3, EncodeI, Field, Fits12, DecodeRd, DecodeRs1, DecodeImmediateI, ExtractBits, ShiftField,
         Funct3Of, Funct7Of, EncodeR, EncodeS, EncodeB, EncodeU, EncodeJ, DecodeR, DecodeOpImmediate, DecodeLoad,
         DecodeS, DecodeB, DecodeU, DecodeJ;
    var w := WordOfI(rd, rs1, 0, immediate, JALR_OPCODE);
    NotHalt(w);
    SignedImmediateI(w, immediate);
  }

  lemma SplitImmediateS(w: Word)
    ensures DecodeImmediateS(w) == SignExtend(((w >> 25) << 5) | ((w >> 7) & 0x1f), 12)
  {
    hide SignExtend;
  }

  lemma SignedImmediateS(w: Word, immediate: Word)
    requires Fits12(immediate) && ((w >> 25) << 5) | ((w >> 7) & 0x1f) == Low12(immediate)
    ensures DecodeImmediateS(w) == immediate
  {
    hide DecodeImmediateS, Fits12, SignExtend, Low12;
    SplitImmediateS(w);
    Restores12(immediate);
  }

  lemma WordOfS(rs1: RegisterIndex, rs2: RegisterIndex, funct3: Word, immediate: Word) returns (w: Word)
    requires rs1 < 32 && rs2 < 32 && funct3 <= 7 && Fits12(immediate)
    ensures w == EncodeS(immediate, Field(rs2), Field(rs1), funct3)
    ensures Opcode(w) == STORE_OPCODE && Funct3(w) == funct3 && DecodeImmediateS(w) == immediate
    ensures DecodeRs1(w) == rs1 && DecodeRs2(w) == rs2
  {
    hide Field, Opcode, Funct3, EncodeS, DecodeRs1, DecodeRs2, DecodeImmediateS, Fits12;
    FieldRange(rs1);
    FieldRange(rs2);
    w := EncodeS(immediate, Field(rs2), Field(rs1), funct3);
    FieldsOfS(immediate, Field(rs2), Field(rs1), funct3);
    CodeFields(w);
    Rs1Of(w, rs1);
    Rs2Of(w, rs2);
    SignedImmediateS(w, immediate);
  }

  /** Every store survives with any signed 12-bit offset. */
  lemma RoundTripS(op: Op, rs1: RegisterIndex, rs2: RegisterIndex, immediate: Word)
    requires IsStoreOp(op) && rs1 < 32 && rs2 < 32 && Fits12(immediate)
    ensures Decode(Encode(RecordS(op, rs1, rs2, immediate))) == RecordS(op, rs1, rs2, immediate)
  {
    hide Opcode, Funct3, EncodeS, Field, Fits12, DecodeRs1, DecodeRs2, DecodeImmediateS, OpOfStore, ExtractBits,
         ShiftField, Funct3Of, Funct7Of, EncodeR, EncodeI, EncodeB, EncodeU, EncodeJ, DecodeR, DecodeI,
         DecodeOpImmediate, DecodeLoad, DecodeJalr, DecodeB, DecodeU, DecodeJ;
    OpsOfS(op);
    var w := WordOfS(rs1, rs2, Funct3Of(op), immediate);
    NotHalt(w);
  }

  lemma SignedImmediateB(w: Word, immediate: Word)
    requires FitsBranch(immediate) && OffsetBitsB(w) == Low13(immediate)
    ensures DecodeImmediateB(w) == immediate
  {
    hide OffsetBitsB, FitsBranch, SignExtend, Low13;
    Restores13(immediate);
  }

  lemma WordOfB(rs1: RegisterIndex, rs2: RegisterIndex, funct3: Word, immediate: Word) returns (w: Word)
    requires rs1 < 32 && rs2 < 32 && funct3 <= 7 && FitsBranch(immediate)
    ensures w == EncodeB(immediate, Field(rs2), Field(rs1), funct3)
    ensures Opcode(w) == BRANCH_OPCODE && Funct3(w) == funct3 && DecodeImmediateB(w) == immediate
    ensures DecodeRs1(w) == rs1 && DecodeRs2(w) == rs2
  {
    hide Field, Opcode, Funct3, EncodeB, DecodeRs1, DecodeRs2, DecodeImmediateB, OffsetBitsB;
    FieldRange(rs1);
    FieldRange(rs2);
    w := EncodeB(immediate, Field(rs2), Field(rs1), funct3);
    FieldsOfB(immediate, Field(rs2), Field(rs1), funct3);
    CodeFields(w);
    Rs1Of(w, rs1);
    Rs2Of(w, rs2);
    OffsetsB(w);
    SignedImmediateB(w, immediate);
  }

  /** Every branch survives with any even offset in -4096 .. 4094. */
  lemma RoundTripB(op: Op, rs1: RegisterIndex, rs2: RegisterIndex, immediate: Word)
    requires IsBranchOp(op) && rs1 < 32 && rs2 < 32 && FitsBranch(immediate)
    ensures Decode(Encode(RecordB(op, rs1, rs2, immediate))) == RecordB(op, rs1, rs2, immediate)
  {
    hide Opcode, Funct3, EncodeB, Field, FitsBranch, DecodeRs1, DecodeRs2, DecodeImmediateB, OpOfBranch, ExtractBits,
         ShiftField, Funct3Of, Funct7Of, EncodeR, EncodeI, EncodeS, EncodeU, EncodeJ, DecodeR, DecodeI,
         DecodeOpImmediate, DecodeLoad, DecodeJalr, DecodeS, DecodeU, DecodeJ;
    OpsOfB(op);
    var w := WordOfB(rs1, rs2, Funct3Of(op), immediate);
    NotHalt(w);
  }

  lemma WordOfU(rd: RegisterIndex, immediate: Word, opcode: Word) returns (w: Word)
    requires rd < 32 && opcode <= 0x7f && FitsUpper(immediate)
    ensures w == EncodeU(immediate, Field(rd), opcode)
    ensures Opcode(w) == opcode && DecodeRd(w) == rd && DecodeImmediateU(w) == immediate
  {
    hide Field, Opcode, EncodeU, DecodeRd;
    FieldRange(rd);
    w := EncodeU(immediate, Field(rd), opcode);
    FieldsOfU(immediate, Field(rd), opcode);
    CodeFields(w);
    RdOf(w, rd);
  }

  /** LUI and AUIPC survive with any immediate whose low 12 bits are zero. */
  lemma RoundTripU(op: Op, rd: RegisterIndex, immediate: Word)
    requires (op.LUI? || op.AUIPC?) && rd < 32 && FitsUpper(immediate)
    ensures Decode(Encode(RecordU(op, rd, immediate))) == RecordU(op, rd, immediate)
  {
    hide Opcode, EncodeU, Field, FitsUpper, DecodeRd, DecodeImmediateU, ExtractBits, ShiftField, Funct3Of, Funct7Of,
         EncodeR, EncodeI, EncodeS, EncodeB, EncodeJ, DecodeR, DecodeI, DecodeS, DecodeB, DecodeJ, DecodeOpImmediate,
         DecodeLoad, DecodeJalr;
    var w := WordOfU(rd, immediate, if op.LUI? then LUI_OPCODE else AUIPC_OPCODE);
    NotHalt(w);
  }

  lemma SignedImmediateJ(w: Word, immediate: Word)
    requires FitsJump(immediate) && OffsetBitsJ(w) == Low21(immediate)
    ensures DecodeImmediateJ(w) == immediate
  {
    hide OffsetBitsJ, FitsJump, SignExtend, Low21;
    Restores21(immediate);
  }

  lemma WordOfJ(rd: RegisterIndex, immediate: Word) returns (w: Word)
    requires rd < 32 && FitsJump(immediate)
    ensures w == EncodeJ(immediate, Field(rd))
    ensures Opcode(w) == JAL_OPCODE && DecodeRd(w) == rd && DecodeImmediateJ(w) == immediate
  {
    hide Field, Opcode, EncodeJ, DecodeRd, DecodeImmediateJ, OffsetBitsJ;
    FieldRange(rd);
    w := EncodeJ(immediate, Field(rd));
    FieldsOfJ(immediate, Field(rd));
    CodeFields(w);
    RdOf(w, rd);
    OffsetsJ(w);
    SignedImmediateJ(w, immediate);
  }

  /** JAL survives with any even offset in -2^20 .. 2^20 - 2. */
  lemma RoundTripJ(rd: RegisterIndex, immediate: Word)
    requires rd < 32 && FitsJump(immediate)
    ensures Decode(Encode(RecordJ(rd, immediate))) == RecordJ(rd, immediate)
  {
    hide Opcode, EncodeJ, Field, FitsJump, DecodeRd, DecodeImmediateJ, ExtractBits, ShiftField, Funct3Of, Funct7Of,
         EncodeR, EncodeI, EncodeS, EncodeB, EncodeU, DecodeR, DecodeI, DecodeOpImmediate, DecodeLoad, DecodeJalr,
         DecodeS, DecodeB, DecodeU;
    var w := WordOfJ(rd, immediate);
    NotHalt(w);
  }
}
