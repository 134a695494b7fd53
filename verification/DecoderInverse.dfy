// The decoder loses nothing: encoding what it decoded gives the word back,
// and every immediate that fits its format survives encoding and decoding.
// Field layouts: section 2.2 and 2.3 of the RISC-V Unprivileged ISA manual, as
// in tests/unit/decoder_test.cpp.
module DecoderInverse {
  import opened Types
  import opened Decoder

  // --- Field layouts --------------------------------------------------------------

  function EncodeR(funct7: Word, rs2: Word, rs1: Word, funct3: Word, rd: Word): Word {
    (funct7 << 25) | (rs2 << 20) | (rs1 << 15) | (funct3 << 12) | (rd << 7) | OP_OPCODE
  }

  function EncodeI(immediate: Word, rs1: Word, funct3: Word, rd: Word, opcode: Word): Word {
    ((immediate & 0xfff) << 20) | (rs1 << 15) | (funct3 << 12) | (rd << 7) | opcode
  }

  function EncodeS(immediate: Word, rs2: Word, rs1: Word, funct3: Word): Word {
    var encoded := immediate & 0xfff;
    ((encoded >> 5) << 25) | (rs2 << 20) | (rs1 << 15) | (funct3 << 12) | ((encoded & 0x1f) << 7) | STORE_OPCODE
  }

  function EncodeB(immediate: Word, rs2: Word, rs1: Word, funct3: Word): Word {
    var encoded := immediate & 0x1fff;
    (((encoded >> 12) & 1) << 31) | (((encoded >> 5) & 0x3f) << 25) | (rs2 << 20) | (rs1 << 15) | (funct3 << 12)
    | (((encoded >> 1) & 0xf) << 8) | (((encoded >> 11) & 1) << 7) | BRANCH_OPCODE
  }

  function EncodeU(immediate: Word, rd: Word, opcode: Word): Word {
    (immediate & 0xffff_f000) | (rd << 7) | opcode
  }

  function EncodeJ(immediate: Word, rd: Word): Word {
    var encoded := immediate & 0x1f_ffff;
    (((encoded >> 20) & 1) << 31) | (((encoded >> 1) & 0x3ff) << 21) | (((encoded >> 11) & 1) << 20)
    | (((encoded >> 12) & 0xff) << 12) | (rd << 7) | JAL_OPCODE
  }

  // --- Function codes ---------------------------------------------------------------

  function Funct3Of(op: Op): Word {
    match op
    case ADD => 0 case SUB => 0 case SLL => 1 case SLT => 2 case SLTU => 3
    case XOR => 4 case SRL => 5 case SRA => 5 case OR => 6 case AND => 7
    case ADDI => 0 case SLLI => 1 case SLTI => 2 case SLTIU => 3
    case XORI => 4 case SRLI => 5 case SRAI => 5 case ORI => 6 case ANDI => 7
    case LB => 0 case LH => 1 case LW => 2 case LBU => 4 case LHU => 5
    case SB => 0 case SH => 1 case SW => 2
    case BEQ => 0 case BNE => 1 case BLT => 4 case BGE => 5 case BLTU => 6 case BGEU => 7
    case _ => 0
  }

  function Funct7Of(op: Op): Word {
    if op.SUB? || op.SRA? || op.SRAI? then ALTERNATE_FUNCT7 else BASE_FUNCT7
  }

  predicate IsShiftImmediate(op: Op) { op.SLLI? || op.SRLI? || op.SRAI? }

  function Field(r: RegisterIndex): Word { r as Word }

  // A shift amount below the function code that tells SRAI from SRLI.
  function ShiftField(funct7: Word, amount: Word): Word { (funct7 << 5) | amount }

  /** The word of a decoded instruction. */
  function Encode(d: DecodedInstruction): Word {
    var rd := Field(d.rd);
    var rs1 := Field(d.rs1);
    var rs2 := Field(d.rs2);
    if d.op.HALT? then HALT_ENCODING
    else if IsRegisterOp(d.op) then EncodeR(Funct7Of(d.op), rs2, rs1, Funct3Of(d.op), rd)
    else if IsShiftImmediate(d.op) then
      EncodeI(ShiftField(Funct7Of(d.op), d.immediate), rs1, Funct3Of(d.op), rd, OP_IMMEDIATE_OPCODE)
    else if IsImmediateOp(d.op) then EncodeI(d.immediate, rs1, Funct3Of(d.op), rd, OP_IMMEDIATE_OPCODE)
    else if IsLoadOp(d.op) then EncodeI(d.immediate, rs1, Funct3Of(d.op), rd, LOAD_OPCODE)
    else if d.op.JALR? then EncodeI(d.immediate, rs1, 0, rd, JALR_OPCODE)
    else if IsStoreOp(d.op) then EncodeS(d.immediate, rs2, rs1, Funct3Of(d.op))
    else if IsBranchOp(d.op) then EncodeB(d.immediate, rs2, rs1, Funct3Of(d.op))
    else if d.op.LUI? then EncodeU(d.immediate, rd, LUI_OPCODE)
    else if d.op.AUIPC? then EncodeU(d.immediate, rd, AUIPC_OPCODE)
    else EncodeJ(d.immediate, rd)
  }

  // --- Bits of a word -----------------------------------------------------------------

  lemma RegisterFields(bits: Word)
    ensures Field(DecodeRd(bits)) == (bits >> 7) & 0x1f
    ensures Field(DecodeRs1(bits)) == (bits >> 15) & 0x1f
    ensures Field(DecodeRs2(bits)) == (bits >> 20) & 0x1f
  {
  }

  lemma OpcodeField(bits: Word)
    ensures Opcode(bits) == bits & 0x7f
  {
  }

  lemma Funct3Field(bits: Word)
    ensures Funct3(bits) == (bits >> 12) & 7 && Funct3(bits) <= 7
  {
  }

  lemma Funct7Field(bits: Word)
    ensures Funct7(bits) == bits >> 25
  {
  }

  lemma CodeFields(bits: Word)
    ensures Opcode(bits) == bits & 0x7f
    ensures Funct3(bits) == (bits >> 12) & 7 && Funct3(bits) <= 7
    ensures Funct7(bits) == bits >> 25
  {
    hide Opcode, Funct3, Funct7;
    OpcodeField(bits);
    Funct3Field(bits);
    Funct7Field(bits);
  }

  lemma JoinR(bits: Word)
    requires bits & 0x7f == OP_OPCODE
    ensures EncodeR(bits >> 25, (bits >> 20) & 0x1f, (bits >> 15) & 0x1f, (bits >> 12) & 7, (bits >> 7) & 0x1f) == bits
  {
  }

  lemma JoinI(bits: Word, immediate: Word, opcode: Word)
    requires bits & 0x7f == opcode && immediate & 0xfff == bits >> 20
    ensures EncodeI(immediate, (bits >> 15) & 0x1f, (bits >> 12) & 7, (bits >> 7) & 0x1f, opcode) == bits
  {
  }

  lemma JoinS(bits: Word, immediate: Word)
    requires bits & 0x7f == STORE_OPCODE && immediate & 0xfff == ((bits >> 25) << 5) | ((bits >> 7) & 0x1f)
    ensures EncodeS(immediate, (bits >> 20) & 0x1f, (bits >> 15) & 0x1f, (bits >> 12) & 7) == bits
  {
  }

  lemma JoinB(bits: Word, immediate: Word)
    requires bits & 0x7f == BRANCH_OPCODE
    requires immediate & 0x1fff
               == ((bits >> 31) << 12) | (((bits >> 7) & 1) << 11) | (((bits >> 25) & 0x3f) << 5)
                  | (((bits >> 8) & 0xf) << 1)
    ensures EncodeB(immediate, (bits >> 20) & 0x1f, (bits >> 15) & 0x1f, (bits >> 12) & 7) == bits
  {
  }

  lemma JoinU(bits: Word, opcode: Word)
    requires bits & 0x7f == opcode
    ensures EncodeU(bits & 0xffff_f000, (bits >> 7) & 0x1f, opcode) == bits
  {
  }

  lemma JoinJ(bits: Word, immediate: Word)
    requires bits & 0x7f == JAL_OPCODE
    requires immediate & 0x1f_ffff
               == ((bits >> 31) << 20) | (((bits >> 12) & 0xff) << 12) | (((bits >> 20) & 1) << 11)
                  | (((bits >> 21) & 0x3ff) << 1)
    ensures EncodeJ(immediate, (bits >> 7) & 0x1f) == bits
  {
  }

  // --- Immediates read from a word -------------------------------------------------------

  lemma ImmediateI(bits: Word)
    ensures DecodeImmediateI(bits) & 0xfff == bits >> 20
    ensures ExtractBits(bits, 24, 20) == (bits >> 20) & 0x1f
  {
  }

  lemma ImmediateS(bits: Word)
    ensures DecodeImmediateS(bits) & 0xfff == ((bits >> 25) << 5) | ((bits >> 7) & 0x1f)
  {
  }

  lemma ChosenBit(bits: Word)
    ensures (if GetBit(bits, 31) then (1 as Word) << 12 else 0) == (bits >> 31) << 12
    ensures (if GetBit(bits, 7) then (1 as Word) << 11 else 0) == ((bits >> 7) & 1) << 11
    ensures (if GetBit(bits, 31) then (1 as Word) << 20 else 0) == (bits >> 31) << 20
    ensures (if GetBit(bits, 20) then (1 as Word) << 11 else 0) == ((bits >> 20) & 1) << 11
  {
  }

  lemma OffsetsB(bits: Word)
    ensures OffsetBitsB(bits)
            == ((bits >> 31) << 12) | (((bits >> 7) & 1) << 11) | (((bits >> 25) & 0x3f) << 5)
               | (((bits >> 8) & 0xf) << 1)
    ensures OffsetBitsB(bits) & 0x1fff == OffsetBitsB(bits)
  {
    hide GetBit;
    ChosenBit(bits);
  }

  lemma OffsetsJ(bits: Word)
    ensures OffsetBitsJ(bits)
            == ((bits >> 31) << 20) | (((bits >> 12) & 0xff) << 12) | (((bits >> 20) & 1) << 11)
               | (((bits >> 21) & 0x3ff) << 1)
    ensures OffsetBitsJ(bits) & 0x1f_ffff == OffsetBitsJ(bits)
  {
    hide GetBit;
    ChosenBit(bits);
  }

  lemma Masks()
    ensures BitMask(12) == 0xfff && BitMask(13) == 0x1fff && BitMask(21) == 0x1f_ffff
    ensures SignBit(12) == 0x800 && SignBit(13) == 0x1000 && SignBit(21) == 0x10_0000
  {
  }

  lemma Restores(n: Word, width: Word)
    requires 0 < width < 32
    ensures SignExtend(n, width)
            == if n & BitMask(width) & SignBit(width) != 0 then (n & BitMask(width)) | !BitMask(width)
                else n & BitMask(width)
  {
    hide BitMask, SignBit;
  }

  function Masked(x: Word, mask: Word): Word { x & mask }
  function Raised(x: Word, mask: Word): Word { x | !mask }

  lemma MaskingTwice(x: Word, mask: Word)
    ensures Masked(Masked(x, mask), mask) == Masked(x, mask)
    ensures Masked(Raised(Masked(x, mask), mask), mask) == Masked(x, mask)
  {
  }

  lemma ExtendsByFilling(x: Word, width: Word)
    requires 0 < width < 32
    ensures SignExtend(x, width) == Masked(x, BitMask(width))
            || SignExtend(x, width) == Raised(Masked(x, BitMask(width)), BitMask(width))
  {
    hide BitMask, SignBit, SignExtend;
    Restores(x, width);
  }

  // Sign extension keeps the bits it extends.
  lemma ExtensionKeepsBits(x: Word, width: Word)
    requires 0 < width < 32
    ensures Masked(SignExtend(x, width), BitMask(width)) == Masked(x, BitMask(width))
  {
    hide BitMask, SignExtend, Masked, Raised;
    ExtendsByFilling(x, width);
    MaskingTwice(x, BitMask(width));
  }

  // --- Word to record and back --------------------------------------------------------------

  lemma CodesOfR(funct3: Word, funct7: Word)
    ensures var op := OpOfR(funct3, funct7);
            !op.INVALID? ==> IsRegisterOp(op) && Funct3Of(op) == funct3 && Funct7Of(op) == funct7
  {
  }

  lemma CodesOfImmediate(funct3: Word, funct7: Word)
    ensures var op := OpOfImmediate(funct3, funct7);
            !op.INVALID? ==>
              && IsImmediateOp(op) && !IsRegisterOp(op) && Funct3Of(op) == funct3
              && (IsShiftImmediate(op) ==> Funct7Of(op) == funct7)
  {
  }

  lemma CodesOfLoad(funct3: Word)
    ensures var op := OpOfLoad(funct3);
            !op.INVALID? ==>
              && IsLoadOp(op) && !IsImmediateOp(op) && !IsShiftImmediate(op) && !IsRegisterOp(op)
              && Funct3Of(op) == funct3
  {
  }

  lemma CodesOfStore(funct3: Word)
    ensures var op := OpOfStore(funct3);
            !op.INVALID? ==>
              && IsStoreOp(op) && !IsLoadOp(op) && !IsImmediateOp(op) && !IsRegisterOp(op)
              && Funct3Of(op) == funct3
  {
  }

  lemma CodesOfBranch(funct3: Word)
    ensures var op := OpOfBranch(funct3);
            !op.INVALID? ==>
              && IsBranchOp(op) && !IsStoreOp(op) && !IsLoadOp(op) && !IsImmediateOp(op) && !IsRegisterOp(op)
              && Funct3Of(op) == funct3
  {
  }

  lemma InverseR(bits: Word)
    requires Opcode(bits) == OP_OPCODE && !DecodeR(bits).op.INVALID?
    ensures Encode(DecodeR(bits)) == bits
  {
    hide Field, ShiftField, ExtractBits, RegisterField, Opcode, Funct3, Funct7, OpOfR, Funct3Of, Funct7Of, EncodeR,
         IsRegisterOp, DecodeRd, DecodeRs1, DecodeRs2;
    RegisterFields(bits);
    CodeFields(bits);
    CodesOfR(Funct3(bits), Funct7(bits));
    JoinR(bits);
  }

  lemma ShiftFields(bits: Word, funct7: Word)
    requires funct7 == bits >> 25
    ensures ShiftField(funct7, (bits >> 20) & 0x1f) & 0xfff == bits >> 20
  {
  }

  lemma RejoinOpImmediate(bits: Word)
    requires Opcode(bits) == OP_IMMEDIATE_OPCODE
    ensures EncodeI(DecodeImmediateI(bits), Field(DecodeRs1(bits)), Funct3(bits), Field(DecodeRd(bits)),
              OP_IMMEDIATE_OPCODE) == bits
  {
    hide ShiftField, ExtractBits, Opcode, Funct3, EncodeI, DecodeRd, DecodeRs1, DecodeImmediateI;
    RegisterFields(bits);
    CodeFields(bits);
    ImmediateI(bits);
    JoinI(bits, DecodeImmediateI(bits), OP_IMMEDIATE_OPCODE);
  }

  lemma RejoinShift(bits: Word)
    requires Opcode(bits) == OP_IMMEDIATE_OPCODE
    ensures EncodeI(ShiftField(Funct7(bits), ExtractBits(bits, 24, 20)),
                    Field(DecodeRs1(bits)), Funct3(bits), Field(DecodeRd(bits)), OP_IMMEDIATE_OPCODE) == bits
  {
    hide ShiftField, ExtractBits, Opcode, Funct3, Funct7, EncodeI, DecodeRd, DecodeRs1, DecodeImmediateI;
    RegisterFields(bits);
    CodeFields(bits);
    ImmediateI(bits);
    ShiftFields(bits, Funct7(bits));
    JoinI(bits, ShiftField(Funct7(bits), ExtractBits(bits, 24, 20)), OP_IMMEDIATE_OPCODE);
  }

  lemma InverseOpImmediate(bits: Word)
    requires Opcode(bits) == OP_IMMEDIATE_OPCODE && !DecodeOpImmediate(bits).op.INVALID?
    ensures Encode(DecodeOpImmediate(bits)) == bits
  {
    hide Field, ShiftField, ExtractBits, Opcode, Funct3, Funct7, OpOfImmediate, Funct3Of, Funct7Of, EncodeI,
         IsRegisterOp, IsImmediateOp, DecodeRd, DecodeRs1, DecodeImmediateI, IsLoadOp, IsJumpOp;
    CodesOfImmediate(Funct3(bits), Funct7(bits));
    RejoinOpImmediate(bits);
    RejoinShift(bits);
  }

  lemma InverseLoad(bits: Word)
    requires Opcode(bits) == LOAD_OPCODE && !DecodeLoad(bits).op.INVALID?
    ensures Encode(DecodeLoad(bits)) == bits
  {
    hide Field, ShiftField, ExtractBits, RegisterField, Opcode, Funct3, Funct7, OpOfLoad, Funct3Of, Funct7Of, EncodeI,
         IsRegisterOp, IsImmediateOp, IsLoadOp, IsShiftImmediate, DecodeRd, DecodeRs1, DecodeImmediateI, IsJumpOp;
    RegisterFields(bits);
    CodeFields(bits);
    CodesOfLoad(Funct3(bits));
    ImmediateI(bits);
    JoinI(bits, DecodeImmediateI(bits), LOAD_OPCODE);
  }

  lemma InverseJalr(bits: Word)
    requires Opcode(bits) == JALR_OPCODE && !DecodeJalr(bits).op.INVALID?
    ensures Encode(DecodeJalr(bits)) == bits
  {
    hide Field, ShiftField, ExtractBits, RegisterField, Opcode, Funct3, Funct3Of, Funct7Of, EncodeI, DecodeRd,
         DecodeRs1, DecodeImmediateI;
    RegisterFields(bits);
    CodeFields(bits);
    ImmediateI(bits);
    JoinI(bits, DecodeImmediateI(bits), JALR_OPCODE);
  }

  lemma InverseS(bits: Word)
    requires Opcode(bits) == STORE_OPCODE && !DecodeS(bits).op.INVALID?
    ensures Encode(DecodeS(bits)) == bits
  {
    hide Field, ShiftField, ExtractBits, RegisterField, Opcode, Funct3, OpOfStore, Funct3Of, Funct7Of, EncodeS,
         IsRegisterOp, IsImmediateOp, IsLoadOp, IsStoreOp, DecodeRs1, DecodeRs2, DecodeImmediateS;
    RegisterFields(bits);
    CodeFields(bits);
    CodesOfStore(Funct3(bits));
    ImmediateS(bits);
    JoinS(bits, DecodeImmediateS(bits));
  }

  lemma RejoinB(bits: Word)
    requires Opcode(bits) == BRANCH_OPCODE
    ensures EncodeB(DecodeImmediateB(bits), Field(DecodeRs2(bits)), Field(DecodeRs1(bits)), Funct3(bits)) == bits
  {
    hide Field, ShiftField, ExtractBits, Opcode, Funct3, EncodeB, DecodeRs1, DecodeRs2, OffsetBitsB, SignExtend,
         BitMask;
    Masks();
    RegisterFields(bits);
    CodeFields(bits);
    OffsetsB(bits);
    ExtensionKeepsBits(OffsetBitsB(bits), 13);
    JoinB(bits, DecodeImmediateB(bits));
  }

  lemma InverseB(bits: Word)
    requires Opcode(bits) == BRANCH_OPCODE && !DecodeB(bits).op.INVALID?
    ensures Encode(DecodeB(bits)) == bits
  {
    hide Field, ShiftField, ExtractBits, Opcode, Funct3, OpOfBranch, Funct3Of, Funct7Of, EncodeB, IsRegisterOp,
         IsImmediateOp, IsLoadOp, IsStoreOp, IsBranchOp, DecodeRs1, DecodeRs2, DecodeImmediateB;
    CodesOfBranch(Funct3(bits));
    RejoinB(bits);
  }

  lemma RejoinU(bits: Word)
    requires Opcode(bits) == LUI_OPCODE || Opcode(bits) == AUIPC_OPCODE
    ensures EncodeU(DecodeImmediateU(bits), Field(DecodeRd(bits)), Opcode(bits)) == bits
  {
    hide Field, ShiftField, ExtractBits, Opcode, EncodeU, DecodeRd;
    RegisterFields(bits);
    CodeFields(bits);
    JoinU(bits, Opcode(bits));
  }

  lemma InverseU(bits: Word)
    requires Opcode(bits) == LUI_OPCODE || Opcode(bits) == AUIPC_OPCODE
    ensures Encode(DecodeU(bits)) == bits
  {
    hide Field, ShiftField, ExtractBits, Opcode, EncodeU, DecodeRd, Funct3Of, Funct7Of, DecodeImmediateU,
         EncodeR, EncodeI, EncodeS, EncodeB, EncodeJ;
    RejoinU(bits);
  }

  lemma RejoinJ(bits: Word)
    requires Opcode(bits) == JAL_OPCODE
    ensures EncodeJ(DecodeImmediateJ(bits), Field(DecodeRd(bits))) == bits
  {
    hide Field, ShiftField, ExtractBits, Opcode, EncodeJ, DecodeRd, OffsetBitsJ, SignExtend, BitMask;
    Masks();
    RegisterFields(bits);
    CodeFields(bits);
    OffsetsJ(bits);
    ExtensionKeepsBits(OffsetBitsJ(bits), 21);
    JoinJ(bits, DecodeImmediateJ(bits));
  }

  lemma InverseJ(bits: Word)
    requires Opcode(bits) == JAL_OPCODE
    ensures Encode(DecodeJ(bits)) == bits
  {
    hide Field, ShiftField, ExtractBits, Opcode, EncodeJ, DecodeRd, Funct3Of, Funct7Of, DecodeImmediateJ,
         EncodeR, EncodeI, EncodeS, EncodeB, EncodeU;
    RejoinJ(bits);
  }

  /** Every word that decodes to an instruction is recovered exactly from the decoded fields. */
  lemma DecodeLosesNothing(bits: Word)
    requires !Decode(bits).op.INVALID?
    ensures Encode(Decode(bits)) == bits
  {
    hide ExtractBits, Opcode, Encode, DecodeR, DecodeOpImmediate, DecodeLoad, DecodeJalr, DecodeS, DecodeB, DecodeU,
         DecodeJ;
    if bits == HALT_ENCODING { HaltEncodes(); }
    else if Opcode(bits) == OP_OPCODE { InverseR(bits); }
    else if Opcode(bits) == OP_IMMEDIATE_OPCODE { InverseOpImmediate(bits); }
    else if Opcode(bits) == LOAD_OPCODE { InverseLoad(bits); }
    else if Opcode(bits) == JALR_OPCODE { InverseJalr(bits); }
    else if Opcode(bits) == STORE_OPCODE { InverseS(bits); }
    else if Opcode(bits) == BRANCH_OPCODE { InverseB(bits); }
    else if Opcode(bits) == LUI_OPCODE || Opcode(bits) == AUIPC_OPCODE { InverseU(bits); }
    else { InverseJ(bits); }
  }

  lemma HaltEncodes()
    ensures Encode(NO_INSTRUCTION.(op := HALT)) == HALT_ENCODING
  {
  }

  /** Two different words never decode to the same instruction. */
  lemma DecodeIsInjective(a: Word, b: Word)
    requires Decode(a) == Decode(b) && !Decode(a).op.INVALID?
    ensures a == b
  {
    hide Decode, Encode;
    DecodeLosesNothing(a);
    DecodeLosesNothing(b);
  }
}
