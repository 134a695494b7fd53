// The RV32I decoder (src/isa/decoder.cpp): a 32-bit word to a decoded record.
module Decoder {
  import opened Types

  const HALT_ENCODING: Word := 0x0ff00513

  const LOAD_OPCODE: Word := 0x03
  const OP_IMMEDIATE_OPCODE: Word := 0x13
  const AUIPC_OPCODE: Word := 0x17
  const STORE_OPCODE: Word := 0x23
  const OP_OPCODE: Word := 0x33
  const LUI_OPCODE: Word := 0x37
  const BRANCH_OPCODE: Word := 0x63
  const JALR_OPCODE: Word := 0x67
  const JAL_OPCODE: Word := 0x6f

  const BASE_FUNCT7: Word := 0x00
  const ALTERNATE_FUNCT7: Word := 0x20

  function Opcode(bits: Word): Word { ExtractBits(bits, 6, 0) }
  function Funct3(bits: Word): Word { ExtractBits(bits, 14, 12) }
  function Funct7(bits: Word): Word { ExtractBits(bits, 31, 25) }

  // A five-bit register field, taken where it is decoded.
  function DecodeRd(bits: Word): (r: RegisterIndex)
    ensures r < 32
  {
    RegisterField(ExtractBits(bits, 11, 7))
  }

  function DecodeRs1(bits: Word): (r: RegisterIndex)
    ensures r < 32
  {
    RegisterField(ExtractBits(bits, 19, 15))
  }

  function DecodeRs2(bits: Word): (r: RegisterIndex)
    ensures r < 32
  {
    RegisterField(ExtractBits(bits, 24, 20))
  }

  function RegisterField(field: Word): (r: RegisterIndex)
    requires field <= 31
    ensures r < 32 && r as Word == field
  {
    field as int
  }

  function DecodeImmediateI(bits: Word): Word {
    SignExtend(ExtractBits(bits, 31, 20), 12)
  }

  function DecodeImmediateS(bits: Word): Word {
    SignExtend((ExtractBits(bits, 31, 25) << 5) | ExtractBits(bits, 11, 7), 12)
  }

  // The bits of a branch offset, in order.
  function OffsetBitsB(bits: Word): Word {
    var sign: Word := if GetBit(bits, 31) then 1 << 12 else 0;
    var eleven: Word := if GetBit(bits, 7) then 1 << 11 else 0;
    sign | eleven | (ExtractBits(bits, 30, 25) << 5) | (ExtractBits(bits, 11, 8) << 1)
  }

  function DecodeImmediateB(bits: Word): Word {
    SignExtend(OffsetBitsB(bits), 13)
  }

  function DecodeImmediateU(bits: Word): Word {
    bits & 0xffff_f000
  }

  // The bits of a jump offset, in order.
  function OffsetBitsJ(bits: Word): Word {
    var sign: Word := if GetBit(bits, 31) then 1 << 20 else 0;
    var eleven: Word := if GetBit(bits, 20) then 1 << 11 else 0;
    sign | (ExtractBits(bits, 19, 12) << 12) | eleven | (ExtractBits(bits, 30, 21) << 1)
  }

  function DecodeImmediateJ(bits: Word): Word {
    SignExtend(OffsetBitsJ(bits), 21)
  }

  function OpOfR(funct3: Word, funct7: Word): (op: Op)
    ensures !op.INVALID? ==> IsRegisterOp(op)
  {
    if funct3 == 0 && funct7 == BASE_FUNCT7 then ADD
    else if funct3 == 0 && funct7 == ALTERNATE_FUNCT7 then SUB
    else if funct3 == 1 && funct7 == BASE_FUNCT7 then SLL
    else if funct3 == 2 && funct7 == BASE_FUNCT7 then SLT
    else if funct3 == 3 && funct7 == BASE_FUNCT7 then SLTU
    else if funct3 == 4 && funct7 == BASE_FUNCT7 then XOR
    else if funct3 == 5 && funct7 == BASE_FUNCT7 then SRL
    else if funct3 == 5 && funct7 == ALTERNATE_FUNCT7 then SRA
    else if funct3 == 6 && funct7 == BASE_FUNCT7 then OR
    else if funct3 == 7 && funct7 == BASE_FUNCT7 then AND
    else INVALID
  }

  function DecodeR(bits: Word): DecodedInstruction {
    var op := OpOfR(Funct3(bits), Funct7(bits));
    if op.INVALID? then NO_INSTRUCTION
    else
      var rd := DecodeRd(bits);
      NO_INSTRUCTION.(
        op := op, rd := rd, rs1 := DecodeRs1(bits), rs2 := DecodeRs2(bits),
        lhsSource := FromRegister, rhsSource := FromRegister,
        usesRs1 := true, usesRs2 := true, writesRd := rd != 0)
  }

  function OpOfImmediate(funct3: Word, funct7: Word): (op: Op)
    ensures !op.INVALID? ==> IsImmediateOp(op)
  {
    if funct3 == 0 then ADDI
    else if funct3 == 1 then (if funct7 == BASE_FUNCT7 then SLLI else INVALID)
    else if funct3 == 2 then SLTI
    else if funct3 == 3 then SLTIU
    else if funct3 == 4 then XORI
    else if funct3 == 5 then
      (if funct7 == BASE_FUNCT7 then SRLI
       else if funct7 == ALTERNATE_FUNCT7 then SRAI
       else INVALID)
    else if funct3 == 6 then ORI
    else if funct3 == 7 then ANDI
    else INVALID
  }

  function OpOfLoad(funct3: Word): (op: Op)
    ensures !op.INVALID? ==> IsLoadOp(op)
  {
    if funct3 == 0 then LB
    else if funct3 == 1 then LH
    else if funct3 == 2 then LW
    else if funct3 == 4 then LBU
    else if funct3 == 5 then LHU
    else INVALID
  }

  // The fields of an I-type record.
  function CommonI(bits: Word, op: Op, immediate: Word): DecodedInstruction {
    var rd := DecodeRd(bits);
    NO_INSTRUCTION.(
      op := op, rd := rd, rs1 := DecodeRs1(bits), immediate := immediate,
      lhsSource := FromRegister, rhsSource := FromImmediate,
      usesRs1 := true, writesRd := rd != 0, isLoad := IsLoadOp(op), isJump := IsJumpOp(op))
  }

  function DecodeOpImmediate(bits: Word): DecodedInstruction {
    var op := OpOfImmediate(Funct3(bits), Funct7(bits));
    if op.INVALID? then NO_INSTRUCTION
    else
      CommonI(bits, op,
              if op.SLLI? || op.SRLI? || op.SRAI? then ExtractBits(bits, 24, 20) else DecodeImmediateI(bits))
  }

  function DecodeLoad(bits: Word): DecodedInstruction {
    var op := OpOfLoad(Funct3(bits));
    if op.INVALID? then NO_INSTRUCTION else CommonI(bits, op, DecodeImmediateI(bits))
  }

  function DecodeJalr(bits: Word): DecodedInstruction {
    if Funct3(bits) != 0 then NO_INSTRUCTION else CommonI(bits, JALR, DecodeImmediateI(bits))
  }

  function DecodeI(bits: Word): DecodedInstruction {
    var opcode := Opcode(bits);
    if opcode == OP_IMMEDIATE_OPCODE then DecodeOpImmediate(bits)
    else if opcode == LOAD_OPCODE then DecodeLoad(bits)
    else if opcode == JALR_OPCODE then DecodeJalr(bits)
    else NO_INSTRUCTION
  }

  function OpOfStore(funct3: Word): (op: Op)
    ensures !op.INVALID? ==> IsStoreOp(op)
  {
    if funct3 == 0 then SB
    else if funct3 == 1 then SH
    else if funct3 == 2 then SW
    else INVALID
  }

  function DecodeS(bits: Word): DecodedInstruction {
    var op := OpOfStore(Funct3(bits));
    if op.INVALID? then NO_INSTRUCTION
    else
      NO_INSTRUCTION.(
        op := op, rs1 := DecodeRs1(bits), rs2 := DecodeRs2(bits), immediate := DecodeImmediateS(bits),
        lhsSource := FromRegister, rhsSource := FromImmediate,
        usesRs1 := true, usesRs2 := true, isStore := true)
  }

  function OpOfBranch(funct3: Word): (op: Op)
    ensures !op.INVALID? ==> IsBranchOp(op)
  {
    if funct3 == 0 then BEQ
    else if funct3 == 1 then BNE
    else if funct3 == 4 then BLT
    else if funct3 == 5 then BGE
    else if funct3 == 6 then BLTU
    else if funct3 == 7 then BGEU
    else INVALID
  }

  function DecodeB(bits: Word): DecodedInstruction {
    var op := OpOfBranch(Funct3(bits));
    if op.INVALID? then NO_INSTRUCTION
    else
      NO_INSTRUCTION.(
        op := op, rs1 := DecodeRs1(bits), rs2 := DecodeRs2(bits), immediate := DecodeImmediateB(bits),
        lhsSource := FromRegister, rhsSource := FromRegister,
        usesRs1 := true, usesRs2 := true, isBranch := true)
  }

  function DecodeJ(bits: Word): DecodedInstruction {
    var rd := DecodeRd(bits);
    NO_INSTRUCTION.(
      op := JAL, rd := rd, immediate := DecodeImmediateJ(bits),
      lhsSource := FromProgramCounter, rhsSource := FromImmediate,
      writesRd := rd != 0, isJump := true)
  }

  function DecodeU(bits: Word): DecodedInstruction {
    var opcode := Opcode(bits);
    var rd := DecodeRd(bits);
    var common := NO_INSTRUCTION.(
      rd := rd, immediate := DecodeImmediateU(bits),
      rhsSource := FromImmediate, writesRd := rd != 0);
    if opcode == LUI_OPCODE then common.(op := LUI, lhsSource := FromZero)
    else if opcode == AUIPC_OPCODE then common.(op := AUIPC, lhsSource := FromProgramCounter)
    else NO_INSTRUCTION
  }

  function Decode(bits: Word): DecodedInstruction {
    if bits == HALT_ENCODING then NO_INSTRUCTION.(op := HALT)
    else
      var opcode := Opcode(bits);
      if opcode == OP_OPCODE then DecodeR(bits)
      else if opcode == LOAD_OPCODE || opcode == OP_IMMEDIATE_OPCODE || opcode == JALR_OPCODE then DecodeI(bits)
      else if opcode == STORE_OPCODE then DecodeS(bits)
      else if opcode == BRANCH_OPCODE then DecodeB(bits)
      else if opcode == LUI_OPCODE || opcode == AUIPC_OPCODE then DecodeU(bits)
      else if opcode == JAL_OPCODE then DecodeJ(bits)
      else NO_INSTRUCTION
  }

  // --- What the rest of the machine relies on -----------------------------

  predicate IsLoadOp(op: Op) { op.LB? || op.LH? || op.LW? || op.LBU? || op.LHU? }
  predicate IsStoreOp(op: Op) { op.SB? || op.SH? || op.SW? }
  predicate IsBranchOp(op: Op) { op.BEQ? || op.BNE? || op.BLT? || op.BGE? || op.BLTU? || op.BGEU? }
  predicate IsJumpOp(op: Op) { op.JAL? || op.JALR? }
  predicate IsMemoryOp(op: Op) { IsLoadOp(op) || IsStoreOp(op) }

  predicate IsRegisterOp(op: Op) {
    op.ADD? || op.SUB? || op.AND? || op.XOR? || op.OR? || op.SLL? || op.SLT? || op.SLTU? || op.SRL? || op.SRA?
  }

  predicate IsImmediateOp(op: Op) {
    op.ADDI? || op.SLTI? || op.SLTIU? || op.XORI? || op.ORI? || op.ANDI? || op.SLLI? || op.SRLI? || op.SRAI?
  }

  /** The flags and operand sources of a decoded record are a function of its operation. */
  predicate WellDecoded(d: DecodedInstruction) {
    && d.rd < 32 && d.rs1 < 32 && d.rs2 < 32
    && d.isLoad == IsLoadOp(d.op)
    && d.isStore == IsStoreOp(d.op)
    && d.isBranch == IsBranchOp(d.op)
    && d.isJump == IsJumpOp(d.op)
    && d.writesRd == (d.rd != 0)
    && (IsStoreOp(d.op) || IsBranchOp(d.op) || d.op.HALT? || d.op.INVALID? ==> d.rd == 0)
    && (d.lhsSource == if d.op.JAL? || d.op.AUIPC? then FromProgramCounter
                       else if d.op.LUI? || d.op.HALT? || d.op.INVALID? then FromZero
                       else FromRegister)
    && (d.rhsSource == if IsRegisterOp(d.op) || IsBranchOp(d.op) then FromRegister
                       else if d.op.HALT? || d.op.INVALID? then FromZero
                       else FromImmediate)
  }

  lemma FixedRecordsAreWellFormed()
    ensures WellDecoded(NO_INSTRUCTION) && WellDecoded(NO_INSTRUCTION.(op := HALT))
  {
  }

  lemma CommonIIsWellFormed(bits: Word, op: Op, immediate: Word)
    requires IsImmediateOp(op) || IsLoadOp(op) || op.JALR?
    ensures WellDecoded(CommonI(bits, op, immediate))
  {
    hide DecodeRd, DecodeRs1;
  }

  lemma DecodeRIsWellFormed(bits: Word)
    ensures WellDecoded(DecodeR(bits))
  {
    hide ExtractBits, RegisterField, DecodeRd, DecodeRs1, DecodeRs2, Funct3, Funct7, OpOfR;
  }

  lemma DecodeOpImmediateIsWellFormed(bits: Word)
    ensures WellDecoded(DecodeOpImmediate(bits))
  {
    hide WellDecoded, ExtractBits, DecodeImmediateI, OpOfImmediate, CommonI;
    var op := OpOfImmediate(Funct3(bits), Funct7(bits));
    FixedRecordsAreWellFormed();
    if !op.INVALID? {
      CommonIIsWellFormed(bits, op,
                          if op.SLLI? || op.SRLI? || op.SRAI? then ExtractBits(bits, 24, 20)
                              else DecodeImmediateI(bits));
    }
  }

  lemma DecodeLoadIsWellFormed(bits: Word)
    ensures WellDecoded(DecodeLoad(bits))
  {
    hide WellDecoded, ExtractBits, DecodeImmediateI, OpOfLoad, CommonI;
    FixedRecordsAreWellFormed();
    if !OpOfLoad(Funct3(bits)).INVALID? {
      CommonIIsWellFormed(bits, OpOfLoad(Funct3(bits)), DecodeImmediateI(bits));
    }
  }

  lemma DecodeJalrIsWellFormed(bits: Word)
    ensures WellDecoded(DecodeJalr(bits))
  {
    hide WellDecoded, ExtractBits, DecodeImmediateI, CommonI;
    FixedRecordsAreWellFormed();
    CommonIIsWellFormed(bits, JALR, DecodeImmediateI(bits));
  }

  lemma DecodeSIsWellFormed(bits: Word)
    ensures WellDecoded(DecodeS(bits))
  {
    hide ExtractBits, RegisterField, DecodeRs1, DecodeRs2, Funct3, DecodeImmediateS, OpOfStore;
  }

  lemma DecodeBIsWellFormed(bits: Word)
    ensures WellDecoded(DecodeB(bits))
  {
    hide ExtractBits, RegisterField, DecodeRs1, DecodeRs2, Funct3, DecodeImmediateB, OpOfBranch;
  }

  lemma DecodeJIsWellFormed(bits: Word)
    ensures WellDecoded(DecodeJ(bits))
  {
    hide ExtractBits, RegisterField, DecodeRd, DecodeImmediateJ;
  }

  lemma DecodeUIsWellFormed(bits: Word)
    ensures WellDecoded(DecodeU(bits))
  {
    hide ExtractBits, RegisterField, DecodeRd, DecodeImmediateU, Opcode;
  }

  lemma DecodeIsWellFormed(bits: Word)
    ensures WellDecoded(Decode(bits))
  {
    hide WellDecoded, DecodeR, DecodeOpImmediate, DecodeLoad, DecodeJalr, DecodeS, DecodeB, DecodeU, DecodeJ,
         ExtractBits;
    FixedRecordsAreWellFormed();
    DecodeRIsWellFormed(bits);
    DecodeOpImmediateIsWellFormed(bits);
    DecodeLoadIsWellFormed(bits);
    DecodeJalrIsWellFormed(bits);
    DecodeSIsWellFormed(bits);
    DecodeBIsWellFormed(bits);
    DecodeUIsWellFormed(bits);
    DecodeJIsWellFormed(bits);
  }
}
