// The decoder against the RV32I listing of the RISC-V Unprivileged ISA manual
// (chapter "RV32/64G Instruction Set Listings"): which bits of a word say which
// operation it is. The simulator adds one word, its halt.
module InstructionListing {
  import opened Types
  import opened Decoder
  import DecoderInverse

  /** Loads, by the opcode and the code in bits 12 to 14. */
  function ListedLoad(w: Word): Op {
    if w & 0x707f == 0x0003 then LB
    else if w & 0x707f == 0x1003 then LH
    else if w & 0x707f == 0x2003 then LW
    else if w & 0x707f == 0x4003 then LBU
    else if w & 0x707f == 0x5003 then LHU
    else INVALID
  }

  function ListedStore(w: Word): Op {
    if w & 0x707f == 0x0023 then SB
    else if w & 0x707f == 0x1023 then SH
    else if w & 0x707f == 0x2023 then SW
    else INVALID
  }

  function ListedBranch(w: Word): Op {
    if w & 0x707f == 0x0063 then BEQ
    else if w & 0x707f == 0x1063 then BNE
    else if w & 0x707f == 0x4063 then BLT
    else if w & 0x707f == 0x5063 then BGE
    else if w & 0x707f == 0x6063 then BLTU
    else if w & 0x707f == 0x7063 then BGEU
    else INVALID
  }

  /** Register-immediate operations; shifts also fix the upper seven bits. */
  function ListedImmediate(w: Word): Op {
    if w & 0x707f == 0x0013 then ADDI
    else if w & 0x707f == 0x2013 then SLTI
    else if w & 0x707f == 0x3013 then SLTIU
    else if w & 0x707f == 0x4013 then XORI
    else if w & 0x707f == 0x6013 then ORI
    else if w & 0x707f == 0x7013 then ANDI
    else if w & 0xfe00_707f == 0x0000_1013 then SLLI
    else if w & 0xfe00_707f == 0x0000_5013 then SRLI
    else if w & 0xfe00_707f == 0x4000_5013 then SRAI
    else INVALID
  }

  function ListedRegister(w: Word): Op {
    if w & 0xfe00_707f == 0x0000_0033 then ADD
    else if w & 0xfe00_707f == 0x4000_0033 then SUB
    else if w & 0xfe00_707f == 0x0000_1033 then SLL
    else if w & 0xfe00_707f == 0x0000_2033 then SLT
    else if w & 0xfe00_707f == 0x0000_3033 then SLTU
    else if w & 0xfe00_707f == 0x0000_4033 then XOR
    else if w & 0xfe00_707f == 0x0000_5033 then SRL
    else if w & 0xfe00_707f == 0x4000_5033 then SRA
    else if w & 0xfe00_707f == 0x0000_6033 then OR
    else if w & 0xfe00_707f == 0x0000_7033 then AND
    else INVALID
  }

  /** The operation of any word. */
  function ListedOp(w: Word): Op {
    if w == 0x0ff0_0513 then HALT
    else if w & 0x7f == 0x03 then ListedLoad(w)
    else if w & 0x7f == 0x13 then ListedImmediate(w)
    else if w & 0x7f == 0x17 then AUIPC
    else if w & 0x7f == 0x23 then ListedStore(w)
    else if w & 0x7f == 0x33 then ListedRegister(w)
    else if w & 0x7f == 0x37 then LUI
    else if w & 0x7f == 0x63 then ListedBranch(w)
    else if w & 0x707f == 0x0067 then JALR
    else if w & 0x7f == 0x6f then JAL
    else INVALID
  }

  // --- Class by class ---------------------------------------------------------------------

  lemma LoadIsListed(w: Word)
    requires w & 0x7f == 0x03
    ensures OpOfLoad((w >> 12) & 7) == ListedLoad(w)
  {
  }

  lemma StoreIsListed(w: Word)
    requires w & 0x7f == 0x23
    ensures OpOfStore((w >> 12) & 7) == ListedStore(w)
  {
  }

  lemma BranchIsListed(w: Word)
    requires w & 0x7f == 0x63
    ensures OpOfBranch((w >> 12) & 7) == ListedBranch(w)
  {
  }

  lemma ImmediateIsListed(w: Word)
    requires w & 0x7f == 0x13
    ensures OpOfImmediate((w >> 12) & 7, w >> 25) == ListedImmediate(w)
  {
  }

  lemma RegisterIsListed(w: Word)
    requires w & 0x7f == 0x33
    ensures OpOfR((w >> 12) & 7, w >> 25) == ListedRegister(w)
  {
  }

  lemma JumpIsListed(w: Word)
    ensures w & 0x707f == 0x0067 <==> w & 0x7f == 0x67 && (w >> 12) & 7 == 0
  {
  }

  /** Every word is decoded as the operation it is listed under, and as none if it is not listed. */
  lemma DecodeIsListed(w: Word)
    ensures Decode(w).op == ListedOp(w)
  {
    hide Opcode, Funct3, Funct7, OpOfR, OpOfImmediate, OpOfLoad, OpOfStore, OpOfBranch, DecodeRd, DecodeRs1, DecodeRs2,
         DecodeImmediateI, DecodeImmediateS, DecodeImmediateB, DecodeImmediateU, DecodeImmediateJ, ExtractBits,
         ListedLoad, ListedStore, ListedBranch, ListedImmediate, ListedRegister;
    DecoderInverse.CodeFields(w);
    JumpIsListed(w);
    if w & 0x7f == 0x03 { LoadIsListed(w); }
    if w & 0x7f == 0x13 { ImmediateIsListed(w); }
    if w & 0x7f == 0x23 { StoreIsListed(w); }
    if w & 0x7f == 0x33 { RegisterIsListed(w); }
    if w & 0x7f == 0x63 { BranchIsListed(w); }
  }
}
