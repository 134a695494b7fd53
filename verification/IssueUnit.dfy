// Operand bypass and atomic allocation for one decoded instruction
// (src/tomasulo/issue_unit.cpp).
module IssueUnits {
  import opened Types
  import opened ReorderBuffers
  import opened ReservationStations
  import opened LoadStoreQueues
  import opened RenameTables

  datatype IssueStatus = InvalidInstruction | InvalidAllocation | Unavailability | Issued | NothingToIssue

  /** What is known about a source register when an instruction issues. */
  datatype SourceState = SourceState(
    architecturalValue: Word, producer: RobTag, producerValue: Word, producerReady: bool)

  datatype DecodePacket = DecodePacket(
    pc: Address, decoded: DecodedInstruction, predictedPc: Address, valid: bool)

  datatype IssueInputs = IssueInputs(
    packet: DecodePacket, allocatedTag: RobTag, rs1: SourceState, rs2: SourceState,
    cdb: CdbMessage, robAvailable: bool, rsAvailable: bool, lsqAvailable: bool)

  datatype IssueOutputs = IssueOutputs(
    status: IssueStatus,
    robEntry: RobEntry, rsEntry: RsEntry, lsqEntry: LsqEntry, rename: RatWrite,
    writeRob: bool, writeRs: bool, writeLsq: bool)

  const NO_RENAME := RatWrite(0, NO_TAG, false)
  const NO_ISSUE :=
    IssueOutputs(NothingToIssue, NO_ENTRY, NO_RS_ENTRY, NO_LSQ_ENTRY, NO_RENAME, false, false, false)

  function ReadyOperand(value: Word): Operand { Operand(value, NO_TAG, true) }

  function ResolveRegister(index: RegisterIndex, source: SourceState, cdb: CdbMessage): Operand {
    if index == 0 then ReadyOperand(0)
    else if !source.producer.valid then ReadyOperand(source.architecturalValue)
    else if cdb.valid && cdb.tag.valid && cdb.tag == source.producer then ReadyOperand(cdb.value)
    else if source.producerReady then ReadyOperand(source.producerValue)
    else Operand(0, source.producer, false)
  }

  function SelectOperand(source: OperandSource, register: Operand, immediate: Word, pc: Address): Operand {
    match source
    case FromImmediate => ReadyOperand(immediate)
    case FromProgramCounter => ReadyOperand(pc)
    case FromRegister => register
    case FromZero => ReadyOperand(0)
  }

  predicate NeedsLsq(d: DecodedInstruction) { d.isLoad || d.isStore }
  predicate NeedsRs(d: DecodedInstruction) { !d.op.HALT? && !NeedsLsq(d) }

  function MakeRobEntry(packet: DecodePacket, tag: RobTag): RobEntry {
    var d := packet.decoded;
    RobEntry(tag, d.op, packet.pc, d.rd, 0, d.writesRd && d.rd != 0, d.op.HALT?,
             packet.predictedPc, 0, false, d.isBranch, d.isStore, d.isJump, true)
  }

  function MakeRsEntry(packet: DecodePacket, tag: RobTag, rs1: Operand, rs2: Operand): RsEntry {
    var d := packet.decoded;
    RsEntry(d.op, tag,
            SelectOperand(d.lhsSource, rs1, d.immediate, packet.pc),
            SelectOperand(d.rhsSource, rs2, d.immediate, packet.pc),
            d.immediate, packet.pc, packet.predictedPc, true)
  }

  function MakeLsqEntry(packet: DecodePacket, tag: RobTag, rs1: Operand, rs2: Operand): LsqEntry {
    var d := packet.decoded;
    LsqEntry(if d.isLoad then LOAD else STORE, d.op, tag, rs1,
             if d.isStore then rs2 else ReadyOperand(0),
             d.immediate, 0, false, false, true)
  }

  /** Everything the instruction writes, or nothing at all. */
  function Plan(i: IssueInputs): IssueOutputs {
    var d := i.packet.decoded;
    if !i.packet.valid then NO_ISSUE
    else if d.op.INVALID? then NO_ISSUE.(status := InvalidInstruction)
    else if !i.allocatedTag.valid then NO_ISSUE.(status := InvalidAllocation)
    else if !i.robAvailable || (NeedsLsq(d) && !i.lsqAvailable) || (NeedsRs(d) && !i.rsAvailable)
    then NO_ISSUE.(status := Unavailability)
    else
      var rs1 := ResolveRegister(d.rs1, i.rs1, i.cdb);
      var rs2 := ResolveRegister(d.rs2, i.rs2, i.cdb);
      var robEntry := MakeRobEntry(i.packet, i.allocatedTag);
      IssueOutputs(
        Issued, robEntry,
        if NeedsRs(d) then MakeRsEntry(i.packet, i.allocatedTag, rs1, rs2) else NO_RS_ENTRY,
        if NeedsLsq(d) then MakeLsqEntry(i.packet, i.allocatedTag, rs1, rs2) else NO_LSQ_ENTRY,
        if robEntry.writesRd then RatWrite(d.rd, i.allocatedTag, true) else NO_RENAME,
        true, NeedsRs(d), NeedsLsq(d))
  }

  /** What the status means for any inputs: an invalid word, a missing tag, a missing place, or an instruction
      written to the buffer; nothing is written otherwise, and a load carries no data. */
  lemma StatusTells(i: IssueInputs)
    ensures var o, d := Plan(i), i.packet.decoded;
            var wanted := i.packet.valid && !d.op.INVALID?;
            && (o.status.InvalidInstruction? <==> i.packet.valid && d.op.INVALID?)
            && (o.status.InvalidAllocation? <==> wanted && !i.allocatedTag.valid)
            && (o.status.Issued? <==>
                  && wanted && i.allocatedTag.valid && i.robAvailable
                  && (d.isLoad || d.isStore ==> i.lsqAvailable)
                  && (d.isLoad || d.isStore || d.op.HALT? || i.rsAvailable))
            && (o.writeRob <==> o.status.Issued?)
            && (o.writeLsq <==> o.status.Issued? && (d.isLoad || d.isStore))
            && (o.writeRs <==> o.status.Issued? && !d.isLoad && !d.isStore && !d.op.HALT?)
            && (o.rename.valid ==> o.status.Issued? && o.rename == RatWrite(d.rd, i.allocatedTag, true) && d.rd != 0)
            && (o.writeLsq && !d.isStore ==> o.lsqEntry.storeData == Operand(0, NO_TAG, true))
            && (o.writeRs ==> o.rsEntry.predictedNextPc == i.packet.predictedPc)
  {
    hide ResolveRegister, SelectOperand;
  }
}
