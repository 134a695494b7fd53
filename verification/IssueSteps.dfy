// What the frozen outputs of one cycle mean, and what an issued instruction
// brings into the machine.
module IssueSteps {
  import opened Types
  import opened WordArithmetic
  import opened Isa
  import opened Decoder
  import opened ReorderBuffers
  import opened LoadStoreQueues
  import opened Pipeline
  import opened Invariants
  import opened RobSteps
  import opened StationSteps
  import ROB = ReorderBuffers
  import Issue = IssueUnits

  // --- Frozen outputs ---------------------------------------------------------------

  /** The early look at the head and the buffer's own plan agree. */
  lemma PreviewAgrees(rob: RobState)
    requires WellFormed(rob)
    ensures PreviewRob(rob).flush == ROB.Plan(rob).flush
    ensures PreviewRob(rob).storeRequest == ROB.Plan(rob).storeRequest
    ensures PreviewRob(rob).storeRequest.valid ==> PreviewRob(rob).storeRequest.tag == rob.cur[rob.head].tag
  {
  }

  /** Commit, flush and halt in terms of the head entry. */
  lemma PlanOfHead(rob: RobState)
    requires WellFormed(rob)
    ensures var p := ROB.Plan(rob);
            && (p.commit.valid <==> rob.count > 0 && rob.cur[rob.head].ready)
            && (p.commit.valid ==> p.commit.entry == rob.cur[rob.head])
            && (p.commit.halted <==> p.commit.valid && rob.cur[rob.head].op.HALT?)
            && (p.flush <==> p.commit.valid && Mispredicted(rob.cur[rob.head]))
            && (p.flush ==> p.redirectPc == rob.cur[rob.head].actualNextPc)
  {
    HeadIsValid(rob);
  }

  /** Whatever the bus grants is a correct result, from the source it names. */
  lemma BusIsCorrect(m: Machine, slots: SlotTable, flush: bool)
    requires ResultOk(m.fu, m.rob, slots) && ResultOk(m.lsq.loadResult, m.rob, slots)
    ensures var cdb := PlanCdb(m, flush);
            && ResultOk(cdb.completion, m.rob, slots)
            && cdb.broadcast == Broadcast(cdb.completion)
            && (cdb.integerGranted ==> m.fu.valid && cdb.completion == m.fu)
            && (cdb.loadGranted ==> m.lsq.loadResult.valid && cdb.completion == m.lsq.loadResult)
            && (cdb.completion.valid <==> cdb.integerGranted || cdb.loadGranted)
            && (flush ==> !cdb.completion.valid)
            && !(cdb.integerGranted && cdb.loadGranted)
  {
  }

  // --- The new slot ---------------------------------------------------------------------

  /** The slot of the instruction d issued at the current pc. */
  ghost function NewSlot(m: Machine, gh: Ghost, taken: bool, d: DecodedInstruction, rsSlot: nat): Slot
    requires m.rob.head < ROB_CAPACITY
  {
    Slot(m.committed + m.rob.count, d,
         gh.tail, After(d, gh.tail, PredictedNextPc(d, m.pc, taken)),
         ReadRegister(gh.tail.regs, d.rs1), ReadRegister(gh.tail.regs, d.rs2),
         ResultValue(d, gh.tail), Successor(d, gh.tail), Faults(d, gh.tail), rsSlot, m.lsq.tail)
  }

  lemma NewSlotIsMeaningful(m: Machine, gh: Ghost, taken: bool, d: DecodedInstruction, rsSlot: nat)
    requires m.rob.head < ROB_CAPACITY && WellDecoded(d) && !d.op.INVALID?
    ensures Meaning(NewSlot(m, gh, taken, d, rsSlot))
  {
    hide WellDecoded, ResultValue, Successor, Faults, RegistersAfter, MemoryAfter, PredictedNextPc;
  }

  /** Away from branches and jumps the prediction is the successor. */
  lemma StraightLine(d: DecodedInstruction, a: Arch, taken: bool)
    requires WellDecoded(d) && !ControlInstruction(d)
    ensures PredictedNextPc(d, a.pc, taken) == Successor(d, a)
  {
    hide Add, SignedLess, Less, ClearLowBit;
  }

  lemma HaltIsInert(d: DecodedInstruction, a: Arch)
    requires WellDecoded(d) && d.op.HALT?
    ensures !d.writesRd && !ControlInstruction(d) && !MemoryInstruction(d) && !Faults(d, a)
  {
  }

  lemma FlagsOfStore(d: DecodedInstruction)
    requires WellDecoded(d)
    ensures d.isStore ==> !d.writesRd && !ControlInstruction(d) && !d.isLoad && !d.op.HALT?
    ensures d.isLoad ==> !ControlInstruction(d) && !d.isStore && !d.op.HALT?
    ensures d.writesRd ==> 0 < d.rd < REGISTER_COUNT
    ensures !d.writesRd ==> d.rd == 0
    ensures d.op.HALT? ==> !d.writesRd && !ControlInstruction(d) && !MemoryInstruction(d)
  {
  }

  /** The issued reorder-buffer entry matches its slot. */
  lemma NewEntryMatches(m: Machine, gh: Ghost, taken: bool, d: DecodedInstruction, rsSlot: nat)
    requires m.rob.head < ROB_CAPACITY && m.rob.tail < ROB_CAPACITY
    requires WellDecoded(d) && !d.op.INVALID? && m.pc == gh.tail.pc
    ensures var e := Issue.MakeRobEntry(PacketOf(m.pc, d, taken), NextTag(m.rob));
            var s := NewSlot(m, gh, taken, d, rsSlot);
            && EntryMatches(e, s)
            && e.valid && e.tag == NextTag(m.rob)
            && !(e.isStore && e.ready)
            && e.writesRd == d.writesRd && e.rd == d.rd && e.op == d.op
            && (d.writesRd ==> 0 < d.rd < REGISTER_COUNT)
  {
    hide WellDecoded, ResultValue, Successor, Faults, RegistersAfter, MemoryAfter, PredictedNextPc, HeadWritten;
    FlagsOfStore(d);
    if d.op.HALT? { HaltIsInert(d, gh.tail); }
    if !ControlInstruction(d) { StraightLine(d, gh.tail, taken); }
  }

  // --- Operands -----------------------------------------------------------------------------

  /** Renaming plus bypass deliver the in-order value, or an older producer still to broadcast. */
  lemma ResolvedNow(m: Machine, gh: Ghost, r: RegisterIndex, completion: FUResult, id: int)
    requires WellFormed(m.rob) && EntriesMatch(m.rob, gh.slots)
    requires RatExact(m.rat, m.rob, gh.slots) && RatMeaning(m.rat, m.rob, gh)
    requires m.regs == gh.arch.regs && ResultOk(completion, m.rob, gh.slots)
    requires forall i :: 0 <= i < ROB_CAPACITY && m.rob.cur[i].valid ==> gh.slots[i].id < id
    requires r < REGISTER_COUNT
    ensures var o := Issue.ResolveRegister(r, SourceOf(m, r), Broadcast(completion));
            && OperandOk(o, ReadRegister(gh.tail.regs, r), id, m.rob, gh.slots)
            && (!o.ready && completion.valid ==> completion.tag != o.tag)
  {
    if r != 0 && m.rat[r].valid {
      assert EntryMatches(m.rob.cur[m.rat[r].index], gh.slots[m.rat[r].index]);
    }
  }

  lemma ResolvedAfter(m: Machine, gh: Ghost, r: RegisterIndex, id: int, rob': RobState, ev: Event)
    requires WellFormed(m.rob) && EntriesMatch(m.rob, gh.slots)
    requires EventOk(m.rob, gh.slots, ev) && Transition(m.rob, rob', ev) && !ev.flush
    requires RatExact(m.rat, m.rob, gh.slots) && RatMeaning(m.rat, m.rob, gh)
    requires m.regs == gh.arch.regs
    requires forall i :: 0 <= i < ROB_CAPACITY && m.rob.cur[i].valid ==> gh.slots[i].id < id
    requires r < REGISTER_COUNT
    ensures OperandOk(Issue.ResolveRegister(r, SourceOf(m, r), Broadcast(ev.completion)),
                      ReadRegister(gh.tail.regs, r), id, rob', SlotsAfter(m.rob, gh.slots, ev))
  {
    hide Issue.ResolveRegister, SourceOf, Transition, WellFormed, EntriesMatch, RatExact, RatMeaning, SlotsAfter;
    ResolvedNow(m, gh, r, ev.completion, id);
    var o := Issue.ResolveRegister(r, SourceOf(m, r), Broadcast(ev.completion));
    if !o.ready {
      PendingPersists(m.rob, gh.slots, rob', ev, o.tag);
    }
  }

  /** The issued entry is live and unfinished unless it is HALT. */
  lemma NewEntryIsPending(rob: RobState, slots: SlotTable, rob': RobState, ev: Event)
    requires WellFormed(rob) && EventOk(rob, slots, ev) && Transition(rob, rob', ev)
    requires ev.issued && !ev.entry.ready
    ensures Pending(rob', ev.entry.tag) && ev.entry.tag.index == rob.tail
    ensures SlotsAfter(rob, slots, ev)[ev.entry.tag.index] == ev.slot
  {
    hide Age, ResultOk;
    WellFormedAfter(rob, slots, rob', ev);
  }
}
