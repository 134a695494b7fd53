// One cycle of a consistent machine, module by module.
module CycleSteps {
  import opened Types
  import opened WordArithmetic
  import opened Isa
  import opened Decoder
  import opened ReorderBuffers
  import opened RenameTables
  import opened RegisterFiles
  import opened LoadStoreQueues
  import opened Pipeline
  import opened Invariants
  import opened RobSteps
  import opened RatSteps
  import opened StationSteps
  import opened QueueSteps
  import opened PortSteps
  import opened IssueSteps
  import ROB = ReorderBuffers
  import LSQ = LoadStoreQueues
  import RS = ReservationStations
  import MU = MemoryUnits
  import FU = FunctionalUnits
  import Issue = IssueUnits

  /** The instruction at the current pc. */
  function Fetched(m: Machine): DecodedInstruction {
    match MU.Fetch(m.memory, m.pc)
    case None => NO_INSTRUCTION
    case Some(word) => Decode(word)
  }

  lemma FetchedIsWellDecoded(m: Machine)
    ensures WellDecoded(Fetched(m))
  {
    hide Decode, WellDecoded, MU.Fetch;
    if MU.Fetch(m.memory, m.pc).Some? { DecodeIsWellFormed(MU.Fetch(m.memory, m.pc).value); }
    FixedRecordsAreWellFormed();
  }

  function StationFor(m: Machine, w: Wires): nat {
    RS.FindFree(RS.BeforeIssue(m.rs, RsInputsOf(m, w), w.rs))
  }

  /** What this cycle does to the reorder buffer. */
  ghost function EventOf(m: Machine, gh: Ghost, taken: bool): Event
    requires InRange(m)
  {
    var w := Observe(m, taken);
    Event(w.rob.commit.valid, w.rob.flush, w.cdb.completion, w.lsq.storeCompletion, IssueEffective(w),
          w.issue.robEntry, NewSlot(m, gh, taken, Fetched(m), StationFor(m, w)))
  }

  ghost function NextGhost(m: Machine, gh: Ghost, taken: bool): Ghost
    requires InRange(m)
  {
    GhostAfter(m.rob, gh, EventOf(m, gh, taken))
  }

  function ObservationOf(m: Machine, taken: bool): LsqObserve
    requires InRange(m)
  {
    ObserveLsq(m, Observe(m, taken).preview, Observe(m, taken).cdb)
  }

  lemma RobInOrder(m: Machine, gh: Ghost)
    requires Consistent(m, gh)
    ensures InRange(m) && WellFormed(m.rob)
  {
  }

  // --- Issue ------------------------------------------------------------------------

  /** Issue writes every structure the instruction needs, or none. */
  lemma IssueAllOrNothing(m: Machine, taken: bool)
    requires InRange(m)
    ensures var w := Observe(m, taken);
            var d := Fetched(m);
            var packet := PacketOf(m.pc, d, taken);
            var rs1 := Issue.ResolveRegister(d.rs1, SourceOf(m, d.rs1), w.cdb.broadcast);
            var rs2 := Issue.ResolveRegister(d.rs2, SourceOf(m, d.rs2), w.cdb.broadcast);
            if w.issue.status.Issued? then
              && Fetches(m, w.preview.flush) && MU.Fetch(m.memory, m.pc).Some? && !d.op.INVALID?
              && NextTag(m.rob).valid
              && w.issue.writeRob
              && w.issue.robEntry == Issue.MakeRobEntry(packet, NextTag(m.rob))
              && w.issue.writeRs == Issue.NeedsRs(d) && w.issue.writeLsq == Issue.NeedsLsq(d)
              && (Issue.NeedsRs(d) ==> !RS.Full(m.rs.cur)
                                       && w.issue.rsEntry == Issue.MakeRsEntry(packet, NextTag(m.rob), rs1, rs2))
              && (Issue.NeedsLsq(d) ==> !LsqFull(m.lsq)
                                        && w.issue.lsqEntry == Issue.MakeLsqEntry(packet, NextTag(m.rob), rs1, rs2))
              && w.issue.rename == (if w.issue.robEntry.writesRd then RatWrite(d.rd, NextTag(m.rob), true)
                  else Issue.NO_RENAME)
            else
              !w.issue.writeRob && !w.issue.writeRs && !w.issue.writeLsq && !w.issue.rename.valid
  {
    hide Issue.ResolveRegister, SourceOf, Decode, PredictedNextPc, Issue.MakeRobEntry, Issue.MakeRsEntry,
         Issue.MakeLsqEntry, ROB.Plan, RS.Plan, LSQ.Plan, PlanCdb, PreviewRob, ObserveLsq, RS.Full;
  }

  // --- The event -------------------------------------------------------------------------

  lemma WiresOf(m: Machine, taken: bool)
    requires InRange(m)
    ensures var w := Observe(m, taken);
            && w.preview == PreviewRob(m.rob)
            && w.cdb == PlanCdb(m, w.preview.flush)
            && w.rob == ROB.Plan(m.rob)
            && w.rs == RS.Plan(m.rs, w.preview.flush)
            && w.lsq == LSQ.Plan(m.lsq, ObservationOf(m, taken))
            && w.fetchError == (Fetches(m, w.preview.flush) && MU.Fetch(m.memory, m.pc).None?)
            && ObservationOf(m, taken) ==
               LsqObserve(w.preview.storeRequest, m.memory.response, MU.Available(m.memory), w.cdb.loadGranted,
                   w.preview.flush)
  {
    hide ROB.Plan, RS.Plan, LSQ.Plan, PlanCdb, PreviewRob, PlanIssue;
  }

  lemma PortInputsHold(m: Machine, gh: Ghost, taken: bool)
    requires Consistent(m, gh)
    ensures InRange(m) && PortInputs(m, ObservationOf(m, taken), gh, m.committed)
    ensures RequestInputs(m, ObservationOf(m, taken), gh.slots)
  {
    WiresOf(m, taken);
  }

  lemma EventIsOk(m: Machine, gh: Ghost, taken: bool)
    requires Consistent(m, gh)
    ensures InRange(m) && EventOk(m.rob, gh.slots, EventOf(m, gh, taken))
    ensures var w := Observe(m, taken);
            && w.preview.flush == w.rob.flush && w.rob == ROB.Plan(m.rob)
            && w.cdb.broadcast == Broadcast(w.cdb.completion)
  {
    var w := Observe(m, taken);
    var o := ObservationOf(m, taken);
    WiresOf(m, taken);
    PreviewAgrees(m.rob);
    PlanOfHead(m.rob);
    BusIsCorrect(m, gh.slots, w.preview.flush);
    PortInputsHold(m, gh, taken);
    IssueAllOrNothing(m, taken);
    if w.lsq.storeCompletion.valid {
      StoreDoneFacts(m, gh.slots, o);
    }
  }

  lemma StoreDoneFacts(m: Machine, slots: SlotTable, o: LsqObserve)
    requires m.lsq.head < LSQ_CAPACITY && RequestInputs(m, o, slots)
    requires EntriesMatch(m.rob, slots) && AllMeaningful(m.rob, slots)
    requires LSQ.Plan(m.lsq, o).storeCompletion.valid
    ensures var tag := LSQ.Plan(m.lsq, o).storeCompletion.tag;
            var s := slots[m.rob.head];
            && Pending(m.rob, tag) && tag.index == m.rob.head
            && m.rob.cur[m.rob.head].isStore && !s.faults
            && s.dec.isStore && !s.dec.writesRd && !ControlInstruction(s.dec)
    ensures m.memory.response.valid && m.memory.response.isStore && m.memory.response.success
  {
    AnsweredIsInFlight(m, o, slots);
    var head := m.lsq.cur[m.lsq.head];
    assert QueueEntryOk(m.lsq.head, head, m.lsq, m.rob, slots);
    assert EntryMatches(m.rob.cur[head.destination.index], slots[head.destination.index]);
    assert Meaning(slots[head.destination.index]);
    FlagsOfStore(slots[head.destination.index].dec);
  }

  // --- The reorder buffer --------------------------------------------------------------------

  /** The next state, module by module. */
  ghost predicate Latched(m: Machine, w: Wires, o: LsqObserve, m': Machine) {
    && InRange(m)
    && (ROB.Plan(m.rob).commit.valid ==> m.rob.count > 0)
    && (LSQ.Plan(m.lsq, o).removeHead ==> m.lsq.count > 0)
    && m'.rob == ROB.Apply(m.rob, RobInputsOf(w), ROB.Plan(m.rob))
    && m'.rat == NextTable(m.rat, RatWriteOf(w), RatCommitOf(w), w.rob.flush)
    && m'.rs == RS.Apply(m.rs, RsInputsOf(m, w), w.rs)
    && m'.lsq == LSQ.Apply(m.lsq, LsqInputsOf(w), LSQ.Plan(m.lsq, o))
    && m'.fu == FU.NextResult(m.fu, w.rs.dispatch, w.preview.flush, w.cdb.integerGranted)
    && m'.preferLoad == w.cdb.nextPreferLoad
    && m'.memory == MU.Apply(m.memory, w.lsq.request)
    && m'.regs == Committed(m.regs, RegisterWriteOf(w))
    && m'.pc == NextPcOf(m, w)
    && m'.fetchStopped == NextFetchStopped(m, w)
    && m'.status == NextStatus(m, w)
    && m'.committed == (if Retires(w) then m.committed + 1 else m.committed)
    && m'.exitCode == if w.rob.commit.halted then And(ReadRegister(m.regs, 10), 0xff) else m.exitCode
  }

  lemma CycleLatches(m: Machine, taken: bool)
    requires InRange(m) && m.status == Running
    requires WellFormed(m.rob) && WellFormedLsq(m.lsq)
    ensures Latched(m, Observe(m, taken), ObservationOf(m, taken), Cycle(m, taken))
  {
    hide Observe, ObservationOf, ROB.Plan, ROB.Apply, RS.Apply, LSQ.Apply, NextTable, FU.NextResult, MU.Apply,
         Committed, NextPcOf, NextFetchStopped, NextStatus, WellFormed;
    WiresOf(m, taken);
    PlanOfHead(m.rob);
    LsqHeadIsValid(m.lsq);
  }

  // The facts about a cycle that every per-module argument starts from.
  ghost predicate Stepped(m: Machine, gh: Ghost, taken: bool, w: Wires, o: LsqObserve, ev: Event, m': Machine) {
    && InRange(m) && Consistent(m, gh)
    && w == Observe(m, taken) && o == ObservationOf(m, taken) && ev == EventOf(m, gh, taken)
    && Latched(m, w, o, m')
    && EventOk(m.rob, gh.slots, ev) && Transition(m.rob, m'.rob, ev)
  }

  lemma StepHolds(m: Machine, gh: Ghost, taken: bool)
    requires Consistent(m, gh)
    ensures InRange(m)
    ensures Stepped(m, gh, taken, Observe(m, taken), ObservationOf(m, taken), EventOf(m, gh, taken), Cycle(m, taken))
  {
    EventIsOk(m, gh, taken);
    CycleLatches(m, taken);
    PreviewAgrees(m.rob);
    WiresOf(m, taken);
    IssueAllOrNothing(m, taken);
    ApplyIsTransition(m.rob, gh.slots, RobInputsOf(Observe(m, taken)), EventOf(m, gh, taken));
  }

  /** The issued instruction's slot and entry. */
  lemma IssuedFacts(m: Machine, gh: Ghost, taken: bool, w: Wires, o: LsqObserve, ev: Event, m': Machine)
    requires InRange(m) && Stepped(m, gh, taken, w, o, ev, m') && ev.issued
    ensures EntryMatches(ev.entry, ev.slot) && Meaning(ev.slot)
    ensures !(ev.entry.isStore && ev.entry.ready)
    ensures ev.slot.pre == gh.tail && ev.slot.id == m.committed + m.rob.count
    ensures ev.entry.writesRd ==> 0 < ev.entry.rd < REGISTER_COUNT
    ensures ev.slot.dec == Fetched(m) && MU.Fetch(m.memory, m.pc).Some?
    ensures ev.entry.writesRd == ev.slot.dec.writesRd && ev.entry.rd == ev.slot.dec.rd && ev.entry.op == ev.slot.dec.op
    ensures ev.entry.predictedNextPc == ev.slot.post.pc == PredictedNextPc(ev.slot.dec, ev.slot.pre.pc, taken)
    ensures !m.fetchStopped
  {
    var d := Fetched(m);
    IssueAllOrNothing(m, taken);
    FetchedIsWellDecoded(m);
    NewEntryMatches(m, gh, taken, d, StationFor(m, w));
    NewSlotIsMeaningful(m, gh, taken, d, StationFor(m, w));
    assert gh.tail.pc == m.pc;
  }

  /** The committing head's slot. */
  lemma CommittedFacts(m: Machine, gh: Ghost)
    requires Consistent(m, gh) && m.rob.count > 0
    ensures m.rob.cur[m.rob.head].valid
    ensures var e := m.rob.cur[m.rob.head];
            var s := gh.slots[m.rob.head];
            && EntryMatches(e, s) && Meaning(s) && s.pre == gh.arch && s.id == m.committed
            && RegisterEffect(s)
            && (e.ready && !Mispredicted(e) ==> s.post.pc == s.nextPc)
            && (e.ready && Mispredicted(e) ==> e.actualNextPc == s.nextPc && !e.op.HALT?)
  {
    HeadIsValid(m.rob);
    var e := m.rob.cur[m.rob.head];
    var s := gh.slots[m.rob.head];
    assert EntryMatches(e, s) && Meaning(s);
    assert Age(m.rob.head, m.rob.head) == 0;
    MeaningGivesRegisters(s);
    FlagsOfStore(s.dec);
  }

  lemma CommitOrder(m: Machine, gh: Ghost)
    requires Consistent(m, gh)
    ensures forall j :: 0 <= j < ROB_CAPACITY && m.rob.cur[j].valid ==> gh.slots[j].id < m.committed + m.rob.count
    ensures m.rob.cur[m.rob.head].valid ==>
              forall j :: 0 <= j < ROB_CAPACITY && m.rob.cur[j].valid && j != m.rob.head ==>
                gh.slots[m.rob.head].id < gh.slots[j].id
  {
    assert Chained(m.rob, gh, m.committed) && WellFormed(m.rob);
  }

  /** What a cycle does outside the modules' own states: registers, fetching, counts and status. */
  ghost predicate ControlStep(m: Machine, w: Wires, ev: Event, m': Machine)
    requires m.rob.head < ROB_CAPACITY
  {
    var head := m.rob.cur[m.rob.head];
    && (ev.commit <==> m.rob.count > 0 && head.ready)
    && (ev.flush <==> ev.commit && Mispredicted(head))
    && m'.regs == (if ev.commit && head.writesRd then WriteRegister(m.regs, head.rd, head.value) else m.regs)[0 := 0]
    && m'.pc == (if ev.flush then head.actualNextPc else if ev.issued then ev.entry.predictedNextPc else m.pc)
    && m'.fetchStopped == (if ev.flush then false else m.fetchStopped || (ev.issued && ev.entry.op.HALT?))
    && m'.committed == (if ev.commit && !head.op.HALT? then m.committed + 1 else m.committed)
    && (w.rob.commit.halted <==> ev.commit && head.op.HALT?)
    && (w.rob.commit.halted ==> m'.exitCode == And(m.regs[10], 0xff))
    && m.status == Running && m'.status == NextStatus(m, w)
  }

  lemma ControlOfWires(m: Machine, w: Wires, ev: Event)
    requires InRange(m) && WellFormed(m.rob) && w.rob == ROB.Plan(m.rob)
    requires ev.commit == w.rob.commit.valid && ev.flush == w.rob.flush && ev.issued == IssueEffective(w)
    requires ev.entry == w.issue.robEntry
    ensures var head := m.rob.cur[m.rob.head];
            && (ev.commit <==> m.rob.count > 0 && head.ready)
            && (ev.flush <==> ev.commit && Mispredicted(head))
            && (w.rob.commit.halted <==> ev.commit && head.op.HALT?)
            && Committed(m.regs, RegisterWriteOf(w))
               == (if ev.commit && head.writesRd then WriteRegister(m.regs, head.rd, head.value) else m.regs)[0 := 0]
            && NextPcOf(m, w) == (if ev.flush then head.actualNextPc else if ev.issued then ev.entry.predictedNextPc
                else m.pc)
            && NextFetchStopped(m, w)
                == (if ev.flush then false else m.fetchStopped || (ev.issued && ev.entry.op.HALT?))
            && (Retires(w) <==> ev.commit && !head.op.HALT?)
  {
    hide Mispredicted, ROB.Plan;
    PlanOfHead(m.rob);
  }

  lemma ControlHolds(m: Machine, gh: Ghost, taken: bool, w: Wires, o: LsqObserve, ev: Event, m': Machine)
    requires InRange(m) && Stepped(m, gh, taken, w, o, ev, m')
    ensures ControlStep(m, w, ev, m')
    ensures m'.status == Running ==> !w.rob.commit.halted && !w.lsq.memoryError
  {
    hide Consistent, EventOk, Transition, Observe, ROB.Plan, ROB.Apply, RS.Apply, LSQ.Apply, LSQ.Plan, MU.Apply,
         FU.NextResult, NextTable, WellFormed, Mispredicted, Fetched, NewSlot, StationFor, ObservationOf, And,
         Committed, NextPcOf, NextFetchStopped, Retires;
    CurrentArch(m, gh);
    WiresOf(m, taken);
    ControlOfWires(m, w, ev);
  }

  lemma CurrentArch(m: Machine, gh: Ghost)
    requires Consistent(m, gh)
    ensures WellFormed(m.rob) && Chained(m.rob, gh, m.committed) && HaltIsYoungest(m.rob, m.fetchStopped)
    ensures m.regs == gh.arch.regs && m.pc == gh.tail.pc && gh.arch.regs[0] == 0 && m.status == Running
  {
    hide WellFormed, Chained;
  }

  /** Entries, the chain of states, the rename table and the committed state after the cycle. */
  lemma OrderAfterCycle(m: Machine, gh: Ghost, taken: bool, w: Wires, o: LsqObserve, ev: Event, m': Machine)
    requires InRange(m) && Stepped(m, gh, taken, w, o, ev, m')
    requires ev.commit ==> !m.rob.cur[m.rob.head].op.HALT?
    ensures WellFormed(m'.rob) && HaltIsYoungest(m'.rob, m'.fetchStopped)
    ensures AllMeaningful(m'.rob, SlotsAfter(m.rob, gh.slots, ev))
    ensures EntriesMatch(m'.rob, SlotsAfter(m.rob, gh.slots, ev))
    ensures Chained(m'.rob, GhostAfter(m.rob, gh, ev), if ev.commit then m.committed + 1 else m.committed)
    ensures RatExact(m'.rat, m'.rob, SlotsAfter(m.rob, gh.slots, ev))
    ensures RatMeaning(m'.rat, m'.rob, GhostAfter(m.rob, gh, ev))
    ensures m'.regs == GhostAfter(m.rob, gh, ev).arch.regs && m'.pc == GhostAfter(m.rob, gh, ev).tail.pc
    ensures m'.committed == if ev.commit then m.committed + 1 else m.committed
  {
    hide Stepped, Consistent, EventOk, Transition, EntryMatches, Meaning, AllMeaningful, EntriesMatch, WellFormed,
         Chained, HaltIsYoungest, Mispredicted, RegisterEffect, RatExact, RatMeaning, TableAfter, Observe, RS.Apply,
         LSQ.Apply, MU.Apply, FU.NextResult, StationsOk, UnitOk, QueueOk, LoadBufferOk, SlotsAfter, NextStatus, And,
         LSQ.Plan, NewSlot, Fetched, StationFor, Finished, SourceOf, MU.Fetch, RsInputsOf, LsqInputsOf, ArchAfter;
    StepParts(m, gh, taken, w, o, ev, m');
    CurrentArch(m, gh);
    ControlHolds(m, gh, taken, w, o, ev, m');
    CommitOrder(m, gh);
    TableIsTableAfter(m, gh, taken, w, o, ev, m');
    if ev.issued {
      IssuedFacts(m, gh, taken, w, o, ev, m');
      MeaningGivesRegisters(ev.slot);
    }
    if ev.commit { CommittedFacts(m, gh); }
    ArchAfterControl(m, gh, w, ev, m');
    WellFormedAfter(m.rob, gh.slots, m'.rob, ev);
    MeaningfulAfter(m.rob, gh.slots, m'.rob, ev);
    EntriesMatchAfter(m.rob, gh.slots, m'.rob, ev);
    ChainedAfter(m.rob, gh, m'.rob, ev, m.committed);
    RatExactAfter(m.rat, m.rob, gh.slots, m'.rob, ev);
    RatMeaningAfter(m.rat, m.rob, gh, m'.rob, ev);
    YoungestHalt(m, gh, ev, m');
  }

  lemma TableIsTableAfter(m: Machine, gh: Ghost, taken: bool, w: Wires, o: LsqObserve, ev: Event, m': Machine)
    requires InRange(m) && Stepped(m, gh, taken, w, o, ev, m')
    ensures m'.rat == TableAfter(m.rat, m.rob, ev)
  {
    PlanOfHead(m.rob);
    WiresOf(m, taken);
    IssueAllOrNothing(m, taken);
    RatMessages(m, w, ev);
  }

  lemma RatMessages(m: Machine, w: Wires, ev: Event)
    requires m.rob.head < ROB_CAPACITY
    requires ev.commit == w.rob.commit.valid && ev.issued == IssueEffective(w) && ev.entry == w.issue.robEntry
    requires w.rob.commit.valid ==> w.rob.commit.entry == m.rob.cur[m.rob.head]
    requires w.issue.status.Issued? ==>
      && w.issue.robEntry.valid
      && w.issue.rename == (if w.issue.robEntry.writesRd then RatWrite(w.issue.robEntry.rd, w.issue.robEntry.tag, true)
          else Issue.NO_RENAME)
    ensures RatWriteOf(w) == IssueMessage(ev) && RatCommitOf(w) == CommitMessage(m.rob, ev)
  {
  }

  /** Committed registers, the next pc and the count follow the ghost states. */
  lemma ArchAfterControl(m: Machine, gh: Ghost, w: Wires, ev: Event, m': Machine)
    requires InRange(m) && ControlStep(m, w, ev, m')
    requires m.regs == gh.arch.regs && gh.arch.regs[0] == 0 && m.pc == gh.tail.pc
    requires ev.issued ==> ev.entry.predictedNextPc == ev.slot.post.pc
    requires var head := m.rob.cur[m.rob.head];
             var s := gh.slots[m.rob.head];
             ev.commit ==>
               && !head.op.HALT? && EntryMatches(head, s) && RegisterEffect(s) && s.pre == gh.arch
               && (Mispredicted(head) ==> head.actualNextPc == s.nextPc)
    ensures m'.regs == GhostAfter(m.rob, gh, ev).arch.regs && m'.pc == GhostAfter(m.rob, gh, ev).tail.pc
    ensures m'.committed == if ev.commit then m.committed + 1 else m.committed
  {
    hide NextStatus, And, Mispredicted;
    assert m.regs[0 := 0] == m.regs;
  }

  /** HALT stays the youngest entry, and fetching stays stopped exactly behind it. */
  lemma YoungestHalt(m: Machine, gh: Ghost, ev: Event, m': Machine)
    requires WellFormed(m.rob) && EventOk(m.rob, gh.slots, ev) && Transition(m.rob, m'.rob, ev)
    requires HaltIsYoungest(m.rob, m.fetchStopped)
    requires m'.fetchStopped == if ev.flush then false else m.fetchStopped || (ev.issued && ev.entry.op.HALT?)
    requires ev.issued ==> !m.fetchStopped
    requires ev.commit ==> !m.rob.cur[m.rob.head].op.HALT?
    ensures HaltIsYoungest(m'.rob, m'.fetchStopped)
  {
    WindowAfter(m.rob, gh.slots, m'.rob, ev);
    if ev.issued { TailAge(m.rob); PreviousOfNext(m.rob.tail); }
    forall i | 0 <= i < ROB_CAPACITY && m'.rob.cur[i].valid && m'.rob.cur[i].op.HALT?
      ensures m'.fetchStopped && Age(m'.rob.head, i) == m'.rob.count - 1
    {
      Survivor(m.rob, gh.slots, m'.rob, ev, i);
      NextAge(m.rob.head, i);
    }
    if m'.fetchStopped && !ev.issued {
      LastStays(m.rob, gh.slots, m'.rob, ev);
    }
  }

  lemma LastStays(rob: RobState, slots: SlotTable, rob': RobState, ev: Event)
    requires WellFormed(rob) && EventOk(rob, slots, ev) && Transition(rob, rob', ev)
    requires !ev.issued && !ev.flush && rob.count > 0
    requires rob.cur[Previous(rob.tail)].op.HALT?
    requires ev.commit ==> !rob.cur[rob.head].op.HALT?
    ensures rob'.count > 0 && rob'.tail < ROB_CAPACITY && rob'.cur[Previous(rob'.tail)].op.HALT?
  {
    hide ResultOk, NextSlot, Previous;
    var p := Previous(rob.tail);
    LastAge(rob.head, rob.count);
  }

  lemma LastAge(head: nat, count: nat)
    requires head < ROB_CAPACITY && 0 < count <= ROB_CAPACITY
    ensures Age(head, Previous((head + count) % ROB_CAPACITY)) == count - 1
  {
  }

  // --- What reaches the stations and the queue --------------------------------------------------

  // The parts of a step everything else depends on.
  lemma StepParts(m: Machine, gh: Ghost, taken: bool, w: Wires, o: LsqObserve, ev: Event, m': Machine)
    requires InRange(m) && Stepped(m, gh, taken, w, o, ev, m')
    ensures Consistent(m, gh) && WellFormed(m.rob) && Chained(m.rob, gh, m.committed)
    ensures EventOk(m.rob, gh.slots, ev) && Transition(m.rob, m'.rob, ev)
    ensures StationsOk(m.rs, m.rob, gh.slots) && UnitOk(m.fu, m.rs, m.rob, gh.slots)
    ensures QueueOk(m.lsq, m.rob, gh.slots) && LoadBufferOk(m.lsq, m.rob, gh.slots)
    ensures AllMeaningful(m.rob, gh.slots) && EntriesMatch(m.rob, gh.slots) && AllHeld(m, gh.slots)
    ensures RatExact(m.rat, m.rob, gh.slots) && RatMeaning(m.rat, m.rob, gh) && m.regs == gh.arch.regs
    ensures m'.rs == RS.Apply(m.rs, RsInputsOf(m, w), w.rs)
    ensures m'.fu == FU.NextResult(m.fu, w.rs.dispatch, w.preview.flush, w.cdb.integerGranted)
    ensures LSQ.Plan(m.lsq, o).removeHead ==> m.lsq.count > 0
    ensures m'.lsq == LSQ.Apply(m.lsq, LsqInputsOf(w), LSQ.Plan(m.lsq, o))
    ensures m'.memory == MU.Apply(m.memory, w.lsq.request) && m'.preferLoad == w.cdb.nextPreferLoad
  {
    hide WellFormed, EventOk, Transition, Observe, ObservationOf, EventOf, StationsOk, UnitOk, QueueOk, LoadBufferOk,
         AllMeaningful, EntriesMatch, RatExact, RatMeaning, RS.Apply, FU.NextResult, LSQ.Apply, LSQ.Plan, ROB.Apply,
         ROB.Plan, MU.Apply, NextTable, Committed, NextPcOf, NextStatus, NextFetchStopped, Chained, HaltIsYoungest,
         PortOk, AllHeld, MemoryNow;
  }

  /** The wires of a step, by source. */
  lemma WireParts(m: Machine, gh: Ghost, taken: bool, w: Wires, o: LsqObserve, ev: Event, m': Machine)
    requires InRange(m) && Stepped(m, gh, taken, w, o, ev, m')
    ensures w.preview.flush == ev.flush && w.rob.flush == ev.flush && o.flush == ev.flush
    ensures ev.issued == IssueEffective(w) && ev.entry == w.issue.robEntry
    ensures ev.completion == w.cdb.completion && w.cdb.broadcast == Broadcast(ev.completion)
    ensures w.rs == RS.Plan(m.rs, ev.flush)
    ensures w.lsq == LSQ.Plan(m.lsq, o) && ev.storeDone == w.lsq.storeCompletion
    ensures o.response == m.memory.response && o.memoryAvailable == MU.Available(m.memory)
    ensures o.loadResultGranted == w.cdb.loadGranted
    ensures o.storeRequest.valid ==> o.storeRequest.tag == m.rob.cur[m.rob.head].tag
    ensures w.cdb.integerGranted ==> m.fu.valid && ev.completion == m.fu
    ensures w.cdb.loadGranted ==> m.lsq.loadResult.valid && ev.completion == m.lsq.loadResult
    ensures ev.completion.valid ==> w.cdb.integerGranted || w.cdb.loadGranted
    ensures ev.slot == NewSlot(m, gh, taken, Fetched(m), StationFor(m, w))
    ensures w == Observe(m, taken) && o == ObservationOf(m, taken)
    ensures w.preview == PreviewRob(m.rob) && w.cdb == PlanCdb(m, ev.flush)
  {
    hide Latched, EventOk, Transition, Observe, ObservationOf, ROB.Plan, RS.Plan, LSQ.Plan, PlanCdb, PreviewRob,
         RS.Apply, NewSlot, Fetched, StationFor, WellFormed, UnitOk, LoadBufferOk;
    StepParts(m, gh, taken, w, o, ev, m');
    WiresOf(m, taken);
    PreviewAgrees(m.rob);
    ResultsAreOk(m, gh);
    BusIsCorrect(m, gh.slots, w.preview.flush);
  }

  lemma ResultsAreOk(m: Machine, gh: Ghost)
    requires UnitOk(m.fu, m.rs, m.rob, gh.slots) && LoadBufferOk(m.lsq, m.rob, gh.slots)
    ensures ResultOk(m.fu, m.rob, gh.slots) && ResultOk(m.lsq.loadResult, m.rob, gh.slots)
  {
  }

  /** Both source operands of the issued instruction, as the reorder buffer will see them next. */
  lemma IssuedOperands(m: Machine, gh: Ghost, taken: bool, w: Wires, o: LsqObserve, ev: Event, m': Machine)
    requires InRange(m) && Stepped(m, gh, taken, w, o, ev, m') && ev.issued
    ensures OperandOk(Issue.ResolveRegister(ev.slot.dec.rs1, SourceOf(m, ev.slot.dec.rs1), w.cdb.broadcast),
                      ev.slot.x, ev.slot.id, m'.rob, SlotsAfter(m.rob, gh.slots, ev))
    ensures OperandOk(Issue.ResolveRegister(ev.slot.dec.rs2, SourceOf(m, ev.slot.dec.rs2), w.cdb.broadcast),
                      ev.slot.y, ev.slot.id, m'.rob, SlotsAfter(m.rob, gh.slots, ev))
  {
    hide Stepped, Consistent, EventOk, Transition, Observe, Issue.ResolveRegister, SourceOf, WellDecoded, SlotsAfter,
         OperandOk, ResultValue, Successor, Faults, After, PredictedNextPc, HeadWritten, Fetched, StationFor, RS.Plan,
         LSQ.Plan, EntriesMatch, AllMeaningful, RatExact, RatMeaning, StationsOk, UnitOk, QueueOk, LoadBufferOk,
         WellFormed, RS.Apply, LSQ.Apply, Chained, AllHeld, PreviewRob, PlanCdb, IssueEffective, Broadcast, MU.Apply,
         MU.Available, FU.NextResult, RsInputsOf, LsqInputsOf;
    StepParts(m, gh, taken, w, o, ev, m');
    WireParts(m, gh, taken, w, o, ev, m');
    FetchedIsWellDecoded(m);
    RegistersInRange(Fetched(m));
    CommitOrder(m, gh);
    NoFlushOnIssue(m, gh, ev);
    ResolvedAfter(m, gh, Fetched(m).rs1, m.committed + m.rob.count, m'.rob, ev);
    ResolvedAfter(m, gh, Fetched(m).rs2, m.committed + m.rob.count, m'.rob, ev);
  }

  lemma RegistersInRange(d: DecodedInstruction)
    requires WellDecoded(d)
    ensures d.rs1 < REGISTER_COUNT && d.rs2 < REGISTER_COUNT
  {
  }

  lemma NoFlushOnIssue(m: Machine, gh: Ghost, ev: Event)
    requires WellFormed(m.rob) && EventOk(m.rob, gh.slots, ev) && ev.issued
    ensures !ev.flush
  {
  }

  /** Selecting between register, immediate, pc and zero keeps an operand correct. */
  lemma SelectedOperands(s: Slot, rs1: Operand, rs2: Operand, pc: Address, rob: RobState, slots: SlotTable)
    requires OperandOk(rs1, s.x, s.id, rob, slots) && OperandOk(rs2, s.y, s.id, rob, slots)
    requires pc == s.pre.pc
    ensures OperandOk(Issue.SelectOperand(s.dec.lhsSource, rs1, s.dec.immediate, pc), LhsValue(s), s.id, rob, slots)
    ensures OperandOk(Issue.SelectOperand(s.dec.rhsSource, rs2, s.dec.immediate, pc), RhsValue(s), s.id, rob, slots)
  {
    hide Pending, OperandOk;
    ReadyIsOk(s.dec.immediate, s.id, rob, slots);
    ReadyIsOk(pc, s.id, rob, slots);
    ReadyIsOk(0, s.id, rob, slots);
  }

  lemma ReadyIsOk(value: Word, id: int, rob: RobState, slots: SlotTable)
    ensures OperandOk(Issue.ReadyOperand(value), value, id, rob, slots)
  {
  }

  /** The issued station entry is correct where it lands. */
  lemma IssuedStation(m: Machine, gh: Ghost, taken: bool, w: Wires, o: LsqObserve, ev: Event, m': Machine)
    requires InRange(m) && Stepped(m, gh, taken, w, o, ev, m') && ev.issued && w.issue.writeRs
    ensures w.issue.rsEntry.busy && w.issue.rsEntry.destination == ev.entry.tag
    ensures StationOk(ev.slot.rsSlot, w.issue.rsEntry, m'.rob, SlotsAfter(m.rob, gh.slots, ev))
    ensures ev.slot.rsSlot == StationFor(m, w) && !MemoryInstruction(ev.slot.dec) && !ev.entry.ready
    ensures !RS.Full(m.rs.cur)
  {
    hide Stepped, Consistent, EventOk, Transition, Observe, Issue.ResolveRegister, SourceOf, WellDecoded, SlotsAfter,
         OperandOk, ResultValue, Successor, Faults, After, PredictedNextPc, HeadWritten, Fetched, StationFor, RS.Plan,
         LSQ.Plan, EntriesMatch, AllMeaningful, RatExact, RatMeaning, StationsOk, UnitOk, QueueOk, LoadBufferOk,
         WellFormed, RS.Apply, LSQ.Apply, Issue.SelectOperand, LhsValue, RhsValue, Pending, Meaning, RS.Full;
    StepParts(m, gh, taken, w, o, ev, m');
    WireParts(m, gh, taken, w, o, ev, m');
    IssuedFacts(m, gh, taken, w, o, ev, m');
    IssueAllOrNothing(m, taken);
    IssuedOperands(m, gh, taken, w, o, ev, m');
    NewEntryIsPending(m.rob, gh.slots, m'.rob, ev);
    SelectedOperands(ev.slot,
                     Issue.ResolveRegister(ev.slot.dec.rs1, SourceOf(m, ev.slot.dec.rs1), w.cdb.broadcast),
                     Issue.ResolveRegister(ev.slot.dec.rs2, SourceOf(m, ev.slot.dec.rs2), w.cdb.broadcast),
                     m.pc, m'.rob, SlotsAfter(m.rob, gh.slots, ev));
  }
}
