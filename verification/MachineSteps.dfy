// Every module's invariant after one cycle of a consistent machine, and the
// whole machine's.
module MachineSteps {
  import opened Types
  import opened Isa
  import opened Decoder
  import opened ReorderBuffers
  import opened LoadStoreQueues
  import opened Pipeline
  import opened Invariants
  import opened RobSteps
  import opened RatSteps
  import opened StationSteps
  import opened QueueSteps
  import opened HolderSteps
  import opened PortSteps
  import opened IssueSteps
  import opened CycleSteps
  import LSQ = LoadStoreQueues
  import RS = ReservationStations
  import MU = MemoryUnits
  import FU = FunctionalUnits
  import Issue = IssueUnits
  import Datapath
  import Image

  // --- Stations and functional unit ----------------------------------------------------

  /** A broadcast never names an entry that is still waiting in a station. */
  lemma BroadcastIsNotStationed(m: Machine, gh: Ghost, w: Wires, ev: Event, k: nat)
    requires WellFormed(m.rob) && EventOk(m.rob, gh.slots, ev)
    requires StationsOk(m.rs, m.rob, gh.slots) && UnitOk(m.fu, m.rs, m.rob, gh.slots)
    requires LoadBufferOk(m.lsq, m.rob, gh.slots)
    requires w.cdb.integerGranted ==> m.fu.valid && ev.completion == m.fu
    requires w.cdb.loadGranted ==> m.lsq.loadResult.valid && ev.completion == m.lsq.loadResult
    requires ev.completion.valid ==> w.cdb.integerGranted || w.cdb.loadGranted
    requires ev.completion.valid && k < RS.RS_CAPACITY && m.rs.cur[k].busy
    ensures ev.completion.tag != m.rs.cur[k].destination
  {
    hide OperandOk, Age;
    assert StationOk(k, m.rs.cur[k], m.rob, gh.slots);
  }

  lemma StationInputsHold(m: Machine, gh: Ghost, taken: bool, w: Wires, o: LsqObserve, ev: Event, m': Machine)
    requires InRange(m) && Stepped(m, gh, taken, w, o, ev, m') && !ev.flush
    ensures StationInputs(RsInputsOf(m, w), m.rs, m.rob, gh.slots, m'.rob, ev)
    ensures w.rs == RS.Plan(m.rs, false)
  {
    hide Stepped, Consistent, EventOk, Transition, Observe, SlotsAfter, Fetched, RS.Plan, LSQ.Plan, EntriesMatch,
         AllMeaningful, StationsOk, StationOk, UnitOk, QueueOk, LoadBufferOk, WellFormed, RS.Apply, LSQ.Apply, RS.Full,
         RS.BeforeIssue, RS.FindFree, NewSlot;
    StepParts(m, gh, taken, w, o, ev, m');
    WireParts(m, gh, taken, w, o, ev, m');
    if ev.issued && w.issue.writeRs { IssuedStation(m, gh, taken, w, o, ev, m'); }
    if ev.completion.valid {
      forall k | 0 <= k < RS.RS_CAPACITY && m.rs.cur[k].busy
        ensures ev.completion.tag != m.rs.cur[k].destination
      {
        BroadcastIsNotStationed(m, gh, w, ev, k);
      }
    }
  }

  // When the load buffer is granted, the broadcast names a load.
  lemma LoadBroadcastIsMemory(m: Machine, gh: Ghost, w: Wires, ev: Event)
    requires LoadBufferOk(m.lsq, m.rob, gh.slots)
    requires w.cdb.loadGranted ==> m.lsq.loadResult.valid && ev.completion == m.lsq.loadResult
    requires ev.completion.valid ==> w.cdb.integerGranted || w.cdb.loadGranted
    ensures !w.cdb.integerGranted && ev.completion.valid ==>
              ev.completion.tag.index < ROB_CAPACITY && MemoryInstruction(gh.slots[ev.completion.tag.index].dec)
  {
  }

  // --- Queue and load buffer ---------------------------------------------------------------

  /** The issued queue entry is correct where it lands. */
  lemma IssuedQueueEntry(m: Machine, gh: Ghost, taken: bool, w: Wires, o: LsqObserve, ev: Event, m': Machine)
    requires InRange(m) && Stepped(m, gh, taken, w, o, ev, m') && ev.issued && w.issue.writeLsq
    ensures var e := w.issue.lsqEntry;
            && e.valid && !e.requestSent && !e.addressReady && e.destination == ev.entry.tag
            && NewQueueEntryOk(e, m'.rob, SlotsAfter(m.rob, gh.slots, ev))
            && m.lsq.count != LSQ_CAPACITY && ev.slot.lsqSlot == m.lsq.tail && !ev.entry.ready
            && ev.slot.id == m.committed + m.rob.count
  {
    hide Stepped, Consistent, EventOk, Transition, Observe, Issue.ResolveRegister, SourceOf, SlotsAfter, OperandOk,
         WellDecoded, ResultValue, Successor, Faults, After, PredictedNextPc, HeadWritten, Fetched, StationFor, RS.Plan,
         LSQ.Plan, EntriesMatch, AllMeaningful, RatExact, RatMeaning, StationsOk, UnitOk, QueueOk, LoadBufferOk,
         WellFormed, RS.Apply, LSQ.Apply, Pending, RS.Full;
    StepParts(m, gh, taken, w, o, ev, m');
    WireParts(m, gh, taken, w, o, ev, m');
    IssuedFacts(m, gh, taken, w, o, ev, m');
    FlagsOfStore(ev.slot.dec);
    IssueAllOrNothing(m, taken);
    IssuedOperands(m, gh, taken, w, o, ev, m');
    NewEntryIsPending(m.rob, gh.slots, m'.rob, ev);
  }

  lemma QueueInputsHold(m: Machine, gh: Ghost, taken: bool, w: Wires, o: LsqObserve, ev: Event, m': Machine)
    requires InRange(m) && Stepped(m, gh, taken, w, o, ev, m') && !ev.flush
    ensures QueueInputs(m.lsq, o, LsqInputsOf(w), m.rob, gh.slots, m'.rob, ev)
    ensures PortInputs(m, o, gh, m.committed)
  {
    hide Stepped, Consistent, EventOk, Transition, Observe, ObservationOf, SlotsAfter, Fetched, RS.Plan, LSQ.Plan,
         Answered, AnswerOk, EntriesMatch, AllMeaningful, StationsOk, QueueOk, WellFormed, RS.Apply, LSQ.Apply,
         PortInputs, NewQueueEntryOk, NewSlot, UnitOk, LoadBufferOk, PortOk, AllHeld, MemoryNow, Issue.ResolveRegister,
         SourceOf, Issue.MakeRobEntry, Issue.MakeRsEntry, Issue.MakeLsqEntry, PacketOf, Issue.NeedsRs, Issue.NeedsLsq,
         MU.Apply, RS.Full, StationFor, RatExact, RatMeaning, FU.NextResult, EntryMatches, Meaning, Chained;
    StepParts(m, gh, taken, w, o, ev, m');
    WireParts(m, gh, taken, w, o, ev, m');
    PortInputsHold(m, gh, taken);
    WiresOf(m, taken);
    if Answered(m.lsq, o) { AnsweredIsInFlight(m, o, gh.slots); AnsweredCounts(m, o); }
    if ev.issued && w.issue.writeLsq { IssuedQueueEntry(m, gh, taken, w, o, ev, m'); }
    IssueAllOrNothing(m, taken);
    CommitOrder(m, gh);
    QueueRange(m, gh);
    UnitBroadcastIsNotMemory(m, gh, w, ev);
  }

  lemma AnsweredCounts(m: Machine, o: LsqObserve)
    requires m.lsq.head < LSQ_CAPACITY && Answered(m.lsq, o)
    ensures m.lsq.count > 0
  {
  }

  lemma QueueRange(m: Machine, gh: Ghost)
    requires QueueOk(m.lsq, m.rob, gh.slots)
    ensures m.lsq.count <= LSQ_CAPACITY && m.lsq.head < LSQ_CAPACITY && m.lsq.tail < LSQ_CAPACITY
  {
  }

  // When the functional unit is granted, the broadcast names no memory instruction.
  lemma UnitBroadcastIsNotMemory(m: Machine, gh: Ghost, w: Wires, ev: Event)
    requires UnitOk(m.fu, m.rs, m.rob, gh.slots)
    requires w.cdb.integerGranted ==> m.fu.valid && ev.completion == m.fu
    requires ev.completion.valid ==> w.cdb.integerGranted || w.cdb.loadGranted
    ensures !w.cdb.loadGranted && ev.completion.valid ==>
              ev.completion.tag.index < ROB_CAPACITY && !MemoryInstruction(gh.slots[ev.completion.tag.index].dec)
  {
  }

  lemma LoadsAreNotControl(m: Machine, gh: Ghost)
    requires AllMeaningful(m.rob, gh.slots)
    ensures LoadsGoOn(m.rob, gh.slots)
  {
    hide Meaning, Diverts;
    forall i | 0 <= i < ROB_CAPACITY && m.rob.cur[i].valid && gh.slots[i].dec.isLoad
      ensures !ControlInstruction(gh.slots[i].dec) && !Diverts(gh.slots[i])
    {
      LoadGoesOn(gh.slots[i]);
    }
  }

  lemma LoadGoesOn(s: Slot)
    requires Meaning(s) && s.dec.isLoad
    ensures !ControlInstruction(s.dec) && !Diverts(s)
  {
    hide ResultValue, Successor, Faults, After;
  }

  // --- Memory port ---------------------------------------------------------------------------

  /** A store answered this cycle is reported done this cycle. */
  lemma StoreAnswered(m: Machine, gh: Ghost, o: LsqObserve)
    requires WellFormed(m.rob) && EntriesMatch(m.rob, gh.slots) && QueueOk(m.lsq, m.rob, gh.slots)
    requires PortOk(m, gh.slots)
    requires o.response == m.memory.response && !o.flush
    requires m.memory.response.valid && m.memory.response.isStore && m.memory.response.success
    ensures LSQ.Plan(m.lsq, o).storeCompletion.valid
  {
    hide OperandOk, Extend, MakeRequest, MaySend, LsqAge, Age, TransactionOk, EntryMatches;
    StoreIsNotSpeculative(m, gh);
    LsqHeadIsValid(m.lsq);
    assert m.memory.response.tag == m.lsq.cur[m.lsq.head].destination;
  }

  /** No store is answered in a cycle that flushes. */
  lemma NoStoreWhenFlushing(m: Machine, gh: Ghost, ev: Event)
    requires WellFormed(m.rob) && EntriesMatch(m.rob, gh.slots) && QueueOk(m.lsq, m.rob, gh.slots)
    requires PortOk(m, gh.slots)
    requires EventOk(m.rob, gh.slots, ev) && ev.flush
    ensures !(m.memory.response.valid && m.memory.response.isStore)
  {
    hide QueueOk, PortOk, EntriesMatch, ResultOk;
    if m.memory.response.valid && m.memory.response.isStore {
      StoreIsNotSpeculative(m, gh);
    }
  }

  lemma MemoryStepHolds(m: Machine, gh: Ghost, taken: bool, w: Wires, o: LsqObserve, ev: Event, m': Machine)
    requires InRange(m) && Stepped(m, gh, taken, w, o, ev, m')
    ensures MemoryStep(m, gh, ev, w.lsq.request, m') && MemoryEffects(m.rob, gh.slots)
  {
    hide Stepped, EventOk, Transition, Observe, SlotsAfter, LSQ.Plan, Fetched, EntriesMatch, AllMeaningful, StationsOk,
         UnitOk, QueueOk, LoadBufferOk, WellFormed, RS.Apply, LSQ.Apply, Chained, QueueInputs, PortInputs, MU.Apply,
         PortOk, MemoryEffects, MemoryNow, EntryMatches, Meaning, RegisterEffect, RatExact, RatMeaning, AllHeld,
         HaltIsYoungest, NewSlot;
    StepParts(m, gh, taken, w, o, ev, m');
    WireParts(m, gh, taken, w, o, ev, m');
    if ev.issued { IssuedFacts(m, gh, taken, w, o, ev, m'); }
    HeadStartsFromArch(m, gh);
    MeaningGivesMemoryEffects(m.rob, gh.slots);
    PortInputsHold(m, gh, taken);
    if w.lsq.storeCompletion.valid { StoreDoneFacts(m, gh.slots, o); }
    if m.memory.response.valid && m.memory.response.isStore && m.memory.response.success {
      if ev.flush { NoStoreWhenFlushing(m, gh, ev); } else { StoreAnswered(m, gh, o); }
    }
  }

  lemma HeadStartsFromArch(m: Machine, gh: Ghost)
    requires WellFormed(m.rob) && Chained(m.rob, gh, m.committed)
    ensures m.rob.cur[m.rob.head].valid ==> gh.slots[m.rob.head].pre == gh.arch
  {
  }

  // --- Conservation ----------------------------------------------------------------------------

  /** A free station before the cycle leaves one free after wakeup and dispatch. */
  lemma FreeStationRemains(rs: RS.RsState, inputs: RS.RsInputs, decision: RS.RsDecision)
    requires !RS.Full(rs.cur)
    ensures RS.FindFree(RS.BeforeIssue(rs, inputs, decision)) < RS.RS_CAPACITY
  {
    var k :| 0 <= k < RS.RS_CAPACITY && !rs.cur[k].busy;
    assert !RS.BeforeIssue(rs, inputs, decision)[k].busy;
  }

  /** Whatever is in a station can execute. */
  lemma StationsExecute(m: Machine, gh: Ghost)
    requires StationsOk(m.rs, m.rob, gh.slots) && AllMeaningful(m.rob, gh.slots) && EntriesMatch(m.rob, gh.slots)
    ensures forall k :: 0 <= k < RS.RS_CAPACITY && m.rs.cur[k].busy ==> FU.Executable(m.rs.cur[k].op)
  {
    hide ResultValue, Successor, Faults, After, WellDecoded, FU.Executable, OperandOk;
    forall k | 0 <= k < RS.RS_CAPACITY && m.rs.cur[k].busy
      ensures FU.Executable(m.rs.cur[k].op)
    {
      assert StationOk(k, m.rs.cur[k], m.rob, gh.slots);
      var i := m.rs.cur[k].destination.index;
      assert Meaning(gh.slots[i]) && EntryMatches(m.rob.cur[i], gh.slots[i]);
      Datapath.ControlFlagAgrees(gh.slots[i].dec);
    }
  }

  lemma IssuedIsHeld(m: Machine, gh: Ghost, taken: bool, w: Wires, o: LsqObserve, ev: Event, m': Machine)
    requires InRange(m) && Stepped(m, gh, taken, w, o, ev, m') && ev.issued && !ev.entry.ready
    ensures Held(ev.entry, ev.slot, m')
  {
    hide Stepped, Consistent, EventOk, Transition, Observe, SlotsAfter, LSQ.Plan, RS.Plan, Fetched, WellDecoded,
         EntriesMatch, AllMeaningful, StationsOk, UnitOk, QueueOk, LoadBufferOk, WellFormed, RS.Apply, LSQ.Apply,
         StationInputs, FU.NextResult, RS.Full, RS.FindFree, RS.BeforeIssue, HeldByQueue, HeldByStation, Answered,
         Issue.ResolveRegister, SourceOf, Meaning, Finished, PacketOf;
    StepParts(m, gh, taken, w, o, ev, m');
    WireParts(m, gh, taken, w, o, ev, m');
    IssuedFacts(m, gh, taken, w, o, ev, m');
    IssueAllOrNothing(m, taken);
    NoFlushOnIssue(m, gh, ev);
    if MemoryInstruction(ev.slot.dec) {
      IssuedQueueEntry(m, gh, taken, w, o, ev, m');
      QueueInputsHold(m, gh, taken, w, o, ev, m');
      AnsweredWasSent(m, o, LsqInputsOf(w), gh, m'.rob, ev);
      NewQueueHolds(ev.entry.tag, m.lsq, o, LsqInputsOf(w));
    } else {
      assert ev.slot.dec.op.HALT? ==> ev.entry.ready;
      IssuedStation(m, gh, taken, w, o, ev, m');
      FreeStationRemains(m.rs, RsInputsOf(m, w), RS.Plan(m.rs, false));
      NewStationHolds(ev.entry.tag, m.rs, RsInputsOf(m, w), m'.fu);
    }
  }

  lemma AnsweredWasSent(m: Machine, o: LsqObserve, inputs: LsqInputs, gh: Ghost, rob': RobState, ev: Event)
    requires QueueOk(m.lsq, m.rob, gh.slots) && WellFormed(m.rob)
    requires QueueInputs(m.lsq, o, inputs, m.rob, gh.slots, rob', ev)
    ensures WellFormedLsq(m.lsq) && !inputs.flush
    ensures Answered(m.lsq, o) ==> m.lsq.cur[m.lsq.head].requestSent
  {
    hide Answered, NewQueueEntryOk, AnswerOk;
  }

  // An unfinished entry is the new one, or was there and did not hear its completion.
  lemma UnfinishedStays(rob: RobState, slots: SlotTable, rob': RobState, ev: Event, i: nat)
    requires WellFormed(rob) && EventOk(rob, slots, ev) && Transition(rob, rob', ev)
    requires i < ROB_CAPACITY && rob'.cur[i].valid && !rob'.cur[i].ready
    ensures if ev.issued && i == rob.tail then
              rob'.cur[i] == ev.entry && SlotsAfter(rob, slots, ev)[i] == ev.slot
            else
              && rob.cur[i].valid && rob'.cur[i] == rob.cur[i] && SlotsAfter(rob, slots, ev)[i] == slots[i]
              && !(ev.completion.valid && ev.completion.tag == rob.cur[i].tag)
              && !(ev.storeDone.valid && ev.storeDone.tag == rob.cur[i].tag)
  {
    hide ResultOk;
    Survivor(rob, slots, rob', ev, i);
  }

  /** Conservation: every unfinished entry is still held where its slot says. */
  lemma HeldAfterCycle(m: Machine, gh: Ghost, taken: bool, w: Wires, o: LsqObserve, ev: Event, m': Machine)
    requires InRange(m) && Stepped(m, gh, taken, w, o, ev, m') && !ev.flush
    ensures AllHeld(m', SlotsAfter(m.rob, gh.slots, ev))
  {
    hide Stepped, Consistent, Observe, SlotsAfter, LSQ.Plan, RS.Plan, EntriesMatch, AllMeaningful, StationsOk, UnitOk,
         QueueOk, LoadBufferOk, WellFormed, RS.Apply, LSQ.Apply, Transition, EventOk, FU.NextResult, FU.CanAccept,
         FU.Executable, Chained, HeldByStation, HeldByQueue, SameInstruction, Updated, MU.Apply, Answered, Fetched,
         NewSlot, QueueInputs, MemoryInstruction, RatExact, RatMeaning, StationFor;
    StepParts(m, gh, taken, w, o, ev, m');
    WireParts(m, gh, taken, w, o, ev, m');
    QueueInputsHold(m, gh, taken, w, o, ev, m');
    StationsExecute(m, gh);
    forall i | 0 <= i < ROB_CAPACITY && m'.rob.cur[i].valid && !m'.rob.cur[i].ready
      ensures Held(m'.rob.cur[i], SlotsAfter(m.rob, gh.slots, ev)[i], m')
    {
      var tag, s := m.rob.cur[i].tag, gh.slots[i];
      UnfinishedStays(m.rob, gh.slots, m'.rob, ev, i);
      assert m.rob.cur[i].valid && !m.rob.cur[i].ready ==> Held(m.rob.cur[i], s, m);
      if ev.issued && i == m.rob.tail {
        IssuedIsHeld(m, gh, taken, w, o, ev, m');
      } else if MemoryInstruction(s.dec) {
        QueueHolds(tag, s.lsqSlot, m.lsq, o, LsqInputsOf(w), m.rob, gh.slots, m'.rob, ev);
      } else {
        StationHolds(tag, m.fu, w.cdb.integerGranted, m.rs, RsInputsOf(m, w), s.rsSlot, ev.completion);
      }
    }
  }

  // --- After a flush --------------------------------------------------------------------------

  lemma EmptyModulesAreOk(rob: RobState, slots: SlotTable)
    ensures StationsOk(RS.RsState(RS.EMPTY_STATIONS, 0), rob, slots)
    ensures UnitOk(NO_RESULT, RS.RsState(RS.EMPTY_STATIONS, 0), rob, slots)
    ensures QueueOk(EMPTY_LSQ, rob, slots) && LoadBufferOk(EMPTY_LSQ, rob, slots)
  {
    hide OperandOk, Pending;
  }

  /** A flush empties stations, functional unit, queue and load buffer, and leaves only dead loads at the port. */
  lemma FlushAfterCycle(m: Machine, gh: Ghost, taken: bool, w: Wires, o: LsqObserve, ev: Event, m': Machine)
    requires InRange(m) && Stepped(m, gh, taken, w, o, ev, m') && ev.flush
    ensures StationsOk(m'.rs, m'.rob, SlotsAfter(m.rob, gh.slots, ev))
    ensures UnitOk(m'.fu, m'.rs, m'.rob, SlotsAfter(m.rob, gh.slots, ev))
    ensures QueueOk(m'.lsq, m'.rob, SlotsAfter(m.rob, gh.slots, ev))
    ensures LoadBufferOk(m'.lsq, m'.rob, SlotsAfter(m.rob, gh.slots, ev))
    ensures m'.lsq.head < LSQ_CAPACITY && PortOk(m', SlotsAfter(m.rob, gh.slots, ev))
    ensures AllHeld(m', SlotsAfter(m.rob, gh.slots, ev))
  {
    hide Stepped, Consistent, EventOk, Observe, ObservationOf, NewSlot, Fetched, EntriesMatch, AllMeaningful,
         StationsOk, UnitOk, QueueOk, LoadBufferOk, WellFormed, Chained, RatExact, RatMeaning, StationFor, PortOk,
         MU.Apply, RS.BeforeIssue, RS.FindFree, UpdateAddresses, Rearranged, Held, EntryAfter, Answered, MaySend;
    StepParts(m, gh, taken, w, o, ev, m');
    WireParts(m, gh, taken, w, o, ev, m');
    PortInputsHold(m, gh, taken);
    EmptyModulesAreOk(m'.rob, SlotsAfter(m.rob, gh.slots, ev));
    FlushDoesNotIssue(m, gh, ev);
    PortOkAfterFlush(m, gh, m'.rob, ev, m');
  }

  lemma FlushDoesNotIssue(m: Machine, gh: Ghost, ev: Event)
    requires WellFormed(m.rob) && EventOk(m.rob, gh.slots, ev) && ev.flush
    ensures !ev.issued && SlotsAfter(m.rob, gh.slots, ev) == gh.slots
  {
  }

  // --- The whole machine ------------------------------------------------------------------------

  /** Stations, unit, queue, buffer and port after a cycle that neither flushes nor stops the machine. */
  lemma ModulesAfterCycle(m: Machine, gh: Ghost, taken: bool, w: Wires, o: LsqObserve, ev: Event, m': Machine)
    requires InRange(m) && Stepped(m, gh, taken, w, o, ev, m') && !ev.flush && !w.lsq.memoryError
    ensures StationsOk(m'.rs, m'.rob, SlotsAfter(m.rob, gh.slots, ev))
    ensures UnitOk(m'.fu, m'.rs, m'.rob, SlotsAfter(m.rob, gh.slots, ev))
    ensures QueueOk(m'.lsq, m'.rob, SlotsAfter(m.rob, gh.slots, ev))
    ensures LoadBufferOk(m'.lsq, m'.rob, SlotsAfter(m.rob, gh.slots, ev))
    ensures m'.lsq.head < LSQ_CAPACITY && PortOk(m', SlotsAfter(m.rob, gh.slots, ev))
  {
    hide Stepped, Consistent, EventOk, Transition, Observe, ObservationOf, SlotsAfter, LSQ.Plan, LSQ.Apply, RS.Plan,
         RS.Apply, RS.Full, FU.NextResult, FU.CanAccept, MU.Apply, MakeRequest, Answered, AnswerToHead, InFlight,
         EntriesMatch, AllMeaningful, StationsOk, UnitOk, QueueOk, LoadBufferOk, PortOk, WellFormed, Chained,
         StationInputs, RequestInputs, PortInputs, MU.Respond, NewSlot, Fetched, RatExact, RatMeaning, StationFor;
    StepParts(m, gh, taken, w, o, ev, m');
    WireParts(m, gh, taken, w, o, ev, m');
    StationInputsHold(m, gh, taken, w, o, ev, m');
    QueueInputsHold(m, gh, taken, w, o, ev, m');
    PortInputsHold(m, gh, taken);
    LoadBroadcastIsMemory(m, gh, w, ev);
    LoadsAreNotControl(m, gh);
    StationsOkAfter(m.rs, RsInputsOf(m, w), m.rob, gh.slots, m'.rob, ev);
    UnitOkAfter(m.fu, w.cdb.integerGranted, m.rs, RsInputsOf(m, w), m.rob, gh.slots, m'.rob, ev);
    QueueOkAfter(m.lsq, o, LsqInputsOf(w), m.rob, gh.slots, m'.rob, ev);
    LoadBufferOkAfter(m.lsq, o, LsqInputsOf(w), m.rob, gh.slots, m'.rob, ev);
    var t := m.memory.transaction;
    if t.valid && InFlight(m.lsq, t.request.tag) && t.request == MakeRequest(m.lsq.cur[m.lsq.head]) {
      HeadIsAnswered(m, o, gh, ev, m.committed);
    }
    PortOkAfter(m, o, LsqInputsOf(w), gh.slots, ev, m');
  }

  /** Every cycle that leaves the machine running leaves it consistent. */
  lemma ConsistentAfter(m: Machine, gh: Ghost, taken: bool)
    requires Consistent(m, gh)
    ensures InRange(m)
    ensures Cycle(m, taken).status == Running ==> Consistent(Cycle(m, taken), NextGhost(m, gh, taken))
  {
    hide Cycle, EventOf, Observe, ObservationOf, Stepped, StationsOk, UnitOk, QueueOk, LoadBufferOk, PortOk, WellFormed,
         AllMeaningful, EntriesMatch, Chained, HaltIsYoungest, RatExact, RatMeaning, MemoryNow, AllHeld, ArchAfter,
         SlotsAfter, NextStatus, MemoryStep, MemoryEffects;
    RobInOrder(m, gh);
    var m', w, o, ev := Cycle(m, taken), Observe(m, taken), ObservationOf(m, taken), EventOf(m, gh, taken);
    StepHolds(m, gh, taken);
    if m'.status == Running {
      ControlHolds(m, gh, taken, w, o, ev, m');
      OrderAfterCycle(m, gh, taken, w, o, ev, m');
      if ev.flush {
        FlushAfterCycle(m, gh, taken, w, o, ev, m');
      } else {
        ModulesAfterCycle(m, gh, taken, w, o, ev, m');
        HeldAfterCycle(m, gh, taken, w, o, ev, m');
      }
      MemoryStepHolds(m, gh, taken, w, o, ev, m');
      MemoryNowAfter(m, gh, ev, w.lsq.request, m');
    }
  }

  /** A freshly loaded machine is consistent. */
  lemma ResetIsConsistent(bytes: Image.Bytes, slots: SlotTable)
    ensures Consistent(Reset(bytes), Ghost(Boot(bytes), Boot(bytes), slots))
  {
    hide OperandOk, Pending;
  }
}
