// The out-of-order machine refines the sequential one: after any number of
// cycles, under any predictions, what is committed is a prefix of the
// sequential run.
module Refinement {
  import opened Types
  import opened WordArithmetic
  import opened Image
  import opened Isa
  import opened Decoder
  import opened ReorderBuffers
  import opened LoadStoreQueues
  import opened Pipeline
  import opened Invariants
  import opened RobSteps
  import opened PortSteps
  import opened IssueSteps
  import opened CycleSteps
  import opened MachineSteps
  import ROB = ReorderBuffers
  import LSQ = LoadStoreQueues
  import RS = ReservationStations
  import MU = MemoryUnits

  // --- One committed instruction is one sequential step ------------------------------------

  /** The sequential step of a slot's instruction. */
  lemma SlotStep(s: Slot)
    requires Meaning(s)
    requires var word := ReadWord(s.pre.mem, s.pre.pc); word.Some? && s.dec == Decode(word.value)
    ensures s.dec.op.HALT? ==> Isa.Step(s.pre) == Isa.Halted(And(s.pre.regs[10], 0xff))
    ensures s.faults ==> Isa.Step(s.pre) == MemoryFault
    ensures !s.faults && !s.dec.op.HALT? ==> Isa.Step(s.pre) == Next(s.post.(pc := s.nextPc))
  {
    hide Decode, ReadWord, ResultValue, Successor, RegistersAfter, MemoryAfter, WellDecoded, And;
    FlagsOfStore(s.dec);
  }

  /** The oldest entry is the instruction the sequential machine executes next: a HALT, a fault, or one step. */
  lemma HeadStep(m: Machine, gh: Ghost, start: Arch)
    requires Inv(m, gh, start) && m.rob.count > 0
    ensures m.rob.head < ROB_CAPACITY
    ensures var s := gh.slots[m.rob.head];
            && (m.rob.cur[m.rob.head].op.HALT? ==> Isa.Step(gh.arch) == Isa.Halted(And(gh.arch.regs[10], 0xff)))
            && (s.faults ==> Isa.Step(gh.arch) == MemoryFault)
            && (!s.faults && !s.dec.op.HALT? ==> StateAt(start, m.committed + 1) == Some(s.post.(pc := s.nextPc)))
  {
    hide Consistent, Decode, ReadWord, Meaning, RatSteps.RegisterEffect, StateAt, AllFetched, Isa.Step, And;
    RobInOrder(m, gh);
    CommittedFacts(m, gh);
    var s := gh.slots[m.rob.head];
    assert FetchedInOrder(start, s) by {
      assert AllFetched(start, m.rob, gh.slots);
      FetchedEntry(start, m.rob, gh.slots, m.rob.head);
    }
    SlotStep(s);
    if !s.faults && !s.dec.op.HALT? {
      NextState(start, m.committed, gh.arch, s.post.(pc := s.nextPc));
    }
  }

  lemma FetchedEntry(start: Arch, rob: RobState, slots: SlotTable, i: nat)
    requires AllFetched(start, rob, slots) && i < ROB_CAPACITY && rob.cur[i].valid
    ensures FetchedInOrder(start, slots[i])
  {
    hide FetchedInOrder;
  }

  /** A store whose bytes are in memory did not fault. */
  lemma WrittenDoesNotFault(m: Machine, gh: Ghost)
    requires Consistent(m, gh) && HeadWritten(m)
    ensures m.rob.count > 0 && !gh.slots[m.rob.head].faults && !gh.slots[m.rob.head].dec.op.HALT?
  {
    hide AllMeaningful, Chained, HaltIsYoungest, StationsOk, UnitOk, LoadBufferOk, AllHeld, RatExact, RatMeaning,
         MemoryNow, OperandOk, Meaning, LsqAge, TransactionOk;
    CommittedFacts(m, gh);
    if m.memory.response.valid && m.memory.response.isStore && m.memory.response.success {
      StoreIsNotSpeculative(m, gh);
      assert QueueEntryOk(m.lsq.head, m.lsq.cur[m.lsq.head], m.lsq, m.rob, gh.slots);
    }
    StoreIsNotHalt(gh.slots[m.rob.head]);
  }

  lemma StoreIsNotHalt(s: Slot)
    requires Meaning(s)
    ensures s.dec.isStore ==> !s.dec.op.HALT?
  {
    hide ResultValue, Successor, Faults, After;
  }

  lemma NextState(start: Arch, n: nat, a: Arch, b: Arch)
    requires StateAt(start, n) == Some(a) && Isa.Step(a) == Next(b)
    ensures StateAt(start, n + 1) == Some(b)
  {
    hide Isa.Step;
  }

  lemma BytesNow(m: Machine, gh: Ghost)
    requires Consistent(m, gh)
    ensures InRange(m) && m.memory.bytes == if HeadWritten(m) then gh.slots[m.rob.head].post.mem else gh.arch.mem
  {
    hide HeadWritten, AllMeaningful, EntriesMatch, Chained, StationsOk, UnitOk, QueueOk, LoadBufferOk, AllHeld, PortOk,
         RatExact, RatMeaning;
    RobInOrder(m, gh);
  }

  /** Memory is that of the committed state or, once the head store has landed, of the next one. */
  lemma MemoryIsSequential(m: Machine, gh: Ghost, start: Arch)
    requires Inv(m, gh, start)
    ensures InRange(m)
    ensures var k := if HeadWritten(m) then m.committed + 1 else m.committed;
            StateAt(start, k).Some? && m.memory.bytes == StateAt(start, k).value.mem
  {
    hide AllFetched, Isa.Step, Consistent, HeadWritten, StateAt;
    BytesNow(m, gh);
    if HeadWritten(m) {
      WrittenDoesNotFault(m, gh);
      HeadStep(m, gh, start);
    }
  }

  // --- One cycle ---------------------------------------------------------------------------

  /** An instruction is issued in this cycle. */
  predicate Issues(m: Machine, taken: bool)
    requires InRange(m)
  {
    m.status == Running && IssueEffective(Observe(m, taken))
  }

  /** If the next instruction is on the sequential run, its word is the one that run fetches there. */
  ghost predicate WordInOrder(m: Machine, start: Arch) {
    match StateAt(start, m.committed + m.rob.count)
    case None => true
    case Some(a) => a.pc == m.pc ==> ReadWord(m.memory.bytes, m.pc) == ReadWord(a.mem, a.pc)
  }

  /** The instruction issued in this cycle, if there is one, comes from such a word. */
  ghost predicate FetchesInOrder(m: Machine, start: Arch, taken: bool)
    requires InRange(m)
  {
    Issues(m, taken) ==> WordInOrder(m, start)
  }

  lemma PcIsTail(m: Machine, gh: Ghost)
    requires Consistent(m, gh)
    ensures m.pc == gh.tail.pc
    ensures m.rob.count == 0 ==> gh.tail == gh.arch && m.memory.bytes == gh.arch.mem
  {
  }

  /** The committed state moves by exactly the committed instruction. */
  lemma CommitIsStep(m: Machine, gh: Ghost, start: Arch, taken: bool, w: Wires, o: LsqObserve, ev: Event, m': Machine)
    requires InRange(m) && Stepped(m, gh, taken, w, o, ev, m') && Inv(m, gh, start)
    requires ev.commit ==> !m.rob.cur[m.rob.head].op.HALT?
    ensures StateAt(start, m'.committed) == Some(GhostAfter(m.rob, gh, ev).arch)
  {
    hide Stepped, Consistent, StateAt, AllFetched, EventOk, Transition, Meaning, Isa.Step, SlotsAfter, WellFormed,
         HaltIsYoungest, AllMeaningful, EntriesMatch, Chained, RatExact, RatMeaning, NextStatus, Mispredicted, And;
    OrderAfterCycle(m, gh, taken, w, o, ev, m');
    ControlHolds(m, gh, taken, w, o, ev, m');
    if ev.commit {
      CommittedFacts(m, gh);
      HeadStep(m, gh, start);
    }
  }

  lemma IssuedIsFetched(m: Machine, gh: Ghost, start: Arch, s: Slot)
    requires WordInOrder(m, start) && m.pc == gh.tail.pc && s.pre == gh.tail && s.id == m.committed + m.rob.count
    requires MU.Fetch(m.memory, m.pc).Some? && s.dec == Fetched(m)
    ensures FetchedInOrder(start, s)
  {
    hide Decode, ReadWord, StateAt;
  }

  lemma FetchedAfterCycle(m: Machine, gh: Ghost, start: Arch, taken: bool, w: Wires, o: LsqObserve, ev: Event,
          m': Machine)
    requires InRange(m) && Stepped(m, gh, taken, w, o, ev, m') && Inv(m, gh, start) && FetchesInOrder(m, start, taken)
    ensures AllFetched(start, m'.rob, SlotsAfter(m.rob, gh.slots, ev))
  {
    hide Stepped, Consistent, AllFetched, FetchedInOrder, WordInOrder, EventOk, Transition, SlotsAfter, WellFormed,
         Meaning, EntryMatches, Observe, RS.Apply, LSQ.Apply, MU.Apply, FU.NextResult, NextStatus, Chained,
         IssueEffective, Fetched, NewSlot, StationFor, And;
    StepParts(m, gh, taken, w, o, ev, m');
    if ev.issued {
      IssuedFacts(m, gh, taken, w, o, ev, m');
      WireParts(m, gh, taken, w, o, ev, m');
      ControlHolds(m, gh, taken, w, o, ev, m');
      PcIsTail(m, gh);
      IssuedIsFetched(m, gh, start, ev.slot);
    }
    FetchedAfter(start, m.rob, gh.slots, m'.rob, ev);
  }

  /** A running machine keeps refining the sequential run. */
  lemma InvAfter(m: Machine, gh: Ghost, start: Arch, taken: bool)
    requires Inv(m, gh, start)
    requires InRange(m) && FetchesInOrder(m, start, taken)
    ensures Cycle(m, taken).status == Running ==> Inv(Cycle(m, taken), NextGhost(m, gh, taken), start)
  {
    hide Consistent, Stepped, EventOf, GhostAfter, Cycle, StateAt, AllFetched, Observe, ObservationOf, NextStatus,
         FetchesInOrder;
    StepHolds(m, gh, taken);
    ConsistentAfter(m, gh, taken);
    var m' := Cycle(m, taken);
    var ev := EventOf(m, gh, taken);
    var w := Observe(m, taken);
    var o := ObservationOf(m, taken);
    if m'.status == Running {
      ControlHolds(m, gh, taken, w, o, ev, m');
      CommitIsStep(m, gh, start, taken, w, o, ev, m');
      FetchedAfterCycle(m, gh, start, taken, w, o, ev, m');
      SlotsOfGhost(m.rob, gh, ev);
    }
  }

  lemma SlotsOfGhost(rob: RobState, gh: Ghost, ev: Event)
    requires rob.head < ROB_CAPACITY && rob.tail < ROB_CAPACITY
    ensures GhostAfter(rob, gh, ev).slots == SlotsAfter(rob, gh.slots, ev)
  {
  }

  // --- Code that is not changed just before it is fetched --------------------------------------

  /** The word the sequential run fetches at step k is already in memory at each of the 31 steps
      before: a store does not change an instruction that is about to be fetched. */
  ghost predicate CodeStable(start: Arch) {
    forall j: nat, k: nat :: j <= k <= j + 31 && StateAt(start, j).Some? && StateAt(start, k).Some? ==>
      ReadWord(StateAt(start, j).value.mem, StateAt(start, k).value.pc)
      == ReadWord(StateAt(start, k).value.mem, StateAt(start, k).value.pc)
  }

  lemma WordIsStable(start: Arch, j: nat, k: nat)
    requires CodeStable(start) && j <= k <= j + 31
    requires StateAt(start, j).Some? && StateAt(start, k).Some?
    ensures ReadWord(StateAt(start, j).value.mem, StateAt(start, k).value.pc)
            == ReadWord(StateAt(start, k).value.mem, StateAt(start, k).value.pc)
  {
    hide StateAt, ReadWord;
  }

  /** Stable code is fetched in order: at most 31 instructions are in flight when another is issued. */
  lemma StableFetch(m: Machine, gh: Ghost, start: Arch, taken: bool)
    requires Inv(m, gh, start) && CodeStable(start)
    ensures InRange(m) && FetchesInOrder(m, start, taken)
  {
    hide Consistent, AllFetched, Observe, StateAt, ReadWord, CodeStable, PreviewRob, Fetched, Issue.ResolveRegister,
         SourceOf, Issue.MakeRobEntry, Issue.MakeRsEntry, Issue.MakeLsqEntry;
    MemoryIsSequential(m, gh, start);
    RobInOrder(m, gh);
    IssueAllOrNothing(m, taken);
    var j := if HeadWritten(m) then m.committed + 1 else m.committed;
    var k := m.committed + m.rob.count;
    if IssueEffective(Observe(m, taken)) && StateAt(start, k).Some? { WordIsStable(start, j, k); }
  }

  // --- When the machine stops --------------------------------------------------------------

  /** An empty machine sits at the sequential pc. */
  lemma EmptyIsSequential(m: Machine, gh: Ghost)
    requires Consistent(m, gh) && m.rob.count == 0
    ensures m.pc == gh.arch.pc && m.memory.bytes == gh.arch.mem && m.regs == gh.arch.regs
  {
    hide HeadWritten, AllMeaningful, EntriesMatch, StationsOk, UnitOk, QueueOk, LoadBufferOk, AllHeld, PortOk, RatExact;
    PcIsTail(m, gh);
  }

  /** What the status wires mean. */
  lemma StatusWires(m: Machine, gh: Ghost, taken: bool)
    requires Consistent(m, gh)
    ensures InRange(m)
    ensures var w := Observe(m, taken);
            && (w.fetchError ==> ReadWord(m.memory.bytes, m.pc).None? && !w.issue.status.Issued?)
            && (w.issue.status.InvalidInstruction? ==> ReadWord(m.memory.bytes, m.pc).Some? && Fetched(m).op.INVALID?)
            && !w.issue.status.InvalidAllocation?
  {
    hide Consistent, ROB.Plan, RS.Plan, LSQ.Plan, PlanCdb, PreviewRob, Decode, ReadWord, ObserveLsq;
    RobInOrder(m, gh);
  }

  /** HALT at the head is the sequential machine's halt, with its exit code. */
  lemma HaltIsArchitectural(m: Machine, gh: Ghost, start: Arch, w: Wires, ev: Event, m': Machine)
    requires Inv(m, gh, start) && InRange(m) && ControlStep(m, w, ev, m')
    requires m'.memory == MU.Apply(m.memory, w.lsq.request)
    requires ev.commit && m.rob.cur[m.rob.head].op.HALT?
    ensures Isa.Step(gh.arch) == Isa.Halted(m'.exitCode)
    ensures m'.committed == m.committed && m'.regs == gh.arch.regs && m'.memory.bytes == gh.arch.mem
  {
    hide Consistent, Meaning, AllFetched, StateAt, EntryMatches, Isa.Step, And, NextStatus, Mispredicted, WellFormed,
         Chained, HaltIsYoungest, QueueOk, PortOk, EntriesMatch, MU.Written, MU.ScheduledWrite, MU.NextTransaction,
         MU.Respond, RatSteps.RegisterEffect;
    CurrentArch(m, gh);
    CommittedFacts(m, gh);
    HeadStep(m, gh, start);
    HaltEntry(m.rob.cur[m.rob.head], gh.slots[m.rob.head]);
    assert m.regs[0 := 0] == m.regs;
    BytesNow(m, gh);
    PortOfConsistent(m, gh);
    if MU.NextResponse(m.memory).valid && MU.NextResponse(m.memory).isStore {
      RespondKind(m.memory.bytes, m.memory.transaction.request);
      StoreIsNotSpeculative(m, gh);
    }
    QuietMemory(m.memory, w.lsq.request);
  }

  lemma HaltEntry(e: RobEntry, s: Slot)
    requires EntryMatches(e, s) && Meaning(s) && e.op.HALT?
    ensures s.dec.op.HALT? && !e.writesRd && !e.isStore
  {
    hide ResultValue, Successor, Faults, After, WellDecoded;
    FlagsOfStore(s.dec);
  }

  lemma PortOfConsistent(m: Machine, gh: Ghost)
    requires Consistent(m, gh)
    ensures WellFormed(m.rob) && EntriesMatch(m.rob, gh.slots) && QueueOk(m.lsq, m.rob, gh.slots) && PortOk(m, gh.slots)
  {
  }

  lemma RespondKind(bytes: Bytes, request: MemoryRequest)
    ensures MU.Respond(bytes, request).isStore <==> request.kind.STORE?
  {
  }

  /** The port answers the head of the queue with a failure. */
  predicate AccessFails(m: Machine)
    requires InRange(m)
  {
    && !PreviewRob(m.rob).flush
    && m.lsq.count > 0 && MatchingResponse(m.lsq.cur[m.lsq.head], m.memory.response) && !m.memory.response.success
  }

  lemma FailureIsReported(m: Machine, taken: bool)
    requires InRange(m)
    ensures Observe(m, taken).lsq.memoryError <==> AccessFails(m)
  {
    hide PreviewRob, PlanCdb, PlanIssue, ROB.Plan, RS.Plan, MaySend, Extend, MakeRequest, Fetches;
  }

  /** A failed access is the in-order fault of its instruction; a store's is the sequential machine's. */
  lemma FailedAccess(m: Machine, gh: Ghost, start: Arch)
    requires Inv(m, gh, start) && InRange(m) && AccessFails(m)
    ensures var head := m.lsq.cur[m.lsq.head];
            && head.valid && Pending(m.rob, head.destination)
            && gh.slots[head.destination.index].faults
            && (head.kind.STORE? ==> Isa.Step(gh.arch) == MemoryFault && head.destination.index == m.rob.head)
  {
    hide Consistent, AllFetched, StateAt, Isa.Step, AnswerOk, QueueOk, PortOk, WellFormed, EntriesMatch, PreviewRob;
    PortOfConsistent(m, gh);
    var o := LsqObserve(NO_STORE, m.memory.response, MU.Available(m.memory), false, false);
    AnsweredIsInFlight(m, o, gh.slots);
    FailedSlot(m, gh, o);
    if m.lsq.cur[m.lsq.head].kind.STORE? {
      EntryIsLive(m.rob, m.rob.head);
      HeadStep(m, gh, start);
    }
  }

  lemma EntryIsLive(rob: RobState, i: nat)
    requires WellFormed(rob) && i < ROB_CAPACITY && rob.cur[i].valid
    ensures rob.count > 0
  {
  }

  lemma ErrorIsAnswer(lsq: LsqState, o: LsqObserve)
    requires lsq.head < LSQ_CAPACITY && LSQ.Plan(lsq, o).memoryError
    ensures Answered(lsq, o) && !o.response.success
  {
    hide MaySend, Extend;
  }

  lemma FailedSlot(m: Machine, gh: Ghost, o: LsqObserve)
    requires WellFormed(m.rob) && QueueOk(m.lsq, m.rob, gh.slots)
    requires var head := m.lsq.cur[m.lsq.head];
             && head.valid && head.requestSent && head.destination.index < ROB_CAPACITY
             && AnswerOk(o.response, head, gh.slots[head.destination.index]) && !o.response.success
    ensures var head := m.lsq.cur[m.lsq.head];
            && Pending(m.rob, head.destination)
            && gh.slots[head.destination.index].faults
            && (head.kind.STORE? ==> head.destination.index == m.rob.head && gh.slots[m.rob.head].dec.isStore)
  {
    hide OperandOk, LsqAge, Age;
    assert QueueEntryOk(m.lsq.head, m.lsq.cur[m.lsq.head], m.lsq, m.rob, gh.slots);
  }

  lemma StillRunning(m: Machine, gh: Ghost)
    requires Consistent(m, gh)
    ensures m.status == Running && m.regs == gh.arch.regs
  {
  }
}
