// Where and how the machine stops: only at the sequential machine's own stop,
// or at a load of a mispredicted path.
module Stops {
  import opened Types
  import opened WordArithmetic
  import opened Image
  import opened Isa
  import opened Decoder
  import opened ReorderBuffers
  import opened LoadStoreQueues
  import opened Pipeline
  import opened Invariants
  import opened RobSteps
  import opened QueueSteps
  import opened PortSteps
  import opened IssueSteps
  import opened CycleSteps
  import opened MachineSteps
  import opened Refinement
  import opened SpeculativePath
  import LSQ = LoadStoreQueues
  import RS = ReservationStations
  import MU = MemoryUnits

  /** The load at the head of the queue is not among the sequential run's next instructions. */
  ghost predicate WrongPathLoad(m: Machine, start: Arch) {
    && m.rob.head < ROB_CAPACITY && m.lsq.head < LSQ_CAPACITY
    && var e := m.lsq.cur[m.lsq.head];
       e.kind.LOAD? && e.destination.index < ROB_CAPACITY && !OnSequentialRun(m, start, e.destination.index)
  }

  /** The sequential run's step number n is a memory fault. */
  ghost predicate FaultsAt(start: Arch, n: nat) {
    match StateAt(start, n)
    case None => false
    case Some(a) => Isa.Step(a) == MemoryFault
  }

  /** If entry i is on the sequential run, that run faults there. */
  ghost predicate FaultsOnRun(m: Machine, start: Arch, i: nat)
    requires m.rob.head < ROB_CAPACITY
  {
    && i < ROB_CAPACITY && m.rob.cur[i].valid
    && (OnSequentialRun(m, start, i) ==> FaultsAt(start, m.committed + Age(m.rob.head, i)))
  }

  /** The access at the head of the queue is the sequential machine's fault, unless it is a load
      of a mispredicted path. */
  ghost predicate FaultIsSequential(m: Machine, start: Arch) {
    && m.rob.head < ROB_CAPACITY && m.lsq.head < LSQ_CAPACITY
    && var e := m.lsq.cur[m.lsq.head];
       && FaultsOnRun(m, start, e.destination.index)
       && (e.kind.STORE? ==> FaultsAt(start, m.committed))
  }

  /** The registers, memory and counters of a stopped machine are those of the sequential run,
      and the reason it stopped is the sequential machine's. Only a load fault may be speculative. */
  ghost predicate StoppedAt(m: Machine, start: Arch) {
    && StateAt(start, m.committed).Some?
    && var a := StateAt(start, m.committed).value;
       && m.regs == a.regs
       && m.memory.bytes == a.mem
       && (match m.status
           case Running => false
           case Halted => Isa.Step(a) == Isa.Halted(m.exitCode)
           case FetchOutOfBound => Isa.Step(a) == FetchFault && m.pc == a.pc
           case InvalidInstruction => Isa.Step(a) == IllegalInstruction && m.pc == a.pc
           case MemoryOutOfBound => FaultIsSequential(m, start)
           case InternalError => false
           case NotLoaded => false
           case LoadError => false)
  }

  /** No store lands, and none has landed, in a cycle whose access failed. */
  lemma FailureKeepsMemory(m: Machine, gh: Ghost, ev: Event, request: MemoryRequest, m': Machine)
    requires MemoryStep(m, gh, ev, request, m') && MemoryEffects(m.rob, gh.slots)
    requires m.memory.response.valid && !m.memory.response.success
    requires ev.commit ==> !m.rob.cur[m.rob.head].op.HALT?
    ensures m'.memory.bytes == GhostAfter(m.rob, gh, ev).arch.mem
  {
    hide MemoryStep, MemoryNow, MemoryEffects, GhostAfter, HeadWritten;
    FailureIsQuiet(m, gh, ev, request, m');
    MemoryNowAfter(m, gh, ev, request, m');
    QuietHead(m, gh, ev, request, m');
    CurrentMemory(m', GhostAfter(m.rob, gh, ev));
  }

  // The port that answers is idle after the answer, and a failed store has not been written.
  lemma FailureIsQuiet(m: Machine, gh: Ghost, ev: Event, request: MemoryRequest, m': Machine)
    requires MemoryStep(m, gh, ev, request, m') && m.memory.response.valid && !m.memory.response.success
    ensures m.rob.head < ROB_CAPACITY && m.rob.tail < ROB_CAPACITY
    ensures !m'.memory.response.valid && (!ev.commit ==> !HeadWritten(m))
  {
    hide Transition, AllMeaningful, EntriesMatch, QueueOk, MemoryNow, TransactionOk, ResponseOk, MU.Written,
         MU.ScheduledWrite, MU.NextTransaction, MU.Respond, ResultOk;
  }

  lemma CurrentMemory(m: Machine, gh: Ghost)
    requires m.rob.head < ROB_CAPACITY
    ensures !HeadWritten(m) ==> MemoryNow(m, gh) == gh.arch.mem
  {
  }

  lemma EmptyKeepsState(m: Machine, gh: Ghost, w: Wires, ev: Event, m': Machine)
    requires InRange(m) && ControlStep(m, w, ev, m') && m.rob.count == 0 && !ev.issued
    requires EventOk(m.rob, gh.slots, ev) && Transition(m.rob, m'.rob, ev) && m'.rob.head < ROB_CAPACITY
    requires m.regs == gh.arch.regs && gh.arch.regs[0] == 0 && m.pc == gh.arch.pc
    requires m'.memory.bytes == MemoryNow(m', GhostAfter(m.rob, gh, ev))
    ensures m'.regs == gh.arch.regs && m'.memory.bytes == gh.arch.mem && m'.pc == gh.arch.pc
    ensures m'.committed == m.committed
  {
    hide NextStatus, And, Mispredicted, EntryAfter, ResultOk;
    assert m.regs[0 := 0] == m.regs;
  }

  /** An empty machine that issues nothing keeps its architectural state. */
  lemma EmptyStop(m: Machine, gh: Ghost, taken: bool)
    requires Consistent(m, gh) && m.rob.count == 0
    requires InRange(m) && !IssueEffective(Observe(m, taken))
    ensures var m' := Cycle(m, taken);
            && m'.regs == gh.arch.regs && m'.memory.bytes == gh.arch.mem && m'.pc == gh.arch.pc && m.pc == gh.arch.pc
            && m'.committed == m.committed
  {
    hide Consistent, Stepped, EventOf, GhostAfter, Cycle, Observe, ObservationOf, And, EventOk, Transition, MemoryStep,
         MemoryEffects, MemoryNow, WellFormed, Chained, AllMeaningful, EntriesMatch, Mispredicted, Fetched, RS.Apply,
         LSQ.Apply, MU.Apply, FU.NextResult, IssueEffective, NextStatus, HaltIsYoungest;
    var m', w, ev := Cycle(m, taken), Observe(m, taken), EventOf(m, gh, taken);
    StepHolds(m, gh, taken);
    ControlHolds(m, gh, taken, w, ObservationOf(m, taken), ev, m');
    StepParts(m, gh, taken, w, ObservationOf(m, taken), ev, m');
    WireParts(m, gh, taken, w, ObservationOf(m, taken), ev, m');
    EmptyIsSequential(m, gh);
    CurrentArch(m, gh);
    MemoryStepHolds(m, gh, taken, w, ObservationOf(m, taken), ev, m');
    MemoryNowAfter(m, gh, ev, w.lsq.request, m');
    EmptyKeepsState(m, gh, w, ev, m');
  }

  // --- A failed access, before and after the cycle that reports it ------------------------

  /** HALT is not at the head of the reorder buffer when an access fails: nothing is in flight behind it. */
  lemma FailureIsNotHalt(m: Machine, gh: Ghost, start: Arch)
    requires Inv(m, gh, start) && InRange(m) && AccessFails(m)
    ensures m.rob.count > 0 && m.rob.cur[m.rob.head].ready ==>
              !m.rob.cur[m.rob.head].op.HALT? && m.lsq.cur[m.lsq.head].destination.index != m.rob.head
  {
    hide Consistent, AllFetched, StateAt, AccessFails, Isa.Step, EntriesMatch, Chained, AllMeaningful;
    FailedAccess(m, gh, start);
    ChainOf(m, gh);
    HeadIsValid(m.rob);
    HeadIsFirst(m.rob.head);
    var i := m.lsq.cur[m.lsq.head].destination.index;
    if m.rob.cur[m.rob.head].op.HALT? && i != m.rob.head {
      AgeIsInjective(m.rob.head, i, m.rob.head) by { AgeNotNegative(m.rob.head, i); }
    }
  }

  /** What happens to the order of the entries in a cycle without a flush and without a HALT. */
  ghost predicate OrderStep(m: Machine, slots: SlotTable, ev: Event, m': Machine) {
    && WellFormed(m.rob) && EventOk(m.rob, slots, ev) && Transition(m.rob, m'.rob, ev) && !ev.flush
    && m'.committed == if ev.commit then m.committed + 1 else m.committed
  }

  /** An entry that outlives a cycle without a flush keeps its instruction and its position in the run. */
  lemma PositionKept(m: Machine, slots: SlotTable, ev: Event, m': Machine, i: nat)
    requires OrderStep(m, slots, ev, m')
    requires i < ROB_CAPACITY && m.rob.cur[i].valid && !(ev.commit && i == m.rob.head)
    ensures m'.rob.cur[i].valid && m'.rob.cur[i].pc == m.rob.cur[i].pc
    ensures m'.committed + Age(m'.rob.head, i) == m.committed + Age(m.rob.head, i)
  {
    hide Age, Updated, ResultOk, Pending;
    UpdatedKeeps(m.rob.cur[i], ev);
    NextAge(m.rob.head, i);
    if ev.issued { TailAge(m.rob); }
  }

  lemma UpdatedKeeps(e: RobEntry, ev: Event)
    ensures Updated(e, ev).valid == e.valid && Updated(e, ev).pc == e.pc
  {
  }

  /** Whether an entry that outlives the cycle is on the sequential run reads the same before and after. */
  lemma OnRunAlike(m: Machine, gh: Ghost, start: Arch, ev: Event, m': Machine, i: nat)
    requires PathInv(m, gh, start) && OrderStep(m, gh.slots, ev, m') && m'.rob.head < ROB_CAPACITY
    requires i < ROB_CAPACITY && m.rob.cur[i].valid && !(ev.commit && i == m.rob.head)
    ensures OnSequentialRun(m, start, i) <==> OnSequentialRun(m', start, i)
  {
    hide PathInv, OrderStep, StateAt, Age;
    PositionKept(m, gh.slots, ev, m', i);
    forall j | 0 <= j < ROB_CAPACITY && m'.rob.cur[j].valid && 0 <= Age(m'.rob.head, j) <= Age(m'.rob.head, i)
      ensures m.rob.cur[j].valid && !(ev.commit && j == m.rob.head)
    {
      OlderSurvivor(m, gh.slots, ev, m', i, j);
    }
    HeadOnRun(m, gh, start);
    forall j | 0 <= j < ROB_CAPACITY && m.rob.cur[j].valid && !(ev.commit && j == m.rob.head)
      ensures m'.rob.cur[j].valid && m'.rob.cur[j].pc == m.rob.cur[j].pc
      ensures m'.committed + Age(m'.rob.head, j) == m.committed + Age(m.rob.head, j)
      ensures 0 <= Age(m.rob.head, j) && 0 <= Age(m'.rob.head, j)
    {
      PositionKept(m, gh.slots, ev, m', j);
      AgeNotNegative(m.rob.head, j);
      AgeNotNegative(m'.rob.head, j);
    }
  }

  lemma HeadOnRun(m: Machine, gh: Ghost, start: Arch)
    requires PathInv(m, gh, start)
    ensures m.rob.head < ROB_CAPACITY && Age(m.rob.head, m.rob.head) == 0
    ensures m.rob.cur[m.rob.head].valid ==>
              StateAt(start, m.committed).Some? && m.rob.cur[m.rob.head].pc == StateAt(start, m.committed).value.pc
  {
    hide AllFetched, StateAt, AllMeaningful, HaltIsYoungest, Finished;
  }

  // What is no younger than an entry that was there before was there before.
  lemma OlderSurvivor(m: Machine, slots: SlotTable, ev: Event, m': Machine, i: nat, j: nat)
    requires OrderStep(m, slots, ev, m') && m'.rob.head < ROB_CAPACITY
    requires i < ROB_CAPACITY && m.rob.cur[i].valid && !(ev.commit && i == m.rob.head)
    requires j < ROB_CAPACITY && m'.rob.cur[j].valid && Age(m'.rob.head, j) <= Age(m'.rob.head, i)
    ensures m.rob.cur[j].valid && !(ev.commit && j == m.rob.head)
  {
    hide Completed, Age, ResultOk, Pending;
    Survivor(m.rob, slots, m'.rob, ev, j);
    NextAge(m.rob.head, i);
    NextAge(m.rob.head, j);
    if ev.issued { TailAge(m.rob); }
    if ev.commit { HeadIsFirst(m.rob.head); }
  }

  /** A failed access stops the machine, and is as speculative after the cycle as before. */
  ghost predicate FailureKept(m: Machine, start: Arch, m': Machine)
    requires InRange(m) && InRange(m')
  {
    var i := m.lsq.cur[m.lsq.head].destination.index;
    && m'.status == MemoryOutOfBound
    && m'.lsq.cur[m'.lsq.head].kind == m.lsq.cur[m.lsq.head].kind
    && m'.lsq.cur[m'.lsq.head].destination.index == i
    && i < ROB_CAPACITY && m'.rob.cur[i].valid
    && m'.committed + Age(m'.rob.head, i) == m.committed + Age(m.rob.head, i)
    && (OnSequentialRun(m, start, i) <==> OnSequentialRun(m', start, i))
  }

  lemma ErrorStatus(m: Machine, w: Wires)
    requires w.lsq.memoryError && !w.rob.commit.halted
    ensures NextStatus(m, w) == MemoryOutOfBound
  {
  }

  lemma FailureStops(m: Machine, gh: Ghost, start: Arch, taken: bool)
    requires InRange(m) && AccessFails(m)
    requires Inv(m, gh, start)
    ensures FailureKept(m, start, Cycle(m, taken))
  {
    hide Consistent, Stepped, EventOf, Cycle, AllFetched, Observe, ObservationOf, AccessFails, OnSequentialRun, Age,
         StateAt, PathInv, EventOk, Transition, WellFormed, Chained, AllMeaningful, EntriesMatch, StationsOk, UnitOk,
         QueueOk, LoadBufferOk, RS.Apply, LSQ.Apply, LSQ.Plan, MU.Apply, FU.NextResult, Mispredicted, Isa.Step, And,
         RatExact, RatMeaning, NextStatus, RS.Plan, NewSlot, StationFor, Fetched, IssueEffective, RsInputsOf, PlanCdb,
         PreviewRob;
    var m' := Cycle(m, taken);
    var ev := EventOf(m, gh, taken);
    var w := Observe(m, taken);
    var o := ObservationOf(m, taken);
    StepHolds(m, gh, taken);
    StepParts(m, gh, taken, w, o, ev, m');
    WireParts(m, gh, taken, w, o, ev, m');
    ControlHolds(m, gh, taken, w, o, ev, m');
    FailureIsReported(m, taken);
    FailureIsNotHalt(m, gh, start);
    FailedAccess(m, gh, start);
    NoFlushOnError(m.lsq, o);
    QueueIsWellFormed(m, gh.slots);
    FailedHeadInPlace(m.lsq, o, LsqInputsOf(w));
    ErrorStatus(m, w);
    PathOfInv(m, gh, start);
    var i := m.lsq.cur[m.lsq.head].destination.index;
    PositionKept(m, gh.slots, ev, m', i);
    OnRunAlike(m, gh, start, ev, m', i);
  }

  /** A failed access of the sequential run is that run's fault. */
  lemma FailedOnRun(m: Machine, gh: Ghost, start: Arch)
    requires InRange(m) && AccessFails(m)
    requires Inv(m, gh, start)
    ensures FaultsOnRun(m, start, m.lsq.cur[m.lsq.head].destination.index)
  {
    hide Consistent, AllFetched, AccessFails, Isa.Step, StateAt, Age, OnSequentialRun, WellFormed, Chained,
         AllMeaningful, EntriesMatch, HaltIsYoungest;
    LoadFaultIsArchitecturalIff(m, gh, start);
    ChainOf(m, gh);
    Positions(m, gh);
  }

  lemma FaultHere(start: Arch, n: nat, a: Arch)
    requires StateAt(start, n) == Some(a) && Isa.Step(a) == MemoryFault
    ensures FaultsAt(start, n)
  {
    hide StateAt, Isa.Step;
  }

  /** The fault is the sequential run's after the cycle if it was before. */
  lemma FaultKept(m: Machine, start: Arch, m': Machine)
    requires InRange(m) && InRange(m') && FailureKept(m, start, m')
    requires FaultsOnRun(m, start, m.lsq.cur[m.lsq.head].destination.index)
    requires m.lsq.cur[m.lsq.head].kind.STORE? ==> FaultsAt(start, m'.committed)
    ensures m'.status == MemoryOutOfBound && FaultIsSequential(m', start)
  {
    hide OnSequentialRun, Age, FaultsAt;
  }

  /** Stopping on a failed access. */
  lemma FaultIsArchitectural(m: Machine, gh: Ghost, start: Arch, taken: bool)
    requires Inv(m, gh, start) && InRange(m) && AccessFails(m)
    ensures StoppedAt(Cycle(m, taken), start)
  {
    hide Consistent, Stepped, EventOf, Cycle, AllFetched, Observe, ObservationOf, AccessFails, OnSequentialRun, Age,
         StateAt, Isa.Step, WellFormed, Chained, AllMeaningful, EntriesMatch, HaltIsYoungest, RatExact, RatMeaning,
         MemoryStep, MemoryEffects, GhostAfter, Mispredicted, And, NextStatus, EventOk, Transition, FaultsAt,
         FailureKept, FaultIsSequential, FaultsOnRun;
    var m' := Cycle(m, taken);
    var ev := EventOf(m, gh, taken);
    var w := Observe(m, taken);
    var o := ObservationOf(m, taken);
    StepHolds(m, gh, taken);
    FailureStops(m, gh, start, taken);
    FailedOnRun(m, gh, start);
    FailedAccess(m, gh, start);
    FailureIsNotHalt(m, gh, start);
    ControlHolds(m, gh, taken, w, o, ev, m');
    if m.lsq.cur[m.lsq.head].kind.STORE? { FaultHere(start, m.committed, gh.arch); }
    FaultKept(m, start, m');
    CommitIsStep(m, gh, start, taken, w, o, ev, m');
    OrderAfterCycle(m, gh, taken, w, o, ev, m');
    MemoryStepHolds(m, gh, taken, w, o, ev, m');
    FailingResponse(m);
    FailureKeepsMemory(m, gh, ev, w.lsq.request, m');
  }

  lemma FailingResponse(m: Machine)
    requires InRange(m) && AccessFails(m)
    ensures m.memory.response.valid && !m.memory.response.success
  {
    hide PreviewRob;
  }

  /** However the machine stops, its architectural state and the reason are the sequential run's. */
  lemma StopIsArchitectural(m: Machine, gh: Ghost, start: Arch, taken: bool)
    requires Inv(m, gh, start)
    ensures InRange(m)
    ensures Cycle(m, taken).status != Running ==> StoppedAt(Cycle(m, taken), start)
  {
    hide Consistent, Stepped, EventOf, Cycle, AllFetched, Observe, ObservationOf, And, EventOk, Transition, AccessFails,
         WellFormed, Chained, AllMeaningful, EntriesMatch, StationsOk, UnitOk, QueueOk, LoadBufferOk, RatExact,
         RatMeaning, Mispredicted, RS.Apply, LSQ.Apply, LSQ.Plan, MU.Apply, FU.NextResult, Decode, ReadWord,
         FaultIsSequential;
    StepHolds(m, gh, taken);
    var m' := Cycle(m, taken);
    var ev := EventOf(m, gh, taken);
    var w := Observe(m, taken);
    var o := ObservationOf(m, taken);
    ControlHolds(m, gh, taken, w, o, ev, m');
    StepParts(m, gh, taken, w, o, ev, m');
    FailureIsReported(m, taken);
    if w.rob.commit.halted {
      HaltIsArchitectural(m, gh, start, w, ev, m');
    } else if w.lsq.memoryError {
      FaultIsArchitectural(m, gh, start, taken);
    } else if m'.status != Running {
      StatusWires(m, gh, taken);
      EmptyIsSequential(m, gh);
      EmptyStop(m, gh, taken);
    }
  }

  lemma QueueIsWellFormed(m: Machine, slots: SlotTable)
    requires QueueOk(m.lsq, m.rob, slots)
    ensures WellFormedLsq(m.lsq)
  {
  }

  lemma NoFlushOnError(lsq: LsqState, o: LsqObserve)
    requires lsq.head < LSQ_CAPACITY && LSQ.Plan(lsq, o).memoryError
    ensures !o.flush
  {
    hide MaySend, Extend;
  }

  lemma FailedHeadInPlace(lsq: LsqState, o: LsqObserve, inputs: LsqInputs)
    requires WellFormedLsq(lsq) && !inputs.flush
    requires LSQ.Plan(lsq, o).memoryError
    ensures var d := LSQ.Plan(lsq, o);
            && !d.removeHead
            && LSQ.Apply(lsq, inputs, d).head == lsq.head
            && LSQ.Apply(lsq, inputs, d).cur[lsq.head].kind == lsq.cur[lsq.head].kind
            && LSQ.Apply(lsq, inputs, d).cur[lsq.head].destination == lsq.cur[lsq.head].destination
  {
    hide WakeOperand, Extend, Rearranged, UpdateAddresses;
    var d := LSQ.Plan(lsq, o);
    assert lsq.count > 0 && !d.removeHead;
    LsqHeadIsValid(lsq);
    if LSQ.IssueAccepted(lsq, inputs) { LsqTailAge(lsq); }
    ApplySlot(lsq, inputs, d, lsq.head);
  }
}
