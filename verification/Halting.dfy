// Programs that halt: the machine halts with them, unless a load of a
// mispredicted path fails first, and never does when predictions are right.
module Halting {
  import opened Types
  import opened Image
  import opened Isa
  import opened Decoder
  import opened ReorderBuffers
  import opened LoadStoreQueues
  import opened Pipeline
  import opened Invariants
  import opened RobSteps
  import opened CycleSteps
  import opened Refinement
  import opened SpeculativePath
  import opened Stops
  import opened Progress
  import opened Theorems
  import LSQ = LoadStoreQueues
  import RS = ReservationStations
  import MU = MemoryUnits
  import FU = FunctionalUnits

  /** The sequential machine halts at step n. */
  ghost predicate HaltsAt(start: Arch, n: nat, exitCode: Word) {
    StateAt(start, n).Some? && Isa.Step(StateAt(start, n).value) == Isa.Halted(exitCode)
  }

  /** The machine has halted in the sequential machine's last state. */
  ghost predicate HaltedAs(m: Machine, start: Arch, n: nat, exitCode: Word) {
    && StateAt(start, n).Some?
    && m.status == Status.Halted && m.exitCode == exitCode && m.committed == n
    && m.regs == StateAt(start, n).value.regs && m.memory.bytes == StateAt(start, n).value.mem
  }

  lemma HaltingRunNeverFaults(start: Arch, n: nat, exitCode: Word, k: nat)
    requires HaltsAt(start, n, exitCode)
    ensures !FaultsAt(start, k)
  {
    hide Isa.Step, StateAt;
    if FaultsAt(start, k) { StopIsUnique(start, n, k); }
  }

  /** Total correctness: a program that halts sequentially after n steps makes the machine stop within
      36 * (n + 1) cycles, halted with the same exit code, registers and memory; the one other way out
      is a failed load that the sequential run does not execute next. */
  lemma HaltingPrograms(bytes: Bytes, predict: nat -> bool, n: nat, exitCode: Word)
    requires HaltsAt(Boot(bytes), n, exitCode) && InOrderFetches(bytes, predict, COMMIT_BOUND * (n + 1))
    ensures var m := RunFor(bytes, predict, COMMIT_BOUND * (n + 1));
            || HaltedAs(m, Boot(bytes), n, exitCode)
            || (m.status == MemoryOutOfBound && WrongPathLoad(m, Boot(bytes)))
  {
    hide InOrderFetches, Boot, RunFor, Isa.Step, StateAt, OnSequentialRun, FaultsAt;
    var start := Boot(bytes);
    var m := RunFor(bytes, predict, COMMIT_BOUND * (n + 1));
    LinearTime(bytes, predict, n + 1);
    MachineRefinesIsa(bytes, predict, COMMIT_BOUND * (n + 1));
    if m.status == Running {
      EarlierStates(start, n, m.committed);
    } else if m.status == MemoryOutOfBound {
      HaltingRunNeverFaults(start, n, exitCode, m.committed);
      HaltingRunNeverFaults(start, n, exitCode, m.committed + PositionInBuffer(m));
    } else {
      StopIsUnique(start, n, m.committed);
    }
  }

  /** How far behind the oldest instruction the access at the head of the queue is. */
  function PositionInBuffer(m: Machine): nat {
    if m.rob.head < ROB_CAPACITY && m.lsq.head < LSQ_CAPACITY && m.lsq.cur[m.lsq.head].destination.index < ROB_CAPACITY
    then Age(m.rob.head, m.lsq.cur[m.lsq.head].destination.index)
    else 0
  }

  // --- Exactly when ------------------------------------------------------------------------

  /** In this cycle the port answers a load of a mispredicted path with a failure. */
  ghost predicate Misled(m: Machine, start: Arch)
    requires InRange(m)
  {
    m.status == Running && AccessFails(m) && WrongPathLoad(m, start)
  }

  lemma {:induction false} StopCycle(bytes: Bytes, predict: nat -> bool, n: nat) returns (j: nat)
    requires RunFor(bytes, predict, n).status != Running
    ensures j < n && RunFor(bytes, predict, j).status == Running
    ensures RunFor(bytes, predict, j + 1) == RunFor(bytes, predict, n)
  {
    hide Cycle;
    ResetRuns(bytes);
    j := n - 1;
    if RunFor(bytes, predict, j).status != Running {
      StoppedStays(RunFor(bytes, predict, j), predict(j));
      j := StopCycle(bytes, predict, n - 1);
    }
  }

  /** What a failed access does to the machine at cycle j of a run. */
  lemma FailureAt(bytes: Bytes, predict: nat -> bool, j: nat)
    requires InOrderFetches(bytes, predict, j)
    requires RunFor(bytes, predict, j).status == Running && AccessFails(RunFor(bytes, predict, j))
    ensures RunFor(bytes, predict, j + 1).status == MemoryOutOfBound
    ensures WrongPathLoad(RunFor(bytes, predict, j), Boot(bytes)) <==>
              WrongPathLoad(RunFor(bytes, predict, j + 1), Boot(bytes))
  {
    hide InOrderFetches, Boot, RunFor, Cycle, Inv, AccessFails, OnSequentialRun, Age, StoppedAt;
    var gh := RunKeepsInv(bytes, predict, j);
    FailureStops(RunFor(bytes, predict, j), gh, Boot(bytes), predict(j));
    RunStep(bytes, predict, j);
  }

  /** A program that halts sequentially after n steps halts on the machine, within 36 * (n + 1) cycles, if
      and only if in none of those cycles a load of a mispredicted path is answered with a failure. */
  lemma HaltsUnlessMisled(bytes: Bytes, predict: nat -> bool, n: nat, exitCode: Word)
    requires HaltsAt(Boot(bytes), n, exitCode) && InOrderFetches(bytes, predict, COMMIT_BOUND * (n + 1))
    ensures HaltedAs(RunFor(bytes, predict, COMMIT_BOUND * (n + 1)), Boot(bytes), n, exitCode) <==>
              forall j: nat :: j < COMMIT_BOUND * (n + 1) ==> !Misled(RunFor(bytes, predict, j), Boot(bytes))
  {
    hide InOrderFetches, Boot, RunFor, AccessFails, WrongPathLoad, HaltsAt, StateAt;
    var bound := COMMIT_BOUND * (n + 1);
    HaltingPrograms(bytes, predict, n, exitCode);
    if !HaltedAs(RunFor(bytes, predict, bound), Boot(bytes), n, exitCode) {
      var j := FailedCycle(bytes, predict, bound);
    }
    forall j: nat | j < bound && Misled(RunFor(bytes, predict, j), Boot(bytes))
      ensures !HaltedAs(RunFor(bytes, predict, bound), Boot(bytes), n, exitCode)
    {
      FewerFetches(bytes, predict, j, bound);
      FailureAt(bytes, predict, j);
      CountsGrow(bytes, predict, j + 1, bound - (j + 1));
    }
  }

  /** A run that ended at a load of a mispredicted path was misled in one of its cycles. */
  lemma FailedCycle(bytes: Bytes, predict: nat -> bool, n: nat) returns (j: nat)
    requires InOrderFetches(bytes, predict, n)
    requires RunFor(bytes, predict, n).status == MemoryOutOfBound
    requires WrongPathLoad(RunFor(bytes, predict, n), Boot(bytes))
    ensures j < n && Misled(RunFor(bytes, predict, j), Boot(bytes))
  {
    hide InOrderFetches, Boot, RunFor, AccessFails, WrongPathLoad, Observe;
    j := StopCycle(bytes, predict, n);
    RunStep(bytes, predict, j);
    FailureIsReported(RunFor(bytes, predict, j), predict(j));
    FewerFetches(bytes, predict, j, n);
    FailureAt(bytes, predict, j);
  }

  // --- Right predictions --------------------------------------------------------------------

  /** The instruction the sequential run executes at step k. */
  function InstructionAt(start: Arch, k: nat): DecodedInstruction {
    match StateAt(start, k)
    case None => NO_INSTRUCTION
    case Some(a) => match ReadWord(a.mem, a.pc) { case None => NO_INSTRUCTION case Some(word) => Decode(word) }
  }

  /** What is predicted for step k is what the sequential run does there. */
  ghost predicate PredictsRun(start: Arch, k: nat, taken: bool) {
    StateAt(start, k).Some? && StateAt(start, k + 1).Some? ==>
      PredictedNextPc(InstructionAt(start, k), StateAt(start, k).value.pc, taken) == StateAt(start, k + 1).value.pc
  }

  /** The prediction of an instruction issued now is what the sequential run does at its position. */
  ghost predicate Foreseen(m: Machine, start: Arch, taken: bool)
    requires InRange(m)
  {
    Issues(m, taken) ==> PredictsRun(start, m.committed + m.rob.count, taken)
  }

  /** Every instruction in flight goes where it was predicted to go. */
  ghost predicate AllForeseen(rob: RobState, slots: SlotTable) {
    forall i :: 0 <= i < ROB_CAPACITY && rob.cur[i].valid ==> slots[i].post.pc == slots[i].nextPc
  }

  /** Behind right predictions nothing faults that the sequential run does not fault. */
  lemma {:induction false} NothingFaults(m: Machine, gh: Ghost, start: Arch, i: nat)
    requires PathInv(m, gh, start)
    requires forall k: nat :: !FaultsAt(start, k)
    requires i < ROB_CAPACITY && m.rob.cur[i].valid
    requires forall j :: 0 <= j < ROB_CAPACITY && m.rob.cur[j].valid && gh.slots[j].id < gh.slots[i].id ==>
               gh.slots[j].post.pc == gh.slots[j].nextPc
    ensures RightPath(m.rob, gh.slots, i) && !gh.slots[i].faults
    decreases gh.slots[i].id - m.committed
  {
    hide PathInv, StateAt, Isa.Step, Decode, ReadWord, Meaning, FaultsAt, RightPath, Age, WellFormed, Chained,
         EntriesMatch;
    PathParts(m, gh, start);
    Positions(m, gh);
    forall j | 0 <= j < ROB_CAPACITY && m.rob.cur[j].valid && gh.slots[j].id < gh.slots[i].id
      ensures !gh.slots[j].faults
    {
      NothingFaults(m, gh, start, j);
    }
    IsRightPath(m.rob, gh.slots, i);
    EntryIsSequential(m, gh, start, i);
    if gh.slots[i].faults {
      SlotStep(gh.slots[i]);
      FaultHere(start, gh.slots[i].id, gh.slots[i].pre);
    }
  }

  lemma IsRightPath(rob: RobState, slots: SlotTable, i: nat)
    requires i < ROB_CAPACITY
    requires forall j :: 0 <= j < ROB_CAPACITY && rob.cur[j].valid && slots[j].id < slots[i].id ==>
               slots[j].post.pc == slots[j].nextPc && !slots[j].faults
    ensures RightPath(rob, slots, i)
  {
  }

  /** An instruction that is predicted as the sequential run goes on was predicted right. */
  lemma NewIsForeseen(start: Arch, e: RobEntry, s: Slot, taken: bool)
    requires s.id >= 0 && PredictsRun(start, s.id, taken) && EntryMatches(e, s) && Meaning(s) && !s.faults
    requires s.post.pc == PredictedNextPc(s.dec, s.pre.pc, taken) && StateAt(start, s.id) == Some(s.pre)
    requires var word := ReadWord(s.pre.mem, s.pre.pc); word.Some? && s.dec == Decode(word.value)
    ensures s.post.pc == s.nextPc
  {
    hide StateAt, Isa.Step, Decode, ReadWord, Meaning, PredictedNextPc, Finished;
    if ControlInstruction(s.dec) {
      NotHaltWhenControl(s);
      SlotStep(s);
      NextState(start, s.id, s.pre, s.post.(pc := s.nextPc));
    }
  }

  lemma NotHaltWhenControl(s: Slot)
    requires Meaning(s) && ControlInstruction(s.dec)
    ensures !s.dec.op.HALT?
  {
    hide ResultValue, Successor, Faults, After;
  }

  /** What was foreseen before a cycle is so after it. */
  lemma SurvivorsAreForeseen(rob: RobState, slots: SlotTable, rob': RobState, ev: Event)
    requires WellFormed(rob) && EventOk(rob, slots, ev) && Transition(rob, rob', ev) && AllForeseen(rob, slots)
    ensures forall i :: 0 <= i < ROB_CAPACITY && rob'.cur[i].valid && !(ev.issued && i == rob.tail) ==>
              SlotsAfter(rob, slots, ev)[i].post.pc == SlotsAfter(rob, slots, ev)[i].nextPc
    ensures ev.issued ==>
              && rob'.cur[rob.tail] == ev.entry && ev.entry.valid
              && SlotsAfter(rob, slots, ev)[rob.tail] == ev.slot
  {
    hide ResultOk, Age;
    forall i | 0 <= i < ROB_CAPACITY && rob'.cur[i].valid && !(ev.issued && i == rob.tail)
      ensures SlotsAfter(rob, slots, ev)[i].post.pc == SlotsAfter(rob, slots, ev)[i].nextPc
    {
      Survivor(rob, slots, rob', ev, i);
    }
  }

  lemma IssuedIsForeseen(m: Machine, gh: Ghost, start: Arch, i: nat, taken: bool)
    requires PathInv(m, gh, start) && i < ROB_CAPACITY && m.rob.cur[i].valid
    requires forall k: nat :: !FaultsAt(start, k)
    requires forall j :: 0 <= j < ROB_CAPACITY && m.rob.cur[j].valid && j != i ==>
               gh.slots[j].post.pc == gh.slots[j].nextPc
    requires gh.slots[i].post.pc == PredictedNextPc(gh.slots[i].dec, gh.slots[i].pre.pc, taken)
    requires gh.slots[i].id >= 0 ==> PredictsRun(start, gh.slots[i].id, taken)
    ensures gh.slots[i].post.pc == gh.slots[i].nextPc
  {
    hide PathInv, WellFormed, Chained, Meaning, EntryMatches, FaultsAt, StateAt, Decode, ReadWord, RightPath,
         PredictedNextPc, PredictsRun;
    PathParts(m, gh, start);
    NothingFaults(m, gh, start, i);
    EntryIsSequential(m, gh, start, i);
    NewIsForeseen(start, m.rob.cur[i], gh.slots[i], taken);
  }

  // The issued instruction's slot carries the prediction.
  lemma IssuedPrediction(m: Machine, gh: Ghost, taken: bool, w: Wires, o: LsqObserve, ev: Event, m': Machine)
    requires InRange(m) && Stepped(m, gh, taken, w, o, ev, m') && ev.issued
    ensures Issues(m, taken) && ev.slot.id == m.committed + m.rob.count
    ensures ev.slot.post.pc == PredictedNextPc(ev.slot.dec, ev.slot.pre.pc, taken)
  {
    hide Stepped, Observe, IssueEffective, EventOk, Transition, Fetched, PredictedNextPc, EntryMatches, Meaning;
    IssuedFacts(m, gh, taken, w, o, ev, m');
    WireParts(m, gh, taken, w, o, ev, m');
    ControlHolds(m, gh, taken, w, o, ev, m');
  }

  /** Foreseen predictions stay right for everything in flight. */
  lemma ForeseenAfter(m: Machine, gh: Ghost, start: Arch, taken: bool)
    requires Inv(m, gh, start)
    requires forall k: nat :: !FaultsAt(start, k)
    requires InRange(m) && AllForeseen(m.rob, gh.slots) && Foreseen(m, start, taken) && FetchesInOrder(m, start, taken)
    ensures var m' := Cycle(m, taken);
            var gh' := NextGhost(m, gh, taken);
            m'.status == Running ==> Inv(m', gh', start) && AllForeseen(m'.rob, gh'.slots)
  {
    hide Consistent, Stepped, EventOf, Cycle, AllFetched, FetchesInOrder, Observe, ObservationOf, PredictsRun, StateAt,
         FaultsAt, PathInv, EventOk, Transition, WellFormed, Chained, AllMeaningful, EntriesMatch, StationsOk, UnitOk,
         QueueOk, LoadBufferOk, RatExact, RatMeaning, RS.Apply, LSQ.Apply, MU.Apply, FU.NextResult, PredictedNextPc,
         GhostAfter, SlotsAfter, Issues;
    var m', w, o, ev := Cycle(m, taken), Observe(m, taken), ObservationOf(m, taken), EventOf(m, gh, taken);
    StepHolds(m, gh, taken);
    StepParts(m, gh, taken, w, o, ev, m');
    InvAfter(m, gh, start, taken);
    if m'.status == Running {
      SlotsOfGhost(m.rob, gh, ev);
      SurvivorsAreForeseen(m.rob, gh.slots, m'.rob, ev);
      if ev.issued {
        IssuedPrediction(m, gh, taken, w, o, ev, m');
        PathOfInv(m', NextGhost(m, gh, taken), start);
        IssuedIsForeseen(m', NextGhost(m, gh, taken), start, m.rob.tail, taken);
      }
    }
  }

  lemma {:induction false} RunIsForeseen(bytes: Bytes, predict: nat -> bool, n: nat) returns (gh: Ghost)
    requires InOrderFetches(bytes, predict, n)
    requires forall k: nat :: !FaultsAt(Boot(bytes), k)
    requires forall j: nat :: j < n ==> Foreseen(RunFor(bytes, predict, j), Boot(bytes), predict(j))
    ensures RunFor(bytes, predict, n).status == Running ==>
              Inv(RunFor(bytes, predict, n), gh, Boot(bytes)) && AllForeseen(RunFor(bytes, predict, n).rob, gh.slots)
  {
    hide Inv, RunFor, Cycle, FetchesInOrder, NextGhost, Boot, Foreseen, FaultsAt, AllForeseen;
    if n == 0 {
      RunStart(bytes, predict);
      ResetInv(bytes);
      gh := Ghost(Boot(bytes), Boot(bytes), NoSlots());
      NothingInFlight(bytes, gh);
    } else {
      gh := RunIsForeseen(bytes, predict, n - 1);
      RunStep(bytes, predict, n - 1);
      var m := RunFor(bytes, predict, n - 1);
      if m.status == Running {
        ForeseenAfter(m, gh, Boot(bytes), predict(n - 1));
        gh := NextGhost(m, gh, predict(n - 1));
      } else {
        StoppedStays(m, predict(n - 1));
      }
    }
  }

  lemma NothingInFlight(bytes: Bytes, gh: Ghost)
    ensures AllForeseen(Reset(bytes).rob, gh.slots)
  {
  }

  /** With right predictions a program that halts sequentially halts on the machine. */
  lemma RightPredictionsHalt(bytes: Bytes, predict: nat -> bool, n: nat, exitCode: Word)
    requires HaltsAt(Boot(bytes), n, exitCode) && InOrderFetches(bytes, predict, COMMIT_BOUND * (n + 1))
    requires forall j: nat :: j < COMMIT_BOUND * (n + 1) ==>
               Foreseen(RunFor(bytes, predict, j), Boot(bytes), predict(j))
    ensures HaltedAs(RunFor(bytes, predict, COMMIT_BOUND * (n + 1)), Boot(bytes), n, exitCode)
  {
    hide InOrderFetches, Boot, RunFor, HaltsAt, StateAt, Foreseen, FaultsAt, Misled, HaltedAs;
    forall k: nat ensures !FaultsAt(Boot(bytes), k) { HaltingRunNeverFaults(Boot(bytes), n, exitCode, k); }
    forall j: nat | j < COMMIT_BOUND * (n + 1)
      ensures !Misled(RunFor(bytes, predict, j), Boot(bytes))
    {
      FewerFetches(bytes, predict, j, COMMIT_BOUND * (n + 1));
      var gh := RunIsForeseen(bytes, predict, j);
      NotMisled(RunFor(bytes, predict, j), gh, Boot(bytes));
    }
    HaltsUnlessMisled(bytes, predict, n, exitCode);
  }

  lemma NotMisled(m: Machine, gh: Ghost, start: Arch)
    requires InRange(m)
    requires m.status == Running ==> Inv(m, gh, start) && AllForeseen(m.rob, gh.slots)
    requires forall k: nat :: !FaultsAt(start, k)
    ensures !Misled(m, start)
  {
    hide Inv, PathInv, FaultsAt, AccessFails, RightPath, OnSequentialRun;
    if Misled(m, start) {
      var i := m.lsq.cur[m.lsq.head].destination.index;
      FailedOnRun(m, gh, start);
      PathOfInv(m, gh, start);
      NothingFaults(m, gh, start, i);
      RightPathIsSequential(m, gh, start, i);
    }
  }

  // --- Programs that need no prediction --------------------------------------------------------

  /** Step k of the sequential run is no conditional branch and no indirect jump. */
  ghost predicate NeedsNoPrediction(start: Arch, k: nat) {
    !InstructionAt(start, k).isBranch && !InstructionAt(start, k).op.JALR?
  }

  lemma StraightIsForeseen(m: Machine, start: Arch, taken: bool)
    requires InRange(m)
    requires forall k: nat :: NeedsNoPrediction(start, k)
    ensures Foreseen(m, start, taken)
  {
    hide Decode, ReadWord, Issues, ResultValue, MemoryAfter, Faults, RegistersAfter;
    var k := m.committed + m.rob.count;
    assert NeedsNoPrediction(start, k);
    if StateAt(start, k).Some? {
      var a := StateAt(start, k).value;
      if ReadWord(a.mem, a.pc).Some? { DecodeIsWellFormed(ReadWord(a.mem, a.pc).value); }
    }
  }

  /** A program whose run executes no conditional branch and no indirect jump halts on the machine
      exactly as it halts sequentially, whatever is predicted. */
  lemma StraightProgramsHalt(bytes: Bytes, predict: nat -> bool, n: nat, exitCode: Word)
    requires HaltsAt(Boot(bytes), n, exitCode) && InOrderFetches(bytes, predict, COMMIT_BOUND * (n + 1))
    requires forall k: nat :: k < n ==> NeedsNoPrediction(Boot(bytes), k)
    ensures HaltedAs(RunFor(bytes, predict, COMMIT_BOUND * (n + 1)), Boot(bytes), n, exitCode)
  {
    hide InOrderFetches, Boot, RunFor, HaltsAt, StateAt, Foreseen, NeedsNoPrediction, HaltedAs;
    forall k: nat ensures NeedsNoPrediction(Boot(bytes), k) { PastTheEnd(Boot(bytes), n, exitCode, k); }
    forall j: nat | j < COMMIT_BOUND * (n + 1)
      ensures Foreseen(RunFor(bytes, predict, j), Boot(bytes), predict(j))
    {
      StraightIsForeseen(RunFor(bytes, predict, j), Boot(bytes), predict(j));
    }
    RightPredictionsHalt(bytes, predict, n, exitCode);
  }

  // From the halt on nothing is executed.
  lemma PastTheEnd(start: Arch, n: nat, exitCode: Word, k: nat)
    requires HaltsAt(start, n, exitCode)
    ensures k >= n ==> NeedsNoPrediction(start, k)
  {
    hide Decode, ReadWord, StateAt, Faults, After;
    if k > n && StateAt(start, k).Some? {
      EarlierStates(start, n, k);
    } else if k == n {
      var a := StateAt(start, n).value;
      if ReadWord(a.mem, a.pc).Some? { DecodeIsWellFormed(ReadWord(a.mem, a.pc).value); }
    }
  }
}
