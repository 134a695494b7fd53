// Why the refinement theorems need stable code: a program that stores into the
// next word it executes, and the machine that executes the old word.
module SelfModifying {
  import opened Types
  import opened Image
  import opened Isa
  import opened Decoder
  import opened DecoderInverse
  import opened EncoderInverse
  import opened ReorderBuffers
  import opened LoadStoreQueues
  import opened Pipeline
  import opened Invariants
  import opened RobSteps
  import opened QueueSteps
  import opened CycleSteps
  import opened Refinement
  import opened Stops
  import opened Progress
  import opened Theorems
  import opened Programs
  import opened ShortRuns
  import ReadOverWrite
  import ROB = ReorderBuffers
  import LSQ = LoadStoreQueues
  import MU = MemoryUnits
  import RS = ReservationStations
  import FU = FunctionalUnits
  import Issue = IssueUnits

  /** sw x0, 4(x0); halt. The store turns the halt into an illegal word. */
  function Program(): seq<Word> { [Encode(RecordS(SW, 0, 0, 4)), HALT_ENCODING] }

  // --- The sequential run -------------------------------------------------------------------

  ghost predicate HoldsProgram(image: Bytes) {
    && ReadWord(image, 0).Some? && Decode(ReadWord(image, 0).value) == RecordS(SW, 0, 0, 4)
    && ReadWord(image, 4).Some? && Decode(ReadWord(image, 4).value) == NO_INSTRUCTION.(op := HALT)
  }

  /** There is such an image. */
  lemma ProgramExists() returns (image: Bytes)
    ensures HoldsProgram(image)
  {
    hide Decode, Encode, ReadWord, Loaded;
    image := Loaded(Program());
    LoadedWord(Program(), 0);
    LoadedWord(Program(), 1);
    RoundTripS(SW, 0, 0, 4);
    FixedWords();
  }

  lemma StoreStep(mem: Bytes)
    requires ReadWord(mem, 0).Some? && Decode(ReadWord(mem, 0).value) == RecordS(SW, 0, 0, 4)
    ensures Isa.Step(Boot(mem)).Next? && Isa.Step(Boot(mem)).state.pc == 4
    ensures Write(mem, 4, WORD, 0) == Some(Isa.Step(Boot(mem)).state.mem)
  {
    hide Decode, ReadWord, Patched;
  }

  lemma OverwrittenStep(a: Arch, mem: Bytes)
    requires a.pc == 4 && Write(mem, 4, WORD, 0) == Some(a.mem)
    ensures Isa.Step(a) == IllegalInstruction
  {
    hide Decode, ReadWord, Write, RawRead, Position;
    AddressInBounds(1);
    ReadOverWrite.ReadBack(mem, 4, WORD, 0);
    WordIsRaw(a.mem, 4);
    FixedWords();
  }

  /** The sequential machine stores, and stops at the illegal word it made. */
  lemma SequentialRun(mem: Bytes)
    requires HoldsProgram(mem)
    ensures var start := Boot(mem);
            && Isa.Step(start).Next?
            && StateAt(start, 1).Some? && Isa.Step(StateAt(start, 1).value) == IllegalInstruction
  {
    hide Decode, ReadWord, Boot, Isa.Step;
    StoreStep(mem);
    OverwrittenStep(Isa.Step(Boot(mem)).state, mem);
    assert StateAt(Boot(mem), 1) == Some(Isa.Step(Boot(mem)).state);
  }

  // --- The machine ------------------------------------------------------------------------------

  ghost predicate NoControl(rob: RobState) {
    forall i :: 0 <= i < ROB_CAPACITY && rob.cur[i].valid ==> !IsControl(rob.cur[i])
  }

  ghost predicate StoresOnly(lsq: LsqState) {
    forall l :: 0 <= l < LSQ_CAPACITY && lsq.cur[l].valid ==> lsq.cur[l].kind.STORE?
  }

  /** The halt, fetched before the store landed, waits behind it. */
  ghost predicate HaltWaits(m: Machine) { m.fetchStopped && NoControl(m.rob) && StoresOnly(m.lsq) }

  lemma NothingFetched(m: Machine, taken: bool)
    requires InRange(m) && m.fetchStopped
    ensures var w := Observe(m, taken);
            !IssueEffective(w) && !w.issue.writeLsq && !w.fetchError && w.issue.status == Issue.NothingToIssue
  {
    hide RS.Plan, LSQ.Plan, PlanCdb, PreviewRob, ROB.Plan;
  }

  /** A stopped fetch issues nothing until the machine halts or an access fails. */
  ghost predicate Drains(m: Machine, w: Wires, ev: Event, m': Machine) {
    && !ev.issued && !w.issue.writeLsq && m'.fetchStopped
    && m'.status in {Running, Status.Halted, MemoryOutOfBound}
    && (m'.status == MemoryOutOfBound ==> w.lsq.memoryError)
  }

  lemma Draining(m: Machine, gh: Ghost, taken: bool, w: Wires, o: LsqObserve, ev: Event, m': Machine)
    requires InRange(m) && Stepped(m, gh, taken, w, o, ev, m') && HaltWaits(m)
    ensures !ev.flush && Drains(m, w, ev, m')
  {
    hide Stepped, Consistent, Observe, EventOk, Transition, StoresOnly, IssueEffective, Fetched, StationFor, PreviewRob,
         PlanCdb, RS.Plan, LSQ.Plan, MU.Available, ObservationOf;
    NothingFetched(m, taken);
    WireParts(m, gh, taken, w, o, ev, m');
    ControlHolds(m, gh, taken, w, o, ev, m');
    RobInOrder(m, gh) by { StepParts(m, gh, taken, w, o, ev, m'); }
    HeadIsValid(m.rob);
  }

  lemma NoControlAfter(rob: RobState, slots: SlotTable, rob': RobState, ev: Event)
    requires WellFormed(rob) && EventOk(rob, slots, ev) && Transition(rob, rob', ev) && NoControl(rob)
    requires ev.issued ==> !IsControl(ev.entry)
    ensures NoControl(rob')
  {
    hide ResultOk, Age;
    forall i | 0 <= i < ROB_CAPACITY && rob'.cur[i].valid
      ensures !IsControl(rob'.cur[i])
    {
      Survivor(rob, slots, rob', ev, i);
    }
  }

  lemma StoresOnlyAfter(m: Machine, o: LsqObserve, inputs: LsqInputs, m': Machine)
    requires InRange(m) && AccessStep(m, o, inputs, m') && StoresOnly(m.lsq)
    requires inputs.issueValid ==> inputs.issueEntry.kind.STORE?
    ensures StoresOnly(m'.lsq)
    ensures LSQ.Plan(m.lsq, o).memoryError ==> m'.lsq.head < LSQ_CAPACITY && m'.lsq.cur[m'.lsq.head].kind.STORE?
  {
    hide LSQ.Plan, LSQ.Apply, Answered, MU.Apply, PlanCdb, PreviewRob, WellFormedLsq;
    RemoveOrSend(m.lsq, o);
    KindsKept(m.lsq, inputs, LSQ.Plan(m.lsq, o));
    if LSQ.Plan(m.lsq, o).memoryError {
      ErrorIsAnswer(m.lsq, o);
      AnsweredIsValid(m.lsq, o);
      FailedHeadInPlace(m.lsq, o, inputs);
    }
  }

  lemma AnsweredIsValid(lsq: LsqState, o: LsqObserve)
    requires lsq.head < LSQ_CAPACITY && Answered(lsq, o)
    ensures lsq.cur[lsq.head].valid
  {
  }

  lemma KindsKept(lsq: LsqState, inputs: LsqInputs, decision: LsqDecision)
    requires WellFormedLsq(lsq) && !inputs.flush
    requires decision.removeHead ==> lsq.count > 0
    requires decision.markRequestSent ==> !decision.removeHead
    ensures forall l :: 0 <= l < LSQ_CAPACITY && LSQ.Apply(lsq, inputs, decision).cur[l].valid ==>
              || (lsq.cur[l].valid && LSQ.Apply(lsq, inputs, decision).cur[l].kind == lsq.cur[l].kind)
              || (inputs.issueValid && LSQ.Apply(lsq, inputs, decision).cur[l].kind == inputs.issueEntry.kind)
  {
    hide LSQ.Apply, WakeOperand, LsqAge;
    forall l | 0 <= l < LSQ_CAPACITY && LSQ.Apply(lsq, inputs, decision).cur[l].valid
      ensures || (lsq.cur[l].valid && LSQ.Apply(lsq, inputs, decision).cur[l].kind == lsq.cur[l].kind)
              || (inputs.issueValid && LSQ.Apply(lsq, inputs, decision).cur[l].kind == inputs.issueEntry.kind)
    {
      ApplySlot(lsq, inputs, decision, l);
    }
  }

  // --- The first two cycles -----------------------------------------------------------------------

  /** The store has been issued, and nothing else. */
  ghost predicate StoreIssued(m: Machine, image: Bytes) {
    && InRange(m) && m.pc == 4 && m.memory.bytes == image && !m.memory.response.valid && !m.fetchStopped
    && m.rob.count == 1 && m.rob.head == 0 && !m.rob.cur[0].ready
    && !RS.Full(m.rs.cur) && !LsqFull(m.lsq) && NoControl(m.rob) && StoresOnly(m.lsq)
  }

  lemma QuietPort(m: Machine, o: LsqObserve, inputs: LsqInputs, m': Machine)
    requires InRange(m) && AccessStep(m, o, inputs, m') && o.response == m.memory.response && !m.memory.response.valid
    ensures !LSQ.Plan(m.lsq, o).memoryError
    ensures !m.memory.transaction.valid ==> m'.memory.bytes == m.memory.bytes && !m'.memory.response.valid
  {
    hide LSQ.Apply, PlanCdb, PreviewRob, MaySend, Extend, MakeRequest, WellFormedLsq, MU.NextTransaction, MU.Respond;
  }

  lemma NothingYet(image: Bytes)
    requires ReadWord(image, 0).Some? && Decode(ReadWord(image, 0).value) == RecordS(SW, 0, 0, 4)
    ensures var m := Reset(image);
            && RoomToIssue(m) && Unfinished(m) && Fetched(m) == RecordS(SW, 0, 0, 4)
            && NoControl(m.rob) && StoresOnly(m.lsq) && !m.memory.response.valid && !m.memory.transaction.valid
            && m.pc == 0 && m.memory.bytes == image && m.rob == EMPTY_ROB && m.rs.cur == RS.EMPTY_STATIONS
                && m.lsq == EMPTY_LSQ
  {
    hide Decode, ReadWord;
    assert !RS.EMPTY_STATIONS[0].busy;
  }

  // The first entry of an empty buffer.
  lemma FirstEntry(rob: RobState, rob': RobState, ev: Event)
    requires rob == EMPTY_ROB && Transition(rob, rob', ev) && !ev.commit && !ev.flush && ev.issued && !ev.entry.ready
    ensures rob'.count == 1 && rob'.head == 0 && !rob'.cur[0].ready
  {
  }

  lemma RoomAfterFirst(m: Machine, inputs: RS.RsInputs, o: LsqObserve, lsq: LsqInputs, m': Machine)
    requires InRange(m) && ExecutionStep(m, inputs, m') && AccessStep(m, o, lsq, m') && !inputs.issueValid
    requires m.rs.cur == RS.EMPTY_STATIONS && m.lsq == EMPTY_LSQ
    ensures !RS.Full(m'.rs.cur) && !LsqFull(m'.lsq)
  {
    hide RS.Plan, LSQ.Plan, UpdateAddresses, Rearranged, PlanCdb, PreviewRob, FU.NextResult, MU.Apply, FU.CanAccept,
         FU.Executable;
    assert !m'.rs.cur[0].busy;
  }

  lemma SecondHasRoom(m: Machine, image: Bytes)
    requires StoreIssued(m, image)
    requires ReadWord(image, 4).Some? && Decode(ReadWord(image, 4).value) == NO_INSTRUCTION.(op := HALT)
    ensures NoControl(m.rob) && StoresOnly(m.lsq) && !m.memory.response.valid
    ensures RoomToIssue(m) && Unfinished(m) && Fetched(m).op.HALT? && !Fetched(m).isBranch && !Fetched(m).isJump
    ensures !Issue.NeedsLsq(Fetched(m))
  {
    hide Decode, ReadWord, NoControl, StoresOnly, RS.Full;
  }

  // --- The run ----------------------------------------------------------------------------------------

  lemma RunStores(image: Bytes, predict: nat -> bool)
    requires HoldsProgram(image)
    ensures RunFor(image, predict, 1).status == Running && StoreIssued(RunFor(image, predict, 1), image)
  {
    hide RunFor, Decode, ReadWord, NoControl, StoresOnly, RS.Full, LsqFull, RoomToIssue, Unfinished, SourceOf,
         Issue.ResolveRegister, Fetched, ExecutionStep, AccessStep, LSQ.Plan, EventOk, Transition, WellFormed, PlanCdb,
         Reset;
    var m, m' := RunFor(image, predict, 0), RunFor(image, predict, 1);
    RunStart(image, predict);
    ResetRuns(image);
    NothingYet(image);
    var slots, w, o, ev := RunIssues(image, predict, 0);
    QuietPort(m, o, LsqInputsOf(w), m');
    NoControlAfter(m.rob, slots, m'.rob, ev);
    StoresOnlyAfter(m, o, LsqInputsOf(w), m');
    FirstEntry(m.rob, m'.rob, ev);
    RoomAfterFirst(m, RsInputsOf(m, w), o, LsqInputsOf(w), m');
  }

  /** The halt, fetched before the store landed, waits behind it until the machine halts or the store fails. */
  lemma {:induction false} RunWaits(image: Bytes, predict: nat -> bool, n: nat)
    requires HoldsProgram(image) && n >= 2
    ensures var m := RunFor(image, predict, n);
            && m.status in {Running, Status.Halted, MemoryOutOfBound}
            && (m.status == Running ==> HaltWaits(m))
            && (m.status == MemoryOutOfBound ==> m.lsq.head < LSQ_CAPACITY && m.lsq.cur[m.lsq.head].kind.STORE?)
  {
    hide RunFor, Cycle, Consistent, Stepped, Observe, ObservationOf, EventOf, StoreIssued, Decode, ReadWord, NoControl,
         StoresOnly, RoomToIssue, Unfinished, Fetched, SourceOf, Issue.ResolveRegister, ExecutionStep, AccessStep,
         LSQ.Plan, EventOk, Transition, WellFormed, PlanCdb;
    var m, m' := RunFor(image, predict, n - 1), RunFor(image, predict, n);
    if n == 2 {
      RunStores(image, predict);
      SecondHasRoom(m, image);
      var slots, w, o, ev := RunIssues(image, predict, 1);
      QuietPort(m, o, LsqInputsOf(w), m');
      NoControlAfter(m.rob, slots, m'.rob, ev);
      StoresOnlyAfter(m, o, LsqInputsOf(w), m');
    } else {
      RunWaits(image, predict, n - 1);
      RunStep(image, predict, n - 1);
      if m.status == Running {
        var gh := RunIsConsistent(image, predict, n - 1);
        StepHolds(m, gh, predict(n - 1));
        var w, o, ev := Observe(m, predict(n - 1)), ObservationOf(m, predict(n - 1)), EventOf(m, gh, predict(n - 1));
        Draining(m, gh, predict(n - 1), w, o, ev, m');
        QuietCycleHolds(m, gh, predict(n - 1), w, o, ev, m');
        NoControlAfter(m.rob, gh.slots, m'.rob, ev);
        StoresOnlyAfter(m, o, LsqInputsOf(w), m');
      } else {
        StoppedStays(m, predict(n - 1));
      }
    }
  }

  /** Whatever is predicted, the machine executes the old word where the sequential machine finds the
      new one: code that changes just before it is fetched is not kept in order. */
  lemma StaleFetch(image: Bytes, predict: nat -> bool)
    requires HoldsProgram(image)
    ensures !Refines(RunFor(image, predict, COMMIT_BOUND * 2), Boot(image))
  {
    hide RunFor, HaltWaits, Boot, HoldsProgram, Isa.Step, StateAt, FaultsOnRun;
    var start := Boot(image);
    var m := RunFor(image, predict, COMMIT_BOUND * 2);
    SequentialRun(image);
    RunWaits(image, predict, COMMIT_BOUND * 2);
    LinearTime(image, predict, 2);
    if StateAt(start, m.committed).Some? {
      if m.committed > 1 { EarlierStates(start, 1, m.committed); }
      ShortRun(start, m.committed);
    }
  }

  // The only states there are.
  lemma ShortRun(start: Arch, n: nat)
    requires Isa.Step(start).Next? && StateAt(start, 1).Some? && Isa.Step(StateAt(start, 1).value) == IllegalInstruction
    requires n <= 1 && StateAt(start, n).Some?
    ensures !Isa.Step(StateAt(start, n).value).Halted? && Isa.Step(StateAt(start, n).value) != MemoryFault
  {
    hide Isa.Step;
  }
}
