// The run of the program of MisledProgram, cycle by cycle: the machine stops with
// a memory error although the program halts.
module MisledRun {
  import opened Types
  import opened WordArithmetic
  import opened Image
  import opened Isa
  import opened ReorderBuffers
  import opened LoadStoreQueues
  import opened Pipeline
  import opened RobSteps
  import opened CycleSteps
  import opened Refinement
  import opened Stops
  import opened Progress
  import opened Theorems
  import opened Halting
  import opened Guarantees
  import opened Programs
  import opened ShortRuns
  import LSQ = LoadStoreQueues
  import RS = ReservationStations
  import MU = MemoryUnits
  import Issue = IssueUnits
  import opened MisledProgram
  import opened MisledSteps

  // --- Ten cycles -----------------------------------------------------------------------------------------

  // The queue holds `count` loads, the oldest of them number i.
  predicate Queued(lsq: LsqState, head: nat, count: nat, i: nat, sent: bool) {
    lsq.head == head && lsq.count == count && lsq.tail == head + count && HeadIs(lsq, i, sent)
  }

  /** In the first cycles: n instructions in flight, the first load at the port. */
  ghost predicate Start(m: Machine, image: Bytes, n: nat) {
    && 1 <= n && Fresh(m, image, n) && !m.lsq.loadResult.valid
    && Queued(m.lsq, 0, if n == 4 then 2 else 1, 0, n > 1)
    && (n == 4 ==> Access(m.lsq.cur[1], 3, false))
    && (if n >= 2 then Waits(m.rs, 0) else !m.rs.cur[0].busy)
    && (if n >= 3 then Waits(m.rs, 1) else !m.rs.cur[1].busy)
    && !m.rs.cur[2].busy
    && (if n == 1 then Idle(m.memory) else Serving(m.memory, 0, 5 - n))
  }

  lemma StartIsIdle(m: Machine, image: Bytes, n: nat)
    requires HeldOnce(m) && WellFormed(m.rob) && Start(m, image, n)
    ensures !m.fu.valid
  {
    hide HeldOnce, WellFormed, FreshBuffer, Access;
    FreshParts(m, image, n);
    HeadHolds(m, 0, 0, n > 1);
    if n == 4 { SecondHolds(m); }
    UnitIdle(m, n);
  }

  lemma HeadHolds(m: Machine, l: nat, i: nat, sent: bool)
    requires HeadIs(m.lsq, i, sent) && m.lsq.head == l
    ensures Holds(InQueue(l), Tag(i), m)
  {
  }

  lemma SecondHolds(m: Machine)
    requires Access(m.lsq.cur[1], 3, false)
    ensures Holds(InQueue(1), Tag(3), m)
  {
  }

  lemma HasRoom(m: Machine, image: Bytes, n: nat)
    requires HoldsProgram(image) && Fresh(m, image, n) && n < 4 && !m.rs.cur[2].busy && m.lsq.count < 2
    ensures RoomToIssue(m) && NextTag(m.rob) == Tag(n)
  {
    hide HoldsProgram, WordAddress, Entry, Fetched, MU.Fetch;
    FetchedNow(m, image, n);
  }

  lemma StartCount(m: Machine, image: Bytes, n: nat)
    requires Start(m, image, n) && n < 4
    ensures m.lsq.count < 2 && m.memory.bytes == image && Fresh(m, image, n) && !m.rs.cur[2].busy
    ensures !m.lsq.loadResult.valid
  {
    hide Entry, WordAddress;
  }

  /** The first load's request leaves, and its transaction advances; the last instruction joins the queue. */
  lemma StartQueue(m: Machine, o: LsqObserve, inputs: LsqInputs, m': Machine, image: Bytes, n: nat)
    requires InRange(m) && AccessStep(m, o, inputs, m') && o.response == m.memory.response && !o.loadResultGranted
    requires Start(m, image, n) && n < 4 && inputs.issueValid == (n == 3)
    requires var e := inputs.issueEntry;
             n == 3 ==> && e.valid && e.kind.LOAD? && e.op.LW? && e.destination == Tag(3) && !e.addressReady
                        && e.base.ready && Add(e.base.value, e.immediate) == AddressOf(3)
    ensures !LSQ.Plan(m.lsq, o).memoryError && m'.memory.bytes == m.memory.bytes && !m'.lsq.loadResult.valid
    ensures Queued(m'.lsq, 0, if n + 1 == 4 then 2 else 1, 0, true)
    ensures n + 1 == 4 ==> Access(m'.lsq.cur[1], 3, false)
    ensures Serving(m'.memory, 0, 4 - n)
  {
    hide Fresh, LSQ.Plan, LSQ.Apply, MU.Apply, Access, Answered, WellFormedLsq, PlanCdb, PreviewRob, Add;
    PortTick(m.memory, LSQ.Plan(m.lsq, o).request, 0);
    if n == 3 { IssuedAccess(m.lsq, o, inputs, 3); }
    QueueWindow(m.lsq, o, inputs);
    if n == 1 { HeadSends(m.lsq, o, inputs, 0); } else { HeadWaitsHere(m.lsq, o, inputs, 0); }
  }

  lemma StartStations(rs: RS.RsState, inputs: RS.RsInputs, n: nat)
    requires 1 <= n < 4 && !inputs.flush && !inputs.cdb.valid && inputs.issueValid == (n < 3)
    requires n < 3 ==> && inputs.issueEntry.destination == Tag(n) && !inputs.issueEntry.lhs.ready
                       && inputs.issueEntry.lhs.tag == Tag(n - 1)
    requires (if n >= 2 then Waits(rs, 0) else !rs.cur[0].busy) && (if n >= 3 then Waits(rs, 1) else !rs.cur[1].busy)
    requires !rs.cur[2].busy
    ensures var rs' := RS.Apply(rs, inputs, RS.Plan(rs, false));
            Waits(rs', 0) && !rs'.cur[2].busy && if n + 1 >= 3 then Waits(rs', 1) else !rs'.cur[1].busy
  {
    hide RS.Plan, RS.Apply, Waits;
    if n < 3 {
      FirstIdle(rs, inputs, n - 1);
      IdleStays(rs, inputs, 2);
    }
    if n == 1 { IdleStays(rs, inputs, 1); }
    if n >= 2 { WaitingStays(rs, inputs, 0); }
    if n == 3 {
      WaitingStays(rs, inputs, 1);
      IdleStays(rs, inputs, 2);
    }
  }

  lemma ResetIsFresh(image: Bytes)
    ensures var m := Reset(image);
            && Fresh(m, image, 0) && !m.fu.valid && m.lsq == EMPTY_LSQ && Idle(m.memory) && m.memory.bytes == image
            && forall k :: 0 <= k < RS.RS_CAPACITY ==> !m.rs.cur[k].busy
  {
    hide Instruction;
  }

  // The first cycle issues the first load.
  lemma FirstQueue(m: Machine, o: LsqObserve, inputs: LsqInputs, m': Machine)
    requires InRange(m) && AccessStep(m, o, inputs, m') && o.response == m.memory.response
    requires m.lsq == EMPTY_LSQ && Idle(m.memory) && inputs.issueValid
    requires var e := inputs.issueEntry;
             && e.valid && e.kind.LOAD? && e.op.LW? && e.destination == Tag(0) && !e.addressReady
             && e.base.ready && Add(e.base.value, e.immediate) == AddressOf(0)
    ensures !LSQ.Plan(m.lsq, o).memoryError && m'.memory.bytes == m.memory.bytes && Idle(m'.memory)
    ensures Queued(m'.lsq, 0, 1, 0, false) && !m'.lsq.loadResult.valid
  {
    hide LSQ.Apply, MU.Apply, Access, WellFormedLsq, Add, PlanCdb, PreviewRob;
    PortTick(m.memory, LSQ.Plan(m.lsq, o).request, 0);
    IssuedAccess(m.lsq, o, inputs, 0);
    QueueWindow(m.lsq, o, inputs);
  }

  // --- The first load's answer -------------------------------------------------------------------------

  /** Everything is in flight; the first load is answered, or already in the buffer. */
  ghost predicate Loading(m: Machine, image: Bytes, buffered: bool) {
    && Fresh(m, image, 4) && Waits(m.rs, 0) && Waits(m.rs, 1)
    && (if buffered then
          Queued(m.lsq, 1, 1, 3, false) && m.lsq.loadResult.valid && m.lsq.loadResult.tag == Tag(0) && Idle(m.memory)
        else
          && Queued(m.lsq, 0, 2, 0, true) && Access(m.lsq.cur[1], 3, false) && !m.lsq.loadResult.valid
          && AnsweredTo(m.memory, 0, true))
  }

  /** The transaction ends. */
  lemma AnswerQueue(m: Machine, o: LsqObserve, inputs: LsqInputs, m': Machine)
    requires InRange(m) && AccessStep(m, o, inputs, m') && o.response == m.memory.response && !inputs.issueValid
    requires !o.loadResultGranted && !m.lsq.loadResult.valid
    requires Queued(m.lsq, 0, 2, 0, true) && Access(m.lsq.cur[1], 3, false) && Serving(m.memory, 0, 1)
    ensures !LSQ.Plan(m.lsq, o).memoryError && m'.memory.bytes == m.memory.bytes && !m'.lsq.loadResult.valid
    ensures Queued(m'.lsq, 0, 2, 0, true) && Access(m'.lsq.cur[1], 3, false) && AnsweredTo(m'.memory, 0, true)
  {
    hide LSQ.Plan, LSQ.Apply, MU.Apply, Access, Answered, WellFormedLsq, PlanCdb, PreviewRob;
    PortTick(m.memory, LSQ.Plan(m.lsq, o).request, 0);
    QueueWindow(m.lsq, o, inputs);
    HeadWaitsHere(m.lsq, o, inputs, 0);
    BehindStays(m.lsq, o, inputs, 1, 3);
  }

  lemma LoadingIsIdle(m: Machine, image: Bytes, buffered: bool)
    requires HeldOnce(m) && WellFormed(m.rob) && Loading(m, image, buffered)
    ensures !m.fu.valid
  {
    hide HeldOnce, WellFormed, FreshBuffer, Access, AnsweredTo, Idle;
    if buffered { HeadHolds(m, 1, 3, false); } else { HeadHolds(m, 0, 0, true); SecondHolds(m); }
    UnitIdle(m, 4);
  }

  /** The answered load leaves the queue for the buffer. */
  lemma BufferQueue(m: Machine, o: LsqObserve, inputs: LsqInputs, m': Machine)
    requires InRange(m) && AccessStep(m, o, inputs, m') && o.response == m.memory.response && !inputs.issueValid
    requires Queued(m.lsq, 0, 2, 0, true) && Access(m.lsq.cur[1], 3, false) && AnsweredTo(m.memory, 0, true)
    ensures !LSQ.Plan(m.lsq, o).memoryError && m'.memory.bytes == m.memory.bytes && Idle(m'.memory)
    ensures Queued(m'.lsq, 1, 1, 3, false) && m'.lsq.loadResult.valid && m'.lsq.loadResult.tag == Tag(0)
  {
    hide LSQ.Plan, LSQ.Apply, MU.Apply, Access, Answered, WellFormedLsq, PlanCdb, PreviewRob;
    PortTick(m.memory, LSQ.Plan(m.lsq, o).request, 0);
    QueueWindow(m.lsq, o, inputs);
    HeadLeaves(m.lsq, o, 0);
    BehindStays(m.lsq, o, inputs, 1, 3);
  }

  // --- The load of the wrong path ------------------------------------------------------------------------

  /** The last load is at the port, and the jump still in its station. */
  ghost predicate Guessing(m: Machine, image: Bytes, remaining: nat) {
    && JumpWaits(m, image) && Queued(m.lsq, 1, 1, 3, true) && Serving(m.memory, 3, remaining) && InStationHere(m.rs, 1)
    && (remaining >= 2 ==> Waits(m.rs, 1))
    && (remaining == 3 ==> InStationHere(m.rs, 0))
  }

  /** The wrong path's load leaves. */
  lemma SendQueue(m: Machine, o: LsqObserve, inputs: LsqInputs, m': Machine)
    requires InRange(m) && AccessStep(m, o, inputs, m') && o.response == m.memory.response && !inputs.issueValid
    requires o.loadResultGranted
    requires Queued(m.lsq, 1, 1, 3, false) && Idle(m.memory)
    ensures !LSQ.Plan(m.lsq, o).memoryError && m'.memory.bytes == m.memory.bytes
    ensures Queued(m'.lsq, 1, 1, 3, true) && Serving(m'.memory, 3, 3)
  {
    hide LSQ.Plan, LSQ.Apply, MU.Apply, Access, Answered, WellFormedLsq, PlanCdb, PreviewRob;
    PortTick(m.memory, LSQ.Plan(m.lsq, o).request, 3);
    QueueWindow(m.lsq, o, inputs);
    HeadSends(m.lsq, o, inputs, 3);
  }

  lemma WaitQueue(m: Machine, o: LsqObserve, inputs: LsqInputs, m': Machine, remaining: nat)
    requires InRange(m) && AccessStep(m, o, inputs, m') && o.response == m.memory.response && !inputs.issueValid
    requires 1 <= remaining <= 3
    requires Queued(m.lsq, 1, 1, 3, true) && Serving(m.memory, 3, remaining)
    ensures !LSQ.Plan(m.lsq, o).memoryError && m'.memory.bytes == m.memory.bytes && Queued(m'.lsq, 1, 1, 3, true)
    ensures if remaining > 1 then Serving(m'.memory, 3, remaining - 1) else AnsweredTo(m'.memory, 3, false)
  {
    hide LSQ.Plan, LSQ.Apply, MU.Apply, Access, Answered, WellFormedLsq, PlanCdb, PreviewRob;
    PortTick(m.memory, LSQ.Plan(m.lsq, o).request, 3);
    QueueWindow(m.lsq, o, inputs);
    HeadWaitsHere(m.lsq, o, inputs, 3);
  }

  lemma GuessFails(m: Machine, image: Bytes)
    requires WellFormed(m.rob) && JumpWaits(m, image) && Queued(m.lsq, 1, 1, 3, true) && AnsweredTo(m.memory, 3, false)
    ensures AccessFails(m)
  {
    hide JumpInBuffer, WordAddress, WellFormed;
    HeadIsHarmless(m.rob);
  }

  /** What waits in a station is not on the bus. */
  lemma NotOnBus(m: Machine, k: nat)
    requires HeldOnce(m) && InStationHere(m.rs, k)
    ensures var c := PlanCdb(m, false).completion;
            !(c.valid && c.tag == Tag(k + 1))
  {
    assert Holds(InStation(k), Tag(k + 1), m);
    assert m.fu.valid ==> Holds(InUnit, m.fu.tag, m);
    assert m.lsq.loadResult.valid ==> Holds(InBuffer, m.lsq.loadResult.tag, m);
  }

  // --- The run ------------------------------------------------------------------------------------------------

  lemma RunStartsOnce(image: Bytes, predict: nat -> bool)
    requires HoldsProgram(image)
    ensures RunFor(image, predict, 1).status == Running && Start(RunFor(image, predict, 1), image, 1)
  {
    hide RunFor, HoldsProgram, Fresh, NewAccess, NewStation, RoomToIssue, Instruction, Queued, Waits, Access, Fetched,
         Issue.NeedsLsq, Issue.NeedsRs, Serving, Idle, NextTag, Reset, PlanCdb, LSQ.Plan, MU.Apply, EventOk, Transition,
         WellFormed, WellFormedLsq, RS.Plan, RS.Apply, FU.NextResult, AccessStep, Issue.MakeRobEntry, PredictedNextPc;
    var m, m' := RunFor(image, predict, 0), RunFor(image, predict, 1);
    RunStart(image, predict);
    ResetRuns(image);
    ResetIsFresh(image);
    FreshParts(m, image, 0);
    HasRoom(m, image, 0);
    NothingReady(m, image, 0);
    var slots, w, o, ev := RunIssues(image, predict, 0);
    FetchedNow(m, image, 0);
    IdleUnitBus(m);
    NewLoad(m, image, 0, predict(0), w.cdb.broadcast);
    FirstQueue(m, o, LsqInputsOf(w), m');
    FreshAfterIssue(m, slots, ev, m', image, 0, predict(0));
    IdleStays(m.rs, RsInputsOf(m, w), 0);
    IdleStays(m.rs, RsInputsOf(m, w), 1);
    IdleStays(m.rs, RsInputsOf(m, w), 2);
  }

  lemma {:induction false} RunStarts(image: Bytes, predict: nat -> bool, n: nat)
    requires HoldsProgram(image) && 1 <= n <= 4
    ensures var m := RunFor(image, predict, n);
            m.status == Running && Start(m, image, n)
  {
    hide RunFor, HoldsProgram, Fresh, NewAccess, NewStation, RoomToIssue, Instruction, Queued, Waits, Access, Fetched,
         Issue.NeedsLsq, Issue.NeedsRs, Serving, Idle, NextTag, PlanCdb, LSQ.Plan, LSQ.Apply, MU.Apply, EventOk,
         Transition, WellFormed, WellFormedLsq, RS.Plan, RS.Apply, FU.NextResult, Issue.MakeRobEntry, PredictedNextPc,
         HeldOnce, RenamesYoungest, NoLostWakeup, StoresAtTheirTurn, StaleMatchesNothing, AccessesInOrder;
    if n == 1 {
      RunStartsOnce(image, predict);
    } else {
      var k := n - 1;
      RunStarts(image, predict, k);
      var m, m' := RunFor(image, predict, k), RunFor(image, predict, n);
      StartCount(m, image, k);
      FreshParts(m, image, k);
      ReachableIsGuaranteed(image, predict, k);
      StartIsIdle(m, image, k);
      HasRoom(m, image, k);
      NothingReady(m, image, k);
      var slots, w, o, ev := RunIssues(image, predict, k);
      FetchedNow(m, image, k);
      IdleUnitBus(m);
      if k == 3 { NewLoad(m, image, k, predict(k), w.cdb.broadcast); } else { NewWaiter(m, image, k, predict(k)); }
      StartQueue(m, o, LsqInputsOf(w), m', image, k);
      FreshAfterIssue(m, slots, ev, m', image, k, predict(k));
      StartStations(m.rs, RsInputsOf(m, w), k);
    }
  }

  /** The answer to the first load arrives, and enters the buffer. */
  lemma RunLoads(image: Bytes, predict: nat -> bool, buffered: bool)
    requires HoldsProgram(image)
    ensures var m := RunFor(image, predict, if buffered then 6 else 5);
            m.status == Running && Loading(m, image, buffered)
  {
    hide RunFor, HoldsProgram, Fresh, Queued, Waits, Access, Fetched, Serving, Idle, AnsweredTo, PlanCdb, LSQ.Plan,
         LSQ.Apply, MU.Apply, EventOk, Transition, WellFormed, WellFormedLsq, RS.Plan, RS.Apply, FU.NextResult,
         HeldOnce, RenamesYoungest, NoLostWakeup, StoresAtTheirTurn, StaleMatchesNothing, AccessesInOrder;
    var k := if buffered then 5 else 4;
    var m, m' := RunFor(image, predict, k), RunFor(image, predict, k + 1);
    if buffered { RunLoads(image, predict, false); } else { RunStarts(image, predict, 4); }
    ReachableIsGuaranteed(image, predict, k);
    if buffered { LoadingIsIdle(m, image, false); } else { StartIsIdle(m, image, 4); }
    FreshParts(m, image, 4);
    NothingReady(m, image, 4);
    FetchedNow(m, image, 4);
    var slots, w, o, ev := RunStalls(image, predict, k);
    IdleUnitBus(m);
    if buffered { BufferQueue(m, o, LsqInputsOf(w), m'); } else { AnswerQueue(m, o, LsqInputsOf(w), m'); }
    FreshAfterStall(m, slots, ev, m', image);
    WaitingStays(m.rs, RsInputsOf(m, w), 0);
    WaitingStays(m.rs, RsInputsOf(m, w), 1);
  }

  /** The first load's result is on the bus, and the wrong path's load leaves. */
  lemma RunGuess(image: Bytes, predict: nat -> bool)
    requires HoldsProgram(image)
    ensures RunFor(image, predict, 7).status == Running && Guessing(RunFor(image, predict, 7), image, 3)
  {
    hide RunFor, HoldsProgram, Fresh, Queued, Access, Fetched, Serving, Idle, PlanCdb, LSQ.Plan, LSQ.Apply, MU.Apply,
         EventOk, Transition, WellFormed, WellFormedLsq, RS.Plan, RS.Apply, FU.NextResult, HeldOnce, RenamesYoungest,
         JumpInBuffer, NoLostWakeup, StoresAtTheirTurn, StaleMatchesNothing, AccessesInOrder;
    var m, m' := RunFor(image, predict, 6), RunFor(image, predict, 7);
    RunLoads(image, predict, true);
    ReachableIsGuaranteed(image, predict, 6);
    LoadingIsIdle(m, image, true);
    FreshParts(m, image, 4);
    NothingReady(m, image, 4);
    FetchedNow(m, image, 4);
    FreshWaits(m, image);
    var slots, w, o, ev := RunStalls(image, predict, 6);
    IdleUnitBus(m);
    SendQueue(m, o, LsqInputsOf(w), m');
    JumpInBufferAfter(m.rob, slots, m'.rob, ev);
    WaitingStays(m.rs, RsInputsOf(m, w), 0);
    WaitingStays(m.rs, RsInputsOf(m, w), 1);
  }

  /** The jump cannot finish before the answer. */
  lemma {:induction false} RunGuesses(image: Bytes, predict: nat -> bool, n: nat)
    requires HoldsProgram(image) && 7 <= n <= 10
    ensures var m := RunFor(image, predict, n);
            && m.status == Running && JumpWaits(m, image) && Queued(m.lsq, 1, 1, 3, true)
            && if n < 10 then Guessing(m, image, 10 - n) else AnsweredTo(m.memory, 3, false)
  {
    hide RunFor, HoldsProgram, Queued, Access, Fetched, Serving, AnsweredTo, PlanCdb, LSQ.Plan, LSQ.Apply, MU.Apply,
         EventOk, Transition, WellFormed, WellFormedLsq, RS.Plan, RS.Apply, FU.NextResult, HeldOnce, RenamesYoungest,
         JumpInBuffer, NoLostWakeup, StoresAtTheirTurn, StaleMatchesNothing, AccessesInOrder;
    if n == 7 {
      RunGuess(image, predict);
    } else {
      var k := n - 1;
      RunGuesses(image, predict, k);
      var m, m' := RunFor(image, predict, k), RunFor(image, predict, n);
      ReachableIsGuaranteed(image, predict, k);
      HeadIsHarmless(m.rob);
      FetchedWhileWaiting(m, image);
      var slots, w, o, ev := RunStalls(image, predict, k);
      WaitQueue(m, o, LsqInputsOf(w), m', 10 - k);
      NotOnBus(m, 1);
      if k == 7 { NotOnBus(m, 0); }
      JumpInBufferAfter(m.rob, slots, m'.rob, ev);
      if k < 9 { WaitingStays(m.rs, RsInputsOf(m, w), 1); }
    }
  }

  lemma GuessIsAnswered(image: Bytes, predict: nat -> bool)
    requires HoldsProgram(image)
    ensures RunFor(image, predict, 10).status == Running && AccessFails(RunFor(image, predict, 10))
  {
    hide RunFor, HoldsProgram, JumpWaits, AccessFails, Queued, AnsweredTo, HeldOnce, RenamesYoungest, WellFormed,
         NoLostWakeup, StoresAtTheirTurn, StaleMatchesNothing, AccessesInOrder;
    RunGuesses(image, predict, 10);
    ReachableIsGuaranteed(image, predict, 10);
    GuessFails(RunFor(image, predict, 10), image);
  }

  /** The program halts sequentially and leaves its code alone, and yet the machine, whatever is predicted,
      stops with a memory error, at a load the sequential run never executes. */
  lemma HaltingProgramFails(image: Bytes, predict: nat -> bool)
    requires HoldsProgram(image)
    ensures var start := Boot(image);
            var m := RunFor(image, predict, COMMIT_BOUND * 4);
            && CodeStable(start) && HaltsAt(start, 3, 0)
            && m.status == MemoryOutOfBound && WrongPathLoad(m, start)
  {
    hide RunFor, HoldsProgram, CodeStable, HaltsAt, WrongPathLoad, Boot, AccessFails, StateAt;
    SequentialRun(image);
    GuessIsAnswered(image, predict);
    StableCodeIsFetchedInOrder(image, predict, COMMIT_BOUND * 4);
    FewerFetches(image, predict, 10, COMMIT_BOUND * 4);
    FailureAt(image, predict, 10);
    CountsGrow(image, predict, 11, COMMIT_BOUND * 4 - 11);
    HaltingPrograms(image, predict, 3, 0);
  }
}
