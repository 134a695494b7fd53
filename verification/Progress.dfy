// The pipeline never deadlocks: a measure of what still has to happen before
// the oldest instruction commits falls in every cycle that neither commits
// nor stops.
module Progress {
  import opened Types
  import opened Isa
  import opened Decoder
  import opened ReorderBuffers
  import opened LoadStoreQueues
  import opened Pipeline
  import opened Invariants
  import opened RobSteps
  import opened QueueSteps
  import opened HolderSteps
  import opened PortSteps
  import opened CycleSteps
  import opened MachineSteps
  import ROB = ReorderBuffers
  import LSQ = LoadStoreQueues
  import RS = ReservationStations
  import MU = MemoryUnits
  import FU = FunctionalUnits
  import Issue = IssueUnits

  const COMMIT_BOUND := 36

  /** Dispatches the round-robin pointer may still grant to others before station k. */
  function Distance(cursor: nat, k: nat): int {
    if k >= cursor then k - cursor else k + RS.RS_CAPACITY - cursor
  }

  predicate InUnit(m: Machine, tag: RobTag) { m.fu.valid && m.fu.tag == tag }
  predicate InBuffer(m: Machine, tag: RobTag) { m.lsq.loadResult.valid && m.lsq.loadResult.tag == tag }

  /** The bus prefers the load buffer while the functional unit also holds a result. */
  predicate UnitWaits(m: Machine) { m.fu.valid && m.preferLoad && m.lsq.loadResult.valid }
  predicate BufferWaits(m: Machine) { m.lsq.loadResult.valid && !m.preferLoad && m.fu.valid }

  function PortCountdown(m: Machine): nat {
    if m.memory.transaction.valid then m.memory.transaction.remaining else 0
  }

  /** What remains for an unfinished integer or control instruction. */
  function ExecutionWork(m: Machine, tag: RobTag, k: nat): int {
    if InUnit(m, tag) then 2 + (if UnitWaits(m) then 1 else 0)
    else 4 + 2 * Distance(m.rs.cursor, k) + (if UnitWaits(m) then 1 else 0)
  }

  /** What remains for an unfinished load or store at the head of the queue. */
  function AccessWork(m: Machine, tag: RobTag): int
    requires m.lsq.head < LSQ_CAPACITY
  {
    if InBuffer(m, tag) then 2 + (if BufferWaits(m) then 1 else 0)
    else if m.lsq.cur[m.lsq.head].requestSent then 4 + PortCountdown(m)
    else 8 + PortCountdown(m)
  }

  /** An upper bound on the cycles until the next commit or stop. */
  ghost function Work(m: Machine, gh: Ghost): int
    requires m.rob.head < ROB_CAPACITY && m.lsq.head < LSQ_CAPACITY
  {
    var head := m.rob.cur[m.rob.head];
    var s := gh.slots[m.rob.head];
    if m.rob.count == 0 then COMMIT_BOUND
    else if head.ready then 1
    else if MemoryInstruction(s.dec) then AccessWork(m, head.tag)
    else ExecutionWork(m, head.tag, s.rsSlot)
  }

  // --- The oldest instruction waits for nobody --------------------------------------------

  /** An operand of the oldest entry is ready: nothing older could produce it. */
  lemma OldestOperandIsReady(o: Operand, v: Word, rob: RobState, slots: SlotTable)
    requires rob.head < ROB_CAPACITY && OperandOk(o, v, slots[rob.head].id, rob, slots)
    requires forall j :: 0 <= j < ROB_CAPACITY && rob.cur[j].valid && j != rob.head ==> slots[rob.head].id < slots[j].id
    ensures o.ready
  {
  }

  /** The oldest entry, if it executes, is ready in its station or already executed. */
  lemma OldestExecutes(m: Machine, gh: Ghost)
    requires Consistent(m, gh) && m.rob.count > 0 && !m.rob.cur[m.rob.head].ready
    requires !MemoryInstruction(gh.slots[m.rob.head].dec)
    ensures InRange(m)
    ensures gh.slots[m.rob.head].rsSlot < RS.RS_CAPACITY && m.rs.cursor < RS.RS_CAPACITY
    ensures var tag := m.rob.cur[m.rob.head].tag;
            var k := gh.slots[m.rob.head].rsSlot;
            InUnit(m, tag) || (RS.ReadyToGo(m.rs.cur[k]) && m.rs.cur[k].destination == tag)
  {
    RobInOrder(m, gh);
    HeadIsValid(m.rob);
    CommitOrder(m, gh);
    var s := gh.slots[m.rob.head];
    assert Held(m.rob.cur[m.rob.head], s, m);
    if !InUnit(m, m.rob.cur[m.rob.head].tag) {
      assert StationOk(s.rsSlot, m.rs.cur[s.rsSlot], m.rob, gh.slots);
      OldestOperandIsReady(m.rs.cur[s.rsSlot].lhs, LhsValue(s), m.rob, gh.slots);
      OldestOperandIsReady(m.rs.cur[s.rsSlot].rhs, RhsValue(s), m.rob, gh.slots);
    }
  }

  /** The oldest entry, if it accesses memory, is at the head of the queue with its operands, or in the load buffer. */
  lemma OldestAccesses(m: Machine, gh: Ghost)
    requires Consistent(m, gh) && m.rob.count > 0 && !m.rob.cur[m.rob.head].ready
    requires MemoryInstruction(gh.slots[m.rob.head].dec)
    ensures InRange(m)
    ensures var tag := m.rob.cur[m.rob.head].tag;
            var e := m.lsq.cur[m.lsq.head];
            || InBuffer(m, tag)
            || (e.valid && e.destination == tag && e.addressReady && !m.lsq.loadResult.valid
                && (e.kind.STORE? ==> e.storeData.ready && m.rob.cur[m.rob.head].isStore))
  {
    RobInOrder(m, gh);
    HeadIsValid(m.rob);
    CommitOrder(m, gh);
    CommittedFacts(m, gh);
    var s := gh.slots[m.rob.head];
    assert Held(m.rob.cur[m.rob.head], s, m);
    if !InBuffer(m, m.rob.cur[m.rob.head].tag) {
      var e := m.lsq.cur[s.lsqSlot];
      assert QueueEntryOk(s.lsqSlot, e, m.lsq, m.rob, gh.slots);
      OldestOperandIsReady(e.base, s.x, m.rob, gh.slots);
      if e.kind.STORE? { OldestOperandIsReady(e.storeData, s.y, m.rob, gh.slots); }
      OldestIsFirst(m, gh, s.lsqSlot);
    }
  }

  lemma OldestIsFirst(m: Machine, gh: Ghost, l: nat)
    requires QueueOk(m.lsq, m.rob, gh.slots) && LoadBufferOk(m.lsq, m.rob, gh.slots) && WellFormed(m.rob)
    requires l < LSQ_CAPACITY && m.lsq.cur[l].valid
    requires m.rob.cur[m.rob.head].valid && m.lsq.cur[l].destination == m.rob.cur[m.rob.head].tag
    requires forall j :: 0 <= j < ROB_CAPACITY && m.rob.cur[j].valid && j != m.rob.head ==>
               gh.slots[m.rob.head].id < gh.slots[j].id
    ensures l == m.lsq.head && !m.lsq.loadResult.valid
  {
    hide OperandOk;
    LsqHeadIsValid(m.lsq);
    HeadOfNonEmpty(m.lsq, l);
    if l != m.lsq.head {
      BehindHead(m.lsq.head, l);
    }
  }

  lemma HeadOfNonEmpty(lsq: LsqState, l: nat)
    requires WellFormedLsq(lsq) && l < LSQ_CAPACITY && lsq.cur[l].valid
    ensures lsq.cur[lsq.head].valid
  {
    LsqHeadIsValid(lsq);
  }

  lemma CountdownIsShort(m: Machine, gh: Ghost)
    requires Consistent(m, gh)
    ensures PortCountdown(m) <= MU.DATA_LATENCY
  {
    assert PortOk(m, gh.slots);
  }

  /** The measure is between 1 and the bound; only an empty machine needs all of it. */
  lemma WorkIsBounded(m: Machine, gh: Ghost)
    requires Consistent(m, gh)
    ensures InRange(m) && 1 <= Work(m, gh) <= COMMIT_BOUND
    ensures m.rob.count > 0 ==> Work(m, gh) < COMMIT_BOUND
  {
    hide Consistent, PortCountdown, UnitWaits, BufferWaits, InUnit, InBuffer;
    RobInOrder(m, gh);
    CountdownIsShort(m, gh);
    if m.rob.count > 0 && !m.rob.cur[m.rob.head].ready && !MemoryInstruction(gh.slots[m.rob.head].dec) {
      OldestExecutes(m, gh);
    }
  }

  // --- Round robin ---------------------------------------------------------------------------

  /** The dispatched station is the first ready one from the cursor on. */
  lemma {:induction false} FirstReady(stations: RS.Stations, cursor: nat, offset: nat, k: nat)
    requires cursor < RS.RS_CAPACITY && k < RS.RS_CAPACITY && RS.ReadyToGo(stations[k])
    requires offset <= Distance(cursor, k)
    ensures var j := RS.SelectFrom(stations, cursor, offset);
            j < RS.RS_CAPACITY && offset <= Distance(cursor, j) <= Distance(cursor, k)
    decreases RS.RS_CAPACITY - offset
  {
    var index := (cursor + offset) % RS.RS_CAPACITY;
    assert Distance(cursor, index) == offset;
    if !RS.ReadyToGo(stations[index]) {
      if offset == Distance(cursor, k) { SameStation(cursor, index, k); }
      FirstReady(stations, cursor, offset + 1, k);
    }
  }

  lemma SameStation(cursor: nat, j: nat, k: nat)
    requires cursor < RS.RS_CAPACITY && j < RS.RS_CAPACITY && k < RS.RS_CAPACITY
    requires Distance(cursor, j) == Distance(cursor, k)
    ensures j == k
  {
  }

  /** Another station's dispatch brings the pointer closer to k. */
  lemma CloserToTurn(cursor: nat, j: nat, k: nat)
    requires cursor < RS.RS_CAPACITY && j < RS.RS_CAPACITY && k < RS.RS_CAPACITY && j != k
    requires Distance(cursor, j) <= Distance(cursor, k)
    ensures 0 <= Distance((j + 1) % RS.RS_CAPACITY, k) < Distance(cursor, k)
  {
  }

  // --- One cycle, seen from execution and from memory -------------------------------------------

  /** Without a commit the oldest entry stays, finished only if its completion arrived. */
  lemma OldestStays(rob: RobState, slots: SlotTable, rob': RobState, ev: Event)
    requires WellFormed(rob) && EventOk(rob, slots, ev) && Transition(rob, rob', ev) && rob.count > 0 && !ev.commit
    ensures !ev.flush && rob'.head == rob.head && rob'.count > 0 && !rob.cur[rob.head].ready
    ensures rob'.cur[rob.head] == Updated(rob.cur[rob.head], ev) && rob'.cur[rob.head].tag == rob.cur[rob.head].tag
    ensures SlotsAfter(rob, slots, ev)[rob.head] == slots[rob.head]
  {
    hide ResultOk, Age;
    HeadIsValid(rob);
    if ev.issued { TailAge(rob); }
  }

  /** Arbiter, functional unit and stations in a cycle that does not flush. */
  predicate ExecutionStep(m: Machine, inputs: RS.RsInputs, m': Machine) {
    var cdb := PlanCdb(m, false);
    var plan := RS.Plan(m.rs, false);
    && TagsAreValid(m) && m.rs.cursor < RS.RS_CAPACITY
    && (forall k :: 0 <= k < RS.RS_CAPACITY && m.rs.cur[k].busy ==> FU.Executable(m.rs.cur[k].op))
    && !inputs.flush && inputs.fuAvailable == FU.CanAccept(m.fu, cdb.integerGranted)
    && m'.rs == RS.Apply(m.rs, inputs, plan)
    && m'.fu == FU.NextResult(m.fu, plan.dispatch, false, cdb.integerGranted)
    && m'.preferLoad == cdb.nextPreferLoad
  }

  predicate TagsAreValid(m: Machine) {
    (m.fu.valid ==> m.fu.tag.valid) && (m.lsq.loadResult.valid ==> m.lsq.loadResult.tag.valid)
  }

  /** Queue and memory port in a cycle that does not flush. */
  ghost predicate AccessStep(m: Machine, o: LsqObserve, inputs: LsqInputs, m': Machine)
    requires InRange(m)
  {
    var head := m.lsq.cur[m.lsq.head];
    var plan := LSQ.Plan(m.lsq, o);
    && TagsAreValid(m) && WellFormedLsq(m.lsq) && !inputs.flush && !o.flush
    && o.storeRequest == PreviewRob(m.rob).storeRequest && o.memoryAvailable == MU.Available(m.memory)
    && o.loadResultGranted == PlanCdb(m, false).loadGranted && m'.preferLoad == PlanCdb(m, false).nextPreferLoad
    && (Answered(m.lsq, o) ==> head.requestSent && !m.memory.transaction.valid)
    && (head.valid && head.requestSent ==> m.memory.transaction.valid || plan.removeHead || plan.memoryError)
    && (m.memory.transaction.valid ==> m.memory.transaction.remaining >= 1)
    && (m.lsq.loadResult.valid ==>
          forall l :: 0 <= l < LSQ_CAPACITY && m.lsq.cur[l].valid ==>
              !(m.lsq.cur[l].kind.LOAD? && m.lsq.cur[l].requestSent))
    && m'.lsq == LSQ.Apply(m.lsq, inputs, plan)
    && m'.memory == MU.Apply(m.memory, plan.request)
  }

  /** The bus in terms of who holds a result. */
  lemma BusGrants(m: Machine)
    requires TagsAreValid(m)
    ensures var cdb := PlanCdb(m, false);
            && (cdb.integerGranted <==> m.fu.valid && !UnitWaits(m))
            && (cdb.loadGranted <==> m.lsq.loadResult.valid && !BufferWaits(m))
            && (cdb.integerGranted ==> cdb.completion == m.fu && cdb.nextPreferLoad)
            && (cdb.loadGranted ==> cdb.completion == m.lsq.loadResult && !cdb.nextPreferLoad)
  {
  }

  /** With an idle unit the bus carries the load buffer's result, or nothing. */
  lemma IdleUnitBus(m: Machine)
    requires TagsAreValid(m) && !m.fu.valid
    ensures var cdb := PlanCdb(m, false);
            if m.lsq.loadResult.valid then cdb.loadGranted && cdb.completion == m.lsq.loadResult
            else !cdb.loadGranted && !cdb.completion.valid
  {
  }

  lemma ExecutionStepHolds(m: Machine, gh: Ghost, taken: bool, w: Wires, o: LsqObserve, ev: Event, m': Machine)
    requires InRange(m) && Stepped(m, gh, taken, w, o, ev, m') && !ev.flush
    ensures ExecutionStep(m, RsInputsOf(m, w), m')
    ensures ev.completion == PlanCdb(m, false).completion && o.loadResultGranted == PlanCdb(m, false).loadGranted
  {
    hide Stepped, Consistent, EventOk, Transition, Observe, RS.Plan, RS.Apply, LSQ.Plan, LSQ.Apply, MU.Apply, PlanCdb,
         FU.NextResult, FU.Executable, WellFormed, AllMeaningful, EntriesMatch, QueueOk;
    StepParts(m, gh, taken, w, o, ev, m');
    WireParts(m, gh, taken, w, o, ev, m');
    StationsExecute(m, gh);
  }

  lemma AccessStepHolds(m: Machine, gh: Ghost, taken: bool, w: Wires, o: LsqObserve, ev: Event, m': Machine)
    requires InRange(m) && Stepped(m, gh, taken, w, o, ev, m') && !ev.flush
    ensures AccessStep(m, o, LsqInputsOf(w), m')
    ensures w.lsq == LSQ.Plan(m.lsq, o) && ev.storeDone == w.lsq.storeCompletion
  {
    hide Stepped, Consistent, EventOk, Transition, Observe, ObservationOf, RS.Plan, RS.Apply, LSQ.Plan, LSQ.Apply,
         MU.Apply, PlanCdb, FU.NextResult, WellFormed, AllMeaningful, EntriesMatch, StationsOk, QueueEntryOk,
         PortInputs, RequestInputs, PreviewRob, Answered, WellFormedLsq;
    StepParts(m, gh, taken, w, o, ev, m');
    WireParts(m, gh, taken, w, o, ev, m');
    WiresOf(m, taken);
    PortInputsHold(m, gh, taken);
    HeadIsServed(m, gh.slots, o);
  }

  // What the port's invariant says about the head of the queue.
  lemma HeadIsServed(m: Machine, slots: SlotTable, o: LsqObserve)
    requires m.lsq.head < LSQ_CAPACITY && RequestInputs(m, o, slots)
    requires !o.flush
    ensures var head := m.lsq.cur[m.lsq.head];
            && (Answered(m.lsq, o) ==> head.requestSent && !m.memory.transaction.valid)
            && (head.valid && head.requestSent ==>
                  m.memory.transaction.valid || LSQ.Plan(m.lsq, o).removeHead || LSQ.Plan(m.lsq, o).memoryError)
            && (m.memory.transaction.valid ==> m.memory.transaction.remaining >= 1)
  {
    hide LSQ.Plan, Answered, QueueOk, WellFormed, ResponseOk, Dead;
    if Answered(m.lsq, o) { AnsweredIsInFlight(m, o, slots); }
    var head := m.lsq.cur[m.lsq.head];
    if head.valid && head.requestSent && !m.memory.transaction.valid { UnansweredHead(m, o, slots); }
  }

  /** A ready station that is not dispatched stays as it is. */
  lemma ReadyStays(rs: RS.RsState, inputs: RS.RsInputs, k: nat)
    requires k < RS.RS_CAPACITY && RS.ReadyToGo(rs.cur[k]) && !inputs.flush
    requires RS.SelectReady(rs) != k || !inputs.fuAvailable
    ensures RS.Apply(rs, inputs, RS.Plan(rs, false)).cur[k] == rs.cur[k]
  {
    hide RS.SelectReady, RS.MakeExecute, RS.FindFreeFrom;
    assert RS.Wake(rs.cur, inputs.cdb)[k] == rs.cur[k];
  }

  // Who dispatches, and where the pointer and the result go.
  lemma DispatchOutcome(rs: RS.RsState, inputs: RS.RsInputs, fu: FUResult, granted: bool, k: nat)
    requires rs.cursor < RS.RS_CAPACITY && k < RS.RS_CAPACITY && RS.ReadyToGo(rs.cur[k]) && !inputs.flush
    requires inputs.fuAvailable == FU.CanAccept(fu, granted)
    requires forall j :: 0 <= j < RS.RS_CAPACITY && rs.cur[j].busy ==> FU.Executable(rs.cur[j].op)
    ensures var rs' := RS.Apply(rs, inputs, RS.Plan(rs, false));
            var fu' := FU.NextResult(fu, RS.Plan(rs, false).dispatch, false, granted);
            if inputs.fuAvailable then
              || fu' == FU.ExecuteInstruction(RS.MakeExecute(rs.cur[k]))
              || (rs'.cursor < RS.RS_CAPACITY && 0 <= Distance(rs'.cursor, k) < Distance(rs.cursor, k)
                  && rs'.cur[k] == rs.cur[k])
            else rs'.cursor == rs.cursor && rs'.cur[k] == rs.cur[k] && fu' == fu
  {
    hide FU.ResultWord, FU.ActualNextPc, FU.Taken, FU.HasControlResult, FU.Executable, Distance, RS.BeforeIssue,
         RS.FindFree, RS.SelectFrom;
    NonNegative(rs.cursor, k);
    FirstReady(rs.cur, rs.cursor, 0, k);
    var j := RS.SelectReady(rs);
    if j != k { CloserToTurn(rs.cursor, j, k); }
    if j != k || !inputs.fuAvailable { ReadyStays(rs, inputs, k); }
  }

  /** An executed result gets the bus now, or keeps its place and gets it in the next cycle. */
  lemma UnitProgress(m: Machine, inputs: RS.RsInputs, m': Machine)
    requires ExecutionStep(m, inputs, m') && m.fu.valid
    ensures if UnitWaits(m) then m'.fu == m.fu && !UnitWaits(m') else PlanCdb(m, false).completion == m.fu
  {
    hide RS.Plan, RS.Apply, FU.ExecuteInstruction, PlanCdb;
    BusGrants(m);
  }

  /** A ready station is dispatched, or stays as it is while its turn comes closer. */
  lemma StationProgress(m: Machine, inputs: RS.RsInputs, m': Machine, k: nat)
    requires ExecutionStep(m, inputs, m') && k < RS.RS_CAPACITY && RS.ReadyToGo(m.rs.cur[k])
    ensures 0 <= Distance(m.rs.cursor, k) < RS.RS_CAPACITY
    ensures if UnitWaits(m) then
              m'.rs.cursor == m.rs.cursor && m'.rs.cur[k] == m.rs.cur[k] && !UnitWaits(m')
            else
              || m'.fu == FU.ExecuteInstruction(RS.MakeExecute(m.rs.cur[k]))
              || (m'.rs.cursor < RS.RS_CAPACITY && 0 <= Distance(m'.rs.cursor, k) < Distance(m.rs.cursor, k)
                  && m'.rs.cur[k] == m.rs.cur[k])
    ensures FU.ExecuteInstruction(RS.MakeExecute(m.rs.cur[k])).valid
    ensures FU.ExecuteInstruction(RS.MakeExecute(m.rs.cur[k])).tag == m.rs.cur[k].destination
  {
    hide FU.NextResult, FU.Executable, RS.Plan, RS.Apply, PlanCdb, Distance, RS.ReadyToGo, FU.ExecuteInstruction,
         RS.MakeExecute;
    BusGrants(m);
    NonNegative(m.rs.cursor, k);
    ExecutedResult(m.rs.cur[k]);
    DispatchOutcome(m.rs, inputs, m.fu, PlanCdb(m, false).integerGranted, k);
  }

  lemma ExecutedResult(e: RS.RsEntry)
    ensures RS.ReadyToGo(e) ==> e.busy
    ensures FU.Executable(e.op) ==> FU.ExecuteInstruction(RS.MakeExecute(e)).valid
                                    && FU.ExecuteInstruction(RS.MakeExecute(e)).tag == e.destination
  {
    hide FU.ResultWord, FU.ActualNextPc, FU.Taken, FU.HasControlResult, FU.Executable;
  }

  lemma NonNegative(cursor: nat, k: nat)
    requires cursor < RS.RS_CAPACITY && k < RS.RS_CAPACITY
    ensures 0 <= Distance(cursor, k) < RS.RS_CAPACITY
  {
  }

  /** A buffered load result gets the bus now, or keeps its place and gets it in the next cycle. */
  lemma BufferProgress(m: Machine, o: LsqObserve, inputs: LsqInputs, m': Machine)
    requires InRange(m) && AccessStep(m, o, inputs, m') && m.lsq.loadResult.valid
    ensures if BufferWaits(m) then m'.lsq.loadResult == m.lsq.loadResult && !BufferWaits(m')
            else PlanCdb(m, false).completion == m.lsq.loadResult
  {
    hide LSQ.Plan, LSQ.Apply, Answered, PlanCdb, PreviewRob, MU.Apply, WellFormedLsq;
    BusGrants(m);
    BufferAfter(m.lsq, o, inputs);
    OlderBuffer(m.lsq, o);
    if LSQ.Plan(m.lsq, o).installLoadResult && BufferWaits(m) { BufferFreeForInstall(m.lsq, o); }
  }

  // The port counts down whatever it is serving.
  lemma CountdownFalls(mem: MU.MemoryState, request: MemoryRequest)
    requires mem.transaction.valid && mem.transaction.remaining >= 1
    ensures var t := mem.transaction;
            var t' := MU.NextTransaction(mem, request);
            (if t'.valid then t'.remaining else 0) == t.remaining - 1
  {
  }

  lemma CountdownStarts(mem: MU.MemoryState, request: MemoryRequest)
    requires !mem.transaction.valid
    ensures var t' := MU.NextTransaction(mem, request);
            (if t'.valid then t'.remaining else 0) <= MU.DATA_LATENCY
  {
  }

  /** A sent head waits while the port counts down; answered, it leaves: a store is done, a load enters the buffer. */
  lemma SentProgress(m: Machine, o: LsqObserve, inputs: LsqInputs, m': Machine)
    requires InRange(m) && AccessStep(m, o, inputs, m') && !LSQ.Plan(m.lsq, o).memoryError
    requires m.lsq.cur[m.lsq.head].valid && m.lsq.cur[m.lsq.head].requestSent
    ensures var head := m.lsq.cur[m.lsq.head];
            var done := LSQ.Plan(m.lsq, o).storeCompletion;
            || (done.valid && done.tag == head.destination)
            || (m'.lsq.loadResult.valid && m'.lsq.loadResult.tag == head.destination)
            || (m'.lsq.head < LSQ_CAPACITY && m'.lsq.cur[m'.lsq.head].requestSent
                && PortCountdown(m') < PortCountdown(m))
  {
    hide LSQ.Plan, LSQ.Apply, Answered, PlanCdb, PreviewRob, MU.NextTransaction, MU.NextResponse, MU.Written,
         MU.ScheduledWrite, WellFormedLsq;
    RemoveOrSend(m.lsq, o);
    if m.memory.transaction.valid {
      CountdownFalls(m.memory, LSQ.Plan(m.lsq, o).request);
      HeadMarked(m.lsq, o, inputs);
    } else {
      BufferAfter(m.lsq, o, inputs);
      OlderBuffer(m.lsq, o);
      InstalledIsValid(m.lsq, o);
    }
  }

  lemma InstalledIsValid(lsq: LsqState, o: LsqObserve)
    requires lsq.head < LSQ_CAPACITY
    ensures LSQ.Plan(lsq, o).installLoadResult ==> LSQ.Plan(lsq, o).completedLoad.valid
  {
    hide Extend, MakeRequest, MaySend;
  }

  // A head that does not leave stays the head; sending marks it, nothing else changes the mark.
  lemma HeadMarked(lsq: LsqState, o: LsqObserve, inputs: LsqInputs)
    requires WellFormedLsq(lsq) && !inputs.flush && lsq.cur[lsq.head].valid
    requires (Answered(lsq, o) ==> lsq.cur[lsq.head].requestSent) && !LSQ.Plan(lsq, o).removeHead
    ensures var lsq' := LSQ.Apply(lsq, inputs, LSQ.Plan(lsq, o));
            && lsq'.head == lsq.head
            && (lsq'.cur[lsq.head].requestSent <==> lsq.cur[lsq.head].requestSent || LSQ.Plan(lsq, o).markRequestSent)
  {
    hide LSQ.Plan, UpdateAddresses, Rearranged, WakeOperand;
    RemoveOrSend(lsq, o);
    ApplySlot(lsq, inputs, LSQ.Plan(lsq, o), lsq.head);
    LsqHeadIsValid(lsq);
    if lsq.count < LSQ_CAPACITY { LsqTailAge(lsq); }
  }

  /** A head that is not sent yet is sent as soon as the port is free, if it belongs to the oldest instruction. */
  lemma UnsentProgress(m: Machine, o: LsqObserve, inputs: LsqInputs, m': Machine)
    requires InRange(m) && AccessStep(m, o, inputs, m')
    requires m.rob.count > 0 && m.rob.cur[m.rob.head].valid && !m.rob.cur[m.rob.head].ready
    requires var e := m.lsq.cur[m.lsq.head];
             && e.valid && !e.requestSent && e.destination == m.rob.cur[m.rob.head].tag && e.addressReady
             && (e.kind.STORE? ==> e.storeData.ready && m.rob.cur[m.rob.head].isStore)
    requires !m.lsq.loadResult.valid
    ensures m'.lsq.head < LSQ_CAPACITY
    ensures if m.memory.transaction.valid
            then !m'.lsq.cur[m'.lsq.head].requestSent && PortCountdown(m') < PortCountdown(m)
            else m'.lsq.cur[m'.lsq.head].requestSent && PortCountdown(m') <= MU.DATA_LATENCY
  {
    hide LSQ.Plan, LSQ.Apply, Answered, PlanCdb, MU.NextTransaction, MU.NextResponse, MU.Written, MU.ScheduledWrite,
         WellFormedLsq;
    RemoveOrSend(m.lsq, o);
    LsqHeadIsValid(m.lsq);
    HeadMarked(m.lsq, o, inputs);
    SentWhenAllowed(m.lsq, o);
    if m.memory.transaction.valid {
      CountdownFalls(m.memory, LSQ.Plan(m.lsq, o).request);
    } else {
      CountdownStarts(m.memory, LSQ.Plan(m.lsq, o).request);
    }
  }

  lemma SentWhenAllowed(lsq: LsqState, o: LsqObserve)
    requires lsq.head < LSQ_CAPACITY && !o.flush
    ensures LSQ.Plan(lsq, o).markRequestSent <==> MaySend(lsq, o)
  {
    hide Extend, MakeRequest, Answered;
  }

  // --- An empty machine issues ------------------------------------------------------------------

  /** With nothing in flight every structure has room. */
  lemma EmptyHasRoom(m: Machine, gh: Ghost)
    requires Consistent(m, gh) && m.rob.count == 0
    ensures InRange(m) && !RS.Full(m.rs.cur) && !LsqFull(m.lsq) && !m.fetchStopped && !ROB.Full(m.rob)
    ensures NextTag(m.rob).valid
  {
    assert WellFormed(m.rob) && StationsOk(m.rs, m.rob, gh.slots) && QueueOk(m.lsq, m.rob, gh.slots)
           && HaltIsYoungest(m.rob, m.fetchStopped);
    hide Consistent, OperandOk;
    forall i | 0 <= i < ROB_CAPACITY ensures !m.rob.cur[i].valid { AgeNotNegative(m.rob.head, i); }
    assert StationOk(0, m.rs.cur[0], m.rob, gh.slots);
    LsqHeadIsValid(m.lsq);
    assert QueueEntryOk(m.lsq.head, m.lsq.cur[m.lsq.head], m.lsq, m.rob, gh.slots);
  }

  /** An empty machine issues or stops. */
  lemma EmptyIssues(m: Machine, taken: bool)
    requires InRange(m) && m.rob.count == 0 && !m.fetchStopped && !ROB.Full(m.rob) && NextTag(m.rob).valid
    requires !RS.Full(m.rs.cur) && !LsqFull(m.lsq) && m.status == Running
    requires NextStatus(m, Observe(m, taken)) == Running
    ensures IssueEffective(Observe(m, taken))
  {
    hide RS.Plan, LSQ.Plan, PlanCdb, RS.Full, LsqFull, NextTag, Decode, Issue.MakeRobEntry, Issue.MakeRsEntry,
         Issue.MakeLsqEntry, Issue.ResolveRegister, SourceOf, PredictedNextPc;
  }

  // --- The measure falls --------------------------------------------------------------------------

  lemma ExecutionWorkFalls(m: Machine, inputs: RS.RsInputs, ev: Event, m': Machine, k: nat)
    requires InRange(m) && ExecutionStep(m, inputs, m') && ev.completion == PlanCdb(m, false).completion
    requires m'.rob.cur[m.rob.head] == Updated(m.rob.cur[m.rob.head], ev) && k < RS.RS_CAPACITY
    requires var tag := m.rob.cur[m.rob.head].tag;
             InUnit(m, tag) || (RS.ReadyToGo(m.rs.cur[k]) && m.rs.cur[k].destination == tag)
    ensures var tag := m.rob.cur[m.rob.head].tag;
            m'.rob.cur[m.rob.head].ready || ExecutionWork(m', tag, k) < ExecutionWork(m, tag, k)
    ensures 1 < ExecutionWork(m, m.rob.cur[m.rob.head].tag, k)
  {
    hide ExecutionStep, UnitWaits, Distance, RS.ReadyToGo, FU.ExecuteInstruction, RS.MakeExecute, PlanCdb;
    if InUnit(m, m.rob.cur[m.rob.head].tag) {
      UnitProgress(m, inputs, m');
    } else {
      StationProgress(m, inputs, m', k);
    }
  }

  lemma AccessWorkFalls(m: Machine, o: LsqObserve, inputs: LsqInputs, ev: Event, m': Machine)
    requires InRange(m) && AccessStep(m, o, inputs, m') && !LSQ.Plan(m.lsq, o).memoryError
    requires m.rob.count > 0 && m.rob.cur[m.rob.head].valid
    requires ev.completion == PlanCdb(m, false).completion && ev.storeDone == LSQ.Plan(m.lsq, o).storeCompletion
    requires !m.rob.cur[m.rob.head].ready && m'.rob.cur[m.rob.head] == Updated(m.rob.cur[m.rob.head], ev)
    requires var tag := m.rob.cur[m.rob.head].tag;
             var e := m.lsq.cur[m.lsq.head];
             || InBuffer(m, tag)
             || (e.valid && e.destination == tag && e.addressReady && !m.lsq.loadResult.valid
                 && (e.kind.STORE? ==> e.storeData.ready && m.rob.cur[m.rob.head].isStore))
    requires m'.lsq.head < LSQ_CAPACITY
    ensures var tag := m.rob.cur[m.rob.head].tag;
            m'.rob.cur[m.rob.head].ready || AccessWork(m', tag) < AccessWork(m, tag)
    ensures 1 < AccessWork(m, m.rob.cur[m.rob.head].tag)
  {
    hide AccessStep, BufferWaits, PortCountdown, PlanCdb, LSQ.Plan;
    if InBuffer(m, m.rob.cur[m.rob.head].tag) {
      BufferProgress(m, o, inputs, m');
    } else if m.lsq.cur[m.lsq.head].requestSent {
      SentProgress(m, o, inputs, m');
    } else {
      UnsentProgress(m, o, inputs, m');
      CountdownNow(m);
    }
  }

  lemma CountdownNow(m: Machine)
    ensures !m.memory.transaction.valid ==> PortCountdown(m) == 0
  {
  }

  lemma BusyWorkFalls(m: Machine, gh: Ghost, taken: bool, w: Wires, o: LsqObserve, ev: Event, m': Machine)
    requires InRange(m) && Stepped(m, gh, taken, w, o, ev, m') && m.rob.count > 0 && !ev.commit && !w.lsq.memoryError
    requires m'.rob.head < ROB_CAPACITY && m'.lsq.head < LSQ_CAPACITY
    ensures Work(m', GhostAfter(m.rob, gh, ev)) < Work(m, gh)
  {
    hide Stepped, Consistent, EventOk, Transition, Updated, WellFormed, AllMeaningful, EntriesMatch, StationsOk, UnitOk,
         QueueOk, LoadBufferOk, ExecutionStep, AccessStep, AccessWork, ExecutionWork, RS.ReadyToGo, Observe, RS.Apply,
         LSQ.Apply, MU.Apply, FU.NextResult;
    StepParts(m, gh, taken, w, o, ev, m');
    OldestStays(m.rob, gh.slots, m'.rob, ev);
    HeadIsValid(m.rob);
    ExecutionStepHolds(m, gh, taken, w, o, ev, m');
    if MemoryInstruction(gh.slots[m.rob.head].dec) {
      AccessStepHolds(m, gh, taken, w, o, ev, m');
      OldestAccesses(m, gh);
      AccessWorkFalls(m, o, LsqInputsOf(w), ev, m');
    } else {
      OldestExecutes(m, gh);
      ExecutionWorkFalls(m, RsInputsOf(m, w), ev, m', gh.slots[m.rob.head].rsSlot);
    }
  }

  /** Every cycle of a running machine commits, stops it, or brings the next commit closer. */
  lemma WorkFalls(m: Machine, gh: Ghost, taken: bool)
    requires Consistent(m, gh)
    ensures InRange(m)
    ensures var m' := Cycle(m, taken);
            m'.status == Running && m'.committed == m.committed ==> Work(m', NextGhost(m, gh, taken)) < Work(m, gh)
  {
    hide Consistent, Stepped, Observe, ObservationOf, EventOf, Cycle, GhostAfter, AccessWork, ExecutionWork, Updated,
         EventOk, NextStatus, RS.Full, LsqFull, EntryAfter, WellFormed, Chained, AllMeaningful, EntriesMatch,
         StationsOk, UnitOk, QueueOk, LoadBufferOk, AllHeld, RatExact, RatMeaning, RS.Apply, LSQ.Apply, MU.Apply,
         FU.NextResult, IssueEffective;
    StepHolds(m, gh, taken);
    ConsistentAfter(m, gh, taken);
    var m' := Cycle(m, taken);
    var ev := EventOf(m, gh, taken);
    var w := Observe(m, taken);
    var o := ObservationOf(m, taken);
    if m'.status == Running && m'.committed == m.committed {
      ControlHolds(m, gh, taken, w, o, ev, m');
      WorkIsBounded(m', GhostAfter(m.rob, gh, ev));
      if m.rob.count == 0 {
        StepParts(m, gh, taken, w, o, ev, m');
        WireParts(m, gh, taken, w, o, ev, m');
        EmptyHasRoom(m, gh);
        EmptyIssues(m, taken);
      } else {
        BusyWorkFalls(m, gh, taken, w, o, ev, m');
      }
    }
  }
}
