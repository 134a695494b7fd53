// What a cycle does to each module while the program of MisledProgram runs and
// its indirect jump has not finished.
module MisledSteps {
  import opened Types
  import opened WordArithmetic
  import opened Image
  import opened Isa
  import opened Decoder
  import opened ReorderBuffers
  import opened LoadStoreQueues
  import opened Pipeline
  import opened Invariants
  import opened RobSteps
  import opened QueueSteps
  import opened CycleSteps
  import opened Progress
  import opened Guarantees
  import opened Programs
  import opened ShortRuns
  import LSQ = LoadStoreQueues
  import RS = ReservationStations
  import MU = MemoryUnits
  import Issue = IssueUnits
  import opened MisledProgram

  // --- The machine: nothing finished yet ---------------------------------------------------------

  function Tag(i: nat): RobTag { RobTag(i, 1, true) }

  predicate Entry(e: RobEntry, i: nat) {
    && e.valid && e.tag == Tag(i) && e.op == Instruction(i).op && e.rd == Instruction(i).rd && e.writesRd == (i < 2)
    && !e.isBranch && !e.isStore && (e.isJump <==> i == 2)
  }

  /** The first n instructions are in flight, none has finished. */
  ghost predicate FreshBuffer(rob: RobState, n: nat) {
    && n <= 4 && rob.head == 0 && rob.tail == n && rob.count == n
    && (forall i :: 0 <= i < n ==> Entry(rob.cur[i], i) && !rob.cur[i].ready)
    && (forall i :: n <= i < ROB_CAPACITY ==> rob.generations[i] == 0)
  }

  ghost predicate Fresh(m: Machine, image: Bytes, n: nat) {
    && FreshBuffer(m.rob, n) && InRange(m)
    && m.memory.bytes == image && m.pc == WordAddress(n) && !m.fetchStopped
  }

  lemma FreshBufferAfter(rob: RobState, slots: SlotTable, rob': RobState, ev: Event, n: nat)
    requires FreshBuffer(rob, n) && EventOk(rob, slots, ev) && Transition(rob, rob', ev)
    requires !ev.completion.valid && !ev.commit && !ev.flush
    requires ev.issued ==> n < 4 && Entry(ev.entry, n) && !ev.entry.ready
    ensures FreshBuffer(rob', if ev.issued then n + 1 else n)
  {
    hide Instruction, ResultOk;
  }

  lemma FetchedNow(m: Machine, image: Bytes, n: nat)
    requires HoldsProgram(image) && Fresh(m, image, n)
    ensures MU.Fetch(m.memory, m.pc).Some? && Fetched(m) == Instruction(n)
  {
    hide Decode, ReadWord, WordAddress, Entry, RawRead, Instruction;
  }

  lemma IssuedEntry(m: Machine, image: Bytes, n: nat, taken: bool)
    requires Fresh(m, image, n) && n < 4
    ensures Entry(Issue.MakeRobEntry(PacketOf(m.pc, Instruction(n), taken), Tag(n)), n)
    ensures !Issue.MakeRobEntry(PacketOf(m.pc, Instruction(n), taken), Tag(n)).ready
    ensures PredictedNextPc(Instruction(n), m.pc, taken) == WordAddress(n + 1)
    ensures !Instruction(n).op.INVALID? && !Instruction(n).op.HALT?
  {
  }

  /** Without a completion, an instruction that finds room joins the others. */
  lemma FreshAfterIssue(m: Machine, slots: SlotTable, ev: Event, m': Machine, image: Bytes, n: nat, taken: bool)
    requires Fresh(m, image, n) && n < 4 && InRange(m') && m'.memory.bytes == image
    requires EventOk(m.rob, slots, ev) && Transition(m.rob, m'.rob, ev) && !ev.flush && !ev.commit
    requires !ev.completion.valid
    requires ev.issued && ev.entry == Issue.MakeRobEntry(PacketOf(m.pc, Instruction(n), taken), Tag(n))
    requires m'.pc == PredictedNextPc(Instruction(n), m.pc, taken) && m'.fetchStopped == Instruction(n).op.HALT?
    ensures Fresh(m', image, n + 1)
  {
    hide EventOk, Transition, Instruction, WordAddress, Entry, PredictedNextPc, Issue.MakeRobEntry, FreshBuffer;
    IssuedEntry(m, image, n, taken);
    FreshBufferAfter(m.rob, slots, m'.rob, ev, n);
  }

  lemma NothingReady(m: Machine, image: Bytes, n: nat)
    requires Fresh(m, image, n)
    ensures Unfinished(m)
  {
  }

  lemma FreshParts(m: Machine, image: Bytes, n: nat)
    requires Fresh(m, image, n)
    ensures n <= 4 && m.rob.head == 0 && m.rob.tail == n && m.rob.count == n && !m.fetchStopped
    ensures m.memory.bytes == image
    ensures m.rob.generations[n] == 0
  {
  }

  /** Behind the zero word nothing more is issued. */
  lemma FreshAfterStall(m: Machine, slots: SlotTable, ev: Event, m': Machine, image: Bytes)
    requires Fresh(m, image, 4) && InRange(m') && m'.memory.bytes == image
    requires EventOk(m.rob, slots, ev) && Transition(m.rob, m'.rob, ev) && !ev.flush && !ev.commit
    requires !ev.completion.valid
    requires !ev.issued && m'.pc == m.pc && m'.fetchStopped == m.fetchStopped
    ensures Fresh(m', image, 4)
  {
    hide EventOk, Transition, WordAddress, FreshBuffer;
    FreshBufferAfter(m.rob, slots, m'.rob, ev, 4);
  }

  // --- The machine: waiting for the jump ---------------------------------------------------------------

  /** The jump is unfinished, and nothing else in flight redirects. */
  ghost predicate JumpInBuffer(rob: RobState) {
    && rob.cur[2].valid && rob.cur[2].tag == Tag(2) && !rob.cur[2].ready && !rob.cur[2].isStore
    && (forall i :: 0 <= i < ROB_CAPACITY && rob.cur[i].valid ==>
        !rob.cur[i].op.HALT? && (IsControl(rob.cur[i]) ==> i == 2))
  }

  /** And the pc is stuck at the zero word. */
  ghost predicate JumpWaits(m: Machine, image: Bytes) {
    JumpInBuffer(m.rob) && InRange(m) && m.memory.bytes == image && m.pc == WordAddress(4) && !m.fetchStopped
  }

  lemma JumpInBufferAfter(rob: RobState, slots: SlotTable, rob': RobState, ev: Event)
    requires JumpInBuffer(rob) && WellFormed(rob) && EventOk(rob, slots, ev) && Transition(rob, rob', ev)
    requires !(ev.completion.valid && ev.completion.tag == Tag(2)) && !ev.flush && !ev.issued
    ensures JumpInBuffer(rob')
  {
    hide ResultOk, Age;
  }

  lemma HeadIsHarmless(rob: RobState)
    requires JumpInBuffer(rob) && WellFormed(rob)
    ensures rob.count > 0
    ensures rob.cur[rob.head].ready ==> !Mispredicted(rob.cur[rob.head]) && !rob.cur[rob.head].op.HALT?
  {
    hide Age;
    HeadIsValid(rob);
    JumpIsLive(rob);
  }

  lemma FreshWaits(m: Machine, image: Bytes)
    requires WellFormed(m.rob) && Fresh(m, image, 4)
    ensures JumpWaits(m, image)
  {
    hide WordAddress;
  }

  lemma JumpIsLive(rob: RobState)
    requires WellFormed(rob) && rob.cur[2].valid
    ensures rob.count > 0
  {
  }

  lemma FetchedWhileWaiting(m: Machine, image: Bytes)
    requires HoldsProgram(image) && JumpWaits(m, image)
    ensures Fetched(m).op.INVALID?
  {
    hide Decode, ReadWord, WordAddress, RawRead;
    assert Decode(ReadWord(image, WordAddress(4)).value) == Instruction(4);
  }

  // --- The load/store queue ------------------------------------------------------------------------

  function AddressOf(i: nat): Address { if i == 0 then 16 else 0xffff_fffc }

  /** The load number i with its address formed. */
  predicate Access(e: LsqEntry, i: nat, sent: bool) {
    && e.valid && e.kind.LOAD? && e.op.LW? && e.destination == Tag(i) && e.addressReady && e.address == AddressOf(i)
    && e.requestSent == sent
  }

  predicate HeadIs(lsq: LsqState, i: nat, sent: bool) {
    lsq.head < LSQ_CAPACITY && lsq.count > 0 && Access(lsq.cur[lsq.head], i, sent)
  }

  lemma HeardAccess(e: LsqEntry, i: nat, sent: bool, cdb: CdbMessage)
    requires Access(e, i, sent)
    ensures Access(UpdateAddress(LSQ.WakeEntry(e, cdb)), i, sent)
    ensures Access(UpdateAddress(LSQ.WakeEntry(e, cdb).(requestSent := true)), i, true)
  {
    hide WakeOperand;
  }

  /** An entry behind the head stays as it is. */
  lemma BehindStays(lsq: LsqState, o: LsqObserve, inputs: LsqInputs, l: nat, i: nat)
    requires WellFormedLsq(lsq) && !inputs.flush && l < LSQ_CAPACITY && l != lsq.head && l != lsq.tail
    requires Answered(lsq, o) ==> lsq.cur[lsq.head].requestSent
    requires Access(lsq.cur[l], i, false)
    ensures Access(LSQ.Apply(lsq, inputs, LSQ.Plan(lsq, o)).cur[l], i, false)
  {
    hide LSQ.Apply, LSQ.Plan, Access, LSQ.WakeEntry, UpdateAddress, Answered;
    RemoveOrSend(lsq, o);
    ApplySlot(lsq, inputs, LSQ.Plan(lsq, o), l);
    HeardAccess(lsq.cur[l], i, false, inputs.cdb);
  }

  lemma IssuedAccess(lsq: LsqState, o: LsqObserve, inputs: LsqInputs, i: nat)
    requires WellFormedLsq(lsq) && !inputs.flush && lsq.count < LSQ_CAPACITY && inputs.issueValid
    requires Answered(lsq, o) ==> lsq.cur[lsq.head].requestSent
    requires var e := inputs.issueEntry;
             && e.valid && e.kind.LOAD? && e.op.LW? && e.destination == Tag(i) && !e.addressReady
             && e.base.ready && Add(e.base.value, e.immediate) == AddressOf(i)
    ensures Access(LSQ.Apply(lsq, inputs, LSQ.Plan(lsq, o)).cur[lsq.tail], i, false)
  {
    hide LSQ.Apply, LSQ.Plan, LSQ.WakeEntry, Answered, Add;
    RemoveOrSend(lsq, o);
    ApplySlot(lsq, inputs, LSQ.Plan(lsq, o), lsq.tail);
  }

  // How many entries there are, and where.
  lemma QueueWindow(lsq: LsqState, o: LsqObserve, inputs: LsqInputs)
    requires WellFormedLsq(lsq) && !inputs.flush
    requires (inputs.issueValid ==> inputs.issueEntry.valid && lsq.count < LSQ_CAPACITY)
    requires Answered(lsq, o) ==> lsq.cur[lsq.head].requestSent
    ensures var d := LSQ.Plan(lsq, o);
            var lsq' := LSQ.Apply(lsq, inputs, d);
            && lsq'.head == (if d.removeHead then NextLsqSlot(lsq.head) else lsq.head)
            && lsq'.tail == (if inputs.issueValid then NextLsqSlot(lsq.tail) else lsq.tail)
            && lsq'.count == (if d.removeHead then lsq.count - 1 else lsq.count) + (if inputs.issueValid then 1 else 0)
            && lsq'.loadResult == (if d.installLoadResult then d.completedLoad
                                   else if d.clearLoadResult then NO_RESULT else lsq.loadResult)
  {
    hide LSQ.Plan, UpdateAddresses, Rearranged;
    RemoveOrSend(lsq, o);
  }

  function RequestOf(i: nat): MemoryRequest { MemoryRequest(LOAD, WORD, AddressOf(i), 0, Tag(i), true) }

  /** An available port takes the head's request. */
  lemma HeadSends(lsq: LsqState, o: LsqObserve, inputs: LsqInputs, i: nat)
    requires WellFormedLsq(lsq) && !inputs.flush && !o.flush && HeadIs(lsq, i, false)
    requires o.memoryAvailable && !o.response.valid && (!lsq.loadResult.valid || o.loadResultGranted)
    requires inputs.issueValid ==> lsq.count < LSQ_CAPACITY
    ensures var d := LSQ.Plan(lsq, o);
            && d.request == RequestOf(i) && !d.memoryError && !d.removeHead && !d.installLoadResult
            && (d.clearLoadResult <==> o.loadResultGranted && lsq.loadResult.valid)
            && Access(LSQ.Apply(lsq, inputs, d).cur[lsq.head], i, true)
  {
    hide LSQ.Apply, LSQ.WakeEntry, UpdateAddress;
    SlotOfHead(lsq, inputs, LSQ.Plan(lsq, o));
    HeardAccess(lsq.cur[lsq.head], i, false, inputs.cdb);
  }

  lemma SlotOfHead(lsq: LsqState, inputs: LsqInputs, d: LsqDecision)
    requires WellFormedLsq(lsq) && !inputs.flush && lsq.count > 0 && !d.removeHead
    ensures lsq.cur[lsq.head].valid
    ensures LSQ.Apply(lsq, inputs, d).cur[lsq.head] ==
            (if d.markRequestSent then UpdateAddress(LSQ.WakeEntry(lsq.cur[lsq.head], inputs.cdb).(requestSent := true))
             else UpdateAddress(LSQ.WakeEntry(lsq.cur[lsq.head], inputs.cdb)))
  {
    hide LSQ.Apply, LSQ.WakeEntry, UpdateAddress, LsqAge;
    LsqHeadIsValid(lsq);
    if lsq.count < LSQ_CAPACITY { LsqTailAge(lsq); }
    ApplySlot(lsq, inputs, d, lsq.head);
  }

  /** A sent head without an answer waits. */
  lemma HeadWaitsHere(lsq: LsqState, o: LsqObserve, inputs: LsqInputs, i: nat)
    requires WellFormedLsq(lsq) && !inputs.flush && !o.flush && HeadIs(lsq, i, true) && !o.response.valid
    ensures var d := LSQ.Plan(lsq, o);
            && !d.request.valid && !d.memoryError && !d.removeHead && !d.installLoadResult
            && Access(LSQ.Apply(lsq, inputs, d).cur[lsq.head], i, true)
  {
    hide LSQ.Apply, LSQ.WakeEntry, UpdateAddress;
    SlotOfHead(lsq, inputs, LSQ.Plan(lsq, o));
    HeardAccess(lsq.cur[lsq.head], i, true, inputs.cdb);
  }

  /** A sent head that is answered well leaves for the buffer. */
  lemma HeadLeaves(lsq: LsqState, o: LsqObserve, i: nat)
    requires !o.flush && HeadIs(lsq, i, true)
    requires o.response.valid && o.response.tag == Tag(i) && !o.response.isStore && o.response.success
    ensures var d := LSQ.Plan(lsq, o);
            && !d.request.valid && !d.memoryError && d.removeHead && d.installLoadResult
            && d.completedLoad.valid && d.completedLoad.tag == Tag(i)
  {
    hide Extend;
  }

  // --- The port ---------------------------------------------------------------------------------------

  predicate Idle(mem: MU.MemoryState) { !mem.transaction.valid && !mem.response.valid }

  predicate Serving(mem: MU.MemoryState, i: nat, remaining: nat) {
    mem.transaction == MU.Transaction(RequestOf(i), remaining, true) && !mem.response.valid
  }

  predicate AnsweredTo(mem: MU.MemoryState, i: nat, success: bool) {
    && !mem.transaction.valid && mem.response.valid && mem.response.tag == Tag(i)
    && !mem.response.isStore && mem.response.success == success
  }

  lemma PortTick(mem: MU.MemoryState, request: MemoryRequest, i: nat)
    requires !mem.transaction.valid || mem.transaction.request.kind.LOAD?
    ensures MU.Apply(mem, request).bytes == mem.bytes
    ensures !mem.transaction.valid && request == RequestOf(i) ==> Serving(MU.Apply(mem, request), i, 3)
    ensures !mem.transaction.valid && !request.valid ==> Idle(MU.Apply(mem, request))
    ensures Serving(mem, i, 3) ==> Serving(MU.Apply(mem, request), i, 2)
    ensures Serving(mem, i, 2) ==> Serving(MU.Apply(mem, request), i, 1)
    ensures Serving(mem, i, 1) ==> AnsweredTo(MU.Apply(mem, request), i, i == 0)
  {
    hide RawRead;
    ReadsSixteen(mem.bytes);
  }

  lemma ReadsSixteen(bytes: Bytes)
    ensures RawRead(bytes, 16, WORD).Some? && RawRead(bytes, 0xffff_fffc, WORD).None?
  {
    hide Join4;
  }

  // --- The stations -----------------------------------------------------------------------------------

  predicate InStationHere(rs: RS.RsState, k: nat) {
    k < RS.RS_CAPACITY && rs.cur[k].busy && rs.cur[k].destination == Tag(k + 1)
  }

  /** Instruction k + 1 sits in station k and waits for instruction k. */
  predicate Waits(rs: RS.RsState, k: nat) {
    InStationHere(rs, k) && !rs.cur[k].lhs.ready && rs.cur[k].lhs.tag == Tag(k)
  }

  lemma WaitingStays(rs: RS.RsState, inputs: RS.RsInputs, k: nat)
    requires Waits(rs, k) && !inputs.flush
    ensures InStationHere(RS.Apply(rs, inputs, RS.Plan(rs, false)), k)
    ensures !(inputs.cdb.valid && inputs.cdb.tag == Tag(k)) ==> Waits(RS.Apply(rs, inputs, RS.Plan(rs, false)), k)
  {
    hide RS.SelectFrom, RS.MakeExecute, RS.FindFreeFrom;
    assert !RS.ReadyToGo(rs.cur[k]);
  }

  lemma FirstIdle(rs: RS.RsState, inputs: RS.RsInputs, k: nat)
    requires k < RS.RS_CAPACITY && !rs.cur[k].busy && (forall j :: 0 <= j < k ==> Waits(rs, j))
    requires !inputs.flush && inputs.issueValid && inputs.issueEntry.destination == Tag(k + 1)
    requires !inputs.issueEntry.lhs.ready && inputs.issueEntry.lhs.tag == Tag(k)
    ensures Waits(RS.Apply(rs, inputs, RS.Plan(rs, false)), k)
  {
    hide RS.SelectFrom, RS.MakeExecute;
    var before := RS.BeforeIssue(rs, inputs, RS.Plan(rs, false));
    assert !before[k].busy;
    forall j | 0 <= j < k ensures before[j].busy { assert Waits(rs, j); }
  }

  lemma IdleStays(rs: RS.RsState, inputs: RS.RsInputs, k: nat)
    requires k < RS.RS_CAPACITY && !rs.cur[k].busy && !inputs.flush
    requires !inputs.issueValid || (exists j :: 0 <= j < k && !rs.cur[j].busy)
    ensures !RS.Apply(rs, inputs, RS.Plan(rs, false)).cur[k].busy
  {
    hide RS.SelectFrom, RS.MakeExecute;
    var before := RS.BeforeIssue(rs, inputs, RS.Plan(rs, false));
    assert !before[k].busy;
    assert forall j :: 0 <= j < RS.RS_CAPACITY && !rs.cur[j].busy ==> !before[j].busy;
  }

  // --- The unit, and what is issued ---------------------------------------------------------------------

  /** While everything in flight is held elsewhere the functional unit is idle. */
  lemma UnitIdle(m: Machine, n: nat)
    requires HeldOnce(m) && WellFormed(m.rob) && FreshBuffer(m.rob, n)
    requires n >= 1 ==> Holds(InQueue(0), Tag(0), m) || Holds(InBuffer, Tag(0), m)
    requires n >= 2 ==> InStationHere(m.rs, 0)
    requires n >= 3 ==> InStationHere(m.rs, 1)
    requires n >= 4 ==> Holds(InQueue(1), Tag(3), m)
    ensures !m.fu.valid
  {
    hide Instruction;
    assert n >= 2 ==> Holds(InStation(0), Tag(1), m);
    assert n >= 3 ==> Holds(InStation(1), Tag(2), m);
    assert m.fu.valid ==> Holds(InUnit, m.fu.tag, m);
  }

  /** A load off x0 gets its address as it is issued. */
  lemma NewLoad(m: Machine, image: Bytes, n: nat, taken: bool, cdb: CdbMessage)
    requires HoldsProgram(image) && Fresh(m, image, n) && (n == 0 || n == 3) && NextTag(m.rob) == Tag(n)
    ensures var e := NewAccess(m, taken, cdb);
            && e.valid && e.kind.LOAD? && e.op.LW? && e.destination == Tag(n) && !e.addressReady
            && e.base.ready && Add(e.base.value, e.immediate) == AddressOf(n)
    ensures Issue.NeedsLsq(Instruction(n)) && !Issue.NeedsRs(Instruction(n))
  {
    hide HoldsProgram, WordAddress, SourceOf, NextTag, Fetched;
    FetchedNow(m, image, n);
  }

  /** An instruction reading x1 waits for the one before it. */
  lemma NewWaiter(m: Machine, image: Bytes, n: nat, taken: bool)
    requires HoldsProgram(image) && RenamesYoungest(m) && WellFormed(m.rob)
    requires Fresh(m, image, n) && (n == 1 || n == 2) && NextTag(m.rob) == Tag(n)
    ensures var e := NewStation(m, taken, NO_MESSAGE);
            e.destination == Tag(n) && !e.lhs.ready && e.lhs.tag == Tag(n - 1)
    ensures Issue.NeedsRs(Instruction(n)) && !Issue.NeedsLsq(Instruction(n))
  {
    hide HoldsProgram, WordAddress, NextTag, Fetched, RenamesYoungest, WellFormed, SourceOf, Fresh;
    FetchedNow(m, image, n);
    ProducerIsLast(m, image, n);
  }

  lemma ProducerIsLast(m: Machine, image: Bytes, n: nat)
    requires RenamesYoungest(m) && WellFormed(m.rob) && Fresh(m, image, n) && (n == 1 || n == 2)
    ensures SourceOf(m, 1).producer == Tag(n - 1) && !SourceOf(m, 1).producerReady
  {
    hide WordAddress;
    assert WritesRegister(m.rob.cur[n - 1], 1);
    assert m.rat[1].valid;
  }
}
