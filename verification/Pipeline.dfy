// One clock cycle of the out-of-order machine as a function of its state
// (src/tomasulo/cpu.cpp). The prediction for the current pc is a parameter,
// so everything proved about Cycle holds for every branch predictor.
module Pipeline {
  import opened Types
  import opened WordArithmetic
  import opened Image
  import opened Isa
  import opened Decoder
  import opened ReorderBuffers
  import opened RegisterFiles
  import opened RenameTables
  import opened CommonDataBuses
  import FU = FunctionalUnits
  import ROB = ReorderBuffers
  import RS = ReservationStations
  import LSQ = LoadStoreQueues
  import MU = MemoryUnits
  import Issue = IssueUnits

  datatype Status =
    | NotLoaded | Running | Halted | LoadError
    | FetchOutOfBound | InvalidInstruction | MemoryOutOfBound | InternalError

  /** The latched state of every module, between two clock edges. */
  datatype Machine = Machine(
    regs: Registers,
    rat: Table,
    rob: RobState,
    rs: RS.RsState,
    lsq: LSQ.LsqState,
    fu: FUResult,
    preferLoad: bool,
    memory: MU.MemoryState,
    pc: Address,
    fetchStopped: bool,
    status: Status,
    cycles: nat,
    committed: nat,
    exitCode: Word)

  /** A machine whose image has just been loaded. */
  function Reset(bytes: Bytes): Machine {
    Machine(
      Repeat(REGISTER_COUNT, 0), EMPTY_TABLE, EMPTY_ROB, RS.RsState(RS.EMPTY_STATIONS, 0), LSQ.EMPTY_LSQ,
      NO_RESULT, false, MU.MemoryState(bytes, MU.NO_TRANSACTION, NO_RESPONSE),
      0, false, Running, 0, 0, 0)
  }

  /** The ring indices of a machine are in range. */
  predicate InRange(m: Machine) {
    && m.rob.head < ROB_CAPACITY && m.rob.tail < ROB_CAPACITY
    && m.lsq.head < LSQ.LSQ_CAPACITY && m.lsq.tail < LSQ.LSQ_CAPACITY
  }

  // --- Phase A: observe ----------------------------------------------------

  datatype Preview = Preview(storeRequest: StoreMessage, flush: bool, redirectPc: Address)

  function PreviewRob(rob: RobState): Preview
    requires rob.head < ROB_CAPACITY
  {
    if !HasFront(rob) then Preview(NO_STORE, false, 0)
    else
      var head := rob.cur[rob.head];
      var store := if head.isStore && !head.ready then StoreMessage(head.tag, true) else NO_STORE;
      var flush := (head.isBranch || head.isJump) && head.ready && head.predictedNextPc != head.actualNextPc;
      Preview(store, flush, if flush then head.actualNextPc else 0)
  }

  function PlanCdb(m: Machine, flush: bool): CdbDecision {
    if flush then Arbitrate(m.preferLoad, NO_RESULT, NO_RESULT)
    else Arbitrate(m.preferLoad, m.fu, m.lsq.loadResult)
  }

  function ObserveLsq(m: Machine, preview: Preview, cdb: CdbDecision): LSQ.LsqObserve {
    LSQ.LsqObserve(preview.storeRequest, m.memory.response, MU.Available(m.memory), cdb.loadGranted, preview.flush)
  }

  // --- Phase B: plan -------------------------------------------------------

  function PredictedNextPc(d: DecodedInstruction, pc: Address, taken: bool): Address {
    var sequential := Add(pc, INSTRUCTION_WIDTH);
    if d.isBranch then (if taken then Add(pc, d.immediate) else sequential)
    else if d.op.JAL? then Add(pc, d.immediate)
    else sequential
  }

  function SourceOf(m: Machine, register: RegisterIndex): Issue.SourceState {
    if register == 0 then Issue.SourceState(0, NO_TAG, 0, false)
    else
      var producer := Lookup(m.rat, register);
      var architectural := ReadRegister(m.regs, register);
      if producer.valid && Matching(producer, m.rob.cur) && m.rob.cur[producer.index].ready
      then Issue.SourceState(architectural, producer, m.rob.cur[producer.index].value, true)
      else Issue.SourceState(architectural, producer, 0, false)
  }

  function PacketOf(pc: Address, d: DecodedInstruction, taken: bool): Issue.DecodePacket {
    Issue.DecodePacket(pc, d, PredictedNextPc(d, pc, taken), true)
  }

  function IssueInputsOf(m: Machine, d: DecodedInstruction, taken: bool, cdb: CdbDecision): Issue.IssueInputs
    requires InRange(m)
  {
    Issue.IssueInputs(
      PacketOf(m.pc, d, taken), NextTag(m.rob), SourceOf(m, d.rs1), SourceOf(m, d.rs2),
      cdb.broadcast, !ROB.Full(m.rob), !RS.Full(m.rs.cur), !LSQ.LsqFull(m.lsq))
  }

  predicate Fetches(m: Machine, flush: bool) {
    !flush && !m.fetchStopped && !ROB.Full(m.rob)
  }

  function PlanIssue(m: Machine, flush: bool, taken: bool, cdb: CdbDecision): Issue.IssueOutputs
    requires InRange(m)
  {
    if !Fetches(m, flush) then Issue.NO_ISSUE
    else
      match MU.Fetch(m.memory, m.pc)
      case None => Issue.NO_ISSUE
      case Some(word) => Issue.Plan(IssueInputsOf(m, Decode(word), taken, cdb))
  }

  /** Every module's outputs for this cycle, frozen before any state changes. */
  datatype Wires = Wires(
    preview: Preview,
    cdb: CdbDecision,
    fetchError: bool,
    issue: Issue.IssueOutputs,
    rob: RobOutputs,
    rs: RS.RsDecision,
    lsq: LSQ.LsqDecision)

  function Observe(m: Machine, taken: bool): Wires
    requires InRange(m)
  {
    var preview := PreviewRob(m.rob);
    var cdb := PlanCdb(m, preview.flush);
    Wires(
      preview, cdb,
      Fetches(m, preview.flush) && MU.Fetch(m.memory, m.pc).None?,
      PlanIssue(m, preview.flush, taken, cdb),
      ROB.Plan(m.rob),
      RS.Plan(m.rs, preview.flush),
      LSQ.Plan(m.lsq, ObserveLsq(m, preview, cdb)))
  }

  // --- Phase C: the inputs each module absorbs ------------------------------

  predicate IssueEffective(w: Wires) { w.issue.status.Issued? && !w.rob.flush }

  function RobInputsOf(w: Wires): RobInputs {
    RobInputs(w.issue.robEntry, w.issue.writeRob && !w.preview.flush, w.cdb.completion, w.lsq.storeCompletion)
  }

  function RsInputsOf(m: Machine, w: Wires): RS.RsInputs {
    RS.RsInputs(w.issue.rsEntry, w.issue.writeRs && IssueEffective(w), w.cdb.broadcast,
                FU.CanAccept(m.fu, w.cdb.integerGranted), w.preview.flush)
  }

  function LsqInputsOf(w: Wires): LSQ.LsqInputs {
    LSQ.LsqInputs(w.issue.lsqEntry, w.issue.writeLsq && !w.preview.flush, w.cdb.broadcast, w.preview.flush)
  }

  function RegisterWriteOf(w: Wires): RegisterWrite {
    if w.rob.commit.valid && w.rob.commit.entry.writesRd
    then RegisterWrite(w.rob.commit.entry.rd, w.rob.commit.entry.value, true)
    else NO_WRITE
  }

  function RatWriteOf(w: Wires): RatWrite {
    if w.issue.rename.valid && IssueEffective(w)
    then RatWrite(w.issue.rename.rd, w.issue.rename.tag, true)
    else RatWrite(0, NO_TAG, false)
  }

  function RatCommitOf(w: Wires): RatCommit {
    if w.rob.commit.valid && w.rob.commit.entry.writesRd
    then RatCommit(w.rob.commit.entry.rd, w.rob.commit.entry.tag, true)
    else RatCommit(0, NO_TAG, false)
  }

  function NextPcOf(m: Machine, w: Wires): Address {
    if w.rob.flush then w.rob.redirectPc
    else if IssueEffective(w) then w.issue.robEntry.predictedNextPc
    else m.pc
  }

  function NextFetchStopped(m: Machine, w: Wires): bool {
    if w.rob.flush then false
    else m.fetchStopped || (IssueEffective(w) && w.issue.robEntry.op.HALT?)
  }

  function NextStatus(m: Machine, w: Wires): Status {
    if w.rob.commit.halted then Status.Halted
    else if w.lsq.memoryError then MemoryOutOfBound
    else if w.issue.status.InvalidAllocation? then InternalError
    else if w.issue.status.InvalidInstruction? && ROB.Empty(m.rob) then InvalidInstruction
    else if w.fetchError && ROB.Empty(m.rob) then FetchOutOfBound
    else m.status
  }

  predicate Retires(w: Wires) { w.rob.commit.valid && !w.rob.commit.entry.op.HALT? }

  // --- Phase D: the next state ----------------------------------------------

  /** All modules latched. */
  function Latch(m: Machine, w: Wires): Machine
    requires InRange(m)
    requires w.rob.commit.valid ==> m.rob.count > 0
    requires w.rob.flush ==> w.rob.commit.valid
    requires w.lsq.removeHead ==> m.lsq.count > 0
  {
    Machine(
      RegisterFiles.Committed(m.regs, RegisterWriteOf(w)),
      NextTable(m.rat, RatWriteOf(w), RatCommitOf(w), w.rob.flush),
      ROB.Apply(m.rob, RobInputsOf(w), w.rob),
      RS.Apply(m.rs, RsInputsOf(m, w), w.rs),
      LSQ.Apply(m.lsq, LsqInputsOf(w), w.lsq),
      FU.NextResult(m.fu, w.rs.dispatch, w.preview.flush, w.cdb.integerGranted),
      w.cdb.nextPreferLoad,
      MU.Apply(m.memory, w.lsq.request),
      NextPcOf(m, w),
      NextFetchStopped(m, w),
      NextStatus(m, w),
      m.cycles + 1,
      if Retires(w) then m.committed + 1 else m.committed,
      if w.rob.commit.halted then And(ReadRegister(m.regs, 10), 0xff) else m.exitCode)
  }

  // What commits or leaves a queue was there.
  lemma OutputsFit(m: Machine, taken: bool)
    requires InRange(m)
    ensures var w := Observe(m, taken);
            && (w.rob.commit.valid ==> m.rob.count > 0)
            && (w.rob.flush ==> w.rob.commit.valid)
            && (w.lsq.removeHead ==> m.lsq.count > 0)
  {
    hide PlanIssue, PlanCdb, PreviewRob, RS.Plan, Mispredicted, LSQ.MaySend, LSQ.MakeRequest, LSQ.LoadCompletion;
  }

  /** One cycle; a machine that is not running does nothing. */
  function Cycle(m: Machine, taken: bool): (m': Machine)
    requires InRange(m)
    ensures InRange(m')
  {
    if m.status != Running then m
    else
      OutputsFit(m, taken);
      Latch(m, Observe(m, taken))
  }

  /** The machine after n cycles from a loaded image, under any sequence of predictions. */
  function RunFor(bytes: Bytes, predict: nat -> bool, n: nat): (m: Machine)
    ensures InRange(m)
  {
    if n == 0 then Reset(bytes) else Cycle(RunFor(bytes, predict, n - 1), predict(n - 1))
  }
}
