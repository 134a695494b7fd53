// The assertions of the simulator, and why none of them can fire.
module Assertions {
  import opened Types
  import opened Isa
  import opened Decoder
  import opened ReorderBuffers
  import opened LoadStoreQueues
  import opened Pipeline
  import opened Invariants
  import opened PortSteps
  import opened IssueSteps
  import opened CycleSteps
  import opened MachineSteps
  import ROB = ReorderBuffers
  import LSQ = LoadStoreQueues
  import RS = ReservationStations
  import MU = MemoryUnits
  import FU = FunctionalUnits
  import Issue = IssueUnits

  /** An issued instruction is accepted by every structure it allocates in. */
  predicate IssueAsserted(m: Machine, w: Wires)
    requires InRange(m)
  {
    IssueEffective(w) ==>
      && ROB.IssueAccepted(m.rob, RobInputsOf(w), w.rob)
      && (w.issue.writeRs ==> RS.IssueAccepted(m.rs, RsInputsOf(m, w), w.rs))
      && (w.issue.writeLsq ==> LSQ.IssueAccepted(m.lsq, LsqInputsOf(w)))
  }

  /** A dispatched instruction is executable and, when the unit is free, taken. */
  predicate DispatchAsserted(m: Machine, w: Wires) {
    && (w.rs.dispatch.valid ==> FU.Executable(w.rs.dispatch.op))
    && (w.rs.dispatchValid && FU.CanAccept(m.fu, w.cdb.integerGranted) && !w.preview.flush ==>
          FU.Accepts(m.fu, w.rs.dispatch, w.preview.flush, w.cdb.integerGranted))
  }

  /** A request carries a tag, is a load or a store, and is accepted by the port. */
  predicate RequestAsserted(m: Machine, w: Wires)
    requires InRange(m)
  {
    w.lsq.request.valid ==>
      && w.lsq.request.tag.valid
      && IsMemoryOp(m.lsq.cur[m.lsq.head].op)
      && MU.Accepts(m.memory, w.lsq.request)
  }

  /** A finished load is a load, and finds the buffer free or being freed. */
  predicate InstallAsserted(m: Machine, w: Wires)
    requires InRange(m)
  {
    w.lsq.installLoadResult ==>
      && IsLoadOp(m.lsq.cur[m.lsq.head].op)
      && (w.lsq.clearLoadResult || !m.lsq.loadResult.valid)
  }

  /** Every assertion the simulator evaluates on the frozen outputs w holds. */
  predicate Asserted(m: Machine, w: Wires)
    requires InRange(m)
  {
    IssueAsserted(m, w) && DispatchAsserted(m, w) && RequestAsserted(m, w) && InstallAsserted(m, w)
  }

  lemma IssueIsAccepted(m: Machine, gh: Ghost, taken: bool)
    requires Consistent(m, gh)
    ensures InRange(m) && IssueAsserted(m, Observe(m, taken))
  {
    hide Consistent, Observe, Issue.ResolveRegister, SourceOf, Fetched, RS.BeforeIssue, RS.FindFree, RS.Full, PacketOf,
         ROB.Plan, RS.Plan, LSQ.Plan, PlanCdb, PreviewRob, WellFormed;
    RobInOrder(m, gh);
    RobInOrder(m, gh);
    var w := Observe(m, taken);
    WiresOf(m, taken);
    PreviewAgrees(m.rob);
    IssueAllOrNothing(m, taken);
    FullHasNoTag(m.rob);
    if IssueEffective(w) && w.issue.writeRs {
      FreeStationRemains(m.rs, RsInputsOf(m, w), w.rs);
    }
  }

  lemma FullHasNoTag(rob: RobState)
    requires rob.tail < ROB_CAPACITY
    ensures NextTag(rob).valid ==> !ROB.Full(rob)
  {
  }

  lemma ModulesOf(m: Machine, gh: Ghost)
    requires Consistent(m, gh)
    ensures StationsOk(m.rs, m.rob, gh.slots) && AllMeaningful(m.rob, gh.slots) && EntriesMatch(m.rob, gh.slots)
    ensures QueueOk(m.lsq, m.rob, gh.slots) && LoadBufferOk(m.lsq, m.rob, gh.slots)
  {
  }

  lemma DispatchIsTaken(m: Machine, gh: Ghost, taken: bool)
    requires Consistent(m, gh)
    ensures InRange(m) && DispatchAsserted(m, Observe(m, taken))
  {
    hide Consistent, Observe, LSQ.Plan, ROB.Plan, PlanCdb, PreviewRob, StationsOk, AllMeaningful, EntriesMatch, QueueOk,
         LoadBufferOk, FU.Executable, FU.ResultWord, FU.ActualNextPc, RS.SelectReady;
    RobInOrder(m, gh);
    WiresOf(m, taken);
    ModulesOf(m, gh);
    SelectedIsReady(m.rs);
    if RS.SelectReady(m.rs) < RS.RS_CAPACITY {
      StationsExecute(m, gh);
    }
  }

  lemma SelectedIsReady(rs: RS.RsState)
    ensures RS.SelectReady(rs) <= RS.RS_CAPACITY
    ensures RS.SelectReady(rs) < RS.RS_CAPACITY ==> rs.cur[RS.SelectReady(rs)].busy
  {
  }

  // What the queue head is, when there is one.
  lemma HeadOfQueue(m: Machine, gh: Ghost)
    requires Consistent(m, gh)
    ensures InRange(m)
    ensures var head := m.lsq.cur[m.lsq.head];
            head.valid ==> head.destination.valid && IsMemoryOp(head.op) && (head.kind.LOAD? ==> IsLoadOp(head.op))
    ensures m.lsq.count > 0 ==> m.lsq.cur[m.lsq.head].valid
  {
    hide Consistent, ResultValue, Successor, Faults, After, OperandOk, Finished, StationsOk, LoadBufferOk, LsqAge;
    RobInOrder(m, gh);
    ModulesOf(m, gh);
    QueueHeadValid(m, gh);
    var head := m.lsq.cur[m.lsq.head];
    if head.valid {
      assert QueueEntryOk(m.lsq.head, head, m.lsq, m.rob, gh.slots);
      assert Meaning(gh.slots[head.destination.index]);
    }
  }

  lemma QueueHeadValid(m: Machine, gh: Ghost)
    requires QueueOk(m.lsq, m.rob, gh.slots)
    ensures m.lsq.count > 0 ==> m.lsq.cur[m.lsq.head].valid
  {
  }

  lemma RequestIsAccepted(m: Machine, gh: Ghost, taken: bool)
    requires Consistent(m, gh)
    ensures InRange(m) && RequestAsserted(m, Observe(m, taken))
  {
    hide Consistent, Observe, ROB.Plan, RS.Plan, PlanCdb, PreviewRob, WidthOf, Extend, IsMemoryOp, IsLoadOp;
    HeadOfQueue(m, gh);
    WiresOf(m, taken);
  }

  lemma InstallFindsRoom(m: Machine, gh: Ghost, taken: bool)
    requires Consistent(m, gh)
    ensures InRange(m) && InstallAsserted(m, Observe(m, taken))
  {
    hide Consistent, Observe, ObservationOf, ROB.Plan, RS.Plan, PlanCdb, PreviewRob, WidthOf, Extend, IsMemoryOp,
         IsLoadOp, PortInputs, RequestInputs, QueueOk, AllMeaningful, EntriesMatch, StationsOk, AnswerOk;
    HeadOfQueue(m, gh);
    WiresOf(m, taken);
    ModulesOf(m, gh);
    PortInputsHold(m, gh, taken);
    if Answered(m.lsq, ObservationOf(m, taken)) {
      AnsweredIsInFlight(m, ObservationOf(m, taken), gh.slots);
    }
  }

  /** No assertion fires in any consistent state. */
  lemma NoAssertionFires(m: Machine, gh: Ghost, taken: bool)
    requires Consistent(m, gh)
    ensures InRange(m) && Asserted(m, Observe(m, taken))
  {
    hide Consistent, Observe, IssueAsserted, DispatchAsserted, RequestAsserted, InstallAsserted;
    IssueIsAccepted(m, gh, taken);
    DispatchIsTaken(m, gh, taken);
    RequestIsAccepted(m, gh, taken);
    InstallFindsRoom(m, gh, taken);
  }
}
