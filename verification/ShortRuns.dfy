// Following a run cycle by cycle: what a cycle does while the oldest
// instruction is unfinished.
module ShortRuns {
  import opened Types
  import opened Image
  import opened Decoder
  import opened ReorderBuffers
  import opened LoadStoreQueues
  import opened Pipeline
  import opened Invariants
  import opened RobSteps
  import opened CycleSteps
  import opened StationSteps
  import opened Progress
  import opened Theorems
  import ROB = ReorderBuffers
  import LSQ = LoadStoreQueues
  import RS = ReservationStations
  import MU = MemoryUnits
  import Issue = IssueUnits

  /** Every structure has room for the valid instruction at the pc. */
  predicate RoomToIssue(m: Machine)
    requires InRange(m)
  {
    && !m.fetchStopped && m.rob.count < ROB_CAPACITY && !RS.Full(m.rs.cur) && !LsqFull(m.lsq)
    && MU.Fetch(m.memory, m.pc).Some? && !Fetched(m).op.INVALID?
  }

  predicate Unfinished(m: Machine)
    requires InRange(m)
  {
    m.rob.count > 0 ==> !m.rob.cur[m.rob.head].ready
  }

  // The queue entry and the station entry of the instruction at the pc.
  function NewAccess(m: Machine, taken: bool, cdb: CdbMessage): LsqEntry
    requires InRange(m)
  {
    var d := Fetched(m);
    Issue.MakeLsqEntry(PacketOf(m.pc, d, taken), NextTag(m.rob), Issue.ResolveRegister(d.rs1, SourceOf(m, d.rs1), cdb),
                       Issue.ResolveRegister(d.rs2, SourceOf(m, d.rs2), cdb))
  }

  function NewStation(m: Machine, taken: bool, cdb: CdbMessage): RS.RsEntry
    requires InRange(m)
  {
    var d := Fetched(m);
    Issue.MakeRsEntry(PacketOf(m.pc, d, taken), NextTag(m.rob), Issue.ResolveRegister(d.rs1, SourceOf(m, d.rs1), cdb),
                      Issue.ResolveRegister(d.rs2, SourceOf(m, d.rs2), cdb))
  }

  lemma RoomIssues(m: Machine, taken: bool)
    requires InRange(m) && RoomToIssue(m) && !PreviewRob(m.rob).flush && NextTag(m.rob).valid
    ensures Observe(m, taken).issue.status.Issued?
  {
    hide RS.Plan, LSQ.Plan, PlanCdb, PreviewRob, ROB.Plan, RS.Full, NextTag, Decode, MU.Fetch, Issue.MakeRobEntry,
         Issue.MakeRsEntry, Issue.MakeLsqEntry, Issue.ResolveRegister, SourceOf, PredictedNextPc;
  }

  lemma NoIssue(m: Machine, taken: bool)
    requires InRange(m) && (MU.Fetch(m.memory, m.pc).Some? ==> Fetched(m).op.INVALID?)
    ensures !Observe(m, taken).issue.status.Issued? && !Observe(m, taken).issue.status.InvalidAllocation?
  {
    hide RS.Plan, LSQ.Plan, PlanCdb, PreviewRob, ROB.Plan, RS.Full, NextTag, Decode, MU.Fetch, Issue.MakeRobEntry,
         Issue.MakeRsEntry, Issue.MakeLsqEntry, Issue.ResolveRegister, SourceOf, PredictedNextPc;
  }

  /** A cycle that does not flush, from the reorder buffer, the stations and the queue. */
  ghost predicate QuietCycle(m: Machine, slots: SlotTable, w: Wires, o: LsqObserve, ev: Event, m': Machine)
    requires InRange(m)
  {
    && WellFormed(m.rob) && EventOk(m.rob, slots, ev) && Transition(m.rob, m'.rob, ev) && !ev.flush
    && ExecutionStep(m, RsInputsOf(m, w), m') && AccessStep(m, o, LsqInputsOf(w), m')
    && ev.completion == PlanCdb(m, false).completion && ev.issued == IssueEffective(w)
    && w.cdb.broadcast == Broadcast(ev.completion) && w.lsq == LSQ.Plan(m.lsq, o) && o.response == m.memory.response
  }

  /** A valid instruction that finds room is issued behind an unfinished one. */
  ghost predicate IssuesNext(m: Machine, taken: bool, w: Wires, ev: Event, m': Machine)
    requires InRange(m)
  {
    var d := Fetched(m);
    && !ev.commit && ev.issued
    && ev.entry == Issue.MakeRobEntry(PacketOf(m.pc, d, taken), NextTag(m.rob))
    && w.issue.writeLsq == Issue.NeedsLsq(d) && w.issue.writeRs == Issue.NeedsRs(d)
    && (Issue.NeedsRs(d) ==> w.issue.rsEntry == NewStation(m, taken, w.cdb.broadcast))
    && (Issue.NeedsLsq(d) ==> w.issue.lsqEntry == NewAccess(m, taken, w.cdb.broadcast))
    && NextTag(m.rob) == RobTag(m.rob.tail, m.rob.generations[m.rob.tail] + 1, true)
    && m'.pc == PredictedNextPc(d, m.pc, taken)
    && m'.fetchStopped == d.op.HALT?
    && m'.status == if w.lsq.memoryError then MemoryOutOfBound else Running
  }

  /** Behind an invalid word nothing is issued; what commits, if anything, redirects nothing. */
  ghost predicate Stalls(m: Machine, w: Wires, ev: Event, m': Machine)
    requires InRange(m)
  {
    && !ev.issued && !w.issue.writeRs && !w.issue.writeLsq && m'.pc == m.pc && m'.fetchStopped == m.fetchStopped
    && (ev.commit <==> m.rob.count > 0 && m.rob.cur[m.rob.head].ready)
    && m'.status == if w.lsq.memoryError then MemoryOutOfBound else Running
  }

  lemma PredictionOfEntry(packet: Issue.DecodePacket, tag: RobTag)
    ensures Issue.MakeRobEntry(packet, tag).predictedNextPc == packet.predictedPc
    ensures Issue.MakeRobEntry(packet, tag).op == packet.decoded.op
  {
  }

  lemma FreeTagWhenRoom(m: Machine)
    requires InRange(m) && RoomToIssue(m)
    ensures NextTag(m.rob) == RobTag(m.rob.tail, m.rob.generations[m.rob.tail] + 1, true) && !m.fetchStopped
  {
  }

  lemma RunningUnlessFailed(m: Machine, w: Wires)
    requires m.status == Running && !w.rob.commit.halted && w.issue.status.Issued?
    requires w.fetchError ==> m.rob.count > 0
    ensures NextStatus(m, w) == if w.lsq.memoryError then MemoryOutOfBound else Running
  {
  }

  lemma QuietCycleHolds(m: Machine, gh: Ghost, taken: bool, w: Wires, o: LsqObserve, ev: Event, m': Machine)
    requires InRange(m) && Stepped(m, gh, taken, w, o, ev, m') && !ev.flush
    ensures QuietCycle(m, gh.slots, w, o, ev, m')
  {
    hide Stepped, Consistent, WellFormed, EventOk, Transition, ExecutionStep, AccessStep, Observe, ObservationOf,
         PlanCdb, RS.Apply, LSQ.Apply, LSQ.Plan, MU.Apply, RS.Plan, Fetched, StationFor, IssueEffective;
    StepParts(m, gh, taken, w, o, ev, m');
    WireParts(m, gh, taken, w, o, ev, m');
    ExecutionStepHolds(m, gh, taken, w, o, ev, m');
    AccessStepHolds(m, gh, taken, w, o, ev, m');
  }

  // --- In a run -----------------------------------------------------------------------------------

  lemma RunIssues(bytes: Bytes, predict: nat -> bool, n: nat)
    returns (slots: SlotTable, w: Wires, o: LsqObserve, ev: Event)
    requires var m := RunFor(bytes, predict, n);
             m.status == Running && Unfinished(m) && RoomToIssue(m)
    ensures QuietCycle(RunFor(bytes, predict, n), slots, w, o, ev, RunFor(bytes, predict, n + 1))
    ensures IssuesNext(RunFor(bytes, predict, n), predict(n), w, ev, RunFor(bytes, predict, n + 1))
  {
    hide RunFor, Cycle, Consistent, Stepped, Observe, ObservationOf, EventOf, EventOk, Transition, QuietCycle,
         RoomToIssue, Fetched, PredictedNextPc, RS.Full, NextTag, Decode, MU.Fetch, Mispredicted, Issue.MakeRobEntry,
         Issue.MakeRsEntry, Issue.MakeLsqEntry, Issue.ResolveRegister, SourceOf, NextStatus, StationFor, PreviewRob,
         PlanCdb, RS.Plan, LSQ.Plan, MU.Available, ROB.Plan;
    var m, m' := RunFor(bytes, predict, n), RunFor(bytes, predict, n + 1);
    var gh := RunIsConsistent(bytes, predict, n);
    RunStep(bytes, predict, n);
    StepHolds(m, gh, predict(n));
    slots, w, o, ev := gh.slots, Observe(m, predict(n)), ObservationOf(m, predict(n)), EventOf(m, gh, predict(n));
    ControlHolds(m, gh, predict(n), w, o, ev, m');
    WireParts(m, gh, predict(n), w, o, ev, m');
    WiresOf(m, predict(n));
    FreeTagWhenRoom(m);
    RoomIssues(m, predict(n));
    IssueAllOrNothing(m, predict(n));
    PredictionOfEntry(PacketOf(m.pc, Fetched(m), predict(n)), NextTag(m.rob));
    RunningUnlessFailed(m, w);
    QuietCycleHolds(m, gh, predict(n), w, o, ev, m');
  }

  lemma RunStalls(bytes: Bytes, predict: nat -> bool, n: nat)
    returns (slots: SlotTable, w: Wires, o: LsqObserve, ev: Event)
    requires var m := RunFor(bytes, predict, n);
             && m.status == Running && !m.fetchStopped && m.rob.count > 0 && Fetched(m).op.INVALID?
             && (m.rob.cur[m.rob.head].ready ==>
                 !Mispredicted(m.rob.cur[m.rob.head]) && !m.rob.cur[m.rob.head].op.HALT?)
    ensures QuietCycle(RunFor(bytes, predict, n), slots, w, o, ev, RunFor(bytes, predict, n + 1))
    ensures Stalls(RunFor(bytes, predict, n), w, ev, RunFor(bytes, predict, n + 1))
  {
    hide RunFor, Cycle, Consistent, Stepped, Observe, ObservationOf, EventOf, EventOk, Transition, QuietCycle, Fetched,
         Decode, ReadWord, MU.Fetch, Mispredicted, StationFor, PreviewRob, PlanCdb, RS.Plan, LSQ.Plan, MU.Available;
    var m, m' := RunFor(bytes, predict, n), RunFor(bytes, predict, n + 1);
    var gh := RunIsConsistent(bytes, predict, n);
    RunStep(bytes, predict, n);
    StepHolds(m, gh, predict(n));
    slots, w, o, ev := gh.slots, Observe(m, predict(n)), ObservationOf(m, predict(n)), EventOf(m, gh, predict(n));
    ControlHolds(m, gh, predict(n), w, o, ev, m');
    WireParts(m, gh, predict(n), w, o, ev, m');
    NoIssue(m, predict(n));
    IssueAllOrNothing(m, predict(n));
    QuietCycleHolds(m, gh, predict(n), w, o, ev, m');
  }
}
