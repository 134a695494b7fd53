// The load buffer, and the conservation of in-flight work: after every cycle
// each unfinished entry is still held by exactly the place meant for it.
module HolderSteps {
  import opened Types
  import opened Isa
  import opened ReorderBuffers
  import opened LoadStoreQueues
  import opened Invariants
  import opened RobSteps
  import opened QueueSteps
  import LSQ = LoadStoreQueues
  import RS = ReservationStations
  import FU = FunctionalUnits

  /** A load is no control instruction and goes to the next word. */
  ghost predicate LoadsGoOn(rob: RobState, slots: SlotTable) {
    forall i :: 0 <= i < ROB_CAPACITY && rob.cur[i].valid && slots[i].dec.isLoad ==>
      !ControlInstruction(slots[i].dec) && !Diverts(slots[i])
  }

  // --- Load buffer -------------------------------------------------------------

  /** The answer to the head load is that load's in-order value. */
  lemma InstalledLoad(lsq: LsqState, o: LsqObserve, inputs: LsqInputs, rob: RobState, slots: SlotTable, rob': RobState,
          ev: Event)
    requires WellFormed(rob) && EventOk(rob, slots, ev) && Transition(rob, rob', ev)
    requires QueueOk(lsq, rob, slots) && LoadBufferOk(lsq, rob, slots)
    requires QueueInputs(lsq, o, inputs, rob, slots, rob', ev)
    requires LSQ.Plan(lsq, o).installLoadResult
    requires LoadsGoOn(rob, slots)
    ensures var r := LSQ.Plan(lsq, o).completedLoad;
            && r.valid && r.tag == lsq.cur[lsq.head].destination
            && ResultOk(r, rob', SlotsAfter(rob, slots, ev))
            && SlotsAfter(rob, slots, ev)[r.tag.index].dec.isLoad
            && SlotsAfter(rob, slots, ev)[r.tag.index] == slots[r.tag.index]
  {
    hide Transition, EventOk, WellFormed, SlotsAfter, OperandOk, Extend, MaySend, NewQueueEntryOk;
    RemoveOrSend(lsq, o);
    var e := lsq.cur[lsq.head];
    assert QueueEntryOk(lsq.head, e, lsq, rob, slots);
    CompletionIsElsewhere(lsq, o, inputs, rob, slots, rob', ev, lsq.head);
    PendingPersists(rob, slots, rob', ev, e.destination);
  }

  lemma LoadBufferOkAfter(lsq: LsqState, o: LsqObserve, inputs: LsqInputs, rob: RobState, slots: SlotTable,
          rob': RobState, ev: Event)
    requires WellFormed(rob) && EventOk(rob, slots, ev) && Transition(rob, rob', ev)
    requires QueueOk(lsq, rob, slots) && LoadBufferOk(lsq, rob, slots)
    requires QueueInputs(lsq, o, inputs, rob, slots, rob', ev)
    requires LoadsGoOn(rob, slots)
    ensures LoadBufferOk(LSQ.Apply(lsq, inputs, LSQ.Plan(lsq, o)), rob', SlotsAfter(rob, slots, ev))
  {
    hide LSQ.Plan, LSQ.Apply, Transition, EventOk, SlotsAfter, AnswerOk, Answered, NewQueueEntryOk, QueueEntryOk,
         LsqAge;
    RemoveOrSend(lsq, o);
    var lsq' := LSQ.Apply(lsq, inputs, LSQ.Plan(lsq, o));
    BufferAfter(lsq, o, inputs);
    OlderBuffer(lsq, o);
    if LSQ.Plan(lsq, o).installLoadResult {
      InstalledLoad(lsq, o, inputs, rob, slots, rob', ev);
    } else if lsq.loadResult.valid && !o.loadResultGranted {
      KeptLoad(lsq, o, inputs, rob, slots, rob', ev);
    }
    if lsq'.loadResult.valid {
      forall l | 0 <= l < LSQ_CAPACITY && lsq'.cur[l].valid
        ensures lsq'.cur[l].destination.index < ROB_CAPACITY
        ensures SlotsAfter(rob, slots, ev)[lsq'.loadResult.tag.index].id
                < SlotsAfter(rob, slots, ev)[lsq'.cur[l].destination.index].id
        ensures !(lsq'.cur[l].kind.LOAD? && lsq'.cur[l].requestSent)
      {
        OlderThanQueue(lsq, o, inputs, rob, slots, rob', ev, l);
      }
    }
    NothingBuffered(rob', SlotsAfter(rob, slots, ev));
  }

  lemma NothingBuffered(rob: RobState, slots: SlotTable)
    ensures ResultOk(NO_RESULT, rob, slots)
  {
  }

  lemma KeptLoad(lsq: LsqState, o: LsqObserve, inputs: LsqInputs, rob: RobState, slots: SlotTable, rob': RobState,
          ev: Event)
    requires WellFormed(rob) && EventOk(rob, slots, ev) && Transition(rob, rob', ev)
    requires LoadBufferOk(lsq, rob, slots) && lsq.head < LSQ_CAPACITY
    requires QueueInputs(lsq, o, inputs, rob, slots, rob', ev)
    requires LoadsGoOn(rob, slots)
    requires lsq.loadResult.valid && !o.loadResultGranted
    ensures ResultOk(lsq.loadResult, rob', SlotsAfter(rob, slots, ev))
    ensures SlotsAfter(rob, slots, ev)[lsq.loadResult.tag.index] == slots[lsq.loadResult.tag.index]
  {
    hide Transition, WellFormed, SlotsAfter, LSQ.Plan, AnswerOk, NewQueueEntryOk;
    PendingPersists(rob, slots, rob', ev, lsq.loadResult.tag);
  }

  lemma OlderThanQueue(lsq: LsqState, o: LsqObserve, inputs: LsqInputs, rob: RobState, slots: SlotTable, rob': RobState,
          ev: Event, l: nat)
    requires WellFormed(rob) && EventOk(rob, slots, ev)
    requires QueueOk(lsq, rob, slots) && LoadBufferOk(lsq, rob, slots)
    requires QueueInputs(lsq, o, inputs, rob, slots, rob', ev)
    requires l < LSQ_CAPACITY && LSQ.Apply(lsq, inputs, LSQ.Plan(lsq, o)).cur[l].valid
    requires LSQ.Apply(lsq, inputs, LSQ.Plan(lsq, o)).loadResult.valid
    ensures var lsq' := LSQ.Apply(lsq, inputs, LSQ.Plan(lsq, o));
            && lsq'.cur[l].destination.index < ROB_CAPACITY
            && lsq'.loadResult.tag.index < ROB_CAPACITY
            && SlotsAfter(rob, slots, ev)[lsq'.loadResult.tag.index].id
               < SlotsAfter(rob, slots, ev)[lsq'.cur[l].destination.index].id
            && !(lsq'.cur[l].kind.LOAD? && lsq'.cur[l].requestSent)
  {
    hide LSQ.Plan, LSQ.Apply, LSQ.IssueAccepted, OperandOk, NewQueueEntryOk, AnswerOk, LsqAge, Age, NextLsqSlot,
         Answered;
    RemoveOrSend(lsq, o);
    QueueSurvivor(lsq, o, inputs, l);
    BufferAfter(lsq, o, inputs);
    OlderBuffer(lsq, o);
    if ev.issued { TailAge(rob); }
    assert QueueEntryOk(l, lsq.cur[l], lsq, rob, slots) && QueueEntryOk(lsq.head, lsq.cur[lsq.head], lsq, rob, slots);
    if l != lsq.head { BehindHead(lsq.head, l); }
    IssuedNeedsInput(lsq, inputs);
    LsqHeadIsValid(lsq);
  }

  lemma IssuedNeedsInput(lsq: LsqState, inputs: LsqInputs)
    ensures LSQ.IssueAccepted(lsq, inputs) ==> inputs.issueValid
  {
  }

  lemma BufferAfter(lsq: LsqState, o: LsqObserve, inputs: LsqInputs)
    requires WellFormedLsq(lsq) && !inputs.flush
    requires Answered(lsq, o) ==> lsq.cur[lsq.head].requestSent
    ensures var d := LSQ.Plan(lsq, o);
            && (d.removeHead ==> lsq.count > 0)
            && LSQ.Apply(lsq, inputs, d).loadResult ==
               (if d.installLoadResult then d.completedLoad else if d.clearLoadResult then NO_RESULT
                   else lsq.loadResult)
  {
    hide LSQ.Plan, UpdateAddresses, Rearranged, LsqAge;
    RemoveOrSend(lsq, o);
  }

  // Where the buffered result comes from, and that a load is sent only when the buffer is empty or emptying.
  lemma OlderBuffer(lsq: LsqState, o: LsqObserve)
    requires lsq.head < LSQ_CAPACITY
    ensures var d := LSQ.Plan(lsq, o);
            && (d.installLoadResult ==> d.completedLoad.tag == lsq.cur[lsq.head].destination)
            && (d.clearLoadResult == (!o.flush && o.loadResultGranted && lsq.loadResult.valid))
            && (d.markRequestSent && lsq.cur[lsq.head].kind.LOAD? ==> !lsq.loadResult.valid || d.clearLoadResult)
  {
    hide Extend, MakeRequest;
  }

  // --- Conservation -------------------------------------------------------------------

  /** A dispatched entry moves from its station to the functional unit; any other stays. */
  lemma StationHolds(tag: RobTag, fu: FUResult, granted: bool, rs: RS.RsState, inputs: RS.RsInputs, k: nat,
          completion: FUResult)
    requires HeldByStation(tag, k, rs, fu) && !inputs.flush
    requires inputs.fuAvailable == FU.CanAccept(fu, granted)
    requires granted ==> fu.valid && completion == fu
    requires !(completion.valid && completion.tag == tag)
    requires forall j :: 0 <= j < RS.RS_CAPACITY && RS.ReadyToGo(rs.cur[j]) ==> FU.Executable(rs.cur[j].op)
    ensures HeldByStation(tag, k, RS.Apply(rs, inputs, RS.Plan(rs, false)),
                          FU.NextResult(fu, RS.Plan(rs, false).dispatch, false, granted))
  {
    hide FU.ResultWord, FU.ActualNextPc, FU.Taken, FU.HasControlResult, FU.Executable, WakeOperand;
  }

  lemma NewStationHolds(tag: RobTag, rs: RS.RsState, inputs: RS.RsInputs, fu: FUResult)
    requires !inputs.flush && inputs.issueValid && inputs.issueEntry.destination == tag
    requires RS.FindFree(RS.BeforeIssue(rs, inputs, RS.Plan(rs, false))) < RS.RS_CAPACITY
    ensures HeldByStation(tag, RS.FindFree(RS.BeforeIssue(rs, inputs, RS.Plan(rs, false))),
                          RS.Apply(rs, inputs, RS.Plan(rs, false)), fu)
  {
    hide RS.BeforeIssue, RS.FindFree, RS.Plan;
  }

  /** A queued load moves to the load buffer, a queued store leaves when it is done; any other stays. */
  lemma QueueHolds(tag: RobTag, l: nat, lsq: LsqState, o: LsqObserve, inputs: LsqInputs, rob: RobState,
          slots: SlotTable, rob': RobState, ev: Event)
    requires WellFormed(rob) && EventOk(rob, slots, ev)
    requires QueueOk(lsq, rob, slots) && LoadBufferOk(lsq, rob, slots)
    requires QueueInputs(lsq, o, inputs, rob, slots, rob', ev)
    requires HeldByQueue(tag, l, lsq)
    requires !(ev.completion.valid && ev.completion.tag == tag)
    requires !(ev.storeDone.valid && ev.storeDone.tag == tag)
    ensures HeldByQueue(tag, l, LSQ.Apply(lsq, inputs, LSQ.Plan(lsq, o)))
  {
    hide WakeOperand, Extend, NewQueueEntryOk, OperandOk, Age, LsqAge, UpdateAddresses, Rearranged, WellFormed, EventOk,
         AnswerOk, MaySend;
    RemoveOrSend(lsq, o);
    ApplySlot(lsq, inputs, LSQ.Plan(lsq, o), l);
    LsqHeadIsValid(lsq);
    if LSQ.IssueAccepted(lsq, inputs) { LsqTailAge(lsq); }
    if LSQ.Plan(lsq, o).installLoadResult {
      BufferFreeForInstall(lsq, o);
    }
  }

  /** When a load's answer arrives the buffer is free, or empties this very cycle. */
  lemma BufferFreeForInstall(lsq: LsqState, o: LsqObserve)
    requires WellFormedLsq(lsq)
    requires Answered(lsq, o) ==> lsq.cur[lsq.head].requestSent
    requires LSQ.Plan(lsq, o).installLoadResult
    requires lsq.loadResult.valid ==>
               forall l :: 0 <= l < LSQ_CAPACITY && lsq.cur[l].valid ==>
                   !(lsq.cur[l].kind.LOAD? && lsq.cur[l].requestSent)
    ensures !lsq.loadResult.valid
  {
    hide MakeRequest, LoadCompletion, MaySend;
    RemoveOrSend(lsq, o);
    LsqHeadIsValid(lsq);
  }

  lemma NewQueueHolds(tag: RobTag, lsq: LsqState, o: LsqObserve, inputs: LsqInputs)
    requires WellFormedLsq(lsq) && !inputs.flush
    requires Answered(lsq, o) ==> lsq.cur[lsq.head].requestSent
    requires LSQ.IssueAccepted(lsq, inputs) && inputs.issueEntry.destination == tag
    ensures HeldByQueue(tag, lsq.tail, LSQ.Apply(lsq, inputs, LSQ.Plan(lsq, o)))
  {
    hide LSQ.Plan, UpdateAddresses, Rearranged;
    RemoveOrSend(lsq, o);
    ApplySlot(lsq, inputs, LSQ.Plan(lsq, o), lsq.tail);
  }
}
