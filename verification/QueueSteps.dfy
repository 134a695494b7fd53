// The load/store queue through one cycle.
module QueueSteps {
  import opened Types
  import opened ReorderBuffers
  import opened LoadStoreQueues
  import LSQ = LoadStoreQueues
  import opened Invariants
  import opened RobSteps
  import opened StationSteps

  // --- The window ---------------------------------------------------------------

  lemma LsqNextAge(head: nat, l: nat)
    requires head < LSQ_CAPACITY && l < LSQ_CAPACITY
    ensures LsqAge(NextLsqSlot(head), l) == if l == head then LSQ_CAPACITY - 1 else LsqAge(head, l) - 1
  {
  }

  lemma LsqRingArithmetic(head: nat, count: nat)
    requires head < LSQ_CAPACITY && count < LSQ_CAPACITY
    ensures var tail := (head + count) % LSQ_CAPACITY;
            && LsqAge(head, tail) == count
            && NextLsqSlot(tail) == (head + count + 1) % LSQ_CAPACITY
            && (count > 0 ==> tail == (NextLsqSlot(head) + count - 1) % LSQ_CAPACITY)
            && NextLsqSlot(tail) == (NextLsqSlot(head) + count) % LSQ_CAPACITY
  {
    WrappedSlot(head, count);
    if head + 1 == LSQ_CAPACITY {
    } else if head + count < LSQ_CAPACITY {
    } else {
    }
  }

  // The slot `count` places behind the head, without the remainder.
  lemma WrappedSlot(head: nat, count: nat)
    requires head < LSQ_CAPACITY && count < LSQ_CAPACITY
    ensures (head + count) % LSQ_CAPACITY == if head + count < LSQ_CAPACITY then head + count
              else head + count - LSQ_CAPACITY
  {
  }

  lemma LsqWindowArithmetic(head: nat, count: nat, pop: bool, push: bool)
    requires head < LSQ_CAPACITY && count <= LSQ_CAPACITY
    requires pop ==> count > 0
    requires push ==> count < LSQ_CAPACITY
    ensures var tail := (head + count) % LSQ_CAPACITY;
            var head' := if pop then NextLsqSlot(head) else head;
            var count' := (if pop then count - 1 else count) + (if push then 1 else 0);
            (if push then NextLsqSlot(tail) else tail) == (head' + count') % LSQ_CAPACITY
  {
    if count < LSQ_CAPACITY { LsqRingArithmetic(head, count); }
  }

  lemma LsqTailAge(lsq: LsqState)
    requires WellFormedLsq(lsq) && lsq.count < LSQ_CAPACITY
    ensures lsq.tail < LSQ_CAPACITY && LsqAge(lsq.head, lsq.tail) == lsq.count && !lsq.cur[lsq.tail].valid
  {
    LsqRingArithmetic(lsq.head, lsq.count);
  }

  lemma LsqHeadIsValid(lsq: LsqState)
    requires WellFormedLsq(lsq)
    ensures lsq.count > 0 <==> lsq.cur[lsq.head].valid
  {
    assert LsqAge(lsq.head, lsq.head) == 0;
  }

  lemma LsqAgeIsInjective(head: nat, k: nat, l: nat)
    requires head < LSQ_CAPACITY && k < LSQ_CAPACITY && l < LSQ_CAPACITY
    requires LsqAge(head, k) == LsqAge(head, l)
    ensures k == l
  {
  }

  lemma BehindHead(head: nat, l: nat)
    requires head < LSQ_CAPACITY && l < LSQ_CAPACITY && l != head
    ensures LsqAge(head, head) < LsqAge(head, l)
  {
  }

  // --- What reaches the queue -------------------------------------------------------

  /** The queue's inputs and decision in a cycle without a flush. */
  ghost predicate QueueInputs(lsq: LsqState, o: LsqObserve, inputs: LsqInputs, rob: RobState, slots: SlotTable,
          rob': RobState, ev: Event)
    requires rob.tail < ROB_CAPACITY && rob.head < ROB_CAPACITY
    requires lsq.head < LSQ_CAPACITY
  {
    var decision := LSQ.Plan(lsq, o);
    && !inputs.flush && !ev.flush && !o.flush
    && inputs.cdb == Broadcast(ev.completion)
    && ev.storeDone == decision.storeCompletion
    && (o.loadResultGranted ==> lsq.loadResult.valid && ev.completion == lsq.loadResult)
    && (!o.loadResultGranted && ev.completion.valid ==>
          ev.completion.tag.index < ROB_CAPACITY && !MemoryInstruction(slots[ev.completion.tag.index].dec))
    && (o.storeRequest.valid ==> o.storeRequest.tag == rob.cur[rob.head].tag)
    && (Answered(lsq, o) ==> lsq.cur[lsq.head].requestSent)
    && (Answered(lsq, o) ==>
          && lsq.cur[lsq.head].destination.index < ROB_CAPACITY
          && AnswerOk(o.response, lsq.cur[lsq.head], slots[lsq.cur[lsq.head].destination.index]))
    && (inputs.issueValid ==>
          && ev.issued && lsq.count < LSQ_CAPACITY
          && inputs.issueEntry.valid && !inputs.issueEntry.requestSent && !inputs.issueEntry.addressReady
          && inputs.issueEntry.destination == ev.entry.tag
          && ev.slot.lsqSlot == lsq.tail
          && NewQueueEntryOk(inputs.issueEntry, rob', SlotsAfter(rob, slots, ev))
          && (forall i :: 0 <= i < ROB_CAPACITY && rob.cur[i].valid ==> slots[i].id < ev.slot.id))
  }

  /** A fresh queue entry, before its address is formed. */
  ghost predicate NewQueueEntryOk(e: LsqEntry, rob: RobState, slots: SlotTable) {
    && Pending(rob, e.destination)
    && var s := slots[e.destination.index];
       && (if e.kind.LOAD? then s.dec.isLoad && !s.dec.isStore else s.dec.isStore && !s.dec.isLoad)
       && e.op == s.dec.op && e.immediate == s.dec.immediate
       && OperandOk(e.base, s.x, s.id, rob, slots)
       && (e.kind.STORE? ==> OperandOk(e.storeData, s.y, s.id, rob, slots))
  }

  /** The entry of one queue slot after the cycle. */
  function QueueSlotAfter(lsq: LsqState, inputs: LsqInputs, decision: LsqDecision, l: nat): LsqEntry
    requires l < LSQ_CAPACITY
  {
    if LSQ.IssueAccepted(lsq, inputs) && l == lsq.tail then
      UpdateAddress(inputs.issueEntry.(valid := true, requestSent := false))
    else if decision.removeHead && l == lsq.head then NO_LSQ_ENTRY
    else if decision.markRequestSent && l == lsq.head then
      UpdateAddress(WakeEntry(lsq.cur[l], inputs.cdb).(requestSent := true))
    else UpdateAddress(WakeEntry(lsq.cur[l], inputs.cdb))
  }

  lemma ApplySlot(lsq: LsqState, inputs: LsqInputs, decision: LsqDecision, l: nat)
    requires WellFormedLsq(lsq) && !inputs.flush && l < LSQ_CAPACITY
    requires decision.removeHead ==> lsq.count > 0
    requires decision.markRequestSent ==> !decision.removeHead
    ensures LSQ.Apply(lsq, inputs, decision).cur[l] == QueueSlotAfter(lsq, inputs, decision, l)
  {
    hide WakeEntry;
  }

  /** Removing the head and sending it exclude each other. */
  lemma RemoveOrSend(lsq: LsqState, o: LsqObserve)
    requires WellFormedLsq(lsq)
    requires Answered(lsq, o) ==> lsq.cur[lsq.head].requestSent
    ensures var d := LSQ.Plan(lsq, o);
            && (d.removeHead ==> Answered(lsq, o) && lsq.count > 0 && !d.markRequestSent)
            && (d.markRequestSent ==> lsq.count > 0 && lsq.cur[lsq.head].valid && MaySend(lsq, o))
            && (d.storeCompletion.valid ==>
                  d.removeHead && lsq.cur[lsq.head].valid && lsq.cur[lsq.head].kind.STORE?
                  && d.storeCompletion.tag == lsq.cur[lsq.head].destination)
            && (d.removeHead && lsq.cur[lsq.head].kind.STORE? ==> d.storeCompletion.valid)
            && (d.installLoadResult <==> d.removeHead && lsq.cur[lsq.head].kind.LOAD?)
  {
    hide MakeRequest, LoadCompletion;
    LsqHeadIsValid(lsq);
  }

  // --- Entries ------------------------------------------------------------------------

  /** A surviving entry stays correct; its address appears with its base. */
  lemma EntryAfterWake(l: nat, e: LsqEntry, lsq: LsqState, lsq': LsqState, rob: RobState, slots: SlotTable,
          rob': RobState, ev: Event)
    requires WellFormed(rob) && EventOk(rob, slots, ev) && Transition(rob, rob', ev) && !ev.flush
    requires QueueEntryOk(l, e, lsq, rob, slots) && e.valid
    requires ev.completion.valid ==> ev.completion.tag != e.destination
    requires ev.storeDone.valid ==> ev.storeDone.tag != e.destination
    requires e.requestSent ==> lsq'.head == lsq.head
    ensures QueueEntryOk(l, UpdateAddress(WakeEntry(e, Broadcast(ev.completion))), lsq', rob',
              SlotsAfter(rob, slots, ev))
  {
    var s := slots[e.destination.index];
    PendingPersists(rob, slots, rob', ev, e.destination);
    OperandAfter(e.base, s.x, s.id, rob, slots, rob', ev);
    if e.kind.STORE? {
      OperandAfter(e.storeData, s.y, s.id, rob, slots, rob', ev);
    }
    hide EntryAfter, SlotsAfter, EventOk, Age;
  }

  lemma NewEntryAfter(e: LsqEntry, l: nat, lsq': LsqState, rob: RobState, slots: SlotTable)
    requires NewQueueEntryOk(e, rob, slots) && !e.addressReady
    requires slots[e.destination.index].lsqSlot == l
    ensures QueueEntryOk(l, UpdateAddress(e.(valid := true, requestSent := false)), lsq', rob, slots)
  {
  }

  /** Sending changes only the sent mark: the entry's operands are settled. */
  lemma SentEntry(e: LsqEntry, l: nat, lsq: LsqState, rob: RobState, slots: SlotTable, cdb: CdbMessage)
    requires QueueEntryOk(l, e, lsq, rob, slots) && e.valid && e.addressReady
    requires e.kind.STORE? ==> e.storeData.ready
    ensures UpdateAddress(WakeEntry(e, cdb)) == e
    ensures UpdateAddress(WakeEntry(e, cdb).(requestSent := true)) == e.(requestSent := true)
  {
  }

  lemma CompletionIsElsewhere(lsq: LsqState, o: LsqObserve, inputs: LsqInputs, rob: RobState, slots: SlotTable,
          rob': RobState, ev: Event, l: nat)
    requires WellFormed(rob) && EventOk(rob, slots, ev)
    requires QueueOk(lsq, rob, slots) && LoadBufferOk(lsq, rob, slots)
    requires QueueInputs(lsq, o, inputs, rob, slots, rob', ev)
    requires l < LSQ_CAPACITY && lsq.cur[l].valid
    ensures ev.completion.valid ==> ev.completion.tag != lsq.cur[l].destination
    ensures ev.storeDone.valid && l != lsq.head ==> ev.storeDone.tag != lsq.cur[l].destination
  {
    hide LSQ.Plan, OperandOk, NewQueueEntryOk, Age, LsqAge, AnswerOk;
    assert QueueEntryOk(l, lsq.cur[l], lsq, rob, slots);
    RemoveOrSend(lsq, o);
    if ev.storeDone.valid && l != lsq.head {
      assert QueueEntryOk(lsq.head, lsq.cur[lsq.head], lsq, rob, slots);
    }
  }

  lemma QueueEntryAfter(lsq: LsqState, o: LsqObserve, inputs: LsqInputs, rob: RobState, slots: SlotTable,
          rob': RobState, ev: Event, l: nat)
    requires WellFormed(rob) && EventOk(rob, slots, ev) && Transition(rob, rob', ev)
    requires QueueOk(lsq, rob, slots) && LoadBufferOk(lsq, rob, slots)
    requires QueueInputs(lsq, o, inputs, rob, slots, rob', ev)
    requires l < LSQ_CAPACITY
    ensures var lsq' := LSQ.Apply(lsq, inputs, LSQ.Plan(lsq, o));
            QueueEntryOk(l, lsq'.cur[l], lsq', rob', SlotsAfter(rob, slots, ev))
  {
    var decision := LSQ.Plan(lsq, o);
    RemoveOrSend(lsq, o);
    var lsq' := LSQ.Apply(lsq, inputs, decision);
    ApplySlot(lsq, inputs, decision, l);
    var e := lsq.cur[l];
    assert QueueEntryOk(l, e, lsq, rob, slots);
    if LSQ.IssueAccepted(lsq, inputs) && l == lsq.tail {
      assert SlotsAfter(rob, slots, ev)[ev.entry.tag.index] == ev.slot;
      NewEntryAfter(inputs.issueEntry, l, lsq', rob', SlotsAfter(rob, slots, ev));
    } else if decision.removeHead && l == lsq.head {
    } else if e.valid {
      CompletionIsElsewhere(lsq, o, inputs, rob, slots, rob', ev, l);
      assert lsq'.head == if decision.removeHead then NextLsqSlot(lsq.head) else lsq.head;
      EntryAfterWake(l, e, lsq, lsq', rob, slots, rob', ev) by {
        hide LSQ.Plan, LSQ.Apply, QueueEntryOk, Transition, NewQueueEntryOk, AnswerOk, UpdateAddress;
      }
      if decision.markRequestSent && l == lsq.head {
        SentEntry(e, l, lsq, rob, slots, inputs.cdb) by { hide Transition, EventOk, NewQueueEntryOk, AnswerOk; }
        MarkedEntryOk(e, l, lsq, lsq', o, rob, slots, rob', ev) by {
          hide Transition, LSQ.Apply, NewQueueEntryOk, AnswerOk;
        }
      }
    }
    hide LSQ.Plan, LSQ.Apply, Transition, EventOk, QueueEntryOk, QueueInputs, WakeEntry, UpdateAddress, SlotsAfter;
  }

  lemma MarkedEntryOk(e: LsqEntry, l: nat, lsq: LsqState, lsq': LsqState, o: LsqObserve, rob: RobState,
          slots: SlotTable, rob': RobState, ev: Event)
    requires WellFormed(rob) && EventOk(rob, slots, ev) && Transition(rob, rob', ev) && !ev.flush
    requires QueueEntryOk(l, e, lsq, rob, slots) && e.valid
    requires lsq.head < LSQ_CAPACITY && MaySend(lsq, o) && l == lsq.head && e == lsq.cur[l] && lsq'.head == lsq.head
    requires o.storeRequest.valid ==> o.storeRequest.tag == rob.cur[rob.head].tag
    requires QueueEntryOk(l, e, lsq', rob', SlotsAfter(rob, slots, ev))
    ensures QueueEntryOk(l, e.(requestSent := true), lsq', rob', SlotsAfter(rob, slots, ev))
  {
    if e.kind.STORE? {
      HeadIsValid(rob);
      assert e.destination.index == rob.head;
    }
  }

  // --- Order ---------------------------------------------------------------------------

  lemma SlotValidAfter(lsq: LsqState, inputs: LsqInputs, decision: LsqDecision, l: nat)
    requires WellFormedLsq(lsq) && !inputs.flush && l < LSQ_CAPACITY
    requires decision.removeHead ==> lsq.count > 0
    requires decision.markRequestSent ==> !decision.removeHead && lsq.count > 0
    ensures var lsq' := LSQ.Apply(lsq, inputs, decision);
            lsq'.cur[l].valid <==> LsqAge(lsq'.head, l) < lsq'.count
  {
    hide NextLsqSlot, WakeOperand, Rearranged, UpdateAddresses;
    if LSQ.IssueAccepted(lsq, inputs) {
      LsqTailAge(lsq);
      if LsqAge(lsq.head, l) == lsq.count { LsqAgeIsInjective(lsq.head, l, lsq.tail); }
    }
    LsqHeadIsValid(lsq);
    ApplySlot(lsq, inputs, decision, l);
    LsqNextAge(lsq.head, l);
  }

  /** The queue stays a window of valid entries, for all inputs and decisions. */
  lemma LsqStaysWellFormed(lsq: LsqState, inputs: LsqInputs, decision: LsqDecision)
    requires WellFormedLsq(lsq)
    requires decision.removeHead ==> lsq.count > 0
    requires decision.markRequestSent ==> !decision.removeHead && lsq.count > 0
    ensures WellFormedLsq(LSQ.Apply(lsq, inputs, decision))
  {
    hide NextLsqSlot, Rearranged, UpdateAddresses, LsqAge;
    if inputs.flush {
      EmptyQueueIsWellFormed();
    } else {
      LsqWindowArithmetic(lsq.head, lsq.count, decision.removeHead, LSQ.IssueAccepted(lsq, inputs));
      forall l | 0 <= l < LSQ_CAPACITY
        ensures LSQ.Apply(lsq, inputs, decision).cur[l].valid
                <==> LsqAge(LSQ.Apply(lsq, inputs, decision).head, l) < LSQ.Apply(lsq, inputs, decision).count
      {
        SlotValidAfter(lsq, inputs, decision, l);
      }
    }
  }

  lemma EmptyQueueIsWellFormed()
    ensures WellFormedLsq(EMPTY_LSQ)
  {
  }

  lemma QueueWindowAfter(lsq: LsqState, o: LsqObserve, inputs: LsqInputs)
    requires WellFormedLsq(lsq) && !inputs.flush
    requires Answered(lsq, o) ==> lsq.cur[lsq.head].requestSent
    ensures WellFormedLsq(LSQ.Apply(lsq, inputs, LSQ.Plan(lsq, o)))
  {
    hide LSQ.Plan, LSQ.Apply, LsqAge, MaySend, Answered;
    RemoveOrSend(lsq, o);
    LsqStaysWellFormed(lsq, inputs, LSQ.Plan(lsq, o));
  }

  /** An entry in the queue after the cycle is the new one or was there before. */
  lemma QueueSurvivor(lsq: LsqState, o: LsqObserve, inputs: LsqInputs, l: nat)
    requires WellFormedLsq(lsq) && !inputs.flush && l < LSQ_CAPACITY
    requires Answered(lsq, o) ==> lsq.cur[lsq.head].requestSent
    requires LSQ.Apply(lsq, inputs, LSQ.Plan(lsq, o)).cur[l].valid
    ensures var d := LSQ.Plan(lsq, o);
            var e' := LSQ.Apply(lsq, inputs, d).cur[l];
            if LSQ.IssueAccepted(lsq, inputs) && l == lsq.tail
            then e'.destination == inputs.issueEntry.destination && e'.kind == inputs.issueEntry.kind && !e'.requestSent
            else
              && lsq.cur[l].valid && !(d.removeHead && l == lsq.head)
              && e'.destination == lsq.cur[l].destination && e'.kind == lsq.cur[l].kind
              && (e'.requestSent <==> lsq.cur[l].requestSent || (d.markRequestSent && l == lsq.head))
  {
    hide LSQ.Plan, LSQ.Apply, WakeOperand, LsqAge;
    RemoveOrSend(lsq, o);
    ApplySlot(lsq, inputs, LSQ.Plan(lsq, o), l);
  }

  // Two entries that stay keep their order; a new entry is behind all others.
  lemma QueueAges(lsq: LsqState, o: LsqObserve, inputs: LsqInputs, k: nat, l: nat)
    requires WellFormedLsq(lsq) && !inputs.flush && k < LSQ_CAPACITY && l < LSQ_CAPACITY
    requires Answered(lsq, o) ==> lsq.cur[lsq.head].requestSent
    requires var lsq' := LSQ.Apply(lsq, inputs, LSQ.Plan(lsq, o));
             lsq'.cur[k].valid && lsq'.cur[l].valid && LsqAge(lsq'.head, k) < LsqAge(lsq'.head, l)
    ensures !(LSQ.IssueAccepted(lsq, inputs) && k == lsq.tail)
    ensures !(LSQ.IssueAccepted(lsq, inputs) && l == lsq.tail) ==> LsqAge(lsq.head, k) < LsqAge(lsq.head, l)
  {
    RemoveOrSend(lsq, o);
    QueueSurvivor(lsq, o, inputs, k);
    QueueSurvivor(lsq, o, inputs, l);
    LsqNextAge(lsq.head, k);
    LsqNextAge(lsq.head, l);
    if LSQ.IssueAccepted(lsq, inputs) { LsqTailAge(lsq); }
    assert LSQ.Apply(lsq, inputs, LSQ.Plan(lsq, o)).head
           == if LSQ.Plan(lsq, o).removeHead then NextLsqSlot(lsq.head) else lsq.head;
  }

  lemma QueueOrderAfter(lsq: LsqState, o: LsqObserve, inputs: LsqInputs, rob: RobState, slots: SlotTable,
          rob': RobState, ev: Event, k: nat, l: nat)
    requires WellFormed(rob) && EventOk(rob, slots, ev)
    requires QueueOk(lsq, rob, slots)
    requires QueueInputs(lsq, o, inputs, rob, slots, rob', ev)
    requires k < LSQ_CAPACITY && l < LSQ_CAPACITY
    requires var lsq' := LSQ.Apply(lsq, inputs, LSQ.Plan(lsq, o));
             lsq'.cur[k].valid && lsq'.cur[l].valid && LsqAge(lsq'.head, k) < LsqAge(lsq'.head, l)
    ensures var lsq' := LSQ.Apply(lsq, inputs, LSQ.Plan(lsq, o));
            && lsq'.cur[k].destination.index < ROB_CAPACITY && lsq'.cur[l].destination.index < ROB_CAPACITY
            && SlotsAfter(rob, slots, ev)[lsq'.cur[k].destination.index].id
               < SlotsAfter(rob, slots, ev)[lsq'.cur[l].destination.index].id
  {
    hide LSQ.Plan, LSQ.Apply, NextLsqSlot, OperandOk, NewQueueEntryOk, ResultOk, AnswerOk, LsqAge, Age, WellFormedLsq;
    QueueSurvivor(lsq, o, inputs, k);
    QueueSurvivor(lsq, o, inputs, l);
    QueueAges(lsq, o, inputs, k, l);
    if ev.issued { TailAge(rob); }
    assert QueueEntryOk(k, lsq.cur[k], lsq, rob, slots) && QueueEntryOk(l, lsq.cur[l], lsq, rob, slots);
  }

  /** The queue stays an in-order window of correct entries. */
  lemma QueueOkAfter(lsq: LsqState, o: LsqObserve, inputs: LsqInputs, rob: RobState, slots: SlotTable, rob': RobState,
          ev: Event)
    requires WellFormed(rob) && EventOk(rob, slots, ev) && Transition(rob, rob', ev)
    requires QueueOk(lsq, rob, slots) && LoadBufferOk(lsq, rob, slots)
    requires QueueInputs(lsq, o, inputs, rob, slots, rob', ev)
    ensures QueueOk(LSQ.Apply(lsq, inputs, LSQ.Plan(lsq, o)), rob', SlotsAfter(rob, slots, ev))
  {
    var lsq' := LSQ.Apply(lsq, inputs, LSQ.Plan(lsq, o));
    QueueWindowAfter(lsq, o, inputs);
    forall l | 0 <= l < LSQ_CAPACITY
      ensures QueueEntryOk(l, lsq'.cur[l], lsq', rob', SlotsAfter(rob, slots, ev))
    {
      QueueEntryAfter(lsq, o, inputs, rob, slots, rob', ev, l);
    }
    forall k, l | 0 <= k < LSQ_CAPACITY && 0 <= l < LSQ_CAPACITY && lsq'.cur[k].valid && lsq'.cur[l].valid
                  && LsqAge(lsq'.head, k) < LsqAge(lsq'.head, l)
      ensures SlotsAfter(rob, slots, ev)[lsq'.cur[k].destination.index].id
              < SlotsAfter(rob, slots, ev)[lsq'.cur[l].destination.index].id
    {
      QueueOrderAfter(lsq, o, inputs, rob, slots, rob', ev, k, l);
    }
  }
}
