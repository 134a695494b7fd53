// The memory port through one cycle: loads see every older store, stores are
// never speculative, and answers to flushed loads never match anything.
module PortSteps {
  import opened Types
  import opened WordArithmetic
  import opened Image
  import opened Isa
  import opened Decoder
  import opened ReorderBuffers
  import opened LoadStoreQueues
  import opened Pipeline
  import opened Invariants
  import opened RobSteps
  import opened QueueSteps
  import LSQ = LoadStoreQueues
  import MU = MemoryUnits

  // --- Stale tags ---------------------------------------------------------------

  /** A dead tag differs from every live tag. */
  lemma DeadIsNotLive(rob: RobState, tag: RobTag, age: nat)
    requires WellFormed(rob) && Dead(rob, tag, age)
    ensures !Matching(tag, rob.cur)
  {
  }

  lemma OutdatedByAllocation(latest: Generation, occupied: bool, g: Generation, age: nat)
    requires Outdated(latest, occupied, g, age) && age < 3
    ensures Outdated(latest + 1, true, g, age + 1)
  {
    assert (g + 1) + 1 == g + 2;
    assert (g + 2) + 1 == g + 3;
  }

  lemma OutdatedByWaiting(latest: Generation, occupied: bool, occupied': bool, g: Generation, age: nat)
    requires Outdated(latest, occupied, g, age)
    requires occupied' ==> occupied
    ensures Outdated(latest, occupied', g, age + 1)
  {
  }

  lemma SlotReuse(rob: RobState, slots: SlotTable, rob': RobState, ev: Event, i: nat)
    requires WellFormed(rob) && EventOk(rob, slots, ev) && Transition(rob, rob', ev) && i < ROB_CAPACITY
    ensures rob'.generations[i] == if ev.issued && i == rob.tail then rob.generations[i] + 1 else rob.generations[i]
    ensures if ev.issued && i == rob.tail then rob'.cur[i].valid else rob'.cur[i].valid ==> rob.cur[i].valid
  {
    hide ResultOk, Age, Updated, WellFormed, Pending;
  }

  /** One cycle allocates at most one tag, so a dead tag ages by at most one. */
  lemma DeadAfter(rob: RobState, slots: SlotTable, rob': RobState, ev: Event, tag: RobTag, age: nat)
    requires WellFormed(rob) && EventOk(rob, slots, ev) && Transition(rob, rob', ev)
    requires Dead(rob, tag, age) && age < 3
    ensures Dead(rob', tag, age + 1)
  {
    hide Outdated;
    SlotReuse(rob, slots, rob', ev, tag.index);
    var latest := rob.generations[tag.index];
    var occupied := rob.cur[tag.index].valid;
    if ev.issued && tag.index == rob.tail {
      OutdatedByAllocation(latest, occupied, tag.generation, age);
      assert rob'.cur[tag.index].valid;
    } else {
      OutdatedByWaiting(latest, occupied, rob'.cur[tag.index].valid, tag.generation, age);
    }
  }

  /** A flush kills the tag of whatever was in flight. */
  lemma FlushedIsDead(rob: RobState, slots: SlotTable, rob': RobState, ev: Event, tag: RobTag, age: nat)
    requires WellFormed(rob) && EventOk(rob, slots, ev) && Transition(rob, rob', ev)
    requires ev.flush && Matching(tag, rob.cur)
    ensures Dead(rob', tag, age)
  {
    hide ResultOk, Age, EntryAfter;
  }

  // --- The memory an instruction sees ------------------------------------------------

  /** If every older store is done, the state before an entry has the memory that is there now. */
  lemma {:induction false} MemoryBefore(rob: RobState, gh: Ghost, committed: nat, now: Bytes, i: nat)
    requires WellFormed(rob) && Chained(rob, gh, committed) && EntriesMatch(rob, gh.slots)
    requires MemoryEffects(rob, gh.slots)
    requires i < ROB_CAPACITY && rob.cur[i].valid
    requires forall j :: 0 <= j < ROB_CAPACITY && rob.cur[j].valid && gh.slots[j].id < gh.slots[i].id ==>
               (rob.cur[j].isStore ==> rob.cur[j].ready)
    requires now == if rob.cur[rob.head].isStore && rob.cur[rob.head].ready then gh.slots[rob.head].post.mem
               else gh.arch.mem
    requires i == rob.head ==> !rob.cur[i].isStore || !rob.cur[i].ready
    ensures gh.slots[i].pre.mem == now
    decreases Age(rob.head, i)
  {
    hide EntryMatches, Previous;
    if i != rob.head {
      var p := Previous(i);
      PreviousIsOlder(rob.head, i);
      if p != rob.head {
        MemoryBefore(rob, gh, committed, now, p);
      }
    }
  }

  /** Only stores change memory. */
  ghost predicate MemoryEffects(rob: RobState, slots: SlotTable) {
    forall i :: 0 <= i < ROB_CAPACITY && rob.cur[i].valid && !rob.cur[i].isStore ==>
        slots[i].post.mem == slots[i].pre.mem
  }

  lemma MeaningGivesMemoryEffects(rob: RobState, slots: SlotTable)
    requires AllMeaningful(rob, slots) && EntriesMatch(rob, slots)
    ensures MemoryEffects(rob, slots)
  {
    forall i | 0 <= i < ROB_CAPACITY && rob.cur[i].valid && !rob.cur[i].isStore
      ensures slots[i].post.mem == slots[i].pre.mem
    {
      assert Meaning(slots[i]) && EntryMatches(rob.cur[i], slots[i]);
    }
  }

  /** The memory unit's answer to the head's request is the in-order one. */
  lemma AnswerIsInOrder(e: LsqEntry, s: Slot, bytes: Bytes)
    requires Meaning(s)
    requires e.op == s.dec.op && e.address == Add(s.x, s.dec.immediate)
    requires if e.kind.LOAD? then s.dec.isLoad && !s.dec.isStore else s.dec.isStore && !s.dec.isLoad
    requires e.kind.LOAD? ==> s.pre.mem == bytes
    ensures AnswerOk(MU.Respond(bytes, MakeRequest(e)), e, s)
    ensures MU.Respond(bytes, MakeRequest(e)).tag == e.destination && MU.Respond(bytes, MakeRequest(e)).valid
  {
    hide Extend, ComputedValue, Successor, WellDecoded, WidthOf, After, ReadByte, ReadHalf, ReadWord, Add;
    assert e.address == DataAddress(s.dec, s.pre);
    RawReadIsTotalInBounds(bytes, e.address, WidthOf(e.op));
  }

  lemma RawReadIsTotalInBounds(bytes: Bytes, address: Address, width: MemoryWidth)
    ensures RawRead(bytes, address, width).Some? <==> InBounds(address, WidthInBytes(width))
  {
    hide Join2, Join4;
  }

  /** A finished store leaves exactly the in-order memory behind. */
  lemma StoreWritesInOrder(e: LsqEntry, s: Slot, bytes: Bytes)
    requires Meaning(s) && s.dec.isStore && !s.faults
    requires e.op == s.dec.op && e.address == Add(s.x, s.dec.immediate)
    requires e.kind.STORE? && e.storeData.value == s.y
    requires s.pre.mem == bytes
    ensures MU.Written(bytes, MU.StoreWrite(e.address, e.storeData.value, WidthOf(e.op), true)) == s.post.mem
  {
    hide ComputedValue, Successor, WellDecoded, WidthOf, RegistersAfter, ResultValue, Write, Add;
    assert e.address == DataAddress(s.dec, s.pre);
  }

  // --- The port after a cycle without a flush ------------------------------------------

  /** The queue and the port before a cycle, and what the queue observes of the port. */
  ghost predicate RequestInputs(m: Machine, o: LsqObserve, slots: SlotTable)
    requires m.lsq.head < LSQ_CAPACITY
  {
    && WellFormed(m.rob) && QueueOk(m.lsq, m.rob, slots) && PortOk(m, slots)
    && o.response == m.memory.response && o.memoryAvailable == MU.Available(m.memory)
  }

  /** What the port needs to know about the rest of the machine. */
  ghost predicate PortInputs(m: Machine, o: LsqObserve, gh: Ghost, committed: nat)
    requires m.lsq.head < LSQ_CAPACITY
  {
    && RequestInputs(m, o, gh.slots)
    && AllMeaningful(m.rob, gh.slots) && Chained(m.rob, gh, committed) && EntriesMatch(m.rob, gh.slots)
    && LoadBufferOk(m.lsq, m.rob, gh.slots) && AllHeld(m, gh.slots)
    && m.memory.bytes == MemoryNow(m, gh)
  }

  /** Only the request in flight can be answered. */
  lemma AnsweredIsInFlight(m: Machine, o: LsqObserve, slots: SlotTable)
    requires m.lsq.head < LSQ_CAPACITY && RequestInputs(m, o, slots) && Answered(m.lsq, o)
    ensures var head := m.lsq.cur[m.lsq.head];
            && head.valid && head.requestSent && !m.memory.transaction.valid
            && head.destination.index < ROB_CAPACITY
            && AnswerOk(o.response, head, slots[head.destination.index])
  {
    LsqHeadIsValid(m.lsq);
    assert QueueEntryOk(m.lsq.head, m.lsq.cur[m.lsq.head], m.lsq, m.rob, slots);
    if !InFlight(m.lsq, m.memory.response.tag) {
      DeadIsNotLive(m.rob, m.memory.response.tag, 3);
    }
  }

  /** A store older than the queue's head is done. */
  lemma OlderStoresDone(m: Machine, gh: Ghost, j: nat)
    requires WellFormed(m.rob) && EntriesMatch(m.rob, gh.slots)
    requires QueueOk(m.lsq, m.rob, gh.slots) && LoadBufferOk(m.lsq, m.rob, gh.slots) && AllHeld(m, gh.slots)
    requires m.lsq.cur[m.lsq.head].valid
    requires j < ROB_CAPACITY && m.rob.cur[j].valid && m.rob.cur[j].isStore
    requires NotLoadStore(gh.slots[j])
    requires gh.slots[j].id < gh.slots[m.lsq.cur[m.lsq.head].destination.index].id
    ensures m.rob.cur[j].ready
  {
    if !m.rob.cur[j].ready {
      var s := gh.slots[j];
      assert EntryMatches(m.rob.cur[j], s);
      assert Held(m.rob.cur[j], s, m);
      if m.lsq.cur[s.lsqSlot].valid && m.lsq.cur[s.lsqSlot].destination == m.rob.cur[j].tag {
        if s.lsqSlot != m.lsq.head { BehindHead(m.lsq.head, s.lsqSlot); }
        assert false;
      }
    }
  }

  predicate NotLoadStore(s: Slot) { !(s.dec.isLoad && s.dec.isStore) }

  /** The instruction in flight sees in-order memory: its state before has the bytes that are there now. */
  lemma InFlightMemory(m: Machine, o: LsqObserve, gh: Ghost, committed: nat)
    requires m.lsq.head < LSQ_CAPACITY && PortInputs(m, o, gh, committed)
    requires m.lsq.cur[m.lsq.head].valid && !m.memory.response.valid
    requires m.lsq.cur[m.lsq.head].kind.STORE? ==> m.lsq.cur[m.lsq.head].destination.index == m.rob.head
    ensures m.lsq.cur[m.lsq.head].destination.index < ROB_CAPACITY
    ensures gh.slots[m.lsq.cur[m.lsq.head].destination.index].pre.mem == m.memory.bytes
  {
    var head := m.lsq.cur[m.lsq.head];
    assert QueueEntryOk(m.lsq.head, head, m.lsq, m.rob, gh.slots);
    var i := head.destination.index;
    MeaningGivesMemoryEffects(m.rob, gh.slots);
    HeadIsValid(m.rob);
    forall j | 0 <= j < ROB_CAPACITY && m.rob.cur[j].valid && m.rob.cur[j].isStore && gh.slots[j].id < gh.slots[i].id
      ensures m.rob.cur[j].ready
    {
      NeverBoth(gh.slots[j]) by { hide EntryMatches; }
      OlderStoresDone(m, gh, j);
    }
    MemoryBefore(m.rob, gh, committed, m.memory.bytes, i);
  }

  lemma NeverBoth(s: Slot)
    requires Meaning(s)
    ensures NotLoadStore(s)
  {
  }

  // --- The next transaction and response --------------------------------------------------

  /** A sent request stays at the head, unchanged, until it is answered. */
  lemma HeadWaits(lsq: LsqState, o: LsqObserve, inputs: LsqInputs, rob: RobState, slots: SlotTable)
    requires QueueOk(lsq, rob, slots) && !inputs.flush && !Answered(lsq, o)
    requires lsq.cur[lsq.head].valid && lsq.cur[lsq.head].requestSent
    ensures var lsq' := LSQ.Apply(lsq, inputs, LSQ.Plan(lsq, o));
            lsq'.head == lsq.head && lsq'.cur[lsq'.head] == lsq.cur[lsq.head]
  {
    assert QueueEntryOk(lsq.head, lsq.cur[lsq.head], lsq, rob, slots);
    RemoveOrSend(lsq, o);
    ApplySlot(lsq, inputs, LSQ.Plan(lsq, o), lsq.head);
    LsqHeadIsValid(lsq);
    if LSQ.IssueAccepted(lsq, inputs) { LsqTailAge(lsq); }
    SentEntry(lsq.cur[lsq.head], lsq.head, lsq, rob, slots, inputs.cdb);
  }

  /** A request sent this cycle is at the head, marked. */
  lemma HeadSent(lsq: LsqState, o: LsqObserve, inputs: LsqInputs, rob: RobState, slots: SlotTable)
    requires QueueOk(lsq, rob, slots) && !inputs.flush && (Answered(lsq, o) ==> lsq.cur[lsq.head].requestSent)
    requires LSQ.Plan(lsq, o).markRequestSent
    ensures var lsq' := LSQ.Apply(lsq, inputs, LSQ.Plan(lsq, o));
            && lsq'.head == lsq.head
            && lsq'.cur[lsq'.head] == lsq.cur[lsq.head].(requestSent := true)
            && lsq.cur[lsq.head].valid
            && lsq.cur[lsq.head].destination.valid
            && LSQ.Plan(lsq, o).request == MakeRequest(lsq.cur[lsq.head])
  {
    RemoveOrSend(lsq, o);
    assert QueueEntryOk(lsq.head, lsq.cur[lsq.head], lsq, rob, slots);
    ApplySlot(lsq, inputs, LSQ.Plan(lsq, o), lsq.head);
    if LSQ.IssueAccepted(lsq, inputs) { LsqTailAge(lsq); }
    SentEntry(lsq.cur[lsq.head], lsq.head, lsq, rob, slots, inputs.cdb);
  }

  /** The transaction keeps serving the head, or a dead tag that ages with the cycle. */
  lemma TransactionOkAfter(m: Machine, o: LsqObserve, inputs: LsqInputs, slots: SlotTable, rob': RobState, ev: Event)
    requires m.lsq.head < LSQ_CAPACITY && RequestInputs(m, o, slots) && !inputs.flush
    requires EventOk(m.rob, slots, ev) && Transition(m.rob, rob', ev)
    ensures var d := LSQ.Plan(m.lsq, o);
            var lsq' := LSQ.Apply(m.lsq, inputs, d);
            lsq'.head < LSQ_CAPACITY && TransactionOk(MU.NextTransaction(m.memory, d.request), lsq', rob')
  {
    hide EventOk, Transition, QueueEntryOk, ResponseOk, Dead, AnswerOk, OperandOk;
    var d := LSQ.Plan(m.lsq, o);
    var t := m.memory.transaction;
    if Answered(m.lsq, o) { AnsweredIsInFlight(m, o, slots); }
    RemoveOrSend(m.lsq, o);
    NoRequestUnlessSent(m.lsq, o);
    if t.valid && t.remaining > 1 {
      if InFlight(m.lsq, t.request.tag) && t.request == MakeRequest(m.lsq.cur[m.lsq.head]) {
        HeadWaits(m.lsq, o, inputs, m.rob, slots);
      } else {
        DeadAfter(m.rob, slots, rob', ev, t.request.tag, TransactionAge(t.remaining));
      }
    } else if d.markRequestSent {
      HeadSent(m.lsq, o, inputs, m.rob, slots);
    }
  }

  lemma NoRequestUnlessSent(lsq: LsqState, o: LsqObserve)
    requires lsq.head < LSQ_CAPACITY
    ensures LSQ.Plan(lsq, o).request.valid <==> LSQ.Plan(lsq, o).markRequestSent
    ensures LSQ.Plan(lsq, o).markRequestSent ==> o.memoryAvailable
  {
    hide Extend;
  }

  /** An answer given this cycle is the in-order one, or belongs to a dead tag. */
  lemma ResponseOkAfter(m: Machine, o: LsqObserve, inputs: LsqInputs, slots: SlotTable, rob': RobState, ev: Event)
    requires m.lsq.head < LSQ_CAPACITY && RequestInputs(m, o, slots) && !inputs.flush
    requires EventOk(m.rob, slots, ev) && Transition(m.rob, rob', ev)
    requires var t := m.memory.transaction;
             t.valid && InFlight(m.lsq, t.request.tag) && t.request == MakeRequest(m.lsq.cur[m.lsq.head]) ==>
               AnswerToHead(MU.Respond(m.memory.bytes, t.request), m.lsq, SlotsAfter(m.rob, slots, ev))
    ensures var lsq' := LSQ.Apply(m.lsq, inputs, LSQ.Plan(m.lsq, o));
            lsq'.head < LSQ_CAPACITY && ResponseOk(MU.NextResponse(m.memory), lsq', rob', SlotsAfter(m.rob, slots, ev))
  {
    hide EventOk, Transition, QueueEntryOk, Outdated, AnswerOk, OperandOk, LSQ.Plan, Answered, SlotsAfter;
    var t := m.memory.transaction;
    if Answered(m.lsq, o) { AnsweredIsInFlight(m, o, slots); }
    RemoveOrSend(m.lsq, o);
    if MU.Completes(m.memory) {
      if InFlight(m.lsq, t.request.tag) && t.request == MakeRequest(m.lsq.cur[m.lsq.head]) {
        HeadWaits(m.lsq, o, inputs, m.rob, slots);
      } else {
        DeadAfter(m.rob, slots, rob', ev, t.request.tag, 2);
        DeadRespond(m.memory.bytes, t.request);
      }
    }
  }

  // A response that answers the head, and answers it correctly.
  ghost predicate AnswerToHead(r: MemoryResponse, lsq: LsqState, slots: SlotTable)
    requires lsq.head < LSQ_CAPACITY
  {
    && r.valid && r.tag.valid && r.tag == lsq.cur[lsq.head].destination && r.tag.index < ROB_CAPACITY
    && AnswerOk(r, lsq.cur[lsq.head], slots[r.tag.index])
  }

  lemma DeadRespond(bytes: Bytes, request: MemoryRequest)
    requires request.kind.LOAD?
    ensures var r := MU.Respond(bytes, request); r.valid && r.tag == request.tag && !r.isStore
  {
  }

  /** The answer to the request in flight is the in-order one. */
  lemma HeadIsAnswered(m: Machine, o: LsqObserve, gh: Ghost, ev: Event, committed: nat)
    requires m.lsq.head < LSQ_CAPACITY && PortInputs(m, o, gh, committed) && EventOk(m.rob, gh.slots, ev)
    requires var t := m.memory.transaction;
             t.valid && InFlight(m.lsq, t.request.tag) && t.request == MakeRequest(m.lsq.cur[m.lsq.head])
    ensures AnswerToHead(MU.Respond(m.memory.bytes, m.memory.transaction.request), m.lsq,
              SlotsAfter(m.rob, gh.slots, ev))
  {
    hide Meaning, MU.Respond, AnswerOk, MakeRequest, Chained, EntriesMatch, AllHeld, MemoryNow, LoadBufferOk,
         LsqAge, Age, TransactionOk, ResponseOk, OperandOk;
    var head := m.lsq.cur[m.lsq.head];
    assert QueueEntryOk(m.lsq.head, head, m.lsq, m.rob, gh.slots);
    assert Meaning(gh.slots[head.destination.index]);
    InFlightMemory(m, o, gh, committed);
    if ev.issued { TailAge(m.rob); }
    AnswerIsInOrder(head, gh.slots[head.destination.index], m.memory.bytes);
  }

  /** A sent head is being served or has just been answered. */
  lemma SentIsServed(m: Machine, o: LsqObserve, inputs: LsqInputs, slots: SlotTable)
    requires m.lsq.head < LSQ_CAPACITY && RequestInputs(m, o, slots)
    requires !inputs.flush && !o.flush && !LSQ.Plan(m.lsq, o).memoryError
    ensures var d := LSQ.Plan(m.lsq, o);
            var lsq' := LSQ.Apply(m.lsq, inputs, d);
            var head' := lsq'.cur[lsq'.head];
            var t' := MU.NextTransaction(m.memory, d.request);
            var r' := MU.NextResponse(m.memory);
            && !(t'.valid && r'.valid)
            && (head'.valid && head'.requestSent ==>
                  (t'.valid && t'.request.tag == head'.destination) || (r'.valid && r'.tag == head'.destination))
  {
    hide LSQ.Plan, Answered, AnswerOk, TransactionOk, ResponseOk, Dead, MU.Respond;
    var d := LSQ.Plan(m.lsq, o);
    if Answered(m.lsq, o) { AnsweredIsInFlight(m, o, slots); }
    RemoveOrSend(m.lsq, o);
    NoRequestUnlessSent(m.lsq, o);
    var lsq' := LSQ.Apply(m.lsq, inputs, d);
    RespondTag(m.memory.bytes, m.memory.transaction.request);
    if d.markRequestSent {
      HeadSent(m.lsq, o, inputs, m.rob, slots);
    } else if lsq'.cur[lsq'.head].valid && lsq'.cur[lsq'.head].requestSent {
      QueueSurvivor(m.lsq, o, inputs, lsq'.head);
      assert QueueEntryOk(lsq'.head, m.lsq.cur[lsq'.head], m.lsq, m.rob, slots);
      if !m.memory.transaction.valid { UnansweredHead(m, o, slots); }
    }
  }

  lemma RespondTag(bytes: Bytes, request: MemoryRequest)
    ensures MU.Respond(bytes, request).valid && MU.Respond(bytes, request).tag == request.tag
  {
  }

  // A sent head that is no longer served is answered, and a successful answer removes it.
  lemma UnansweredHead(m: Machine, o: LsqObserve, slots: SlotTable)
    requires m.lsq.head < LSQ_CAPACITY && RequestInputs(m, o, slots) && !o.flush && !m.memory.transaction.valid
    requires m.lsq.cur[m.lsq.head].valid && m.lsq.cur[m.lsq.head].requestSent
    ensures LSQ.Plan(m.lsq, o).removeHead || LSQ.Plan(m.lsq, o).memoryError
  {
    hide LSQ.Plan, AnswerOk;
    var r := m.memory.response;
    LsqHeadIsValid(m.lsq);
    assert QueueEntryOk(m.lsq.head, m.lsq.cur[m.lsq.head], m.lsq, m.rob, slots);
    if Dead(m.rob, r.tag, 3) {
      DeadIsNotLive(m.rob, r.tag, 3);
    }
    assert ResponseOk(r, m.lsq, m.rob, slots);
    AnswerLeaves(m.lsq, o, slots[r.tag.index]);
  }

  lemma AnswerLeaves(lsq: LsqState, o: LsqObserve, s: Slot)
    requires lsq.head < LSQ_CAPACITY && lsq.count > 0 && lsq.cur[lsq.head].valid && !o.flush
    requires o.response.valid && o.response.tag.valid && o.response.tag == lsq.cur[lsq.head].destination
    requires AnswerOk(o.response, lsq.cur[lsq.head], s)
    ensures LSQ.Plan(lsq, o).removeHead || LSQ.Plan(lsq, o).memoryError
  {
    hide Extend, MakeRequest, MaySend;
  }

  /** The port stays correct through a cycle without a flush or a memory error. */
  lemma PortOkAfter(m: Machine, o: LsqObserve, inputs: LsqInputs, slots: SlotTable, ev: Event, m': Machine)
    requires m.lsq.head < LSQ_CAPACITY && RequestInputs(m, o, slots) && !inputs.flush && !o.flush
    requires EventOk(m.rob, slots, ev) && Transition(m.rob, m'.rob, ev) && !LSQ.Plan(m.lsq, o).memoryError
    requires var t := m.memory.transaction;
             t.valid && InFlight(m.lsq, t.request.tag) && t.request == MakeRequest(m.lsq.cur[m.lsq.head]) ==>
               AnswerToHead(MU.Respond(m.memory.bytes, t.request), m.lsq, SlotsAfter(m.rob, slots, ev))
    requires LSQ.Plan(m.lsq, o).removeHead ==> m.lsq.count > 0
    requires m.lsq.tail < LSQ_CAPACITY && m'.lsq == LSQ.Apply(m.lsq, inputs, LSQ.Plan(m.lsq, o))
    requires m'.memory == MU.Apply(m.memory, LSQ.Plan(m.lsq, o).request)
    ensures m'.lsq.head < LSQ_CAPACITY && PortOk(m', SlotsAfter(m.rob, slots, ev))
  {
    hide RequestInputs, EventOk, Transition, LSQ.Plan, LSQ.Apply, TransactionOk, ResponseOk, AnswerToHead, InFlight,
         MakeRequest, MU.Respond, MU.NextTransaction, MU.NextResponse, MU.Written, MU.ScheduledWrite, SlotsAfter;
    TransactionOkAfter(m, o, inputs, slots, m'.rob, ev);
    ResponseOkAfter(m, o, inputs, slots, m'.rob, ev);
    SentIsServed(m, o, inputs, slots);
  }

  /** A flush leaves only dead loads at the port: no store is ever in flight then. */
  lemma PortOkAfterFlush(m: Machine, gh: Ghost, rob': RobState, ev: Event, m': Machine)
    requires WellFormed(m.rob) && EventOk(m.rob, gh.slots, ev) && Transition(m.rob, rob', ev) && ev.flush
    requires QueueOk(m.lsq, m.rob, gh.slots) && PortOk(m, gh.slots)
    requires m'.rob == rob' && m'.lsq == EMPTY_LSQ && m'.memory == MU.Apply(m.memory, NO_REQUEST)
    ensures PortOk(m', gh.slots)
  {
    var t := m.memory.transaction;
    assert QueueEntryOk(m.lsq.head, m.lsq.cur[m.lsq.head], m.lsq, m.rob, gh.slots);
    if t.valid {
      if InFlight(m.lsq, t.request.tag) && t.request == MakeRequest(m.lsq.cur[m.lsq.head]) {
        assert t.request.kind.LOAD?;
        FlushedIsDead(m.rob, gh.slots, rob', ev, t.request.tag, TransactionAge(t.remaining) + 1);
      } else {
        DeadAfter(m.rob, gh.slots, rob', ev, t.request.tag, TransactionAge(t.remaining));
      }
      RespondTag(m.memory.bytes, t.request);
      DeadRespond(m.memory.bytes, t.request);
    }
  }

  // --- Memory ------------------------------------------------------------------------------------

  /** Nothing but a successful store, answered this cycle, changes memory. */
  lemma QuietMemory(mem: MU.MemoryState, request: MemoryRequest)
    requires !(MU.NextResponse(mem).valid && MU.NextResponse(mem).isStore && MU.NextResponse(mem).success)
    ensures MU.Apply(mem, request).bytes == mem.bytes
  {
    hide RawRead, Write;
  }

  /** A store in flight belongs to the head of the reorder buffer, which is unfinished. */
  lemma StoreIsNotSpeculative(m: Machine, gh: Ghost)
    requires WellFormed(m.rob) && EntriesMatch(m.rob, gh.slots)
    requires QueueOk(m.lsq, m.rob, gh.slots) && PortOk(m, gh.slots)
    requires (m.memory.transaction.valid && m.memory.transaction.request.kind.STORE?)
             || (m.memory.response.valid && m.memory.response.isStore)
    ensures m.rob.count > 0 && m.rob.cur[m.rob.head].isStore && !m.rob.cur[m.rob.head].ready
    ensures m.lsq.cur[m.lsq.head].valid && m.lsq.cur[m.lsq.head].kind.STORE? && m.lsq.cur[m.lsq.head].requestSent
    ensures m.lsq.cur[m.lsq.head].destination == m.rob.cur[m.rob.head].tag
    ensures m.memory.transaction.valid ==>
      m.memory.transaction.request == MakeRequest(m.lsq.cur[m.lsq.head])
  {
    hide Finished, OperandOk, LsqAge, Age, Dead;
    var e := m.lsq.cur[m.lsq.head];
    assert QueueEntryOk(m.lsq.head, e, m.lsq, m.rob, gh.slots);
    HeadIsValid(m.rob);
    assert e.valid;
    assert EntryMatches(m.rob.cur[e.destination.index], gh.slots[e.destination.index]);
  }

  /** The facts the memory argument needs about a cycle, with or without a flush. */
  ghost predicate MemoryStep(m: Machine, gh: Ghost, ev: Event, request: MemoryRequest, m': Machine) {
    && WellFormed(m.rob) && EventOk(m.rob, gh.slots, ev) && Transition(m.rob, m'.rob, ev)
    && AllMeaningful(m.rob, gh.slots) && EntriesMatch(m.rob, gh.slots)
    && QueueOk(m.lsq, m.rob, gh.slots) && PortOk(m, gh.slots)
    && (m.rob.cur[m.rob.head].valid ==> gh.slots[m.rob.head].pre == gh.arch)
    && m.memory.bytes == MemoryNow(m, gh)
    && m'.memory == MU.Apply(m.memory, request)
    && (ev.issued && ev.entry.isStore ==> !ev.entry.ready)
    && (ev.storeDone.valid <==> m.memory.response.valid && m.memory.response.isStore && m.memory.response.success)
  }

  /** The cycle in which a store's bytes land: memory becomes the head store's state. */
  lemma StoreLands(m: Machine, gh: Ghost, ev: Event, request: MemoryRequest, m': Machine)
    requires MemoryStep(m, gh, ev, request, m')
    requires m'.memory.response.valid && m'.memory.response.isStore && m'.memory.response.success
    ensures m'.rob.head < ROB_CAPACITY && HeadWritten(m') && m'.rob.head == m.rob.head && !ev.commit
    ensures SlotsAfter(m.rob, gh.slots, ev)[m.rob.head] == gh.slots[m.rob.head]
    ensures m'.memory.bytes == gh.slots[m.rob.head].post.mem
  {
    hide Dead, LsqAge, AnswerOk, WellDecoded, ResultValue, Successor, RegistersAfter;
    StoreIsNotSpeculative(m, gh);
    var e := m.lsq.cur[m.lsq.head];
    var s := gh.slots[m.rob.head];
    assert QueueEntryOk(m.lsq.head, e, m.lsq, m.rob, gh.slots);
    HeadIsValid(m.rob);
    assert Meaning(s);
    assert m.memory.bytes == s.pre.mem;
    AnswerIsInOrder(e, s, m.memory.bytes);
    StoreWritesInOrder(e, s, m.memory.bytes);
    if ev.issued { TailAge(m.rob); }
    assert m'.memory.bytes == MU.Written(m.memory.bytes,
           MU.StoreWrite(e.address, e.storeData.value, WidthOf(e.op), true));
  }

  // Whether the head counts as written when nothing lands this cycle.
  lemma QuietHead(m: Machine, gh: Ghost, ev: Event, request: MemoryRequest, m': Machine)
    requires MemoryStep(m, gh, ev, request, m')
    requires !(m'.memory.response.valid && m'.memory.response.isStore && m'.memory.response.success)
    ensures m'.rob.head < ROB_CAPACITY
    ensures ev.commit ==> !HeadWritten(m') && (HeadWritten(m) <==> m.rob.cur[m.rob.head].isStore)
    ensures !ev.commit ==> m'.rob.head == m.rob.head && (HeadWritten(m') <==> HeadWritten(m))
    ensures !ev.commit && HeadWritten(m') ==> SlotsAfter(m.rob, gh.slots, ev)[m.rob.head] == gh.slots[m.rob.head]
  {
    WindowAfter(m.rob, gh.slots, m'.rob, ev);
    HeadIsValid(m.rob);
    WellFormedAfter(m.rob, gh.slots, m'.rob, ev);
    HeadIsValid(m'.rob);
    if ev.issued { TailAge(m.rob); }
    if m.memory.response.valid && m.memory.response.isStore { StoreIsNotSpeculative(m, gh); }
    if m'.rob.cur[m'.rob.head].valid {
      Survivor(m.rob, gh.slots, m'.rob, ev, m'.rob.head);
    }
    hide Transition, QueueOk, PortOk, AllMeaningful, EntryMatches, Age, EntryAfter, MU.Apply, NextSlot, MemoryNow,
         WellFormed;
  }

  /** After every cycle the bytes in memory are those of the committed state, or of the head store already written. */
  lemma MemoryNowAfter(m: Machine, gh: Ghost, ev: Event, request: MemoryRequest, m': Machine)
    requires MemoryStep(m, gh, ev, request, m')
    requires MemoryEffects(m.rob, gh.slots)
    requires ev.commit ==> !m.rob.cur[m.rob.head].op.HALT?
    ensures m'.rob.head < ROB_CAPACITY && m'.memory.bytes == MemoryNow(m', GhostAfter(m.rob, gh, ev))
  {
    if m'.memory.response.valid && m'.memory.response.isStore && m'.memory.response.success {
      StoreLands(m, gh, ev, request, m');
    } else {
      QuietHead(m, gh, ev, request, m');
      QuietMemory(m.memory, request);
      HeadIsValid(m.rob);
    }
  }
}
