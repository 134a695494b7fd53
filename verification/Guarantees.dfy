// What holds in every state a run can reach, said of the machine alone: the
// in-flight instructions form one predicted path, each unfinished one is held
// in exactly one place, every waiting operand will be heard, renaming is exact,
// stores are never speculative, and stale answers match nothing.
module Guarantees {
  import opened Types
  import opened Image
  import opened ReorderBuffers
  import opened LoadStoreQueues
  import opened Pipeline
  import opened Invariants
  import opened RobSteps
  import opened PortSteps
  import opened IssueSteps
  import opened CycleSteps
  import opened MachineSteps
  import opened Refinement
  import opened Theorems
  import opened Decoder
  import Issue = IssueUnits
  import ROB = ReorderBuffers
  import LSQ = LoadStoreQueues
  import RS = ReservationStations
  import MU = MemoryUnits

  // --- The predicted path ----------------------------------------------------------

  /** Each entry starts where its predecessor was predicted to go, fetching continues where the youngest
      was, and stops exactly behind a HALT, which only the youngest can be. */
  ghost predicate OnePath(m: Machine) {
    && WellFormed(m.rob)
    && (forall i :: 0 <= i < ROB_CAPACITY && m.rob.cur[i].valid && i != m.rob.head ==>
          m.rob.cur[i].pc == m.rob.cur[Previous(i)].predictedNextPc)
    && (m.rob.count > 0 ==> m.pc == m.rob.cur[Previous(m.rob.tail)].predictedNextPc)
    && (m.fetchStopped <==> m.rob.count > 0 && m.rob.cur[Previous(m.rob.tail)].op.HALT?)
    && (forall i :: 0 <= i < ROB_CAPACITY && m.rob.cur[i].valid && m.rob.cur[i].op.HALT? ==> i == Previous(m.rob.tail))
  }

  lemma YoungestIsValid(rob: RobState)
    requires WellFormed(rob) && rob.count > 0
    ensures rob.cur[Previous(rob.tail)].valid && Age(rob.head, Previous(rob.tail)) == rob.count - 1
  {
    LastAge(rob.head, rob.count);
  }

  lemma OnlyYoungest(rob: RobState, i: nat)
    requires WellFormed(rob) && rob.count > 0 && i < ROB_CAPACITY && Age(rob.head, i) == rob.count - 1
    ensures i == Previous(rob.tail)
  {
    YoungestIsValid(rob);
    AgeIsInjective(rob.head, i, Previous(rob.tail));
  }

  lemma PredecessorIsValid(rob: RobState, i: nat)
    requires WellFormed(rob) && i < ROB_CAPACITY && rob.cur[i].valid && i != rob.head
    ensures rob.cur[Previous(i)].valid
  {
    PreviousIsOlder(rob.head, i);
  }

  // The parts of consistency the path depends on.
  lemma PathParts(m: Machine, gh: Ghost)
    requires Consistent(m, gh)
    ensures WellFormed(m.rob) && Chained(m.rob, gh, m.committed) && EntriesMatch(m.rob, gh.slots)
    ensures HaltIsYoungest(m.rob, m.fetchStopped) && m.pc == gh.tail.pc && AllMeaningful(m.rob, gh.slots)
  {
  }

  lemma PathHolds(m: Machine, gh: Ghost)
    requires Consistent(m, gh)
    ensures OnePath(m)
  {
    hide Consistent, Finished, ControlInstruction, AllMeaningful;
    PathParts(m, gh);
    if m.rob.count > 0 { YoungestIsValid(m.rob); }
    forall i | 0 <= i < ROB_CAPACITY && m.rob.cur[i].valid && i != m.rob.head
      ensures m.rob.cur[i].pc == m.rob.cur[Previous(i)].predictedNextPc
    {
      PredecessorIsValid(m.rob, i);
      assert EntryMatches(m.rob.cur[i], gh.slots[i]) && EntryMatches(m.rob.cur[Previous(i)], gh.slots[Previous(i)]);
    }
    if m.rob.count > 0 {
      var y := Previous(m.rob.tail);
      assert EntryMatches(m.rob.cur[y], gh.slots[y]);
    }
    forall i | 0 <= i < ROB_CAPACITY && m.rob.cur[i].valid && m.rob.cur[i].op.HALT?
      ensures i == Previous(m.rob.tail)
    {
      OnlyYoungest(m.rob, i);
    }
  }

  // --- Renaming ------------------------------------------------------------------------

  /** A mapping is the tag of the youngest live writer of its register; without one there is no writer. */
  ghost predicate RenamesYoungest(m: Machine) {
    && m.rob.head < ROB_CAPACITY
    && !m.rat[0].valid
    && forall r :: 0 < r < REGISTER_COUNT ==>
         if m.rat[r].valid then
           && Matching(m.rat[r], m.rob.cur)
           && WritesRegister(m.rob.cur[m.rat[r].index], r)
           && forall i :: 0 <= i < ROB_CAPACITY && m.rob.cur[i].valid && WritesRegister(m.rob.cur[i], r) ==>
                Age(m.rob.head, i) <= Age(m.rob.head, m.rat[r].index)
         else
           forall i :: 0 <= i < ROB_CAPACITY && m.rob.cur[i].valid ==> !WritesRegister(m.rob.cur[i], r)
  }

  predicate WritesRegister(e: RobEntry, r: int) { e.writesRd && e.rd == r }

  lemma RatParts(m: Machine, gh: Ghost)
    requires Consistent(m, gh)
    ensures WellFormed(m.rob) && Chained(m.rob, gh, m.committed) && RatExact(m.rat, m.rob, gh.slots)
  {
  }

  lemma RenamingHolds(m: Machine, gh: Ghost)
    requires Consistent(m, gh)
    ensures RenamesYoungest(m)
  {
    hide Consistent, Age;
    RatParts(m, gh);
  }

  // --- One holder each ---------------------------------------------------------------------

  datatype Holder = InStation(k: nat) | InUnit | InQueue(l: nat) | InBuffer

  /** Where an instruction in flight may be kept until it finishes. */
  predicate Holds(h: Holder, tag: RobTag, m: Machine) {
    match h
    case InStation(k) => k < RS.RS_CAPACITY && m.rs.cur[k].busy && m.rs.cur[k].destination == tag
    case InUnit => m.fu.valid && m.fu.tag == tag
    case InQueue(l) => l < LSQ_CAPACITY && m.lsq.cur[l].valid && m.lsq.cur[l].destination == tag
    case InBuffer => m.lsq.loadResult.valid && m.lsq.loadResult.tag == tag
  }

  /** Conservation: every unfinished entry has exactly one holder, and only unfinished entries are held. */
  ghost predicate HeldOnce(m: Machine) {
    && (forall i :: 0 <= i < ROB_CAPACITY && m.rob.cur[i].valid && !m.rob.cur[i].ready ==>
          exists h :: Holds(h, m.rob.cur[i].tag, m))
    && (forall g, h, tag :: Holds(g, tag, m) && Holds(h, tag, m) ==> g == h)
    && (forall h, tag :: Holds(h, tag, m) ==> Pending(m.rob, tag))
  }

  lemma HolderParts(m: Machine, gh: Ghost)
    requires Consistent(m, gh)
    ensures StationsOk(m.rs, m.rob, gh.slots) && UnitOk(m.fu, m.rs, m.rob, gh.slots)
    ensures QueueOk(m.lsq, m.rob, gh.slots) && LoadBufferOk(m.lsq, m.rob, gh.slots) && AllHeld(m, gh.slots)
  {
  }

  /** The slot a held tag names tells where it is held. */
  lemma HolderOfTag(m: Machine, gh: Ghost, h: Holder, tag: RobTag)
    requires StationsOk(m.rs, m.rob, gh.slots) && UnitOk(m.fu, m.rs, m.rob, gh.slots)
    requires QueueOk(m.lsq, m.rob, gh.slots) && LoadBufferOk(m.lsq, m.rob, gh.slots)
    requires Holds(h, tag, m)
    ensures Pending(m.rob, tag) && tag.index < ROB_CAPACITY
    ensures var s := gh.slots[tag.index];
            match h
            case InStation(k) => s.rsSlot == k && !MemoryInstruction(s.dec) && !(m.fu.valid && m.fu.tag == tag)
            case InUnit => !MemoryInstruction(s.dec)
            case InQueue(l) => s.lsqSlot == l && MemoryInstruction(s.dec)
                && !(m.lsq.loadResult.valid && m.lsq.loadResult.tag == tag)
            case InBuffer => MemoryInstruction(s.dec)
  {
    hide OperandOk, LsqAge, Age;
    match h
    case InStation(k) => assert StationOk(k, m.rs.cur[k], m.rob, gh.slots);
    case InUnit =>
    case InQueue(l) => assert QueueEntryOk(l, m.lsq.cur[l], m.lsq, m.rob, gh.slots);
    case InBuffer =>
  }

  lemma SameHolder(m: Machine, gh: Ghost, g: Holder, h: Holder, tag: RobTag)
    requires StationsOk(m.rs, m.rob, gh.slots) && UnitOk(m.fu, m.rs, m.rob, gh.slots)
    requires QueueOk(m.lsq, m.rob, gh.slots) && LoadBufferOk(m.lsq, m.rob, gh.slots)
    requires Holds(g, tag, m) && Holds(h, tag, m)
    ensures g == h
  {
    hide StationsOk, UnitOk, QueueOk, LoadBufferOk, MemoryInstruction, Pending;
    HolderOfTag(m, gh, g, tag);
    HolderOfTag(m, gh, h, tag);
  }

  lemma HolderOfEntry(m: Machine, gh: Ghost, i: nat) returns (h: Holder)
    requires AllHeld(m, gh.slots) && i < ROB_CAPACITY && m.rob.cur[i].valid && !m.rob.cur[i].ready
    ensures Holds(h, m.rob.cur[i].tag, m)
  {
    var tag, s := m.rob.cur[i].tag, gh.slots[i];
    assert Held(m.rob.cur[i], s, m);
    if MemoryInstruction(s.dec) {
      h := if m.lsq.cur[s.lsqSlot].valid && m.lsq.cur[s.lsqSlot].destination == tag then InQueue(s.lsqSlot)
          else InBuffer;
    } else {
      h := if m.rs.cur[s.rsSlot].busy && m.rs.cur[s.rsSlot].destination == tag then InStation(s.rsSlot) else InUnit;
    }
  }

  lemma HoldingHolds(m: Machine, gh: Ghost)
    requires Consistent(m, gh)
    ensures HeldOnce(m)
  {
    hide Consistent, StationsOk, UnitOk, QueueOk, LoadBufferOk, AllHeld, Holds, Pending;
    HolderParts(m, gh);
    forall i | 0 <= i < ROB_CAPACITY && m.rob.cur[i].valid && !m.rob.cur[i].ready
      ensures exists h :: Holds(h, m.rob.cur[i].tag, m)
    {
      var h := HolderOfEntry(m, gh, i);
    }
    forall g, h, tag | Holds(g, tag, m) && Holds(h, tag, m)
      ensures g == h
    {
      SameHolder(m, gh, g, h, tag);
    }
    forall h, tag | Holds(h, tag, m)
      ensures Pending(m.rob, tag)
    {
      HolderOfTag(m, gh, h, tag);
    }
  }

  // --- Wakeups ---------------------------------------------------------------------------------

  /** A waiting operand of the instruction `user` names a strictly older, live, unfinished entry. */
  ghost predicate WaitsForOlder(o: Operand, user: RobTag, rob: RobState)
    requires rob.head < ROB_CAPACITY && user.index < ROB_CAPACITY
  {
    !o.ready ==> Pending(rob, o.tag) && Age(rob.head, o.tag.index) < Age(rob.head, user.index)
  }

  /** No wakeup is lost: what any operand waits for has yet to finish, hence is held and will be broadcast. */
  ghost predicate NoLostWakeup(m: Machine) {
    && m.rob.head < ROB_CAPACITY
    && (forall k :: 0 <= k < RS.RS_CAPACITY && m.rs.cur[k].busy ==>
          && m.rs.cur[k].destination.index < ROB_CAPACITY
          && WaitsForOlder(m.rs.cur[k].lhs, m.rs.cur[k].destination, m.rob)
          && WaitsForOlder(m.rs.cur[k].rhs, m.rs.cur[k].destination, m.rob))
    && (forall l :: 0 <= l < LSQ_CAPACITY && m.lsq.cur[l].valid ==>
          && m.lsq.cur[l].destination.index < ROB_CAPACITY
          && WaitsForOlder(m.lsq.cur[l].base, m.lsq.cur[l].destination, m.rob)
          && (m.lsq.cur[l].kind.STORE? ==> WaitsForOlder(m.lsq.cur[l].storeData, m.lsq.cur[l].destination, m.rob)))
  }

  lemma OperandWaits(o: Operand, v: Word, user: RobTag, m: Machine, gh: Ghost)
    requires WellFormed(m.rob) && Chained(m.rob, gh, m.committed) && Pending(m.rob, user)
    requires OperandOk(o, v, gh.slots[user.index].id, m.rob, gh.slots)
    ensures WaitsForOlder(o, user, m.rob)
  {
    hide Age;
  }

  lemma WakeupsHold(m: Machine, gh: Ghost)
    requires Consistent(m, gh)
    ensures NoLostWakeup(m)
  {
    hide Consistent, OperandOk, WaitsForOlder, Chained, WellFormed, UnitOk, LoadBufferOk, AllHeld, LsqAge;
    PathParts(m, gh);
    HolderParts(m, gh);
    RobInOrder(m, gh);
    forall k | 0 <= k < RS.RS_CAPACITY && m.rs.cur[k].busy
      ensures m.rs.cur[k].destination.index < ROB_CAPACITY
      ensures WaitsForOlder(m.rs.cur[k].lhs, m.rs.cur[k].destination, m.rob)
      ensures WaitsForOlder(m.rs.cur[k].rhs, m.rs.cur[k].destination, m.rob)
    {
      var e := m.rs.cur[k];
      assert StationOk(k, e, m.rob, gh.slots);
      OperandWaits(e.lhs, LhsValue(gh.slots[e.destination.index]), e.destination, m, gh);
      OperandWaits(e.rhs, RhsValue(gh.slots[e.destination.index]), e.destination, m, gh);
    }
    forall l | 0 <= l < LSQ_CAPACITY && m.lsq.cur[l].valid
      ensures m.lsq.cur[l].destination.index < ROB_CAPACITY
      ensures WaitsForOlder(m.lsq.cur[l].base, m.lsq.cur[l].destination, m.rob)
      ensures m.lsq.cur[l].kind.STORE? ==> WaitsForOlder(m.lsq.cur[l].storeData, m.lsq.cur[l].destination, m.rob)
    {
      var e := m.lsq.cur[l];
      assert QueueEntryOk(l, e, m.lsq, m.rob, gh.slots);
      OperandWaits(e.base, gh.slots[e.destination.index].x, e.destination, m, gh);
      if e.kind.STORE? { OperandWaits(e.storeData, gh.slots[e.destination.index].y, e.destination, m, gh); }
    }
  }

  // --- The data port -------------------------------------------------------------------------------

  /** A store at the port, or just answered by it, is the unfinished oldest instruction. */
  ghost predicate StoresAtTheirTurn(m: Machine) {
    && m.rob.head < ROB_CAPACITY
    && ((m.memory.transaction.valid && m.memory.transaction.request.kind.STORE?)
        || (m.memory.response.valid && m.memory.response.isStore) ==>
          && m.rob.count > 0 && m.rob.cur[m.rob.head].valid && m.rob.cur[m.rob.head].isStore
          && !m.rob.cur[m.rob.head].ready
          && !ROB.Plan(m.rob).flush
          && (m.memory.transaction.valid ==> m.memory.transaction.request.tag == m.rob.cur[m.rob.head].tag)
          && (m.memory.response.valid ==> m.memory.response.tag == m.rob.cur[m.rob.head].tag))
  }

  /** A queue entry is named by the transaction or the answer at the port only if it is the head and sent
      that very request: after a flush, whatever the port still carries matches nothing that comes later. */
  ghost predicate StaleMatchesNothing(m: Machine) {
    && m.lsq.head < LSQ_CAPACITY
    && forall l :: 0 <= l < LSQ_CAPACITY && m.lsq.cur[l].valid ==>
         && (m.memory.transaction.valid && m.memory.transaction.request.tag == m.lsq.cur[l].destination ==>
               l == m.lsq.head && m.lsq.cur[l].requestSent && m.memory.transaction.request == MakeRequest(m.lsq.cur[l]))
         && (m.memory.response.valid && m.memory.response.tag == m.lsq.cur[l].destination ==>
               l == m.lsq.head && m.lsq.cur[l].requestSent)
  }

  /** Only the head of the queue is ever sent, and by then every older store has reached memory. */
  ghost predicate AccessesInOrder(m: Machine) {
    && m.rob.head < ROB_CAPACITY && m.lsq.head < LSQ_CAPACITY
    && (forall l :: 0 <= l < LSQ_CAPACITY && m.lsq.cur[l].valid && m.lsq.cur[l].requestSent ==> l == m.lsq.head)
    && (m.lsq.cur[m.lsq.head].valid ==>
          && m.lsq.cur[m.lsq.head].destination.index < ROB_CAPACITY
          && forall j :: 0 <= j < ROB_CAPACITY && m.rob.cur[j].valid && m.rob.cur[j].isStore
                         && Age(m.rob.head, j) < Age(m.rob.head, m.lsq.cur[m.lsq.head].destination.index) ==>
               m.rob.cur[j].ready)
  }

  lemma PortParts(m: Machine, gh: Ghost)
    requires Consistent(m, gh)
    ensures WellFormed(m.rob) && EntriesMatch(m.rob, gh.slots) && AllMeaningful(m.rob, gh.slots)
    ensures QueueOk(m.lsq, m.rob, gh.slots) && LoadBufferOk(m.lsq, m.rob, gh.slots) && AllHeld(m, gh.slots)
    ensures PortOk(m, gh.slots) && Chained(m.rob, gh, m.committed)
  {
  }

  lemma StoresHold(m: Machine, gh: Ghost)
    requires Consistent(m, gh)
    ensures StoresAtTheirTurn(m)
  {
    hide Consistent, EntriesMatch, AllMeaningful, QueueEntryOk, LoadBufferOk, AllHeld, Dead, AnswerOk, MakeRequest, Age,
         LsqAge, ROB.Plan, Mispredicted;
    PortParts(m, gh);
    if (m.memory.transaction.valid && m.memory.transaction.request.kind.STORE?)
        || (m.memory.response.valid && m.memory.response.isStore) {
      StoreIsNotSpeculative(m, gh);
      HeadIsValid(m.rob);
      PlanOfHead(m.rob);
    }
  }

  lemma TransactionOfEntry(m: Machine, gh: Ghost, l: nat)
    requires WellFormed(m.rob) && QueueOk(m.lsq, m.rob, gh.slots) && PortOk(m, gh.slots)
    requires l < LSQ_CAPACITY && m.lsq.cur[l].valid
    requires m.memory.transaction.valid && m.memory.transaction.request.tag == m.lsq.cur[l].destination
    ensures l == m.lsq.head && m.lsq.cur[l].requestSent && m.memory.transaction.request == MakeRequest(m.lsq.cur[l])
  {
    hide Dead, OperandOk, LsqAge, Age, AnswerOk, MakeRequest;
    var tag := m.memory.transaction.request.tag;
    assert QueueEntryOk(l, m.lsq.cur[l], m.lsq, m.rob, gh.slots);
    if Dead(m.rob, tag, TransactionAge(m.memory.transaction.remaining)) {
      DeadIsNotLive(m.rob, tag, TransactionAge(m.memory.transaction.remaining));
    }
    assert QueueEntryOk(m.lsq.head, m.lsq.cur[m.lsq.head], m.lsq, m.rob, gh.slots);
  }

  lemma AnswerOfEntry(m: Machine, gh: Ghost, l: nat)
    requires WellFormed(m.rob) && QueueOk(m.lsq, m.rob, gh.slots) && PortOk(m, gh.slots)
    requires l < LSQ_CAPACITY && m.lsq.cur[l].valid
    requires m.memory.response.valid && m.memory.response.tag == m.lsq.cur[l].destination
    ensures l == m.lsq.head && m.lsq.cur[l].requestSent
  {
    hide Dead, OperandOk, LsqAge, Age, AnswerOk, TransactionOk;
    var tag := m.memory.response.tag;
    assert QueueEntryOk(l, m.lsq.cur[l], m.lsq, m.rob, gh.slots);
    if Dead(m.rob, tag, 3) { DeadIsNotLive(m.rob, tag, 3); }
    assert QueueEntryOk(m.lsq.head, m.lsq.cur[m.lsq.head], m.lsq, m.rob, gh.slots);
  }

  lemma StaleHolds(m: Machine, gh: Ghost)
    requires Consistent(m, gh)
    ensures StaleMatchesNothing(m)
  {
    hide Consistent, EntriesMatch, AllMeaningful, QueueOk, LoadBufferOk, AllHeld, PortOk, MakeRequest, WellFormed,
         Chained;
    PortParts(m, gh);
    QueueRange(m, gh);
    forall l | 0 <= l < LSQ_CAPACITY && m.lsq.cur[l].valid
      ensures m.memory.transaction.valid && m.memory.transaction.request.tag == m.lsq.cur[l].destination ==>
                l == m.lsq.head && m.lsq.cur[l].requestSent && m.memory.transaction.request == MakeRequest(m.lsq.cur[l])
      ensures m.memory.response.valid && m.memory.response.tag == m.lsq.cur[l].destination ==>
                l == m.lsq.head && m.lsq.cur[l].requestSent
    {
      if m.memory.transaction.valid && m.memory.transaction.request.tag == m.lsq.cur[l].destination {
        TransactionOfEntry(m, gh, l);
      }
      if m.memory.response.valid && m.memory.response.tag == m.lsq.cur[l].destination { AnswerOfEntry(m, gh, l); }
    }
  }

  lemma AccessesHold(m: Machine, gh: Ghost)
    requires Consistent(m, gh)
    ensures AccessesInOrder(m)
  {
    hide Consistent, EntriesMatch, Meaning, LoadBufferOk, AllHeld, PortOk, WellFormed, OperandOk, LsqAge, Age;
    PortParts(m, gh);
    QueueRange(m, gh);
    RobInOrder(m, gh);
    forall l | 0 <= l < LSQ_CAPACITY && m.lsq.cur[l].valid
      ensures m.lsq.cur[l].requestSent ==> l == m.lsq.head
      ensures m.lsq.cur[l].destination.index < ROB_CAPACITY
    {
      assert QueueEntryOk(l, m.lsq.cur[l], m.lsq, m.rob, gh.slots);
    }
    if m.lsq.cur[m.lsq.head].valid {
      forall j | 0 <= j < ROB_CAPACITY && m.rob.cur[j].valid && m.rob.cur[j].isStore
                 && Age(m.rob.head, j) < Age(m.rob.head, m.lsq.cur[m.lsq.head].destination.index)
        ensures m.rob.cur[j].ready
      {
        NeverBoth(gh.slots[j]) by { assert Meaning(gh.slots[j]); }
        OlderStoresDone(m, gh, j);
      }
    }
  }

  // --- Every reachable state ----------------------------------------------------------------------------

  ghost predicate Guaranteed(m: Machine) {
    && OnePath(m) && RenamesYoungest(m) && HeldOnce(m) && NoLostWakeup(m)
    && StoresAtTheirTurn(m) && StaleMatchesNothing(m) && AccessesInOrder(m)
  }

  /** All of the above holds in every running state of every run, under any predictions. */
  lemma ReachableIsGuaranteed(bytes: Bytes, predict: nat -> bool, n: nat)
    ensures RunFor(bytes, predict, n).status == Running ==> Guaranteed(RunFor(bytes, predict, n))
  {
    hide Consistent, RunFor, OnePath, RenamesYoungest, HeldOnce, NoLostWakeup, StoresAtTheirTurn, StaleMatchesNothing,
         AccessesInOrder;
    var gh := RunIsConsistent(bytes, predict, n);
    var m := RunFor(bytes, predict, n);
    if m.status == Running {
      PathHolds(m, gh);
      RenamingHolds(m, gh);
      HoldingHolds(m, gh);
      WakeupsHold(m, gh);
      StoresHold(m, gh);
      StaleHolds(m, gh);
      AccessesHold(m, gh);
    }
  }

  /** Memory changes only in the cycle that completes an in-range store, by exactly that store's write,
      and that store is the oldest instruction in flight. */
  lemma MemoryChangesInOrder(bytes: Bytes, predict: nat -> bool, n: nat)
    requires RunFor(bytes, predict, n).status == Running
    requires RunFor(bytes, predict, n + 1).memory.bytes != RunFor(bytes, predict, n).memory.bytes
    ensures var m := RunFor(bytes, predict, n);
            var request := m.memory.transaction.request;
            && m.rob.head < ROB_CAPACITY
            && m.memory.transaction.valid && request.kind.STORE? && request.tag == m.rob.cur[m.rob.head].tag
            && Write(m.memory.bytes, request.address, request.width, request.value)
                == Some(RunFor(bytes, predict, n + 1).memory.bytes)
  {
    hide Cycle, Guaranteed, Write, Position;
    var m := RunFor(bytes, predict, n);
    ReachableIsGuaranteed(bytes, predict, n);
    MemoryOfCycle(m, predict(n));
    WritesWhenInBounds(m.memory.bytes, m.memory.transaction.request);
    GuaranteedStores(m);
  }

  lemma GuaranteedStores(m: Machine)
    requires Guaranteed(m)
    ensures StoresAtTheirTurn(m)
  {
    hide OnePath, RenamesYoungest, HeldOnce, NoLostWakeup, StoresAtTheirTurn, StaleMatchesNothing, AccessesInOrder;
  }

  lemma MemoryOfCycle(m: Machine, taken: bool)
    requires InRange(m) && m.status == Running
    ensures Cycle(m, taken).memory.bytes == MU.Written(m.memory.bytes, MU.ScheduledWrite(m.memory))
  {
    hide Observe, ROB.Apply, RS.Apply, LSQ.Apply, NextStatus, NextPcOf, NextFetchStopped, MU.Written, MU.ScheduledWrite,
         MU.NextTransaction, MU.NextResponse;
  }

  lemma WritesWhenInBounds(bytes: Bytes, request: MemoryRequest)
    ensures Write(bytes, request.address, request.width, request.value).Some? <==>
              InBounds(request.address, WidthInBytes(request.width))
  {
    hide Position, Patched;
  }

  // --- Statuses -----------------------------------------------------------------------------------------

  predicate ExpectedStatus(status: Status) { !status.InternalError? && !status.NotLoaded? && !status.LoadError? }

  /** A loaded machine never reports an internal error, whatever its code does. */
  lemma {:induction false} NoInternalError(bytes: Bytes, predict: nat -> bool, n: nat)
    ensures ExpectedStatus(RunFor(bytes, predict, n).status)
  {
    hide Cycle, Consistent, ExpectedStatus;
    if n == 0 {
      ResetStatus(bytes);
    } else {
      NoInternalError(bytes, predict, n - 1);
      var m := RunFor(bytes, predict, n - 1);
      if m.status == Running {
        var gh := RunIsConsistent(bytes, predict, n - 1);
        StatusAfter(m, gh, predict(n - 1));
      } else {
        StoppedStays(m, predict(n - 1));
      }
    }
  }

  lemma ResetStatus(bytes: Bytes)
    ensures ExpectedStatus(Reset(bytes).status)
  {
  }

  lemma StatusAfter(m: Machine, gh: Ghost, taken: bool)
    requires Consistent(m, gh)
    ensures InRange(m) && ExpectedStatus(Cycle(m, taken).status)
  {
    hide Consistent, Cycle, Observe, ObservationOf, EventOf, Stepped;
    StepHolds(m, gh, taken);
    ControlHolds(m, gh, taken, Observe(m, taken), ObservationOf(m, taken), EventOf(m, gh, taken), Cycle(m, taken));
    StatusWires(m, gh, taken);
  }

  // --- Issue --------------------------------------------------------------------------------------------

  /** One of the sixteen stations is idle. */
  predicate IdleStation(m: Machine) { exists k :: 0 <= k < 16 && !m.rs.cur[k].busy }

  /** Nothing holds the next instruction back: no redirection, no HALT before it, a word to decode, and room in
      the 32 slots of the buffer and in the sixteen stations or queue entries the instruction needs. */
  predicate MayIssue(m: Machine)
    requires InRange(m)
  {
    var head := m.rob.cur[m.rob.head];
    && !(m.rob.count > 0 && head.ready && (head.isBranch || head.isJump) && head.predictedNextPc != head.actualNextPc)
    && !m.fetchStopped && m.rob.count < 32
    && ReadWord(m.memory.bytes, m.pc).Some?
    && var d := Decode(ReadWord(m.memory.bytes, m.pc).value);
       && !d.op.INVALID?
       && (d.isLoad || d.isStore ==> m.lsq.count < 16)
       && (!d.isLoad && !d.isStore && !d.op.HALT? ==> IdleStation(m))
  }

  lemma IssuesExactly(m: Machine, taken: bool)
    requires InRange(m) && WellFormed(m.rob) && WellFormedLsq(m.lsq)
    ensures IssueEffective(Observe(m, taken)) <==> MayIssue(m)
  {
    hide RS.Plan, LSQ.Plan, PlanCdb, ROB.Plan, Decode, ReadWord, Issue.MakeRobEntry, Issue.MakeRsEntry,
         Issue.MakeLsqEntry, Issue.ResolveRegister, SourceOf, PredictedNextPc, PreviewRob, WellFormed;
    PlanOfHead(m.rob);
    PreviewAgrees(m.rob);
    CountsBounded(m);
  }

  lemma CountsBounded(m: Machine)
    requires WellFormed(m.rob) && WellFormedLsq(m.lsq)
    ensures m.rob.count <= 32 && m.lsq.count <= 16
  {
  }

  /** In every reachable running state an instruction is issued exactly when nothing holds it back. */
  lemma {:induction false} IssuesWheneverItMay(bytes: Bytes, predict: nat -> bool, n: nat)
    requires RunFor(bytes, predict, n).status == Running
    ensures var m := RunFor(bytes, predict, n);
            IssueEffective(Observe(m, predict(n))) <==> MayIssue(m)
  {
    hide RunFor, Consistent, Observe, IssueEffective, MayIssue, WellFormed, WellFormedLsq;
    var gh := RunIsConsistent(bytes, predict, n);
    RingsAreWellFormed(RunFor(bytes, predict, n), gh);
    IssuesExactly(RunFor(bytes, predict, n), predict(n));
  }

  lemma RingsAreWellFormed(m: Machine, gh: Ghost)
    requires Consistent(m, gh)
    ensures WellFormed(m.rob) && WellFormedLsq(m.lsq)
  {
  }
}
