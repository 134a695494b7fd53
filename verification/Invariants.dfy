// What every reachable pipeline state looks like: a committed sequential
// state, followed by the reorder buffer's entries executed in order along the
// predicted path.
//
// For each live reorder-buffer slot the ghost Slot remembers the sequential
// state before and after its instruction. All invariants are phrased slot by
// slot, so a commit or a flush removes facts and never shifts them.
module Invariants {
  import opened Types
  import opened WordArithmetic
  import opened Image
  import opened Isa
  import opened Decoder
  import opened ReorderBuffers
  import opened RenameTables
  import RS = ReservationStations
  import opened LoadStoreQueues
  import MU = MemoryUnits
  import opened Pipeline

  /** One in-flight instruction as in-order execution of the predicted path sees it. */
  datatype Slot = Slot(
    id: int,                 // how many instructions precede it in the run
    dec: DecodedInstruction,
    pre: Arch,               // state before it
    post: Arch,              // state after it, continuing at the predicted pc
    x: Word,                 // value of rs1 in pre
    y: Word,                 // value of rs2 in pre
    value: Word,             // value it gives rd
    nextPc: Address,         // where it really goes
    faults: bool,            // its data access is out of range
    rsSlot: nat,             // station it was issued to, if it executes
    lsqSlot: nat)            // queue entry it was issued to, if it accesses memory

  ghost function NoSlots(): (s: seq<Slot>)
    ensures |s| == ROB_CAPACITY
  {
    var nowhere := Boot(Repeat(MEMORY_SIZE, 0));
    Repeat(ROB_CAPACITY, Slot(0, NO_INSTRUCTION, nowhere, nowhere, 0, 0, 0, 0, false, 0, 0))
  }

  type SlotTable = s: seq<Slot> | |s| == ROB_CAPACITY ghost witness NoSlots()

  /** arch: the committed sequential state; tail: the state after the youngest entry. */
  datatype Ghost = Ghost(arch: Arch, tail: Arch, slots: SlotTable)

  predicate ControlInstruction(d: DecodedInstruction) { d.isBranch || d.isJump }
  predicate MemoryInstruction(d: DecodedInstruction) { d.isLoad || d.isStore }

  /** The slot's fields are what the instruction does to the state before it. */
  ghost predicate Meaning(s: Slot) {
    && WellDecoded(s.dec) && !s.dec.op.INVALID?
    && s.x == ReadRegister(s.pre.regs, s.dec.rs1)
    && s.y == ReadRegister(s.pre.regs, s.dec.rs2)
    && s.value == ResultValue(s.dec, s.pre)
    && s.nextPc == Successor(s.dec, s.pre)
    && s.faults == Faults(s.dec, s.pre)
    && s.post == After(s.dec, s.pre, s.post.pc)
  }

  ghost predicate AllMeaningful(rob: RobState, slots: SlotTable) {
    forall i :: 0 <= i < ROB_CAPACITY && rob.cur[i].valid ==> Meaning(slots[i])
  }

  // --- Reorder buffer --------------------------------------------------------

  /** Consecutive entries hand their state over; the first starts from the committed state. */
  ghost predicate Chained(rob: RobState, gh: Ghost, committed: nat) {
    && (forall i :: 0 <= i < ROB_CAPACITY && rob.cur[i].valid ==>
          gh.slots[i].id == committed + Age(rob.head, i))
    && (forall i :: 0 <= i < ROB_CAPACITY && rob.cur[i].valid ==>
          gh.slots[i].pre == if i == rob.head then gh.arch else gh.slots[Previous(i)].post)
    && gh.tail == if rob.count == 0 then gh.arch else gh.slots[Previous(rob.tail)].post
  }

  function Previous(slot: nat): (p: nat)
    ensures p < ROB_CAPACITY
  {
    (slot + ROB_CAPACITY - 1) % ROB_CAPACITY
  }

  /** Whether a control instruction goes to its target: jumps always do. */
  predicate Diverts(s: Slot) { s.dec.isJump || BranchTaken(s.dec.op, s.x, s.y) }

  /** A finished entry carries the in-order result. */
  ghost predicate Finished(e: RobEntry, s: Slot) {
    && (s.dec.writesRd ==> e.value == s.value)
    && (ControlInstruction(s.dec) ==> e.actualNextPc == s.nextPc && e.branchTaken == Diverts(s))
    && !s.faults
  }

  ghost predicate EntryMatches(e: RobEntry, s: Slot) {
    && e.op == s.dec.op && e.pc == s.pre.pc && e.rd == s.dec.rd && e.writesRd == s.dec.writesRd
    && e.isBranch == s.dec.isBranch && e.isStore == s.dec.isStore && e.isJump == s.dec.isJump
    && e.predictedNextPc == s.post.pc
    && (!ControlInstruction(s.dec) ==> s.post.pc == s.nextPc)
    && (s.dec.op.HALT? ==> e.ready)
    && (e.ready ==> Finished(e, s))
  }

  ghost predicate EntriesMatch(rob: RobState, slots: SlotTable) {
    && (forall i :: 0 <= i < ROB_CAPACITY && rob.cur[i].valid ==> EntryMatches(rob.cur[i], slots[i]))
    && (forall i :: 0 <= i < ROB_CAPACITY && rob.cur[i].valid && rob.cur[i].isStore && rob.cur[i].ready ==>
        i == rob.head)
  }

  /** HALT is always the youngest entry, and fetching stops exactly behind it. */
  ghost predicate HaltIsYoungest(rob: RobState, fetchStopped: bool) {
    && (forall i :: 0 <= i < ROB_CAPACITY && rob.cur[i].valid && rob.cur[i].op.HALT? ==>
          fetchStopped && Age(rob.head, i) == rob.count - 1)
    && (fetchStopped ==> rob.count > 0 && rob.cur[Previous(rob.tail)].op.HALT?)
  }

  // --- Waiting values --------------------------------------------------------

  /** The tag names a live entry that has not finished. */
  ghost predicate Pending(rob: RobState, tag: RobTag) {
    Matching(tag, rob.cur) && !rob.cur[tag.index].ready
  }

  /** An operand holds the in-order value v, or waits for a strictly older entry that will broadcast it. */
  ghost predicate OperandOk(o: Operand, v: Word, id: int, rob: RobState, slots: SlotTable) {
    if o.ready then o.value == v
    else
      && Pending(rob, o.tag)
      && slots[o.tag.index].dec.writesRd
      && slots[o.tag.index].id < id
      && slots[o.tag.index].value == v
  }

  /** A result about to be broadcast is the in-order result of a live unfinished entry. */
  ghost predicate ResultOk(c: FUResult, rob: RobState, slots: SlotTable) {
    c.valid ==>
      && Pending(rob, c.tag)
      && var s := slots[c.tag.index];
         && !s.dec.isStore && !s.faults
         && (s.dec.writesRd ==> c.result == s.value)
         && (c.hasControlResult <==> ControlInstruction(s.dec))
         && (ControlInstruction(s.dec) ==> c.actualNextPc == s.nextPc)
         && c.branchTaken == Diverts(s)
  }

  // --- Reservation stations and functional unit --------------------------------

  function LhsValue(s: Slot): Word {
    match s.dec.lhsSource
    case FromImmediate => s.dec.immediate
    case FromProgramCounter => s.pre.pc
    case FromRegister => s.x
    case FromZero => 0
  }

  function RhsValue(s: Slot): Word {
    match s.dec.rhsSource
    case FromImmediate => s.dec.immediate
    case FromProgramCounter => s.pre.pc
    case FromRegister => s.y
    case FromZero => 0
  }

  ghost predicate StationOk(k: nat, e: RS.RsEntry, rob: RobState, slots: SlotTable) {
    e.busy ==>
      && Pending(rob, e.destination)
      && var s := slots[e.destination.index];
         && s.rsSlot == k && !MemoryInstruction(s.dec)
         && e.op == s.dec.op && e.immediate == s.dec.immediate && e.pc == s.pre.pc
         && OperandOk(e.lhs, LhsValue(s), s.id, rob, slots)
         && OperandOk(e.rhs, RhsValue(s), s.id, rob, slots)
  }

  ghost predicate StationsOk(rs: RS.RsState, rob: RobState, slots: SlotTable) {
    && rs.cursor < RS.RS_CAPACITY
    && forall k :: 0 <= k < RS.RS_CAPACITY ==> StationOk(k, rs.cur[k], rob, slots)
  }

  ghost predicate UnitOk(fu: FUResult, rs: RS.RsState, rob: RobState, slots: SlotTable) {
    && ResultOk(fu, rob, slots)
    && (fu.valid ==>
          && !MemoryInstruction(slots[fu.tag.index].dec)
          && forall k :: 0 <= k < RS.RS_CAPACITY && rs.cur[k].busy ==> rs.cur[k].destination != fu.tag)
  }

  // --- Load/store queue --------------------------------------------------------

  ghost predicate QueueEntryOk(l: nat, e: LsqEntry, lsq: LsqState, rob: RobState, slots: SlotTable) {
    e.valid ==>
      && Pending(rob, e.destination)
      && var s := slots[e.destination.index];
         && s.lsqSlot == l
         && (if e.kind.LOAD? then s.dec.isLoad && !s.dec.isStore else s.dec.isStore && !s.dec.isLoad)
         && e.op == s.dec.op && e.immediate == s.dec.immediate
         && OperandOk(e.base, s.x, s.id, rob, slots)
         && (e.kind.STORE? ==> OperandOk(e.storeData, s.y, s.id, rob, slots))
         && (e.addressReady <==> e.base.ready)
         && (e.addressReady ==> e.address == Add(s.x, s.dec.immediate))
         && (e.requestSent ==>
               && l == lsq.head && e.addressReady
               && (e.kind.STORE? ==> e.storeData.ready && e.destination.index == rob.head))
  }

  ghost predicate QueueOk(lsq: LsqState, rob: RobState, slots: SlotTable) {
    && WellFormedLsq(lsq)
    && (forall l :: 0 <= l < LSQ_CAPACITY ==> QueueEntryOk(l, lsq.cur[l], lsq, rob, slots))
    && (forall k, l :: 0 <= k < LSQ_CAPACITY && 0 <= l < LSQ_CAPACITY && lsq.cur[k].valid && lsq.cur[l].valid
                       && LsqAge(lsq.head, k) < LsqAge(lsq.head, l) ==>
          slots[lsq.cur[k].destination.index].id < slots[lsq.cur[l].destination.index].id)
  }

  /** The load buffer holds a live load that has left the queue and is older than all of it. */
  ghost predicate LoadBufferOk(lsq: LsqState, rob: RobState, slots: SlotTable) {
    && ResultOk(lsq.loadResult, rob, slots)
    && (lsq.loadResult.valid ==>
          && slots[lsq.loadResult.tag.index].dec.isLoad
          && forall l :: 0 <= l < LSQ_CAPACITY && lsq.cur[l].valid ==>
               && lsq.cur[l].destination.index < ROB_CAPACITY
               && slots[lsq.loadResult.tag.index].id < slots[lsq.cur[l].destination.index].id
               && !(lsq.cur[l].kind.LOAD? && lsq.cur[l].requestSent))
  }

  predicate HeldByStation(tag: RobTag, k: nat, rs: RS.RsState, fu: FUResult) {
    && k < RS.RS_CAPACITY
    && ((rs.cur[k].busy && rs.cur[k].destination == tag) || (fu.valid && fu.tag == tag))
  }

  predicate HeldByQueue(tag: RobTag, l: nat, lsq: LsqState) {
    && l < LSQ_CAPACITY
    && ((lsq.cur[l].valid && lsq.cur[l].destination == tag) || (lsq.loadResult.valid && lsq.loadResult.tag == tag))
  }

  /** Every unfinished entry is held where its slot says: in its station or the functional unit,
      in its queue entry or the load buffer. */
  ghost predicate Held(e: RobEntry, s: Slot, m: Machine) {
    if MemoryInstruction(s.dec) then HeldByQueue(e.tag, s.lsqSlot, m.lsq)
    else HeldByStation(e.tag, s.rsSlot, m.rs, m.fu)
  }

  ghost predicate AllHeld(m: Machine, slots: SlotTable) {
    forall i :: 0 <= i < ROB_CAPACITY && m.rob.cur[i].valid && !m.rob.cur[i].ready ==>
      Held(m.rob.cur[i], slots[i], m)
  }

  // --- Memory unit ---------------------------------------------------------------

  /** The queue head has been sent to memory under this tag. */
  ghost predicate InFlight(lsq: LsqState, tag: RobTag)
    requires lsq.head < LSQ_CAPACITY
  {
    lsq.cur[lsq.head].valid && lsq.cur[lsq.head].requestSent && lsq.cur[lsq.head].destination == tag
  }

  /** Generation g is dead: its slot is empty, or was allocated again at most `age` times since. */
  predicate Outdated(latest: Generation, occupied: bool, g: Generation, age: nat) {
    || (latest == g && !occupied)
    || (age >= 1 && latest == g + 1)
    || (age >= 2 && latest == g + 2)
    || (age >= 3 && latest == g + 3)
  }

  /** The tag of a flushed instruction. */
  ghost predicate Dead(rob: RobState, tag: RobTag, age: nat) {
    && tag.valid && tag.index < ROB_CAPACITY
    && Outdated(rob.generations[tag.index], rob.cur[tag.index].valid, tag.generation, age)
  }

  function TransactionAge(remaining: nat): nat {
    if remaining >= 3 then 0 else if remaining == 2 then 1 else 2
  }

  ghost predicate TransactionOk(t: MU.Transaction, lsq: LsqState, rob: RobState)
    requires lsq.head < LSQ_CAPACITY
  {
    t.valid ==>
      && 1 <= t.remaining <= MU.DATA_LATENCY
      && t.request.valid && t.request.tag.valid
      && (|| (InFlight(lsq, t.request.tag) && t.request == MakeRequest(lsq.cur[lsq.head]))
          || (t.request.kind.LOAD? && Dead(rob, t.request.tag, TransactionAge(t.remaining))))
  }

  ghost predicate AnswerOk(r: MemoryResponse, e: LsqEntry, s: Slot) {
    && (r.isStore <==> e.kind.STORE?)
    && (r.success <==> !s.faults)
    && (r.success && e.kind.LOAD? ==> Extend(e.op, r.value) == s.value)
  }

  ghost predicate ResponseOk(r: MemoryResponse, lsq: LsqState, rob: RobState, slots: SlotTable)
    requires lsq.head < LSQ_CAPACITY
  {
    r.valid ==>
      && r.tag.valid && r.tag.index < ROB_CAPACITY
      && (|| (InFlight(lsq, r.tag) && AnswerOk(r, lsq.cur[lsq.head], slots[r.tag.index]))
          || (!r.isStore && Dead(rob, r.tag, 3)))
  }

  ghost predicate PortOk(m: Machine, slots: SlotTable)
    requires m.lsq.head < LSQ_CAPACITY
  {
    var t := m.memory.transaction;
    var r := m.memory.response;
    var head := m.lsq.cur[m.lsq.head];
    && TransactionOk(t, m.lsq, m.rob)
    && ResponseOk(r, m.lsq, m.rob, slots)
    && !(t.valid && r.valid)
    && (head.valid && head.requestSent ==>
          (t.valid && t.request.tag == head.destination) || (r.valid && r.tag == head.destination))
  }

  /** The head is a store whose bytes are already in memory. */
  ghost predicate HeadWritten(m: Machine)
    requires m.rob.head < ROB_CAPACITY
  {
    var head := m.rob.cur[m.rob.head];
    && m.rob.count > 0 && head.isStore
    && (head.ready || (m.memory.response.valid && m.memory.response.isStore && m.memory.response.success))
  }

  ghost function MemoryNow(m: Machine, gh: Ghost): Bytes
    requires m.rob.head < ROB_CAPACITY
  {
    if HeadWritten(m) then gh.slots[m.rob.head].post.mem else gh.arch.mem
  }

  // --- Rename table -----------------------------------------------------------------

  /** Each register names its youngest live writer, or nothing when there is none. */
  ghost predicate RatExact(rat: Table, rob: RobState, slots: SlotTable) {
    && !rat[0].valid
    && (forall r :: 0 < r < REGISTER_COUNT && rat[r].valid ==>
          Matching(rat[r], rob.cur) && rob.cur[rat[r].index].writesRd && rob.cur[rat[r].index].rd == r)
    && (forall i :: 0 <= i < ROB_CAPACITY && rob.cur[i].valid && rob.cur[i].writesRd ==>
          && 0 < rob.cur[i].rd < REGISTER_COUNT
          && rat[rob.cur[i].rd].valid
          && slots[i].id <= slots[rat[rob.cur[i].rd].index].id)
  }

  /** A renamed register has its producer's value at the tail, any other its committed value. */
  ghost predicate RatMeaning(rat: Table, rob: RobState, gh: Ghost) {
    && gh.arch.regs[0] == 0
    && forall r :: 0 < r < REGISTER_COUNT ==>
         gh.tail.regs[r] ==
           if rat[r].valid && rat[r].index < ROB_CAPACITY then gh.slots[rat[r].index].value else gh.arch.regs[r]
  }

  // --- The whole machine --------------------------------------------------------------

  /** Everything about a running state except how it relates to the sequential run. */
  ghost predicate Consistent(m: Machine, gh: Ghost) {
    && m.status == Running
    && WellFormed(m.rob)
    && AllMeaningful(m.rob, gh.slots)
    && Chained(m.rob, gh, m.committed)
    && EntriesMatch(m.rob, gh.slots)
    && HaltIsYoungest(m.rob, m.fetchStopped)
    && StationsOk(m.rs, m.rob, gh.slots)
    && UnitOk(m.fu, m.rs, m.rob, gh.slots)
    && QueueOk(m.lsq, m.rob, gh.slots)
    && LoadBufferOk(m.lsq, m.rob, gh.slots)
    && AllHeld(m, gh.slots)
    && PortOk(m, gh.slots)
    && RatExact(m.rat, m.rob, gh.slots)
    && RatMeaning(m.rat, m.rob, gh)
    && m.regs == gh.arch.regs
    && m.pc == gh.tail.pc
    && m.memory.bytes == MemoryNow(m, gh)
  }

  /** If the sequential run reaches a slot's state, the slot was decoded from the word that state fetches. */
  ghost predicate FetchedInOrder(start: Arch, s: Slot) {
    0 <= s.id && StateAt(start, s.id) == Some(s.pre) ==>
      var word := ReadWord(s.pre.mem, s.pre.pc);
      word.Some? && s.dec == Decode(word.value)
  }

  ghost predicate AllFetched(start: Arch, rob: RobState, slots: SlotTable) {
    forall i :: 0 <= i < ROB_CAPACITY && rob.cur[i].valid ==> FetchedInOrder(start, slots[i])
  }

  /** A running state whose committed part is the sequential run of `start`. */
  ghost predicate Inv(m: Machine, gh: Ghost, start: Arch) {
    && Consistent(m, gh)
    && StateAt(start, m.committed) == Some(gh.arch)
    && AllFetched(start, m.rob, gh.slots)
  }
}
