// The reorder buffer: a ring of 32 slots with generations, in-order commit
// and flush at the head (src/tomasulo/reorder_buffer.cpp).
module ReorderBuffers {
  import opened Types

  const ROB_CAPACITY := 32

  datatype RobEntry = RobEntry(
    tag: RobTag,
    op: Op,
    pc: Address,
    rd: RegisterIndex,
    value: Word,
    writesRd: bool,
    ready: bool,
    predictedNextPc: Address,
    actualNextPc: Address,
    branchTaken: bool,
    isBranch: bool,
    isStore: bool,
    isJump: bool,
    valid: bool)

  const NO_ENTRY :=
    RobEntry(NO_TAG, INVALID, 0, 0, 0, false, false, 0, 0, false, false, false, false, false)

  /** Permission for, or confirmation of, a store's memory write. */
  datatype StoreMessage = StoreMessage(tag: RobTag, valid: bool)

  const NO_STORE := StoreMessage(NO_TAG, false)

  datatype Commit = Commit(
    entry: RobEntry, valid: bool, halted: bool, mispredicted: bool, redirectPc: Address)

  const NO_COMMIT := Commit(NO_ENTRY, false, false, false, 0)

  datatype RobOutputs = RobOutputs(
    commit: Commit, storeRequest: StoreMessage, flush: bool, redirectPc: Address)

  datatype RobInputs = RobInputs(
    issueEntry: RobEntry, issueValid: bool, completion: FUResult, storeCompletion: StoreMessage)

  type Slots = s: seq<RobEntry> | |s| == ROB_CAPACITY witness Repeat(ROB_CAPACITY, NO_ENTRY)
  type Generations = s: seq<Generation> | |s| == ROB_CAPACITY witness Repeat(ROB_CAPACITY, 0 as Generation)

  const EMPTY_SLOTS: Slots := Repeat(ROB_CAPACITY, NO_ENTRY)

  datatype RobState = RobState(cur: Slots, generations: Generations, head: nat, tail: nat, count: nat)

  const EMPTY_ROB := RobState(EMPTY_SLOTS, Repeat(ROB_CAPACITY, 0 as Generation), 0, 0, 0)

  function NextSlot(slot: nat): (next: nat)
    ensures next < ROB_CAPACITY
  {
    (slot + 1) % ROB_CAPACITY
  }

  /** How many slots `slot` lies behind the head, going round the ring. */
  function Age(head: nat, slot: nat): int {
    if slot >= head then slot - head else slot + ROB_CAPACITY - head
  }

  /** Head, tail and count describe one circular window, whose slots are the valid ones;
      every live tag names its slot and that slot's latest generation. */
  ghost predicate WellFormed(rob: RobState) {
    && rob.head < ROB_CAPACITY
    && rob.tail < ROB_CAPACITY
    && rob.count <= ROB_CAPACITY
    && rob.tail == (rob.head + rob.count) % ROB_CAPACITY
    && (forall i :: 0 <= i < ROB_CAPACITY ==> (rob.cur[i].valid <==> Age(rob.head, i) < rob.count))
    && (forall i :: 0 <= i < ROB_CAPACITY && rob.cur[i].valid ==>
          rob.cur[i].tag == RobTag(i, rob.generations[i], true))
  }

  predicate Full(rob: RobState) { rob.count == ROB_CAPACITY }
  predicate Empty(rob: RobState) { rob.count == 0 }

  predicate Matching(tag: RobTag, slots: Slots) {
    tag.valid && tag.index < ROB_CAPACITY && slots[tag.index].valid && slots[tag.index].tag == tag
  }

  function NextTag(rob: RobState): RobTag
    requires rob.tail < ROB_CAPACITY
  {
    if Full(rob) then NO_TAG else RobTag(rob.tail, rob.generations[rob.tail] + 1, true)
  }

  predicate HasFront(rob: RobState)
    requires rob.head < ROB_CAPACITY
  {
    !Empty(rob) && rob.cur[rob.head].valid
  }

  predicate IsControl(entry: RobEntry) { entry.isJump || entry.isBranch }

  predicate Mispredicted(entry: RobEntry) {
    IsControl(entry) && entry.predictedNextPc != entry.actualNextPc
  }

  /** What the head asks for this cycle, read from the current state only. */
  function Plan(rob: RobState): RobOutputs
    requires rob.head < ROB_CAPACITY
  {
    var front := rob.cur[rob.head];
    var store :=
      if HasFront(rob) && front.isStore && !front.ready then StoreMessage(front.tag, true) else NO_STORE;
    if HasFront(rob) && front.ready then
      var redirect := if IsControl(front) then front.actualNextPc else 0;
      RobOutputs(
        Commit(front, true, front.op.HALT?, Mispredicted(front), redirect), store,
        Mispredicted(front), if Mispredicted(front) then front.actualNextPc else 0)
    else RobOutputs(NO_COMMIT, store, false, 0)
  }

  function Completed(entry: RobEntry, completion: FUResult): RobEntry {
    entry.(value := completion.result,
           ready := true,
           actualNextPc := if completion.hasControlResult then completion.actualNextPc else entry.actualNextPc,
           branchTaken := if completion.hasControlResult then completion.branchTaken else entry.branchTaken)
  }

  function ApplyCompletion(slots: Slots, completion: FUResult): Slots {
    if !completion.valid || !Matching(completion.tag, slots) then slots
    else slots[completion.tag.index := Completed(slots[completion.tag.index], completion)]
  }

  // Matching is decided on the current slots, the update lands in the next ones.
  function ApplyStoreCompletion(cur: Slots, next: Slots, completion: StoreMessage): Slots {
    if !completion.valid || !Matching(completion.tag, cur) || !next[completion.tag.index].isStore then next
    else next[completion.tag.index := next[completion.tag.index].(ready := true)]
  }

  predicate IssueAccepted(rob: RobState, inputs: RobInputs, outputs: RobOutputs)
    requires rob.tail < ROB_CAPACITY
  {
    && !outputs.flush && inputs.issueValid && !Full(rob)
    && inputs.issueEntry.valid && inputs.issueEntry.tag == NextTag(rob)
  }

  /** The buffer after a cycle. */
  function Apply(rob: RobState, inputs: RobInputs, outputs: RobOutputs): RobState
    requires rob.head < ROB_CAPACITY && rob.tail < ROB_CAPACITY
    requires outputs.commit.valid ==> rob.count > 0
    requires outputs.flush ==> outputs.commit.valid
  {
    var done := ApplyStoreCompletion(rob.cur, ApplyCompletion(rob.cur, inputs.completion), inputs.storeCompletion);
    var head := if outputs.commit.valid then NextSlot(rob.head) else rob.head;
    if outputs.flush then RobState(EMPTY_SLOTS, rob.generations, head, head, 0)
    else
      var popped := if outputs.commit.valid then done[rob.head := NO_ENTRY] else done;
      var count := if outputs.commit.valid then rob.count - 1 else rob.count;
      if IssueAccepted(rob, inputs, outputs) then
        RobState(popped[rob.tail := inputs.issueEntry],
            rob.generations[rob.tail := NextTag(rob).generation],
            head, NextSlot(rob.tail), count + 1)
      else RobState(popped, rob.generations, head, rob.tail, count)
  }
}
