// The in-order load/store queue: a ring of 16 entries and one buffer for a
// finished load (src/tomasulo/load_store_queue.cpp).
module LoadStoreQueues {
  import opened Types
  import opened WordArithmetic
  import opened Isa
  import opened ReorderBuffers

  const LSQ_CAPACITY := 16

  datatype LsqEntry = LsqEntry(
    kind: MemoryAccessType,
    op: Op,
    destination: RobTag,
    base: Operand,
    storeData: Operand,
    immediate: Word,
    address: Address,
    addressReady: bool,
    requestSent: bool,
    valid: bool)

  const NO_LSQ_ENTRY :=
    LsqEntry(LOAD, INVALID, NO_TAG, NO_OPERAND, NO_OPERAND, 0, 0, false, false, false)

  type LsqSlots = s: seq<LsqEntry> | |s| == LSQ_CAPACITY witness Repeat(LSQ_CAPACITY, NO_LSQ_ENTRY)

  const EMPTY_LSQ_SLOTS: LsqSlots := Repeat(LSQ_CAPACITY, NO_LSQ_ENTRY)

  datatype LsqState = LsqState(cur: LsqSlots, head: nat, tail: nat, count: nat, loadResult: FUResult)

  const EMPTY_LSQ := LsqState(EMPTY_LSQ_SLOTS, 0, 0, 0, NO_RESULT)

  datatype LsqObserve = LsqObserve(
    storeRequest: StoreMessage, response: MemoryResponse,
    memoryAvailable: bool, loadResultGranted: bool, flush: bool)

  datatype LsqDecision = LsqDecision(
    request: MemoryRequest,
    storeCompletion: StoreMessage,
    memoryError: bool,
    completedLoad: FUResult,
    clearLoadResult: bool,
    installLoadResult: bool,
    removeHead: bool,
    markRequestSent: bool)

  const NO_LSQ_DECISION :=
    LsqDecision(NO_REQUEST, NO_STORE, false, NO_RESULT, false, false, false, false)

  datatype LsqInputs = LsqInputs(issueEntry: LsqEntry, issueValid: bool, cdb: CdbMessage, flush: bool)

  function NextLsqSlot(slot: nat): (next: nat)
    ensures next < LSQ_CAPACITY
  {
    (slot + 1) % LSQ_CAPACITY
  }

  function LsqAge(head: nat, slot: nat): int {
    if slot >= head then slot - head else slot + LSQ_CAPACITY - head
  }

  /** Head, tail and count describe one circular window, whose slots are the valid ones. */
  ghost predicate WellFormedLsq(lsq: LsqState) {
    && lsq.head < LSQ_CAPACITY
    && lsq.tail < LSQ_CAPACITY
    && lsq.count <= LSQ_CAPACITY
    && lsq.tail == (lsq.head + lsq.count) % LSQ_CAPACITY
    && (forall l :: 0 <= l < LSQ_CAPACITY ==> (lsq.cur[l].valid <==> LsqAge(lsq.head, l) < lsq.count))
  }

  predicate LsqFull(lsq: LsqState) { lsq.count == LSQ_CAPACITY }

  predicate MatchingResponse(entry: LsqEntry, response: MemoryResponse) {
    && entry.valid && response.valid && response.tag.valid
    && entry.destination == response.tag
    && (entry.kind.STORE? <==> response.isStore)
  }

  function MakeRequest(entry: LsqEntry): MemoryRequest {
    MemoryRequest(entry.kind, WidthOf(entry.op), entry.address,
                  if entry.kind.STORE? then entry.storeData.value else 0,
                  entry.destination, true)
  }

  /** May the head send its request now? */
  predicate MaySend(lsq: LsqState, o: LsqObserve)
    requires lsq.head < LSQ_CAPACITY
  {
    var head := lsq.cur[lsq.head];
    && lsq.count > 0
    && head.valid && !head.requestSent && head.addressReady && o.memoryAvailable
    && (match head.kind
        case LOAD => !lsq.loadResult.valid || o.loadResultGranted
        case STORE => head.storeData.ready && o.storeRequest.valid && o.storeRequest.tag == head.destination)
  }

  predicate Answered(lsq: LsqState, o: LsqObserve)
    requires lsq.head < LSQ_CAPACITY
  {
    lsq.count > 0 && MatchingResponse(lsq.cur[lsq.head], o.response)
  }

  function LoadCompletion(entry: LsqEntry, response: MemoryResponse): FUResult {
    FUResult(entry.destination, Extend(entry.op, response.value), 0, false, false, true)
  }

  function Plan(lsq: LsqState, o: LsqObserve): LsqDecision
    requires lsq.head < LSQ_CAPACITY
  {
    if o.flush then NO_LSQ_DECISION
    else
      var head := lsq.cur[lsq.head];
      var answered := Answered(lsq, o);
      var loaded := answered && o.response.success && head.kind.LOAD?;
      var stored := answered && o.response.success && head.kind.STORE?;
      LsqDecision(
        if MaySend(lsq, o) then MakeRequest(head) else NO_REQUEST,
        if stored then StoreMessage(head.destination, true) else NO_STORE,
        answered && !o.response.success,
        if loaded then LoadCompletion(head, o.response) else NO_RESULT,
        o.loadResultGranted && lsq.loadResult.valid,
        loaded,
        loaded || stored,
        MaySend(lsq, o))
  }

  function WakeEntry(entry: LsqEntry, cdb: CdbMessage): LsqEntry {
    if !entry.valid then entry
    else
      entry.(base := WakeOperand(entry.base, cdb),
             storeData := if entry.kind.STORE? then WakeOperand(entry.storeData, cdb) else entry.storeData)
  }

  function UpdateAddress(entry: LsqEntry): LsqEntry {
    if !entry.valid || entry.addressReady || !entry.base.ready then entry
    else entry.(address := Add(entry.base.value, entry.immediate), addressReady := true)
  }

  function Wake(slots: LsqSlots, cdb: CdbMessage): LsqSlots {
    seq(LSQ_CAPACITY, l requires 0 <= l < LSQ_CAPACITY => WakeEntry(slots[l], cdb))
  }

  function UpdateAddresses(slots: LsqSlots): LsqSlots {
    seq(LSQ_CAPACITY, l requires 0 <= l < LSQ_CAPACITY => UpdateAddress(slots[l]))
  }

  predicate IssueAccepted(lsq: LsqState, inputs: LsqInputs) {
    !inputs.flush && inputs.issueValid && !LsqFull(lsq) && inputs.issueEntry.valid
  }

  // The slots after wakeup, head removal, send marking and issue, before addresses are formed.
  function Rearranged(lsq: LsqState, inputs: LsqInputs, decision: LsqDecision): LsqSlots
    requires lsq.head < LSQ_CAPACITY && lsq.tail < LSQ_CAPACITY
  {
    var woken := Wake(lsq.cur, inputs.cdb);
    var removed := if decision.removeHead then woken[lsq.head := NO_LSQ_ENTRY] else woken;
    var marked := if decision.markRequestSent then removed[lsq.head := removed[lsq.head].(requestSent := true)]
        else removed;
    if IssueAccepted(lsq, inputs)
    then marked[lsq.tail := inputs.issueEntry.(valid := true, requestSent := false)]
    else marked
  }

  /** The queue after a cycle. */
  function Apply(lsq: LsqState, inputs: LsqInputs, decision: LsqDecision): LsqState
    requires lsq.head < LSQ_CAPACITY && lsq.tail < LSQ_CAPACITY
    requires decision.removeHead ==> lsq.count > 0
  {
    if inputs.flush then EMPTY_LSQ
    else
      var count := if decision.removeHead then lsq.count - 1 else lsq.count;
      LsqState(UpdateAddresses(Rearranged(lsq, inputs, decision)),
          if decision.removeHead then NextLsqSlot(lsq.head) else lsq.head,
          if IssueAccepted(lsq, inputs) then NextLsqSlot(lsq.tail) else lsq.tail,
          if IssueAccepted(lsq, inputs) then count + 1 else count,
          if decision.installLoadResult then decision.completedLoad
          else if decision.clearLoadResult then NO_RESULT
          else lsq.loadResult)
  }

  /** An answer counts only if it names the head and is of the head's kind; a successful one removes the head, and
      completes a store or installs a load, and a failed one is an error and removes nothing. */
  lemma AnswersConcernHead(lsq: LsqState, o: LsqObserve)
    requires lsq.head < LSQ_CAPACITY
    ensures var d, head := Plan(lsq, o), lsq.cur[lsq.head];
            var meant := !o.flush && lsq.count > 0 && head.valid && o.response.valid && o.response.tag.valid
                         && o.response.tag == head.destination && o.response.isStore == head.kind.STORE?;
            && (d.removeHead <==> meant && o.response.success)
            && (d.memoryError <==> meant && !o.response.success)
            && (d.storeCompletion.valid <==> d.removeHead && head.kind.STORE?)
            && (d.installLoadResult <==> d.removeHead && head.kind.LOAD?)
            && (d.storeCompletion.valid ==> d.storeCompletion.tag == head.destination)
  {
    hide MaySend, MakeRequest, LoadCompletion;
  }
}
