// The two rings as plain sequences, oldest first: a cycle completes entries in
// place, takes the oldest away, and puts the issued one at the end; a flush
// leaves nothing.
module RingContents {
  import opened Types
  import opened ReorderBuffers
  import opened LoadStoreQueues
  import opened RobSteps
  import opened QueueSteps
  import ROB = ReorderBuffers
  import LSQ = LoadStoreQueues

  // --- Reorder buffer -------------------------------------------------------------

  /** The slot k places behind the head. */
  function RobSlot(head: nat, k: nat): (slot: nat)
    ensures slot < ROB_CAPACITY
  {
    (head + k) % ROB_CAPACITY
  }

  /** The entries of the reorder buffer, oldest first. */
  function RobContents(rob: RobState): (s: seq<RobEntry>)
    ensures |s| == rob.count
  {
    seq(rob.count, k requires 0 <= k < rob.count => rob.cur[RobSlot(rob.head, k)])
  }

  /** An entry with the cycle's completions recorded. */
  function Marked(e: RobEntry, inputs: RobInputs): RobEntry {
    var c := inputs.completion;
    var done := if c.valid && c.tag.valid && c.tag == e.tag then Completed(e, c) else e;
    if inputs.storeCompletion.valid && inputs.storeCompletion.tag.valid && inputs.storeCompletion.tag == e.tag
        && done.isStore
    then done.(ready := true)
    else done
  }

  function AllMarked(s: seq<RobEntry>, inputs: RobInputs): (t: seq<RobEntry>)
    ensures |t| == |s|
  {
    seq(|s|, k requires 0 <= k < |s| => Marked(s[k], inputs))
  }

  lemma RobSlotAge(head: nat, k: nat)
    requires head < ROB_CAPACITY && k < ROB_CAPACITY
    ensures Age(head, RobSlot(head, k)) == k
    ensures RobSlot(NextSlot(head), k) == RobSlot(head, k + 1)
  {
  }

  lemma MarkedAt(rob: RobState, inputs: RobInputs, slot: nat)
    requires WellFormed(rob) && slot < ROB_CAPACITY && rob.cur[slot].valid
    ensures ApplyStoreCompletion(rob.cur, ApplyCompletion(rob.cur, inputs.completion), inputs.storeCompletion)[slot]
            == Marked(rob.cur[slot], inputs)
  {
    hide Completed, Age, ApplyCompletion, ApplyStoreCompletion;
    CompletionAt(rob.cur, inputs.completion, slot);
    StoreCompletionAt(rob.cur, ApplyCompletion(rob.cur, inputs.completion), inputs.storeCompletion, slot);
  }

  /** One slot of the buffer after a cycle without a flush. */
  lemma RobSlotAfter(rob: RobState, inputs: RobInputs, outputs: RobOutputs, slot: nat)
    requires WellFormed(rob) && slot < ROB_CAPACITY
    requires (outputs.commit.valid ==> rob.count > 0) && !outputs.flush
    ensures var rob' := ROB.Apply(rob, inputs, outputs);
            if ROB.IssueAccepted(rob, inputs, outputs) && slot == rob.tail then rob'.cur[slot] == inputs.issueEntry
            else if outputs.commit.valid && slot == rob.head then rob'.cur[slot] == NO_ENTRY
            else rob.cur[slot].valid ==> rob'.cur[slot] == Marked(rob.cur[slot], inputs)
  {
    hide ApplyCompletion, ApplyStoreCompletion, Marked, Age;
    if rob.cur[slot].valid { MarkedAt(rob, inputs, slot); }
  }

  lemma TailSlot(rob: RobState)
    requires WellFormed(rob)
    ensures rob.tail == RobSlot(rob.head, rob.count)
  {
  }

  // The entry k places behind the head after a cycle without a flush.
  lemma RobPlace(rob: RobState, inputs: RobInputs, outputs: RobOutputs, k: nat)
    requires WellFormed(rob)
    requires (outputs.commit.valid ==> rob.count > 0) && !outputs.flush
    requires k < ROB.Apply(rob, inputs, outputs).count
    ensures var rob' := ROB.Apply(rob, inputs, outputs);
            var skipped := if outputs.commit.valid then 1 else 0;
            rob'.cur[RobSlot(rob'.head, k)]
            == if k < rob.count - skipped then Marked(RobContents(rob)[k + skipped], inputs) else inputs.issueEntry
  {
    hide ApplyCompletion, ApplyStoreCompletion, Marked, Age, RobSlot, NextTag;
    var skipped := if outputs.commit.valid then 1 else 0;
    HeadSlot(rob.head);
    TailSlot(rob);
    RobSlotAge(rob.head, k);
    RobSlotAfter(rob, inputs, outputs, RobSlot(rob.head, k + skipped));
    if k < rob.count - skipped { LiveSlot(rob, k + skipped); }
  }

  /** The ring refines a plain queue. */
  lemma RobIsQueue(rob: RobState, inputs: RobInputs, outputs: RobOutputs)
    requires WellFormed(rob)
    requires (outputs.commit.valid ==> rob.count > 0) && (outputs.flush ==> outputs.commit.valid)
    ensures var marked := AllMarked(RobContents(rob), inputs);
            var rest := if outputs.commit.valid then marked[1..] else marked;
            RobContents(ROB.Apply(rob, inputs, outputs))
            == if outputs.flush then []
               else if ROB.IssueAccepted(rob, inputs, outputs) then rest + [inputs.issueEntry]
               else rest
  {
    hide ApplyCompletion, ApplyStoreCompletion, Marked, Age, RobSlot, NextTag;
    if !outputs.flush {
      forall k | 0 <= k < ROB.Apply(rob, inputs, outputs).count {
        RobPlace(rob, inputs, outputs, k);
      }
    }
  }

  lemma HeadSlot(head: nat)
    requires head < ROB_CAPACITY
    ensures RobSlot(head, 0) == head
  {
  }

  lemma LiveSlot(rob: RobState, k: nat)
    requires WellFormed(rob) && k < rob.count
    ensures rob.cur[RobSlot(rob.head, k)].valid
    ensures RobSlot(rob.head, k) == rob.head ==> k == 0
    ensures rob.count < ROB_CAPACITY ==> RobSlot(rob.head, k) != rob.tail
  {
    RobSlotAge(rob.head, k);
    if rob.count < ROB_CAPACITY { TailAge(rob); }
  }

  /** The buffer stays a window of live, uniquely tagged entries, for all inputs whatever. */
  lemma RobStaysWellFormed(rob: RobState, inputs: RobInputs, outputs: RobOutputs)
    requires WellFormed(rob)
    requires (outputs.commit.valid ==> rob.count > 0) && (outputs.flush ==> outputs.commit.valid)
    ensures WellFormed(ROB.Apply(rob, inputs, outputs))
  {
    hide ApplyCompletion, ApplyStoreCompletion, Age, NextSlot, Marked;
    var rob' := ROB.Apply(rob, inputs, outputs);
    AgesAreNatural(rob.head);
    if outputs.flush {
      AgesAreNatural(rob'.head);
      FlushedTail(rob.head);
    } else {
      var push := ROB.IssueAccepted(rob, inputs, outputs);
      WindowArithmetic(rob.head, rob.count, outputs.commit.valid, push);
      if push { TailAge(rob); }
      forall i | 0 <= i < ROB_CAPACITY
        ensures rob'.cur[i].valid <==> Age(rob'.head, i) < rob'.count
        ensures rob'.cur[i].valid ==> rob'.cur[i].tag == RobTag(i, rob'.generations[i], true)
      {
        NextAge(rob.head, i);
        SlotKeepsShape(rob, inputs, outputs, i);
        if push && Age(rob.head, i) == rob.count { AgeIsInjective(rob.head, i, rob.tail); }
        AgeOfHead(rob.head, i);
      }
    }
  }

  lemma AgeOfHead(head: nat, i: nat)
    requires head < ROB_CAPACITY && i < ROB_CAPACITY
    ensures Age(head, i) >= 0 && (Age(head, i) == 0 <==> i == head)
  {
  }

  lemma AgesAreNatural(head: nat)
    requires head < ROB_CAPACITY
    ensures forall i :: 0 <= i < ROB_CAPACITY ==> Age(head, i) >= 0
  {
  }

  lemma FlushedTail(head: nat)
    requires head < ROB_CAPACITY
    ensures NextSlot(head) == (NextSlot(head) + 0) % ROB_CAPACITY
  {
  }

  lemma SlotKeepsShape(rob: RobState, inputs: RobInputs, outputs: RobOutputs, i: nat)
    requires WellFormed(rob) && i < ROB_CAPACITY
    requires (outputs.commit.valid ==> rob.count > 0) && !outputs.flush
    ensures var rob' := ROB.Apply(rob, inputs, outputs);
            if ROB.IssueAccepted(rob, inputs, outputs) && i == rob.tail then
              rob'.cur[i].valid && rob'.cur[i].tag == RobTag(i, rob'.generations[i], true)
            else
              && (rob'.cur[i].valid <==> rob.cur[i].valid && !(outputs.commit.valid && i == rob.head))
              && (rob'.cur[i].valid ==> rob'.cur[i].tag == rob.cur[i].tag)
              && rob'.generations[i] == rob.generations[i]
  {
    hide ApplyCompletion, ApplyStoreCompletion, Age;
    CompletionAt(rob.cur, inputs.completion, i);
    StoreCompletionAt(rob.cur, ApplyCompletion(rob.cur, inputs.completion), inputs.storeCompletion, i);
  }

  // --- Load/store queue ------------------------------------------------------------

  function LsqSlot(head: nat, k: nat): (slot: nat)
    ensures slot < LSQ_CAPACITY
  {
    (head + k) % LSQ_CAPACITY
  }

  /** The entries of the load/store queue, oldest first. */
  function LsqContents(lsq: LsqState): (s: seq<LsqEntry>)
    ensures |s| == lsq.count
  {
    seq(lsq.count, k requires 0 <= k < lsq.count => lsq.cur[LsqSlot(lsq.head, k)])
  }

  /** An entry that has heard the broadcast and formed its address, if it can. */
  function Heard(e: LsqEntry, cdb: CdbMessage): LsqEntry { UpdateAddress(LSQ.WakeEntry(e, cdb)) }

  function AllHeard(s: seq<LsqEntry>, cdb: CdbMessage): (t: seq<LsqEntry>)
    ensures |t| == |s|
  {
    seq(|s|, k requires 0 <= k < |s| => Heard(s[k], cdb))
  }

  lemma LsqSlotAge(head: nat, k: nat)
    requires head < LSQ_CAPACITY && k < LSQ_CAPACITY
    ensures LsqAge(head, LsqSlot(head, k)) == k
    ensures LsqSlot(NextLsqSlot(head), k) == LsqSlot(head, k + 1)
    ensures LsqSlot(head, 0) == head
  {
  }

  lemma LsqTailSlot(lsq: LsqState)
    requires WellFormedLsq(lsq)
    ensures lsq.tail == LsqSlot(lsq.head, lsq.count)
  {
  }

  lemma LiveLsqSlot(lsq: LsqState, k: nat)
    requires WellFormedLsq(lsq) && k < lsq.count
    ensures LsqSlot(lsq.head, k) == lsq.head ==> k == 0
    ensures lsq.count < LSQ_CAPACITY ==> LsqSlot(lsq.head, k) != lsq.tail
  {
    LsqSlotAge(lsq.head, k);
    if lsq.count < LSQ_CAPACITY { LsqTailAge(lsq); }
  }

  lemma SentWakes(e: LsqEntry, cdb: CdbMessage)
    ensures UpdateAddress(LSQ.WakeEntry(e, cdb).(requestSent := true)) == Heard(e, cdb).(requestSent := true)
  {
    hide LSQ.WakeEntry;
  }

  // The entry k places behind the head after a cycle without a flush.
  lemma LsqPlace(lsq: LsqState, inputs: LsqInputs, decision: LsqDecision, k: nat)
    requires WellFormedLsq(lsq) && !inputs.flush
    requires decision.removeHead ==> lsq.count > 0
    requires decision.markRequestSent ==> !decision.removeHead && lsq.count > 0
    requires k < LSQ.Apply(lsq, inputs, decision).count
    ensures var lsq' := LSQ.Apply(lsq, inputs, decision);
            var skipped := if decision.removeHead then 1 else 0;
            lsq'.cur[LsqSlot(lsq'.head, k)]
            == if k >= lsq.count - skipped then UpdateAddress(inputs.issueEntry.(valid := true, requestSent := false))
               else if decision.markRequestSent && k == 0 then
                 Heard(LsqContents(lsq)[0], inputs.cdb).(requestSent := true)
               else Heard(LsqContents(lsq)[k + skipped], inputs.cdb)
  {
    hide LSQ.WakeEntry, UpdateAddress, LsqAge, LsqSlot, Rearranged;
    var skipped := if decision.removeHead then 1 else 0;
    LsqTailSlot(lsq);
    LsqSlotAge(lsq.head, k);
    ApplySlot(lsq, inputs, decision, LsqSlot(lsq.head, k + skipped));
    if k < lsq.count - skipped {
      LiveLsqSlot(lsq, k + skipped);
      SentWakes(lsq.cur[LsqSlot(lsq.head, k)], inputs.cdb);
    }
  }

  /** The queue's contents after a cycle without a flush. */
  function LsqExpected(lsq: LsqState, inputs: LsqInputs, decision: LsqDecision): seq<LsqEntry>
    requires decision.removeHead || decision.markRequestSent ==> lsq.count > 0
  {
    var heard := AllHeard(LsqContents(lsq), inputs.cdb);
    var rest := if decision.removeHead then heard[1..]
                else if decision.markRequestSent then heard[0 := heard[0].(requestSent := true)]
                else heard;
    if LSQ.IssueAccepted(lsq, inputs)
    then rest + [UpdateAddress(inputs.issueEntry.(valid := true, requestSent := false))]
    else rest
  }

  /** The ring refines a plain queue. */
  lemma LsqIsQueue(lsq: LsqState, inputs: LsqInputs, decision: LsqDecision)
    requires WellFormedLsq(lsq)
    requires decision.removeHead ==> lsq.count > 0
    requires decision.markRequestSent ==> !decision.removeHead && lsq.count > 0
    ensures LsqContents(LSQ.Apply(lsq, inputs, decision)) == if inputs.flush then []
              else LsqExpected(lsq, inputs, decision)
  {
    hide Heard, UpdateAddress, LsqAge, LsqSlot, Rearranged, UpdateAddresses;
    if !inputs.flush {
      forall k | 0 <= k < LSQ.Apply(lsq, inputs, decision).count {
        LsqPlace(lsq, inputs, decision, k);
      }
    }
  }
}
