// What one cycle does to the reorder buffer, and what survives it.
module RobSteps {
  import opened Types
  import opened Isa
  import opened ReorderBuffers
  import opened Invariants

  /** Everything that can reach the reorder buffer in one cycle. */
  datatype Event = Event(
    commit: bool,
    flush: bool,
    completion: FUResult,
    storeDone: StoreMessage,
    issued: bool,
    entry: RobEntry,
    slot: Slot)

  ghost predicate EventOk(rob: RobState, slots: SlotTable, ev: Event)
    requires rob.head < ROB_CAPACITY && rob.tail < ROB_CAPACITY
  {
    && (ev.commit <==> rob.count > 0 && rob.cur[rob.head].ready)
    && (ev.flush ==> ev.commit && !ev.issued && !ev.completion.valid && !ev.storeDone.valid)
    && ResultOk(ev.completion, rob, slots)
    && (ev.storeDone.valid ==>
          && Pending(rob, ev.storeDone.tag)
          && ev.storeDone.tag.index == rob.head
          && rob.cur[rob.head].isStore && !slots[rob.head].faults
          && slots[rob.head].dec.isStore && !slots[rob.head].dec.writesRd && !ControlInstruction(slots[rob.head].dec))
    && (ev.issued ==> rob.count < ROB_CAPACITY && ev.entry.valid && ev.entry.tag == NextTag(rob))
  }

  /** An entry after the cycle's completions. */
  function Updated(e: RobEntry, ev: Event): RobEntry {
    if ev.completion.valid && ev.completion.tag == e.tag then Completed(e, ev.completion)
    else if ev.storeDone.valid && ev.storeDone.tag == e.tag then e.(ready := true)
    else e
  }

  function EntryAfter(rob: RobState, i: nat, ev: Event): RobEntry
    requires i < ROB_CAPACITY
  {
    if ev.issued && i == rob.tail then ev.entry
    else if ev.commit && i == rob.head then NO_ENTRY
    else if rob.cur[i].valid then Updated(rob.cur[i], ev)
    else rob.cur[i]
  }

  ghost predicate Transition(rob: RobState, rob': RobState, ev: Event) {
    && rob'.head == (if ev.commit then NextSlot(rob.head) else rob.head)
    && rob'.tail == (if ev.flush then NextSlot(rob.head) else if ev.issued then NextSlot(rob.tail) else rob.tail)
    && rob'.count == (if ev.flush then 0
                      else (if ev.commit then rob.count - 1 else rob.count) + (if ev.issued then 1 else 0))
    && (forall i :: 0 <= i < ROB_CAPACITY ==>
          rob'.cur[i] == if ev.flush then NO_ENTRY else EntryAfter(rob, i, ev))
    && (forall i :: 0 <= i < ROB_CAPACITY ==>
          rob'.generations[i] == if ev.issued && i == rob.tail then rob.generations[i] + 1 else rob.generations[i])
  }

  function SlotsAfter(rob: RobState, slots: SlotTable, ev: Event): SlotTable
    requires rob.tail < ROB_CAPACITY
  {
    if ev.issued then slots[rob.tail := ev.slot] else slots
  }

  lemma CompletionAt(slots: Slots, completion: FUResult, i: nat)
    requires i < ROB_CAPACITY
    ensures ApplyCompletion(slots, completion)[i] ==
            if completion.valid && Matching(completion.tag, slots) && completion.tag.index == i
            then Completed(slots[i], completion) else slots[i]
  {
    hide Completed;
  }

  lemma StoreCompletionAt(cur: Slots, next: Slots, completion: StoreMessage, i: nat)
    requires i < ROB_CAPACITY
    ensures ApplyStoreCompletion(cur, next, completion)[i] ==
            if completion.valid && Matching(completion.tag, cur) && completion.tag.index == i && next[i].isStore
            then next[i].(ready := true) else next[i]
  {
  }

  // Both completions together, slot by slot.
  lemma CompletionsBySlot(rob: RobState, slots: SlotTable, ev: Event, i: nat)
    requires WellFormed(rob) && EventOk(rob, slots, ev)
    requires i < ROB_CAPACITY
    ensures var done := ApplyStoreCompletion(rob.cur, ApplyCompletion(rob.cur, ev.completion), ev.storeDone);
            done[i] == if rob.cur[i].valid then Updated(rob.cur[i], ev) else rob.cur[i]
  {
    hide ApplyCompletion, ApplyStoreCompletion, Completed, Age, NextTag;
    CompletionAt(rob.cur, ev.completion, i);
    StoreCompletionAt(rob.cur, ApplyCompletion(rob.cur, ev.completion), ev.storeDone, i);
  }

  lemma ApplyIsTransition(rob: RobState, slots: SlotTable, inputs: RobInputs, ev: Event)
    requires WellFormed(rob) && EventOk(rob, slots, ev)
    requires inputs.completion == ev.completion && inputs.storeCompletion == ev.storeDone
    requires ev.issued == IssueAccepted(rob, inputs, Plan(rob))
    requires inputs.issueEntry == ev.entry
    requires ev.commit == Plan(rob).commit.valid && ev.flush == Plan(rob).flush
    ensures Transition(rob, Apply(rob, inputs, Plan(rob)), ev)
  {
    hide Updated, ApplyCompletion, ApplyStoreCompletion, NextSlot, ResultOk, Pending, Age;
    var done := ApplyStoreCompletion(rob.cur, ApplyCompletion(rob.cur, ev.completion), ev.storeDone);
    forall i | 0 <= i < ROB_CAPACITY
      ensures done[i] == if rob.cur[i].valid then Updated(rob.cur[i], ev) else rob.cur[i]
    {
      CompletionsBySlot(rob, slots, ev, i);
    }
  }

  // --- The window ------------------------------------------------------------

  lemma NextAge(head: nat, i: nat)
    requires head < ROB_CAPACITY && i < ROB_CAPACITY
    ensures Age(NextSlot(head), i) == if i == head then ROB_CAPACITY - 1 else Age(head, i) - 1
  {
  }

  lemma RingArithmetic(head: nat, count: nat)
    requires head < ROB_CAPACITY && count < ROB_CAPACITY
    ensures var tail := (head + count) % ROB_CAPACITY;
            && Age(head, tail) == count
            && NextSlot(tail) == (head + count + 1) % ROB_CAPACITY
            && tail == (NextSlot(head) + count + ROB_CAPACITY - 1) % ROB_CAPACITY
            && NextSlot(tail) == (NextSlot(head) + count) % ROB_CAPACITY
  {
  }

  lemma TailAge(rob: RobState)
    requires WellFormed(rob) && rob.count < ROB_CAPACITY
    ensures rob.tail < ROB_CAPACITY && Age(rob.head, rob.tail) == rob.count
    ensures !rob.cur[rob.tail].valid
  {
    RingArithmetic(rob.head, rob.count);
  }

  lemma AgeIsInjective(head: nat, i: nat, j: nat)
    requires head < ROB_CAPACITY && i < ROB_CAPACITY && j < ROB_CAPACITY
    requires Age(head, i) == Age(head, j)
    ensures i == j
  {
  }

  lemma AgeNotNegative(head: nat, i: nat)
    requires head < ROB_CAPACITY && i < ROB_CAPACITY
    ensures 0 <= Age(head, i)
  {
  }

  lemma HeadIsValid(rob: RobState)
    requires WellFormed(rob)
    ensures rob.count > 0 <==> rob.cur[rob.head].valid
  {
    assert Age(rob.head, rob.head) == 0;
  }

  // head, tail and count after popping and pushing as told.
  lemma WindowArithmetic(head: nat, count: nat, pop: bool, push: bool)
    requires head < ROB_CAPACITY && count <= ROB_CAPACITY
    requires pop ==> count > 0
    requires push ==> count < ROB_CAPACITY
    ensures var tail := (head + count) % ROB_CAPACITY;
            var head' := if pop then NextSlot(head) else head;
            var count' := (if pop then count - 1 else count) + (if push then 1 else 0);
            (if push then NextSlot(tail) else tail) == (head' + count') % ROB_CAPACITY
  {
    if count < ROB_CAPACITY { RingArithmetic(head, count); }
  }

  lemma WindowAfter(rob: RobState, slots: SlotTable, rob': RobState, ev: Event)
    requires WellFormed(rob) && EventOk(rob, slots, ev) && Transition(rob, rob', ev)
    ensures rob'.head < ROB_CAPACITY && rob'.count <= ROB_CAPACITY
    ensures rob'.tail == (rob'.head + rob'.count) % ROB_CAPACITY
  {
    hide EntryAfter, ResultOk, Pending;
    WindowArithmetic(rob.head, rob.count, ev.commit, ev.issued);
  }

  lemma WellFormedAfter(rob: RobState, slots: SlotTable, rob': RobState, ev: Event)
    requires WellFormed(rob) && EventOk(rob, slots, ev) && Transition(rob, rob', ev)
    ensures WellFormed(rob')
  {
    WindowAfter(rob, slots, rob', ev);
    if ev.issued { TailAge(rob); }
    forall i | 0 <= i < ROB_CAPACITY
      ensures rob'.cur[i].valid <==> Age(rob'.head, i) < rob'.count
      ensures rob'.cur[i].valid ==> rob'.cur[i].tag == RobTag(i, rob'.generations[i], true)
    {
      NextAge(rob.head, i);
      if ev.issued && Age(rob.head, i) == rob.count { AgeIsInjective(rob.head, i, rob.tail); }
    }
  }

  // --- What survives ------------------------------------------------------------

  /** Same instruction; only its completion may have been recorded. */
  predicate SameInstruction(e: RobEntry, e': RobEntry) {
    && e'.valid && e'.tag == e.tag && e'.op == e.op && e'.pc == e.pc && e'.rd == e.rd
    && e'.writesRd == e.writesRd && e'.predictedNextPc == e.predictedNextPc
    && e'.isBranch == e.isBranch && e'.isStore == e.isStore && e'.isJump == e.isJump
  }

  /** Each slot after a cycle holds the issued instruction or one that was there before. */
  lemma Survivor(rob: RobState, slots: SlotTable, rob': RobState, ev: Event, i: nat)
    requires WellFormed(rob) && EventOk(rob, slots, ev) && Transition(rob, rob', ev)
    requires i < ROB_CAPACITY && rob'.cur[i].valid
    ensures !ev.flush
    ensures ev.issued && i == rob.tail ==> rob'.cur[i] == ev.entry && SlotsAfter(rob, slots, ev)[i] == ev.slot
    ensures !(ev.issued && i == rob.tail) ==>
              && rob.cur[i].valid && !(ev.commit && i == rob.head)
              && SameInstruction(rob.cur[i], rob'.cur[i])
              && rob'.cur[i] == Updated(rob.cur[i], ev)
              && SlotsAfter(rob, slots, ev)[i] == slots[i]
  {
  }

  /** Without a flush, an unfinished entry stays where it is until its own completion arrives. */
  lemma PendingPersists(rob: RobState, slots: SlotTable, rob': RobState, ev: Event, tag: RobTag)
    requires WellFormed(rob) && EventOk(rob, slots, ev) && Transition(rob, rob', ev)
    requires Pending(rob, tag) && !ev.flush
    requires !(ev.completion.valid && ev.completion.tag == tag)
    requires !(ev.storeDone.valid && ev.storeDone.tag == tag)
    ensures Pending(rob', tag)
    ensures rob'.cur[tag.index] == rob.cur[tag.index]
    ensures SlotsAfter(rob, slots, ev)[tag.index] == slots[tag.index]
  {
    if ev.issued { TailAge(rob); }
  }

  lemma EntriesMatchAfter(rob: RobState, slots: SlotTable, rob': RobState, ev: Event)
    requires WellFormed(rob) && EventOk(rob, slots, ev) && Transition(rob, rob', ev)
    requires EntriesMatch(rob, slots)
    requires ev.issued ==> EntryMatches(ev.entry, ev.slot) && !(ev.entry.isStore && ev.entry.ready)
    ensures EntriesMatch(rob', SlotsAfter(rob, slots, ev))
  {
    var slots' := SlotsAfter(rob, slots, ev);
    forall i | 0 <= i < ROB_CAPACITY && rob'.cur[i].valid
      ensures EntryMatches(rob'.cur[i], slots'[i])
      ensures rob'.cur[i].isStore && rob'.cur[i].ready ==> i == rob'.head
    {
      Survivor(rob, slots, rob', ev, i);
      if !(ev.issued && i == rob.tail) {
        assert EntryMatches(rob.cur[i], slots[i]);
      }
    }
  }

  lemma MeaningfulAfter(rob: RobState, slots: SlotTable, rob': RobState, ev: Event)
    requires WellFormed(rob) && EventOk(rob, slots, ev) && Transition(rob, rob', ev)
    requires AllMeaningful(rob, slots)
    requires ev.issued ==> Meaning(ev.slot)
    ensures AllMeaningful(rob', SlotsAfter(rob, slots, ev))
  {
    hide Meaning;
    forall i | 0 <= i < ROB_CAPACITY && rob'.cur[i].valid
      ensures Meaning(SlotsAfter(rob, slots, ev)[i])
    {
      Survivor(rob, slots, rob', ev, i);
    }
  }

  lemma FetchedAfter(start: Arch, rob: RobState, slots: SlotTable, rob': RobState, ev: Event)
    requires WellFormed(rob) && EventOk(rob, slots, ev) && Transition(rob, rob', ev)
    requires AllFetched(start, rob, slots)
    requires ev.issued ==> FetchedInOrder(start, ev.slot)
    ensures AllFetched(start, rob', SlotsAfter(rob, slots, ev))
  {
    hide FetchedInOrder;
    forall i | 0 <= i < ROB_CAPACITY && rob'.cur[i].valid
      ensures FetchedInOrder(start, SlotsAfter(rob, slots, ev)[i])
    {
      Survivor(rob, slots, rob', ev, i);
    }
  }

  // --- The chain of states ----------------------------------------------------------

  /** The committed state after the cycle. */
  function ArchAfter(rob: RobState, gh: Ghost, ev: Event): Arch
    requires rob.head < ROB_CAPACITY
  {
    if ev.commit && !rob.cur[rob.head].op.HALT?
    then gh.slots[rob.head].post.(pc := gh.slots[rob.head].nextPc)
    else gh.arch
  }

  function GhostAfter(rob: RobState, gh: Ghost, ev: Event): Ghost
    requires rob.head < ROB_CAPACITY && rob.tail < ROB_CAPACITY
  {
    Ghost(ArchAfter(rob, gh, ev),
          if ev.flush then ArchAfter(rob, gh, ev) else if ev.issued then ev.slot.post else gh.tail,
          SlotsAfter(rob, gh.slots, ev))
  }

  lemma PreviousOfNext(i: nat)
    requires i < ROB_CAPACITY
    ensures Previous(NextSlot(i)) == i && NextSlot(Previous(i)) == i
  {
  }

  lemma PreviousIsOlder(head: nat, i: nat)
    requires head < ROB_CAPACITY && i < ROB_CAPACITY && i != head
    ensures Age(head, Previous(i)) == Age(head, i) - 1
  {
  }

  // The link of one slot after the cycle.
  lemma LinkAfter(rob: RobState, gh: Ghost, rob': RobState, ev: Event, committed: nat, i: nat)
    requires WellFormed(rob) && EventOk(rob, gh.slots, ev) && Transition(rob, rob', ev)
    requires Chained(rob, gh, committed)
    requires ev.commit ==> !rob.cur[rob.head].op.HALT?
    requires ev.commit && !ev.flush ==> gh.slots[rob.head].post.pc == gh.slots[rob.head].nextPc
    requires ev.issued ==> ev.slot.pre == gh.tail && ev.slot.id == committed + rob.count
    requires i < ROB_CAPACITY && rob'.cur[i].valid
    ensures var gh' := GhostAfter(rob, gh, ev);
            var committed' := if ev.commit then committed + 1 else committed;
            && gh'.slots[i].id == committed' + Age(rob'.head, i)
            && gh'.slots[i].pre == if i == rob'.head then gh'.arch else gh'.slots[Previous(i)].post
  {
    hide NextSlot, Previous, ResultOk, Pending, Updated;
    Survivor(rob, gh.slots, rob', ev, i);
    NextAge(rob.head, i);
    if i != rob.head { PreviousIsOlder(rob.head, i); }
    PreviousOfNext(i);
    PreviousOfNext(rob.head);
    if ev.issued {
      TailAge(rob);
      PreviousOfNext(rob.tail);
    }
  }

  /** Commit drops the first link, issue adds a last one, flush leaves none. */
  lemma ChainedAfter(rob: RobState, gh: Ghost, rob': RobState, ev: Event, committed: nat)
    requires WellFormed(rob) && EventOk(rob, gh.slots, ev) && Transition(rob, rob', ev)
    requires Chained(rob, gh, committed)
    requires ev.commit ==> !rob.cur[rob.head].op.HALT?
    requires ev.commit && !ev.flush ==> gh.slots[rob.head].post.pc == gh.slots[rob.head].nextPc
    requires ev.issued ==> ev.slot.pre == gh.tail && ev.slot.id == committed + rob.count
    ensures Chained(rob', GhostAfter(rob, gh, ev), if ev.commit then committed + 1 else committed)
  {
    hide Previous, Age, EntryAfter, GhostAfter, ResultOk, NextSlot;
    forall i | 0 <= i < ROB_CAPACITY && rob'.cur[i].valid
      ensures GhostAfter(rob, gh, ev).slots[i].id
                == (if ev.commit then committed + 1 else committed) + Age(rob'.head, i)
      ensures GhostAfter(rob, gh, ev).slots[i].pre ==
              if i == rob'.head then GhostAfter(rob, gh, ev).arch else GhostAfter(rob, gh, ev).slots[Previous(i)].post
    {
      LinkAfter(rob, gh, rob', ev, committed, i);
    }
    TailAfter(rob, gh, rob', ev);
  }

  lemma TailAfter(rob: RobState, gh: Ghost, rob': RobState, ev: Event)
    requires WellFormed(rob) && EventOk(rob, gh.slots, ev) && Transition(rob, rob', ev)
    requires gh.tail == if rob.count == 0 then gh.arch else gh.slots[Previous(rob.tail)].post
    requires ev.commit ==> !rob.cur[rob.head].op.HALT?
    requires ev.commit && !ev.flush ==> gh.slots[rob.head].post.pc == gh.slots[rob.head].nextPc
    ensures rob'.tail < ROB_CAPACITY
    ensures var gh' := GhostAfter(rob, gh, ev);
            gh'.tail == if rob'.count == 0 then gh'.arch else gh'.slots[Previous(rob'.tail)].post
  {
    if ev.issued {
      TailAge(rob);
      PreviousOfNext(rob.tail);
    }
  }
}
