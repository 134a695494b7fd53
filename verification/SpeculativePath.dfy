// The speculative suffix: as far as the predictions in flight are right, the
// reorder buffer is the sequential run that is yet to be committed.
module SpeculativePath {
  import opened Image
  import opened Isa
  import opened Decoder
  import opened ReorderBuffers
  import opened LoadStoreQueues
  import opened Pipeline
  import opened Invariants
  import opened RobSteps
  import opened StationSteps
  import opened QueueSteps
  import opened Refinement

  /** Every entry older than slot i goes where it was predicted to go, and does not fault. */
  ghost predicate RightPath(rob: RobState, slots: SlotTable, i: nat)
    requires i < ROB_CAPACITY
  {
    forall j :: 0 <= j < ROB_CAPACITY && rob.cur[j].valid && slots[j].id < slots[i].id ==>
      slots[j].post.pc == slots[j].nextPc && !slots[j].faults
  }

  /** The reorder buffer's part of the refinement invariant. */
  ghost predicate PathInv(m: Machine, gh: Ghost, start: Arch) {
    && WellFormed(m.rob) && Chained(m.rob, gh, m.committed) && AllMeaningful(m.rob, gh.slots)
    && EntriesMatch(m.rob, gh.slots)
    && HaltIsYoungest(m.rob, m.fetchStopped)
    && StateAt(start, m.committed) == Some(gh.arch) && AllFetched(start, m.rob, gh.slots)
  }

  lemma PathOfInv(m: Machine, gh: Ghost, start: Arch)
    requires Inv(m, gh, start)
    ensures InRange(m) && PathInv(m, gh, start)
  {
    hide StateAt, AllFetched, Chained, AllMeaningful, EntriesMatch, HaltIsYoungest;
  }

  /** An entry on the right path is exactly the sequential instruction number id: the state before it
      is the sequential state, and it was decoded from the word that state fetches. */
  lemma {:induction false} EntryIsSequential(m: Machine, gh: Ghost, start: Arch, i: nat)
    requires PathInv(m, gh, start)
    requires i < ROB_CAPACITY && m.rob.cur[i].valid && RightPath(m.rob, gh.slots, i)
    ensures 0 <= gh.slots[i].id
    ensures StateAt(start, gh.slots[i].id) == Some(gh.slots[i].pre)
    ensures var word := ReadWord(gh.slots[i].pre.mem, gh.slots[i].pre.pc);
            word.Some? && gh.slots[i].dec == Decode(word.value)
    decreases Age(m.rob.head, i)
  {
    hide Decode, ReadWord, StateAt, Previous, AllMeaningful, EntriesMatch, HaltIsYoungest, AllFetched;
    if i != m.rob.head {
      PreviousIsOlder(m.rob.head, i);
      EntryIsSequential(m, gh, start, Previous(i));
      SequentialStep(m, gh, start, i, Previous(i));
    }
    AgeNotNegative(m.rob.head, i);
    FetchedEntry(start, m.rob, gh.slots, i);
  }

  lemma ChainOf(m: Machine, gh: Ghost)
    requires Consistent(m, gh)
    ensures WellFormed(m.rob) && Chained(m.rob, gh, m.committed) && AllMeaningful(m.rob, gh.slots)
    ensures HaltIsYoungest(m.rob, m.fetchStopped) && EntriesMatch(m.rob, gh.slots)
  {
  }

  /** The sequential step of an entry that does not fault and is not the youngest. */
  lemma SequentialStep(m: Machine, gh: Ghost, start: Arch, i: nat, p: nat)
    requires PathInv(m, gh, start)
    requires i < ROB_CAPACITY && m.rob.cur[i].valid && i != m.rob.head && p == Previous(i)
    requires m.rob.cur[p].valid && gh.slots[p].id >= 0 && !gh.slots[p].faults
    requires StateAt(start, gh.slots[p].id) == Some(gh.slots[p].pre)
    requires var word := ReadWord(gh.slots[p].pre.mem, gh.slots[p].pre.pc);
             word.Some? && gh.slots[p].dec == Decode(word.value)
    ensures gh.slots[i].id == gh.slots[p].id + 1 && gh.slots[i].pre == gh.slots[p].post
    ensures StateAt(start, gh.slots[i].id) == Some(gh.slots[p].post.(pc := gh.slots[p].nextPc))
  {
    hide Meaning, Decode, ReadWord, Isa.Step, AllFetched, Previous, StateAt, Finished;
    PreviousIsOlder(m.rob.head, i);
    var s := gh.slots[p];
    assert Meaning(s) && EntryMatches(m.rob.cur[p], s);
    SlotStep(s);
    NextState(start, s.id, s.pre, s.post.(pc := s.nextPc));
  }

  /** Every access older than the queue's head has finished without a fault. */
  lemma OlderAccessesDone(m: Machine, gh: Ghost, j: nat)
    requires Consistent(m, gh) && m.lsq.head < LSQ_CAPACITY && m.lsq.cur[m.lsq.head].valid
    requires j < ROB_CAPACITY && m.rob.cur[j].valid
    requires m.lsq.cur[m.lsq.head].destination.index < ROB_CAPACITY
    requires gh.slots[j].id < gh.slots[m.lsq.cur[m.lsq.head].destination.index].id
    ensures !gh.slots[j].faults
  {
    assert Meaning(gh.slots[j]) && EntryMatches(m.rob.cur[j], gh.slots[j]);
    assert AllHeld(m, gh.slots) && QueueOk(m.lsq, m.rob, gh.slots) && LoadBufferOk(m.lsq, m.rob, gh.slots)
           && WellFormed(m.rob);
    if !MemoryInstruction(gh.slots[j].dec) {
      NoFaultOutsideMemory(gh.slots[j]);
    } else if !m.rob.cur[j].ready {
      var s := gh.slots[j];
      assert Held(m.rob.cur[j], s, m);
      if m.lsq.cur[s.lsqSlot].valid && m.lsq.cur[s.lsqSlot].destination == m.rob.cur[j].tag {
        if s.lsqSlot != m.lsq.head { BehindHead(m.lsq.head, s.lsqSlot); }
      }
    }
  }

  /** Entry i and every older one start at the sequential run's pc for their position. */
  ghost predicate OnSequentialRun(m: Machine, start: Arch, i: nat)
    requires m.rob.head < ROB_CAPACITY && i < ROB_CAPACITY
  {
    forall j :: 0 <= j < ROB_CAPACITY && m.rob.cur[j].valid && 0 <= Age(m.rob.head, j) <= Age(m.rob.head, i) ==>
      && StateAt(start, m.committed + Age(m.rob.head, j)).Some?
      && StateAt(start, m.committed + Age(m.rob.head, j)).value.pc == m.rob.cur[j].pc
  }

  lemma Positions(m: Machine, gh: Ghost)
    requires WellFormed(m.rob) && Chained(m.rob, gh, m.committed) && EntriesMatch(m.rob, gh.slots)
    ensures forall j :: 0 <= j < ROB_CAPACITY && m.rob.cur[j].valid ==>
              && gh.slots[j].id == m.committed + Age(m.rob.head, j) && 0 <= Age(m.rob.head, j)
              && m.rob.cur[j].pc == gh.slots[j].pre.pc && m.rob.cur[j].predictedNextPc == gh.slots[j].post.pc
  {
    hide Finished;
  }

  lemma OlderIsPrevious(head: nat, i: nat, j: nat)
    requires head < ROB_CAPACITY && i < ROB_CAPACITY && j < ROB_CAPACITY && Age(head, j) < Age(head, i)
    ensures i != head ==> Age(head, Previous(i)) == Age(head, i) - 1
    ensures i != head ==> j == Previous(i) || Age(head, j) < Age(head, Previous(i))
  {
  }

  /** A path the sequential run follows was predicted right. */
  lemma {:induction false} SequentialPathIsRight(m: Machine, gh: Ghost, start: Arch, i: nat)
    requires PathInv(m, gh, start)
    requires i < ROB_CAPACITY && m.rob.cur[i].valid && OnSequentialRun(m, start, i)
    requires forall j :: 0 <= j < ROB_CAPACITY && m.rob.cur[j].valid && gh.slots[j].id < gh.slots[i].id ==>
               !gh.slots[j].faults
    ensures RightPath(m.rob, gh.slots, i)
    decreases Age(m.rob.head, i)
  {
    hide PathInv, StateAt, Previous, Age, WellFormed, Chained, EntriesMatch, OnSequentialRun, Decode, ReadWord;
    PathParts(m, gh, start);
    Positions(m, gh);
    if i == m.rob.head {
      HeadIsFirst(m.rob.head);
    } else {
      var p := Previous(i);
      OlderThan(m.rob, i);
      OnRunBefore(m, start, i, p);
      SequentialPathIsRight(m, gh, start, p);
      EntryIsSequential(m, gh, start, p);
      SequentialStep(m, gh, start, i, p);
      PcOnRun(m, start, i);
      forall j | 0 <= j < ROB_CAPACITY && m.rob.cur[j].valid && gh.slots[j].id < gh.slots[i].id
        ensures gh.slots[j].post.pc == gh.slots[j].nextPc
      {
        OlderIsPrevious(m.rob.head, i, j);
      }
    }
  }

  lemma PathParts(m: Machine, gh: Ghost, start: Arch)
    requires PathInv(m, gh, start)
    ensures m.rob.head < ROB_CAPACITY
    ensures WellFormed(m.rob) && Chained(m.rob, gh, m.committed) && EntriesMatch(m.rob, gh.slots)
    ensures AllMeaningful(m.rob, gh.slots)
  {
    hide Chained, EntriesMatch, AllMeaningful, AllFetched, StateAt, HaltIsYoungest;
  }

  lemma PcOnRun(m: Machine, start: Arch, i: nat)
    requires m.rob.head < ROB_CAPACITY && i < ROB_CAPACITY && m.rob.cur[i].valid && 0 <= Age(m.rob.head, i)
    requires OnSequentialRun(m, start, i)
    ensures var k := m.committed + Age(m.rob.head, i);
            StateAt(start, k).Some? && StateAt(start, k).value.pc == m.rob.cur[i].pc
  {
    hide StateAt, Age;
  }

  lemma OnRunBefore(m: Machine, start: Arch, i: nat, p: nat)
    requires m.rob.head < ROB_CAPACITY && i < ROB_CAPACITY && p < ROB_CAPACITY
    requires Age(m.rob.head, p) <= Age(m.rob.head, i)
    requires OnSequentialRun(m, start, i)
    ensures OnSequentialRun(m, start, p)
  {
    hide StateAt, Age;
  }

  lemma HeadIsFirst(head: nat)
    requires head < ROB_CAPACITY
    ensures Age(head, head) == 0
  {
  }

  lemma OlderThan(rob: RobState, i: nat)
    requires WellFormed(rob) && i < ROB_CAPACITY && rob.cur[i].valid && i != rob.head
    ensures rob.cur[Previous(i)].valid && Age(rob.head, Previous(i)) == Age(rob.head, i) - 1
    ensures 0 <= Age(rob.head, Previous(i))
  {
    PreviousIsOlder(rob.head, i);
  }

  lemma RightPathIsSequential(m: Machine, gh: Ghost, start: Arch, i: nat)
    requires PathInv(m, gh, start)
    requires i < ROB_CAPACITY && m.rob.cur[i].valid && RightPath(m.rob, gh.slots, i)
    ensures OnSequentialRun(m, start, i)
  {
    hide PathInv, StateAt, Age, WellFormed, Chained, EntriesMatch, AllMeaningful, Decode, ReadWord;
    PathParts(m, gh, start);
    Positions(m, gh);
    forall j | 0 <= j < ROB_CAPACITY && m.rob.cur[j].valid && 0 <= Age(m.rob.head, j) <= Age(m.rob.head, i)
      ensures StateAt(start, m.committed + Age(m.rob.head, j)) == Some(gh.slots[j].pre)
    {
      EntryIsSequential(m, gh, start, j);
    }
  }

  /** A load's fault is architectural exactly when every older branch and jump in flight was predicted
      right: then, and only then, the entries up to the load are the sequential run's next instructions. */
  lemma LoadFaultIsArchitecturalIff(m: Machine, gh: Ghost, start: Arch)
    requires Inv(m, gh, start) && InRange(m) && AccessFails(m)
    ensures var i := m.lsq.cur[m.lsq.head].destination.index;
            && i < ROB_CAPACITY && m.rob.cur[i].valid
            && (OnSequentialRun(m, start, i) <==>
                  forall j :: 0 <= j < ROB_CAPACITY && m.rob.cur[j].valid && gh.slots[j].id < gh.slots[i].id ==>
                    m.rob.cur[j].predictedNextPc == gh.slots[j].nextPc)
            && (OnSequentialRun(m, start, i) ==>
                  StateAt(start, gh.slots[i].id) == Some(gh.slots[i].pre) && Isa.Step(gh.slots[i].pre) == MemoryFault)
  {
    hide Consistent, PathInv, Meaning, Decode, ReadWord, Isa.Step, AllFetched, OnSequentialRun, StateAt, Age,
         AccessFails, Chained, EntriesMatch, WellFormed;
    FailedAccess(m, gh, start);
    PathOfInv(m, gh, start);
    PathParts(m, gh, start);
    Positions(m, gh);
    var i := m.lsq.cur[m.lsq.head].destination.index;
    forall j | 0 <= j < ROB_CAPACITY && m.rob.cur[j].valid && gh.slots[j].id < gh.slots[i].id
      ensures !gh.slots[j].faults
    {
      OlderAccessesDone(m, gh, j);
    }
    if OnSequentialRun(m, start, i) { SequentialPathIsRight(m, gh, start, i); }
    if RightPath(m.rob, gh.slots, i) {
      RightPathIsSequential(m, gh, start, i);
      EntryIsSequential(m, gh, start, i);
      assert Meaning(gh.slots[i]);
      SlotStep(gh.slots[i]);
    }
  }
}
