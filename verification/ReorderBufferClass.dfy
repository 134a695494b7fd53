// The reorder buffer as the object the simulator latches every cycle
// (src/tomasulo/reorder_buffer.cpp), proved against ReorderBuffers.
module ReorderBufferClass {
  import opened Types
  import opened ReorderBuffers
  import opened Arrays

  class ReorderBuffer {
    const cur: array<RobEntry>
    const next: array<RobEntry>
    const generations: array<Generation>
    const nextGenerations: array<Generation>
    var head: nat
    var tail: nat
    var count: nat
    var nextHead: nat
    var nextTail: nat
    var nextCount: nat

    ghost predicate Shaped() {
      && cur.Length == next.Length == generations.Length == nextGenerations.Length == ROB_CAPACITY
      && cur != next && generations != nextGenerations
      && Apart({cur, next}, {generations, nextGenerations})
    }

    ghost predicate Valid()
      reads this`head, this`tail
    {
      Shaped() && head < ROB_CAPACITY && tail < ROB_CAPACITY
    }

    // The objects this buffer owns.
    ghost function Repr(): set<object> {
      {this, cur, next, generations, nextGenerations}
    }

    ghost function State(): RobState
      requires Valid()
      reads this`head, this`tail, this`count, cur, generations
    {
      RobState(cur[..], generations[..], head, tail, count)
    }

    ghost function NextState(): RobState
      requires Shaped()
      reads this`nextHead, this`nextTail, this`nextCount, next, nextGenerations
    {
      RobState(next[..], nextGenerations[..], nextHead, nextTail, nextCount)
    }

    constructor ()
      ensures Valid() && State() == EMPTY_ROB && NextState() == EMPTY_ROB
      ensures fresh(Repr()) && allocated(Repr())
    {
      cur := new RobEntry[ROB_CAPACITY](_ => NO_ENTRY);
      next := new RobEntry[ROB_CAPACITY](_ => NO_ENTRY);
      generations := new Generation[ROB_CAPACITY](_ => 0);
      nextGenerations := new Generation[ROB_CAPACITY](_ => 0);
      head, tail, count := 0, 0, 0;
      nextHead, nextTail, nextCount := 0, 0, 0;
      new;
      assert cur[..] == EMPTY_SLOTS && next[..] == EMPTY_SLOTS;
      assert generations[..] == EMPTY_ROB.generations && nextGenerations[..] == EMPTY_ROB.generations;
    }

    method Reset()
      requires Shaped()
      modifies Repr()
      ensures Valid() && State() == EMPTY_ROB && NextState() == EMPTY_ROB
    {
      Fill(cur, NO_ENTRY);
      Fill(next, NO_ENTRY);
      Fill(generations, 0);
      Fill(nextGenerations, 0);
      head, tail, count := 0, 0, 0;
      nextHead, nextTail, nextCount := 0, 0, 0;
    }

    method Latch()
      requires Valid() && nextHead < ROB_CAPACITY && nextTail < ROB_CAPACITY
      modifies this`head, this`tail, this`count, cur, generations
      ensures Valid() && State() == old(NextState()) && NextState() == old(NextState())
    {
      Copy(next, cur);
      Copy(nextGenerations, generations);
      head, tail, count := nextHead, nextTail, nextCount;
    }

    method IsFull() returns (full: bool)
      requires Valid()
      ensures full == Full(State())
    {
      full := count == ROB_CAPACITY;
    }

    method NextFreeTag() returns (tag: RobTag)
      requires Valid()
      ensures tag == NextTag(State())
    {
      if count == ROB_CAPACITY {
        tag := NO_TAG;
      } else {
        tag := RobTag(tail, generations[tail] + 1, true);
      }
    }

    /** The oldest entry, if the buffer holds one. */
    method Front() returns (found: bool, entry: RobEntry)
      requires Valid()
      ensures found == HasFront(State())
      ensures found ==> entry == State().cur[State().head]
    {
      entry := NO_ENTRY;
      found := false;
      if count != 0 && cur[head].valid {
        found, entry := true, cur[head];
      }
    }

    /** The live entry a tag names, if there is one. */
    method Find(tag: RobTag) returns (found: bool, entry: RobEntry)
      requires Valid()
      ensures found == Matching(tag, State().cur)
      ensures found ==> entry == State().cur[tag.index]
    {
      entry := NO_ENTRY;
      found := false;
      if tag.valid && tag.index < ROB_CAPACITY && cur[tag.index].valid && cur[tag.index].tag == tag {
        found, entry := true, cur[tag.index];
      }
    }

    method PlanOutputs() returns (outputs: RobOutputs)
      requires Valid()
      ensures outputs == Plan(State())
    {
      var found, front := Front();
      var store := NO_STORE;
      var commit := NO_COMMIT;
      var flush := false;
      var redirect: Address := 0;
      if found && front.isStore && !front.ready {
        store := StoreMessage(front.tag, true);
      }
      if found && front.ready {
        commit := Commit(front, true, front.op.HALT?, false, 0);
        if IsControl(front) {
          commit := commit.(mispredicted := front.predictedNextPc != front.actualNextPc,
                            redirectPc := front.actualNextPc);
        }
        if commit.mispredicted {
          flush, redirect := true, front.actualNextPc;
        }
      }
      outputs := RobOutputs(commit, store, flush, redirect);
    }

    method AbsorbCompletion(completion: FUResult)
      requires Valid() && next[..] == cur[..]
      modifies next
      ensures next[..] == ApplyCompletion(cur[..], completion)
    {
      var found, _ := Find(completion.tag);
      if !completion.valid || !found {
        return;
      }
      var index := completion.tag.index;
      next[index] := next[index].(value := completion.result, ready := true);
      if completion.hasControlResult {
        next[index] := next[index].(actualNextPc := completion.actualNextPc, branchTaken := completion.branchTaken);
      }
    }

    method AbsorbStoreCompletion(completion: StoreMessage)
      requires Valid()
      modifies next
      ensures next[..] == ApplyStoreCompletion(cur[..], old(next[..]), completion)
    {
      var found, _ := Find(completion.tag);
      if !completion.valid || !found {
        return;
      }
      var index := completion.tag.index;
      if !next[index].isStore {
        return;
      }
      next[index] := next[index].(ready := true);
    }

    /** The generations stay, so that late results of squashed instructions match nothing. */
    method ClearSpeculative(position: nat)
      requires Shaped()
      modifies next, this`nextHead, this`nextTail, this`nextCount
      ensures next[..] == EMPTY_SLOTS && nextHead == nextTail == position && nextCount == 0
    {
      Fill(next, NO_ENTRY);
      nextHead, nextTail, nextCount := position, position, 0;
    }

    /** Commits the head; a flush clears everything younger. */
    method Retire(flush: bool)
      requires Valid() && nextHead == head && nextTail == tail && nextCount == count > 0
      modifies next, this`nextHead, this`nextTail, this`nextCount
      ensures next[..] == if flush then EMPTY_SLOTS else old(next[..])[head := NO_ENTRY]
      ensures nextHead == NextSlot(head)
      ensures nextTail == (if flush then NextSlot(head) else tail) && nextCount == if flush then 0 else count - 1
    {
      next[head] := NO_ENTRY;
      nextHead := (head + 1) % ROB_CAPACITY;
      nextCount := nextCount - 1;
      if flush {
        ClearSpeculative(nextHead);
      }
    }

    /** Fullness is judged on the current state: a commit in the same cycle frees no slot. */
    method Allocate(inputs: RobInputs, flush: bool) returns (accepted: bool)
      requires Valid() && (!flush ==> nextTail == tail)
      modifies next, nextGenerations, this`nextTail, this`nextCount
      ensures accepted == (!flush && inputs.issueValid && !Full(State()) && inputs.issueEntry.valid
                && inputs.issueEntry.tag == NextTag(State()))
      ensures next[..] == if accepted then old(next[..])[tail := inputs.issueEntry] else old(next[..])
      ensures nextGenerations[..]
              == if accepted then old(nextGenerations[..])[tail := NextTag(State()).generation]
                  else old(nextGenerations[..])
      ensures nextTail == (if accepted then NextSlot(tail) else old(nextTail))
      ensures nextCount == if accepted then old(nextCount) + 1 else old(nextCount)
    {
      accepted := false;
      if !flush && inputs.issueValid && count != ROB_CAPACITY {
        var expected := NextFreeTag();
        if inputs.issueEntry.valid && inputs.issueEntry.tag == expected {
          next[nextTail] := inputs.issueEntry;
          nextGenerations[nextTail] := expected.generation;
          nextTail := (nextTail + 1) % ROB_CAPACITY;
          nextCount := nextCount + 1;
          accepted := true;
        }
      }
    }

    method Apply(inputs: RobInputs, outputs: RobOutputs) returns (accepted: bool)
      requires Valid()
      requires outputs.commit.valid ==> count > 0
      requires outputs.flush ==> outputs.commit.valid
      modifies next, nextGenerations, this`nextHead, this`nextTail, this`nextCount
      ensures NextState() == ReorderBuffers.Apply(State(), inputs, outputs)
      ensures accepted == IssueAccepted(State(), inputs, outputs)
    {
      Copy(cur, next);
      Copy(generations, nextGenerations);
      nextHead, nextTail, nextCount := head, tail, count;
      AbsorbCompletion(inputs.completion);
      AbsorbStoreCompletion(inputs.storeCompletion);
      if outputs.commit.valid {
        Retire(outputs.flush);
      }
      accepted := Allocate(inputs, outputs.flush);
    }
  }
}
