// The load/store queue as the object the simulator latches every cycle
// (src/tomasulo/load_store_queue.cpp), proved against LoadStoreQueues.
module LoadStoreQueueClass {
  import opened Types
  import opened Isa
  import opened WordArithmetic
  import opened ReorderBuffers
  import opened LoadStoreQueues
  import opened Arrays

  class LoadStoreQueue {
    const cur: array<LsqEntry>
    const next: array<LsqEntry>
    var head: nat
    var tail: nat
    var count: nat
    var nextHead: nat
    var nextTail: nat
    var nextCount: nat
    var loadResult: FUResult
    var nextLoadResult: FUResult

    ghost predicate Shaped() {
      cur.Length == next.Length == LSQ_CAPACITY && cur != next
    }

    ghost predicate Valid()
      reads this`head, this`tail
    {
      Shaped() && head < LSQ_CAPACITY && tail < LSQ_CAPACITY
    }

    // The objects this queue owns.
    ghost function Repr(): set<object> {
      {this, cur, next}
    }

    ghost function State(): LsqState
      requires Shaped()
      reads this`head, this`tail, this`count, this`loadResult, cur
    {
      LsqState(cur[..], head, tail, count, loadResult)
    }

    ghost function NextState(): LsqState
      requires Shaped()
      reads this`nextHead, this`nextTail, this`nextCount, this`nextLoadResult, next
    {
      LsqState(next[..], nextHead, nextTail, nextCount, nextLoadResult)
    }

    constructor ()
      ensures Valid() && State() == EMPTY_LSQ && NextState() == EMPTY_LSQ
      ensures fresh(Repr()) && allocated(Repr())
    {
      cur := new LsqEntry[LSQ_CAPACITY](_ => NO_LSQ_ENTRY);
      next := new LsqEntry[LSQ_CAPACITY](_ => NO_LSQ_ENTRY);
      head, tail, count := 0, 0, 0;
      nextHead, nextTail, nextCount := 0, 0, 0;
      loadResult, nextLoadResult := NO_RESULT, NO_RESULT;
      new;
      assert cur[..] == EMPTY_LSQ_SLOTS && next[..] == EMPTY_LSQ_SLOTS;
    }

    method Reset()
      requires Shaped()
      modifies Repr()
      ensures Valid() && State() == EMPTY_LSQ && NextState() == EMPTY_LSQ
    {
      Fill(cur, NO_LSQ_ENTRY);
      Fill(next, NO_LSQ_ENTRY);
      head, tail, count := 0, 0, 0;
      nextHead, nextTail, nextCount := 0, 0, 0;
      loadResult, nextLoadResult := NO_RESULT, NO_RESULT;
    }

    method Latch()
      requires Shaped() && nextHead < LSQ_CAPACITY && nextTail < LSQ_CAPACITY
      modifies this`head, this`tail, this`count, this`loadResult, cur
      ensures Valid() && State() == old(NextState()) && NextState() == old(NextState())
    {
      Copy(next, cur);
      head, tail, count := nextHead, nextTail, nextCount;
      loadResult := nextLoadResult;
    }

    method IsFull() returns (full: bool)
      requires Shaped()
      ensures full == LsqFull(State())
    {
      full := count == LSQ_CAPACITY;
    }

    /** Answers are matched to, and requests sent for, the current head only. */
    method PlanOutputs(o: LsqObserve) returns (decision: LsqDecision)
      requires Valid()
      ensures decision == LoadStoreQueues.Plan(State(), o)
    {
      hide Extend, WidthOf;
      decision := NO_LSQ_DECISION;
      if o.flush {
        return;
      }
      decision := decision.(clearLoadResult := o.loadResultGranted && loadResult.valid);
      if count != 0 {
        var front := cur[head];
        if MatchingResponse(front, o.response) {
          if !o.response.success {
            decision := decision.(memoryError := true);
          } else if front.kind.LOAD? {
            decision := decision.(completedLoad := LoadCompletion(front, o.response),
                                  installLoadResult := true, removeHead := true);
          } else {
            decision := decision.(storeCompletion := StoreMessage(front.destination, true), removeHead := true);
          }
        }
        if front.valid && !front.requestSent && front.addressReady && o.memoryAvailable {
          var maySend :=
            if front.kind.LOAD? then !loadResult.valid || o.loadResultGranted
            else front.storeData.ready && o.storeRequest.valid && o.storeRequest.tag == front.destination;
          if maySend {
            decision := decision.(request := MakeRequest(front), markRequestSent := true);
          }
        }
      }
    }

    /** Every entry hears the broadcast. */
    method WakeAll(cdb: CdbMessage)
      requires Shaped()
      modifies next
      ensures next[..] == Wake(old(next[..]), cdb)
    {
      for i := 0 to LSQ_CAPACITY
        invariant forall j :: 0 <= j < i ==> next[j] == WakeEntry(old(next[j]), cdb)
        invariant forall j :: i <= j < LSQ_CAPACITY ==> next[j] == old(next[j])
      {
        next[i] := WakeEntry(next[i], cdb);
      }
    }

    /** Forms the address of every entry whose base has arrived. */
    method FormAddresses()
      requires Shaped()
      modifies next
      ensures next[..] == UpdateAddresses(old(next[..]))
    {
      for i := 0 to LSQ_CAPACITY
        invariant forall j :: 0 <= j < i ==> next[j] == UpdateAddress(old(next[j]))
        invariant forall j :: i <= j < LSQ_CAPACITY ==> next[j] == old(next[j])
      {
        if next[i].valid && !next[i].addressReady && next[i].base.ready {
          next[i] := next[i].(address := Add(next[i].base.value, next[i].immediate), addressReady := true);
        }
      }
    }

    method RemoveNextHead()
      requires Shaped() && nextHead < LSQ_CAPACITY && nextCount > 0
      modifies next, this`nextHead, this`nextCount
      ensures next[..] == old(next[..])[old(nextHead) := NO_LSQ_ENTRY]
      ensures nextHead == NextLsqSlot(old(nextHead)) && nextCount == old(nextCount) - 1
    {
      next[nextHead] := NO_LSQ_ENTRY;
      nextHead := (nextHead + 1) % LSQ_CAPACITY;
      nextCount := nextCount - 1;
    }

    /** Fullness is judged on the current state: a removal in the same cycle frees no slot. */
    method Insert(inputs: LsqInputs) returns (accepted: bool)
      requires Valid() && nextTail == tail && !inputs.flush
      modifies next, this`nextTail, this`nextCount
      ensures accepted == LoadStoreQueues.IssueAccepted(State(), inputs)
      ensures next[..]
              == if accepted then old(next[..])[tail := inputs.issueEntry.(valid := true, requestSent := false)]
                  else old(next[..])
      ensures nextTail == (if accepted then NextLsqSlot(tail) else tail)
      ensures nextCount == if accepted then old(nextCount) + 1 else old(nextCount)
    {
      accepted := false;
      if inputs.issueValid && count != LSQ_CAPACITY && inputs.issueEntry.valid {
        next[nextTail] := inputs.issueEntry.(valid := true, requestSent := false);
        nextTail := (nextTail + 1) % LSQ_CAPACITY;
        nextCount := nextCount + 1;
        accepted := true;
      }
    }

    /** A finished load may enter the buffer only when the buffer is, or is becoming, free. */
    method Apply(inputs: LsqInputs, decision: LsqDecision) returns (accepted: bool)
      requires Valid()
      requires decision.removeHead ==> count > 0
      requires !inputs.flush && decision.installLoadResult ==> decision.clearLoadResult || !loadResult.valid
      modifies next, this`nextHead, this`nextTail, this`nextCount, this`nextLoadResult
      ensures NextState() == LoadStoreQueues.Apply(State(), inputs, decision)
      ensures accepted == LoadStoreQueues.IssueAccepted(State(), inputs)
    {
      Copy(cur, next);
      nextHead, nextTail, nextCount, nextLoadResult := head, tail, count, loadResult;
      if inputs.flush {
        Fill(next, NO_LSQ_ENTRY);
        nextHead, nextTail, nextCount, nextLoadResult := 0, 0, 0, NO_RESULT;
        return false;
      }
      if decision.clearLoadResult {
        nextLoadResult := NO_RESULT;
      }
      WakeAll(inputs.cdb);
      if decision.installLoadResult {
        assert !nextLoadResult.valid;
        nextLoadResult := decision.completedLoad;
      }
      if decision.removeHead {
        RemoveNextHead();
      }
      if decision.markRequestSent {
        next[head] := next[head].(requestSent := true);
      }
      accepted := Insert(inputs);
      assert next[..] == Rearranged(State(), inputs, decision);
      FormAddresses();
    }
  }
}
