// The reservation stations as the object the simulator latches every cycle
// (src/tomasulo/reservation_station.cpp), proved against ReservationStations.
module ReservationStationClass {
  import opened Types
  import opened ReservationStations
  import opened Arrays

  class ReservationStation {
    const cur: array<RsEntry>
    const next: array<RsEntry>
    var cursor: nat
    var nextCursor: nat

    ghost predicate Valid() {
      cur.Length == next.Length == RS_CAPACITY && cur != next
    }

    // The objects these stations own.
    ghost function Repr(): set<object> {
      {this, cur, next}
    }

    ghost function State(): RsState
      requires Valid()
      reads this`cursor, cur
    {
      RsState(cur[..], cursor)
    }

    ghost function NextState(): RsState
      requires Valid()
      reads this`nextCursor, next
    {
      RsState(next[..], nextCursor)
    }

    constructor ()
      ensures Valid() && State() == RsState(EMPTY_STATIONS, 0) && NextState() == RsState(EMPTY_STATIONS, 0)
      ensures fresh(Repr()) && allocated(Repr())
    {
      cur := new RsEntry[RS_CAPACITY](_ => NO_RS_ENTRY);
      next := new RsEntry[RS_CAPACITY](_ => NO_RS_ENTRY);
      cursor, nextCursor := 0, 0;
      new;
      assert cur[..] == EMPTY_STATIONS && next[..] == EMPTY_STATIONS;
    }

    method Reset()
      requires Valid()
      modifies Repr()
      ensures State() == RsState(EMPTY_STATIONS, 0) && NextState() == RsState(EMPTY_STATIONS, 0)
    {
      Fill(cur, NO_RS_ENTRY);
      Fill(next, NO_RS_ENTRY);
      cursor, nextCursor := 0, 0;
    }

    method Latch()
      requires Valid()
      modifies this`cursor, cur
      ensures State() == old(NextState()) && NextState() == old(NextState())
    {
      Copy(next, cur);
      cursor := nextCursor;
    }

    method IsFull() returns (full: bool)
      requires Valid()
      ensures full == Full(State().cur)
    {
      for i := 0 to RS_CAPACITY
        invariant forall j :: 0 <= j < i ==> cur[j].busy
      {
        if !cur[i].busy {
          assert !State().cur[i].busy;
          return false;
        }
      }
      return true;
    }

    /** The first ready station in round-robin order from the cursor. */
    method SelectReadyIndex() returns (index: nat)
      requires Valid()
      ensures index == SelectReady(State())
    {
      var offset := 0;
      while offset < RS_CAPACITY
        invariant offset <= RS_CAPACITY
        invariant SelectFrom(cur[..], cursor, 0) == SelectFrom(cur[..], cursor, offset)
      {
        index := (cursor + offset) % RS_CAPACITY;
        if ReadyToGo(cur[index]) {
          return;
        }
        offset := offset + 1;
      }
      index := RS_CAPACITY;
    }

    static method FindFreeIndex(entries: array<RsEntry>) returns (index: nat)
      requires entries.Length == RS_CAPACITY
      ensures index == FindFree(entries[..])
    {
      index := 0;
      while index < RS_CAPACITY
        invariant index <= RS_CAPACITY
        invariant FindFreeFrom(entries[..], 0) == FindFreeFrom(entries[..], index)
      {
        if !entries[index].busy {
          return;
        }
        index := index + 1;
      }
    }

    method PlanDispatch(flush: bool) returns (decision: RsDecision)
      requires Valid()
      ensures decision == Plan(State(), flush)
    {
      decision := NO_DECISION;
      if flush {
        return;
      }
      var selected := SelectReadyIndex();
      if selected != RS_CAPACITY {
        decision := RsDecision(MakeExecute(cur[selected]), true, selected);
      }
    }

    /** Every station hears the broadcast. */
    method WakeAll(cdb: CdbMessage)
      requires Valid()
      modifies next
      ensures next[..] == Wake(old(next[..]), cdb)
    {
      for i := 0 to RS_CAPACITY
        invariant forall j :: 0 <= j < i ==> next[j] == WakeEntry(old(next[j]), cdb)
        invariant forall j :: i <= j < RS_CAPACITY ==> next[j] == old(next[j])
      {
        next[i] := WakeEntry(next[i], cdb);
      }
    }

    /** A station is freed only when the functional unit takes its instruction. */
    method Apply(inputs: RsInputs, decision: RsDecision) returns (accepted: bool)
      requires Valid()
      requires decision.selectedIndex <= RS_CAPACITY
      modifies next, this`nextCursor
      ensures NextState() == ReservationStations.Apply(State(), inputs, decision)
      ensures accepted == IssueAccepted(State(), inputs, decision)
    {
      nextCursor := cursor;
      Copy(cur, next);
      accepted := false;
      if inputs.flush {
        nextCursor := 0;
        Fill(next, NO_RS_ENTRY);
        return;
      }
      WakeAll(inputs.cdb);
      if decision.selectedIndex != RS_CAPACITY && inputs.fuAvailable {
        next[decision.selectedIndex] := NO_RS_ENTRY;
        nextCursor := (decision.selectedIndex + 1) % RS_CAPACITY;
      }
      assert next[..] == BeforeIssue(State(), inputs, decision);
      if inputs.issueValid {
        var free := FindFreeIndex(next);
        if free != RS_CAPACITY {
          next[free] := inputs.issueEntry.(busy := true);
          accepted := true;
        }
      }
    }
  }
}
