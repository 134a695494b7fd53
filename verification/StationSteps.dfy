// Reservation stations and functional unit through one cycle: no wakeup is
// lost and every entry keeps exactly one holder.
module StationSteps {
  import opened Types
  import opened ReorderBuffers
  import opened Invariants
  import opened RobSteps
  import opened Datapath
  import FU = FunctionalUnits
  import RS = ReservationStations

  /** The broadcast that goes with a completion. */
  function Broadcast(completion: FUResult): CdbMessage {
    if completion.valid then CdbMessage(completion.tag, completion.result, true) else NO_MESSAGE
  }

  /** An operand that misses the broadcast still waits for a live producer;
      one that catches it holds the in-order value. */
  lemma OperandAfter(o: Operand, v: Word, id: int, rob: RobState, slots: SlotTable, rob': RobState, ev: Event)
    requires WellFormed(rob) && EventOk(rob, slots, ev) && Transition(rob, rob', ev)
    requires OperandOk(o, v, id, rob, slots) && !ev.flush
    ensures OperandOk(WakeOperand(o, Broadcast(ev.completion)), v, id, rob', SlotsAfter(rob, slots, ev))
  {
    hide EntryAfter, SlotsAfter, Updated, Age, NextSlot;
    if !o.ready && !(ev.completion.valid && ev.completion.tag == o.tag) {
      PendingPersists(rob, slots, rob', ev, o.tag);
    }
  }

  /** A busy station whose own result was not broadcast stays a correct station. */
  lemma StationAfter(k: nat, e: RS.RsEntry, rob: RobState, slots: SlotTable, rob': RobState, ev: Event)
    requires WellFormed(rob) && EventOk(rob, slots, ev) && Transition(rob, rob', ev)
    requires StationOk(k, e, rob, slots) && !ev.flush
    requires e.busy && ev.completion.valid ==> ev.completion.tag != e.destination
    ensures StationOk(k, RS.WakeEntry(e, Broadcast(ev.completion)), rob', SlotsAfter(rob, slots, ev))
  {
    if e.busy {
      var s := slots[e.destination.index];
      PendingPersists(rob, slots, rob', ev, e.destination);
      OperandAfter(e.lhs, LhsValue(s), s.id, rob, slots, rob', ev);
      OperandAfter(e.rhs, RhsValue(s), s.id, rob, slots, rob', ev);
    }
  }

  /** What reaches the stations in a cycle without a flush. */
  ghost predicate StationInputs(inputs: RS.RsInputs, rs: RS.RsState, rob: RobState, slots: SlotTable, rob': RobState,
          ev: Event)
    requires rob.tail < ROB_CAPACITY
  {
    && !inputs.flush && !ev.flush
    && inputs.cdb == Broadcast(ev.completion)
    && (ev.completion.valid ==>
          forall k :: 0 <= k < RS.RS_CAPACITY && rs.cur[k].busy ==> ev.completion.tag != rs.cur[k].destination)
    && (inputs.issueValid ==>
          && ev.issued
          && inputs.issueEntry.busy
          && inputs.issueEntry.destination == ev.entry.tag
          && StationOk(ev.slot.rsSlot, inputs.issueEntry, rob', SlotsAfter(rob, slots, ev))
          && ev.slot.rsSlot == RS.FindFree(RS.BeforeIssue(rs, inputs, RS.Plan(rs, false))))
  }

  lemma StationsOkAfter(rs: RS.RsState, inputs: RS.RsInputs, rob: RobState, slots: SlotTable, rob': RobState, ev: Event)
    requires WellFormed(rob) && EventOk(rob, slots, ev) && Transition(rob, rob', ev)
    requires StationsOk(rs, rob, slots)
    requires StationInputs(inputs, rs, rob, slots, rob', ev)
    ensures StationsOk(RS.Apply(rs, inputs, RS.Plan(rs, false)), rob', SlotsAfter(rob, slots, ev))
  {
    var decision := RS.Plan(rs, false);
    var before := RS.BeforeIssue(rs, inputs, decision);
    var rs' := RS.Apply(rs, inputs, decision);
    forall k | 0 <= k < RS.RS_CAPACITY
      ensures StationOk(k, before[k], rob', SlotsAfter(rob, slots, ev))
    {
      StationAfter(k, rs.cur[k], rob, slots, rob', ev);
    }
    assert rs'.cursor < RS.RS_CAPACITY;
    forall k | 0 <= k < RS.RS_CAPACITY
      ensures StationOk(k, rs'.cur[k], rob', SlotsAfter(rob, slots, ev))
    {
    }
  }

  /** Two busy stations never serve the same entry. */
  lemma StationsAreDistinct(rs: RS.RsState, rob: RobState, slots: SlotTable, j: nat, k: nat)
    requires StationsOk(rs, rob, slots)
    requires j < RS.RS_CAPACITY && k < RS.RS_CAPACITY && j != k
    requires rs.cur[j].busy && rs.cur[k].busy
    ensures rs.cur[j].destination.index != rs.cur[k].destination.index
  {
    assert StationOk(j, rs.cur[j], rob, slots) && StationOk(k, rs.cur[k], rob, slots);
  }

  /** A dispatched station's result is a correct result for the entry it served. */
  lemma DispatchResult(rs: RS.RsState, rob: RobState, slots: SlotTable, rob': RobState, ev: Event, k: nat)
    requires WellFormed(rob) && EventOk(rob, slots, ev) && Transition(rob, rob', ev) && !ev.flush
    requires StationsOk(rs, rob, slots) && AllMeaningful(rob, slots) && EntriesMatch(rob, slots)
    requires k < RS.RS_CAPACITY && RS.ReadyToGo(rs.cur[k])
    requires ev.completion.valid ==> ev.completion.tag != rs.cur[k].destination
    ensures var r := FU.ExecuteInstruction(RS.MakeExecute(rs.cur[k]));
            && r.valid && r.tag == rs.cur[k].destination
            && ResultOk(r, rob', SlotsAfter(rob, slots, ev))
            && !MemoryInstruction(SlotsAfter(rob, slots, ev)[r.tag.index].dec)
  {
    var e := rs.cur[k];
    assert StationOk(k, e, rob, slots);
    var s := slots[e.destination.index];
    assert Meaning(s);
    assert EntryMatches(rob.cur[e.destination.index], s);
    ExecuteAgrees(s, RS.MakeExecute(e)) by {
      hide FU.ExecuteInstruction, Transition, EventOk, WellFormed, Finished, LhsValue, RhsValue;
    }
    PendingPersists(rob, slots, rob', ev, e.destination);
    NoFaultOutsideMemory(s);
    hide FU.ExecuteInstruction, Transition, EventOk, WellFormed, EntryAfter, SlotsAfter, EntryMatches, Meaning,
         OperandOk;
  }

  lemma NoFaultOutsideMemory(s: Slot)
    requires Meaning(s) && !MemoryInstruction(s.dec)
    ensures !s.faults
  {
  }

  /** The functional unit after the cycle holds a correct result nobody else will produce. */
  lemma UnitOkAfter(fu: FUResult, granted: bool, rs: RS.RsState, inputs: RS.RsInputs, rob: RobState, slots: SlotTable,
          rob': RobState, ev: Event)
    requires WellFormed(rob) && EventOk(rob, slots, ev) && Transition(rob, rob', ev)
    requires StationsOk(rs, rob, slots) && AllMeaningful(rob, slots) && EntriesMatch(rob, slots)
    requires UnitOk(fu, rs, rob, slots)
    requires StationInputs(inputs, rs, rob, slots, rob', ev)
    requires inputs.fuAvailable == FU.CanAccept(fu, granted)
    requires granted ==> fu.valid && ev.completion == fu
    requires !granted && ev.completion.valid ==> MemoryInstruction(slots[ev.completion.tag.index].dec)
    ensures UnitOk(FU.NextResult(fu, RS.Plan(rs, false).dispatch, false, granted),
                   RS.Apply(rs, inputs, RS.Plan(rs, false)), rob', SlotsAfter(rob, slots, ev))
  {
    var decision := RS.Plan(rs, false);
    var rs' := RS.Apply(rs, inputs, decision);
    var k := RS.SelectReady(rs);
    if k < RS.RS_CAPACITY && inputs.fuAvailable {
      DispatchResult(rs, rob, slots, rob', ev, k);
      forall j | 0 <= j < RS.RS_CAPACITY && rs'.cur[j].busy
        ensures rs'.cur[j].destination != rs.cur[k].destination
      {
        LeftBusy(rs, inputs, rob, slots, rob', ev, j);
        assert StationOk(k, rs.cur[k], rob, slots);
        if rs.cur[j].busy && j != k && rs'.cur[j].destination == rs.cur[j].destination {
          StationsAreDistinct(rs, rob, slots, j, k);
        }
      }
    } else if fu.valid && !granted {
      PendingPersists(rob, slots, rob', ev, fu.tag);
      forall j | 0 <= j < RS.RS_CAPACITY && rs'.cur[j].busy
        ensures rs'.cur[j].destination != fu.tag
      {
        LeftBusy(rs, inputs, rob, slots, rob', ev, j);
      }
    }
  }

  /** A station busy after the cycle was busy before with the same entry, or holds the new one. */
  lemma LeftBusy(rs: RS.RsState, inputs: RS.RsInputs, rob: RobState, slots: SlotTable, rob': RobState, ev: Event,
          j: nat)
    requires WellFormed(rob) && EventOk(rob, slots, ev)
    requires StationInputs(inputs, rs, rob, slots, rob', ev)
    requires j < RS.RS_CAPACITY && RS.Apply(rs, inputs, RS.Plan(rs, false)).cur[j].busy
    ensures var after := RS.Apply(rs, inputs, RS.Plan(rs, false)).cur[j];
            || (rs.cur[j].busy && after.destination == rs.cur[j].destination
                && !(RS.SelectReady(rs) == j && inputs.fuAvailable))
            || (ev.issued && after.destination == ev.entry.tag
                && forall tag :: Pending(rob, tag) ==> tag != ev.entry.tag)
  {
    hide StationOk, SlotsAfter, Age, ResultOk, WakeOperand;
    if ev.issued { TailAge(rob); }
  }
}
