// Conservation over time: while an instruction stays in flight it is dispatched
// exactly once, if it executes, and finished exactly once.
module ExactlyOnce {
  import opened Types
  import opened Image
  import opened ReorderBuffers
  import opened LoadStoreQueues
  import opened Pipeline
  import opened Invariants
  import opened RobSteps
  import opened StationSteps
  import opened CycleSteps
  import opened MachineSteps
  import opened Theorems
  import LSQ = LoadStoreQueues
  import RS = ReservationStations
  import FU = FunctionalUnits

  /** The instruction with this tag is in flight. */
  predicate Alive(m: Machine, tag: RobTag) { m.status == Running && Matching(tag, m.rob.cur) }

  predicate Done(m: Machine, tag: RobTag) { Matching(tag, m.rob.cur) && m.rob.cur[tag.index].ready }

  predicate InSomeStation(m: Machine, tag: RobTag) {
    exists k: nat :: k < RS.RS_CAPACITY && HoldsTag(m.rs, k, tag)
  }

  predicate HoldsTag(rs: RS.RsState, k: nat, tag: RobTag) {
    k < RS.RS_CAPACITY && rs.cur[k].busy && rs.cur[k].destination == tag
  }

  /** This cycle's broadcast, or a store's completion, names the tag. */
  predicate Finishes(m: Machine, tag: RobTag)
    requires InRange(m)
  {
    var w := Observe(m, false);
    || (w.cdb.completion.valid && w.cdb.completion.tag == tag)
    || (w.lsq.storeCompletion.valid && w.lsq.storeCompletion.tag == tag)
  }

  /** This cycle the functional unit takes the instruction with this tag out of its station. */
  predicate Dispatches(m: Machine, tag: RobTag)
    requires InRange(m)
  {
    var w := Observe(m, false);
    w.rs.dispatchValid && w.rs.dispatch.tag == tag && FU.CanAccept(m.fu, w.cdb.integerGranted)
  }

  // --- One cycle ---------------------------------------------------------------------------

  /** Completions and dispatches do not depend on the prediction. */
  lemma SameWires(m: Machine, taken: bool)
    requires InRange(m)
    ensures Observe(m, taken).cdb == Observe(m, false).cdb && Observe(m, taken).lsq == Observe(m, false).lsq
    ensures Observe(m, taken).rs == Observe(m, false).rs
  {
    hide PlanIssue, PlanCdb, PreviewRob, RS.Plan, LSQ.Plan;
  }

  lemma NotTheNewTag(rob: RobState, slots: SlotTable, ev: Event, tag: RobTag)
    requires WellFormed(rob) && EventOk(rob, slots, ev) && Matching(tag, rob.cur)
    ensures ev.issued ==> ev.entry.tag != tag && tag.index != rob.tail
  {
    hide ResultOk, Pending, Age;
    if ev.issued { TailAge(rob); }
  }

  lemma FinishOfEntry(rob: RobState, slots: SlotTable, rob': RobState, ev: Event, tag: RobTag)
    requires WellFormed(rob) && EventOk(rob, slots, ev) && Transition(rob, rob', ev) && Matching(tag, rob.cur)
    requires ev.issued ==> tag.index != rob.tail
    ensures var finishes := (ev.completion.valid && ev.completion.tag == tag)
              || (ev.storeDone.valid && ev.storeDone.tag == tag);
            && (finishes ==> !rob.cur[tag.index].ready)
            && (Matching(tag, rob'.cur) ==>
                !ev.flush && (rob'.cur[tag.index].ready <==> rob.cur[tag.index].ready || finishes))
  {
    hide Age;
  }

  lemma DispatchedStation(rs: RS.RsState)
    ensures var d := RS.Plan(rs, false);
            && (d.dispatchValid <==> d.selectedIndex < RS.RS_CAPACITY)
            && (d.dispatchValid ==> d.selectedIndex == RS.SelectReady(rs) && rs.cur[d.selectedIndex].busy
                                    && d.dispatch.tag == rs.cur[d.selectedIndex].destination)
  {
    hide RS.SelectFrom;
  }

  predicate Takes(rs: RS.RsState, fuAvailable: bool, tag: RobTag) {
    RS.Plan(rs, false).dispatchValid && RS.Plan(rs, false).dispatch.tag == tag && fuAvailable
  }

  lemma TakenFrom(rs: RS.RsState, rob: RobState, slots: SlotTable, fuAvailable: bool, tag: RobTag, k: nat)
    requires StationsOk(rs, rob, slots) && HoldsTag(rs, k, tag)
    ensures Takes(rs, fuAvailable, tag) <==> RS.SelectReady(rs) == k && fuAvailable
  {
    hide StationsOk, RS.Plan;
    DispatchedStation(rs);
    SelectedIsPlanned(rs);
    var j := RS.SelectReady(rs);
    if Takes(rs, fuAvailable, tag) && j != k { StationsAreDistinct(rs, rob, slots, j, k); }
  }

  lemma SelectedIsPlanned(rs: RS.RsState)
    ensures RS.SelectReady(rs) < RS.RS_CAPACITY ==> RS.Plan(rs, false).dispatchValid
  {
    hide RS.SelectFrom;
  }

  /** A station keeps an instruction until it is taken, and never gets one back. */
  lemma StationChange(rs: RS.RsState, inputs: RS.RsInputs, rob: RobState, slots: SlotTable, rob': RobState, ev: Event,
          tag: RobTag, k: nat)
    requires StationsOk(rs, rob, slots) && WellFormed(rob) && EventOk(rob, slots, ev)
    requires StationInputs(inputs, rs, rob, slots, rob', ev)
    requires k < RS.RS_CAPACITY && (ev.issued ==> ev.entry.tag != tag)
    ensures HoldsTag(RS.Apply(rs, inputs, RS.Plan(rs, false)), k, tag) <==>
              HoldsTag(rs, k, tag) && !Takes(rs, inputs.fuAvailable, tag)
  {
    hide StationsOk, RS.Plan, RS.Apply, Takes, EventOk, WellFormed, RS.SelectReady, RS.BeforeIssue, RS.FindFree;
    if HoldsTag(rs, k, tag) {
      TakenFrom(rs, rob, slots, inputs.fuAvailable, tag, k);
      if RS.SelectReady(rs) != k || !inputs.fuAvailable { BusyStays(rs, inputs, k); }
    }
    if RS.Apply(rs, inputs, RS.Plan(rs, false)).cur[k].busy { LeftBusy(rs, inputs, rob, slots, rob', ev, k); }
  }

  /** A cycle an instruction outlives finishes it if it becomes ready, and dispatches it if it leaves its station. */
  lemma TagStep(m: Machine, gh: Ghost, taken: bool, w: Wires, o: LsqObserve, ev: Event, m': Machine, tag: RobTag)
    requires InRange(m) && Stepped(m, gh, taken, w, o, ev, m') && Matching(tag, m.rob.cur) && Matching(tag, m'.rob.cur)
    ensures (Finishes(m, tag) ==> !Done(m, tag)) && (Done(m', tag) <==> Done(m, tag) || Finishes(m, tag))
    ensures forall k: nat :: HoldsTag(m'.rs, k, tag) <==> HoldsTag(m.rs, k, tag) && !Dispatches(m, tag)
    ensures !PreviewRob(m.rob).flush
  {
    hide Stepped, Consistent, Observe, EventOk, Transition, RS.Plan, RS.Apply, StationsOk, StationInputs, WellFormed,
         FU.CanAccept, HoldsTag, Chained, AllMeaningful, EntriesMatch, UnitOk, QueueOk, LoadBufferOk, RatExact,
         RatMeaning, LSQ.Plan, LSQ.Apply, FU.NextResult, PreviewRob, ObservationOf, StationFor, Fetched;
    StepParts(m, gh, taken, w, o, ev, m');
    WireParts(m, gh, taken, w, o, ev, m');
    SameWires(m, taken);
    NotTheNewTag(m.rob, gh.slots, ev, tag);
    FinishOfEntry(m.rob, gh.slots, m'.rob, ev, tag);
    StationInputsHold(m, gh, taken, w, o, ev, m');
    forall k: nat
      ensures HoldsTag(m'.rs, k, tag) <==> HoldsTag(m.rs, k, tag) && !Dispatches(m, tag)
    {
      if k < RS.RS_CAPACITY {
        StationChange(m.rs, RsInputsOf(m, w), m.rob, gh.slots, m'.rob, ev, tag, k);
      } else {
        NoSuchStation(m.rs, k, tag);
        NoSuchStation(m'.rs, k, tag);
      }
    }
  }

  lemma NoSuchStation(rs: RS.RsState, k: nat, tag: RobTag)
    requires k >= RS.RS_CAPACITY
    ensures !HoldsTag(rs, k, tag)
  {
  }

  lemma TakenIsHeld(m: Machine, tag: RobTag)
    requires InRange(m) && Dispatches(m, tag) && !PreviewRob(m.rob).flush
    ensures HoldsTag(m.rs, RS.SelectReady(m.rs), tag)
  {
    hide PlanIssue, PlanCdb, PreviewRob, LSQ.Plan, RS.Plan;
    DispatchedStation(m.rs);
  }

  lemma BusyStays(rs: RS.RsState, inputs: RS.RsInputs, k: nat)
    requires k < RS.RS_CAPACITY && rs.cur[k].busy && !inputs.flush
    requires RS.SelectReady(rs) != k || !inputs.fuAvailable
    ensures RS.Apply(rs, inputs, RS.Plan(rs, false)).cur[k].busy
    ensures RS.Apply(rs, inputs, RS.Plan(rs, false)).cur[k].destination == rs.cur[k].destination
  {
    hide RS.SelectReady, RS.MakeExecute, RS.FindFreeFrom, WakeOperand;
  }

  // --- Whole runs -----------------------------------------------------------------------------

  /** How many of the cycles i .. j-1 finish the instruction with this tag. */
  function Finishings(bytes: Bytes, predict: nat -> bool, tag: RobTag, i: nat, j: nat): nat
    requires i <= j
    decreases j
  {
    if i == j then 0
    else Finishings(bytes, predict, tag, i, j - 1) + (if Finishes(RunFor(bytes, predict, j - 1), tag) then 1 else 0)
  }

  /** How many of the cycles i .. j-1 dispatch it. */
  function Dispatchings(bytes: Bytes, predict: nat -> bool, tag: RobTag, i: nat, j: nat): nat
    requires i <= j
    decreases j
  {
    if i == j then 0
    else Dispatchings(bytes, predict, tag, i, j - 1) + (if Dispatches(RunFor(bytes, predict, j - 1), tag) then 1 else 0)
  }

  predicate AliveThroughout(bytes: Bytes, predict: nat -> bool, tag: RobTag, i: nat, j: nat) {
    forall k: nat :: i <= k <= j ==> Alive(RunFor(bytes, predict, k), tag)
  }

  function Count(b: bool): int { if b then 1 else 0 }

  lemma AliveStep(bytes: Bytes, predict: nat -> bool, tag: RobTag, n: nat)
    requires Alive(RunFor(bytes, predict, n), tag) && Alive(RunFor(bytes, predict, n + 1), tag)
    ensures var m := RunFor(bytes, predict, n);
            var m' := RunFor(bytes, predict, n + 1);
            && Count(Done(m', tag)) == Count(Done(m, tag)) + Count(Finishes(m, tag))
            && Count(InSomeStation(m, tag)) == Count(InSomeStation(m', tag)) + Count(Dispatches(m, tag))
  {
    hide RunFor, Cycle, Consistent, Stepped, Observe, ObservationOf, EventOf, Finishes, Dispatches, Done, HoldsTag,
         PreviewRob, InSomeStation, EventOk, Transition, RS.SelectReady;
    var m := RunFor(bytes, predict, n);
    var gh := RunIsConsistent(bytes, predict, n);
    RunStep(bytes, predict, n);
    StepHolds(m, gh, predict(n));
    var w, o, ev, m' := Observe(m, predict(n)), ObservationOf(m, predict(n)), EventOf(m, gh, predict(n)),
        RunFor(bytes, predict, n + 1);
    TagStep(m, gh, predict(n), w, o, ev, m', tag);
    if Dispatches(m, tag) { TakenIsHeld(m, tag); }
    StationCounts(m, m', tag, Dispatches(m, tag));
  }

  lemma StationCounts(m: Machine, m': Machine, tag: RobTag, dispatches: bool)
    requires forall k: nat :: HoldsTag(m'.rs, k, tag) <==> HoldsTag(m.rs, k, tag) && !dispatches
    requires dispatches ==> HoldsTag(m.rs, RS.SelectReady(m.rs), tag)
    ensures Count(InSomeStation(m, tag)) == Count(InSomeStation(m', tag)) + Count(dispatches)
  {
    hide RS.SelectFrom;
    if dispatches { assert HoldsTag(m.rs, RS.SelectReady(m.rs), tag); }
    if InSomeStation(m, tag) && !dispatches {
      var k: nat :| k < RS.RS_CAPACITY && HoldsTag(m.rs, k, tag);
      assert HoldsTag(m'.rs, k, tag);
    }
  }

  /** Conservation over a run: while an instruction stays in flight, it is finished once if it becomes
      ready and never otherwise, and dispatched once if it leaves its station and never otherwise. */
  lemma {:induction false} OnceEach(bytes: Bytes, predict: nat -> bool, tag: RobTag, i: nat, j: nat)
    requires i <= j && AliveThroughout(bytes, predict, tag, i, j)
    ensures var m := RunFor(bytes, predict, i);
            var m' := RunFor(bytes, predict, j);
            && Finishings(bytes, predict, tag, i, j) == Count(Done(m', tag)) - Count(Done(m, tag))
            && Dispatchings(bytes, predict, tag, i, j) == Count(InSomeStation(m, tag)) - Count(InSomeStation(m', tag))
    decreases j
  {
    hide RunFor, Alive, Done, InSomeStation, Finishes, Dispatches;
    if i < j {
      OnceEach(bytes, predict, tag, i, j - 1);
      AliveStep(bytes, predict, tag, j - 1);
    }
  }

  lemma DoneLeftItsStation(m: Machine, gh: Ghost, tag: RobTag)
    requires Consistent(m, gh) && Done(m, tag)
    ensures !InSomeStation(m, tag)
  {
    hide OperandOk;
    assert StationsOk(m.rs, m.rob, gh.slots);
  }

  /** From its issue, unfinished, to its commit, finished, an instruction is finished exactly once, and
      dispatched exactly once if it was issued to a station, never otherwise. */
  lemma IssuedToCommitted(bytes: Bytes, predict: nat -> bool, tag: RobTag, i: nat, j: nat)
    requires i <= j && AliveThroughout(bytes, predict, tag, i, j)
    requires !Done(RunFor(bytes, predict, i), tag) && Done(RunFor(bytes, predict, j), tag)
    ensures Finishings(bytes, predict, tag, i, j) == 1
    ensures Dispatchings(bytes, predict, tag, i, j) == if InSomeStation(RunFor(bytes, predict, i), tag) then 1 else 0
  {
    hide RunFor, Done, InSomeStation, Finishings, Dispatchings, Consistent;
    OnceEach(bytes, predict, tag, i, j);
    var gh := RunIsConsistent(bytes, predict, j);
    assert Alive(RunFor(bytes, predict, j), tag);
    DoneLeftItsStation(RunFor(bytes, predict, j), gh, tag);
  }
}
