// Sixteen reservation stations with round-robin dispatch
// (src/tomasulo/reservation_station.cpp).
module ReservationStations {
  import opened Types

  const RS_CAPACITY := 16

  datatype RsEntry = RsEntry(
    op: Op,
    destination: RobTag,
    lhs: Operand,
    rhs: Operand,
    immediate: Word,
    pc: Address,
    predictedNextPc: Address,
    busy: bool)

  const NO_RS_ENTRY := RsEntry(INVALID, NO_TAG, NO_OPERAND, NO_OPERAND, 0, 0, 0, false)

  type Stations = s: seq<RsEntry> | |s| == RS_CAPACITY witness Repeat(RS_CAPACITY, NO_RS_ENTRY)

  const EMPTY_STATIONS: Stations := Repeat(RS_CAPACITY, NO_RS_ENTRY)

  datatype RsState = RsState(cur: Stations, cursor: nat)

  datatype RsInputs = RsInputs(
    issueEntry: RsEntry, issueValid: bool, cdb: CdbMessage, fuAvailable: bool, flush: bool)

  // selectedIndex == RS_CAPACITY: nothing to dispatch.
  datatype RsDecision = RsDecision(dispatch: Dispatch, dispatchValid: bool, selectedIndex: nat)

  const NO_DECISION := RsDecision(NO_DISPATCH, false, RS_CAPACITY)

  predicate ReadyToGo(entry: RsEntry) { entry.busy && entry.lhs.ready && entry.rhs.ready }

  /** The first ready station at or after cursor + offset, or RS_CAPACITY. */
  function SelectFrom(stations: Stations, cursor: nat, offset: nat): (index: nat)
    requires offset <= RS_CAPACITY
    ensures index <= RS_CAPACITY
    ensures index < RS_CAPACITY ==> ReadyToGo(stations[index])
    decreases RS_CAPACITY - offset
  {
    if offset == RS_CAPACITY then RS_CAPACITY
    else
      var index := (cursor + offset) % RS_CAPACITY;
      if ReadyToGo(stations[index]) then index else SelectFrom(stations, cursor, offset + 1)
  }

  function SelectReady(rs: RsState): nat { SelectFrom(rs.cur, rs.cursor, 0) }

  /** The first idle station at or after `from`, or RS_CAPACITY. */
  function FindFreeFrom(stations: Stations, from: nat): (index: nat)
    requires from <= RS_CAPACITY
    ensures index <= RS_CAPACITY
    ensures index < RS_CAPACITY ==> !stations[index].busy
    ensures forall i :: from <= i < index ==> stations[i].busy
    decreases RS_CAPACITY - from
  {
    if from == RS_CAPACITY then RS_CAPACITY
    else if !stations[from].busy then from
    else FindFreeFrom(stations, from + 1)
  }

  function FindFree(stations: Stations): nat { FindFreeFrom(stations, 0) }

  predicate Full(stations: Stations) { forall i :: 0 <= i < RS_CAPACITY ==> stations[i].busy }

  function MakeExecute(entry: RsEntry): Dispatch {
    Dispatch(entry.op, entry.lhs.value, entry.rhs.value, entry.immediate, entry.pc, entry.destination, true)
  }

  function Plan(rs: RsState, flush: bool): RsDecision {
    if flush || SelectReady(rs) == RS_CAPACITY then NO_DECISION
    else RsDecision(MakeExecute(rs.cur[SelectReady(rs)]), true, SelectReady(rs))
  }

  function WakeEntry(entry: RsEntry, cdb: CdbMessage): RsEntry {
    if !entry.busy then entry
    else entry.(lhs := WakeOperand(entry.lhs, cdb), rhs := WakeOperand(entry.rhs, cdb))
  }

  function Wake(stations: Stations, cdb: CdbMessage): Stations {
    seq(RS_CAPACITY, i requires 0 <= i < RS_CAPACITY => WakeEntry(stations[i], cdb))
  }

  predicate Dispatches(inputs: RsInputs, decision: RsDecision) {
    decision.selectedIndex < RS_CAPACITY && inputs.fuAvailable
  }

  /** The stations once this cycle's wakeups and dispatch are done. */
  function BeforeIssue(rs: RsState, inputs: RsInputs, decision: RsDecision): Stations {
    var woken := Wake(rs.cur, inputs.cdb);
    if Dispatches(inputs, decision) then woken[decision.selectedIndex := NO_RS_ENTRY] else woken
  }

  predicate IssueAccepted(rs: RsState, inputs: RsInputs, decision: RsDecision) {
    !inputs.flush && inputs.issueValid && FindFree(BeforeIssue(rs, inputs, decision)) < RS_CAPACITY
  }

  /** The stations after a cycle. */
  function Apply(rs: RsState, inputs: RsInputs, decision: RsDecision): RsState {
    if inputs.flush then RsState(EMPTY_STATIONS, 0)
    else
      var before := BeforeIssue(rs, inputs, decision);
      var cursor := if Dispatches(inputs, decision) then (decision.selectedIndex + 1) % RS_CAPACITY else rs.cursor;
      if IssueAccepted(rs, inputs, decision) then
        RsState(before[FindFree(before) := inputs.issueEntry.(busy := true)], cursor)
      else RsState(before, cursor)
  }

  /** The broadcast is the one the operand waits for. */
  predicate Awaits(operand: Operand, cdb: CdbMessage) {
    !operand.ready && operand.tag.valid && cdb.valid && cdb.tag == operand.tag
  }

  /** A busy station's operands take the broadcast they wait for and are otherwise left alone; an idle station
      hears nothing. */
  lemma StationHears(entry: RsEntry, cdb: CdbMessage)
    ensures var heard := WakeEntry(entry, cdb);
            && heard == entry.(lhs := heard.lhs, rhs := heard.rhs)
            && heard.lhs == (if entry.busy && Awaits(entry.lhs, cdb) then Operand(cdb.value, NO_TAG, true)
                else entry.lhs)
            && heard.rhs == (if entry.busy && Awaits(entry.rhs, cdb) then Operand(cdb.value, NO_TAG, true)
                else entry.rhs)
  {
  }
}
