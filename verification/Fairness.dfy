// The two arbiters, one decision at a time: every dispatch brings a ready
// station's turn closer, and a result that waits gets the bus next.
module Fairness {
  import opened Types
  import opened CommonDataBuses
  import opened ReservationStations
  import opened Progress

  /** The dispatch either serves ready station k, or brings its turn closer and leaves it as it is. */
  lemma TurnComesCloser(rs: RsState, inputs: RsInputs, k: nat)
    requires rs.cursor < RS_CAPACITY && k < RS_CAPACITY && ReadyToGo(rs.cur[k])
    requires inputs.fuAvailable && !inputs.flush
    ensures var d := Plan(rs, false);
            && d.dispatchValid && d.selectedIndex < RS_CAPACITY
            && (d.selectedIndex == k ==> d.dispatch == MakeExecute(rs.cur[k]))
            && (d.selectedIndex != k ==>
                  var rs' := Apply(rs, inputs, d);
                  && rs'.cursor < RS_CAPACITY && rs'.cur[k] == rs.cur[k]
                  && Distance(rs'.cursor, k) < Distance(rs.cursor, k))
  {
    hide SelectReady, Wake, FindFreeFrom;
    SelectedFirst(rs, k);
    if Plan(rs, false).selectedIndex != k { ReadyStays(rs, inputs, k); }
  }

  lemma SelectedFirst(rs: RsState, k: nat)
    requires rs.cursor < RS_CAPACITY && k < RS_CAPACITY && ReadyToGo(rs.cur[k])
    ensures var j := SelectReady(rs);
            j < RS_CAPACITY && (j != k ==> Distance((j + 1) % RS_CAPACITY, k) < Distance(rs.cursor, k))
  {
    FirstReady(rs.cur, rs.cursor, 0, k);
    var j := SelectReady(rs);
    if j != k { CloserToTurn(rs.cursor, j, k); }
  }

  lemma DistanceRange(cursor: nat, k: nat)
    requires cursor < RS_CAPACITY && k < RS_CAPACITY
    ensures 0 <= Distance(cursor, k) <= 15
  {
  }

  /** A result that waits is granted this cycle or the next, whatever competes. */
  lemma GrantedWithinTwo(preferLoad: bool, integer: FUResult, load: FUResult, other: FUResult)
    ensures var first := Arbitrate(preferLoad, integer, load);
            && (ValidCandidate(integer) && !first.integerGranted ==>
                Arbitrate(first.nextPreferLoad, integer, other).integerGranted)
            && (ValidCandidate(load) && !first.loadGranted ==> Arbitrate(first.nextPreferLoad, other, load).loadGranted)
  {
  }

  /** One grant at most, only to a valid candidate, and its result is what is broadcast. */
  lemma GrantsAreSound(preferLoad: bool, integer: FUResult, load: FUResult)
    ensures var d := Arbitrate(preferLoad, integer, load);
            && !(d.integerGranted && d.loadGranted)
            && (d.integerGranted || d.loadGranted <==>
                (integer.valid && integer.tag.valid) || (load.valid && load.tag.valid))
            && (d.integerGranted ==> integer.valid && integer.tag.valid && d.completion == integer)
            && (d.loadGranted ==> load.valid && load.tag.valid && d.completion == load)
            && (d.integerGranted || d.loadGranted ==>
                d.broadcast == CdbMessage(d.completion.tag, d.completion.result, true))
  {
  }
}
