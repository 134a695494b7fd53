// Two-way arbiter between the functional unit and the load buffer
// (src/tomasulo/common_data_bus.cpp).
module CommonDataBuses {
  import opened Types

  /** One cycle's arbitration. */
  datatype CdbDecision = CdbDecision(
    broadcast: CdbMessage,
    completion: FUResult,
    integerGranted: bool,
    loadGranted: bool,
    nextPreferLoad: bool)

  predicate ValidCandidate(result: FUResult) { result.valid && result.tag.valid }

  function SelectInteger(result: FUResult): CdbDecision {
    CdbDecision(CdbMessage(result.tag, result.result, true), result, true, false, true)
  }

  function SelectLoad(result: FUResult): CdbDecision {
    CdbDecision(CdbMessage(result.tag, result.result, true), result, false, true, false)
  }

  function Arbitrate(preferLoad: bool, integer: FUResult, load: FUResult): CdbDecision {
    if ValidCandidate(integer) && ValidCandidate(load) then
      (if preferLoad then SelectLoad(load) else SelectInteger(integer))
    else if ValidCandidate(integer) then SelectInteger(integer)
    else if ValidCandidate(load) then SelectLoad(load)
    else CdbDecision(NO_MESSAGE, NO_RESULT, false, false, preferLoad)
  }
}
