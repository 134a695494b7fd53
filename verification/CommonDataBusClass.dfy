// The common data bus arbiter as an object (src/tomasulo/common_data_bus.cpp),
// proved against CommonDataBuses.
module CommonDataBusClass {
  import opened Types
  import opened CommonDataBuses

  class CommonDataBus {
    var preferLoad: bool
    var nextPreferLoad: bool

    constructor ()
      ensures !preferLoad && !nextPreferLoad
    {
      preferLoad, nextPreferLoad := false, false;
    }

    method Reset()
      modifies this
      ensures !preferLoad && !nextPreferLoad
    {
      preferLoad, nextPreferLoad := false, false;
    }

    method Latch()
      modifies this`preferLoad
      ensures preferLoad == nextPreferLoad
    {
      preferLoad := nextPreferLoad;
    }

    method Plan(integer: FUResult, load: FUResult) returns (decision: CdbDecision)
      ensures decision == Arbitrate(preferLoad, integer, load)
    {
      var integerValid, loadValid := ValidCandidate(integer), ValidCandidate(load);
      decision := CdbDecision(NO_MESSAGE, NO_RESULT, false, false, preferLoad);
      if !integerValid && !loadValid {
        return;
      }
      if integerValid && loadValid {
        decision := if preferLoad then SelectLoad(load) else SelectInteger(integer);
        return;
      }
      decision := if integerValid then SelectInteger(integer) else SelectLoad(load);
    }

    method Apply(decision: CdbDecision)
      modifies this`nextPreferLoad
      ensures nextPreferLoad == decision.nextPreferLoad
    {
      nextPreferLoad := decision.nextPreferLoad;
    }
  }
}
