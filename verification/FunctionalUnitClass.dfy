// The functional unit's one-entry result register as an object
// (src/tomasulo/functional_unit.cpp), proved against FunctionalUnits.
module FunctionalUnitClass {
  import opened Types
  import opened FunctionalUnits

  class FunctionalUnit {
    var result: FUResult
    var nextResult: FUResult

    constructor ()
      ensures result == NO_RESULT && nextResult == NO_RESULT
    {
      result, nextResult := NO_RESULT, NO_RESULT;
    }

    method Reset()
      modifies this
      ensures result == NO_RESULT && nextResult == NO_RESULT
    {
      result, nextResult := NO_RESULT, NO_RESULT;
    }

    method Latch()
      modifies this`result
      ensures result == nextResult
    {
      result := nextResult;
    }

    /** Only executable instructions may be dispatched here. */
    method Apply(execute: Dispatch, flush: bool, resultAccepted: bool) returns (accepted: bool)
      requires !flush && execute.valid && CanAccept(result, resultAccepted) ==> Executable(execute.op)
      modifies this`nextResult
      ensures nextResult == NextResult(result, execute, flush, resultAccepted)
      ensures accepted == Accepts(result, execute, flush, resultAccepted)
    {
      nextResult := result;
      accepted := false;
      if flush {
        nextResult := NO_RESULT;
        return;
      }
      if resultAccepted && result.valid {
        nextResult := NO_RESULT;
      }
      if !execute.valid || !CanAccept(result, resultAccepted) {
        return;
      }
      var computed := ExecuteInstruction(execute);
      assert computed.valid;
      nextResult := computed;
      accepted := true;
    }
  }
}
