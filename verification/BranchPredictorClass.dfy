// The branch predictor as the object the simulator latches every cycle
// (src/tomasulo/branch_predictor.cpp), proved against BranchPredictors.
module BranchPredictorClass {
  import opened Types
  import opened BranchPredictors
  import opened Arrays

  class BranchPredictor {
    const cur: array<Counter>
    const next: array<Counter>
    var predictions: nat
    var nextPredictions: nat
    var correct: nat
    var nextCorrect: nat

    ghost predicate Valid() {
      cur.Length == next.Length == TABLE_SIZE && cur != next
    }

    // The objects this predictor owns.
    ghost function Repr(): set<object> {
      {this, cur, next}
    }

    ghost function State(): PredictorState
      requires Valid()
      reads this`predictions, this`correct, cur
    {
      PredictorState(cur[..], predictions, correct)
    }

    ghost function NextState(): PredictorState
      requires Valid()
      reads this`nextPredictions, this`nextCorrect, next
    {
      PredictorState(next[..], nextPredictions, nextCorrect)
    }

    constructor ()
      ensures Valid() && State() == FRESH_PREDICTOR && NextState() == FRESH_PREDICTOR
      ensures fresh(Repr()) && allocated(Repr())
    {
      cur := new Counter[TABLE_SIZE](_ => WEAK_NOT_TAKEN);
      next := new Counter[TABLE_SIZE](_ => WEAK_NOT_TAKEN);
      predictions, nextPredictions, correct, nextCorrect := 0, 0, 0, 0;
      new;
      assert cur[..] == FRESH_PREDICTOR.counters && next[..] == FRESH_PREDICTOR.counters;
    }

    method Reset()
      requires Valid()
      modifies Repr()
      ensures State() == FRESH_PREDICTOR && NextState() == FRESH_PREDICTOR
    {
      Fill(cur, WEAK_NOT_TAKEN);
      Fill(next, WEAK_NOT_TAKEN);
      predictions, nextPredictions, correct, nextCorrect := 0, 0, 0, 0;
    }

    method Latch()
      requires Valid()
      modifies this`predictions, this`correct, cur
      ensures State() == old(NextState()) && NextState() == old(NextState())
    {
      Copy(next, cur);
      predictions, correct := nextPredictions, nextCorrect;
    }

    method Predict(pc: Address) returns (taken: bool)
      requires Valid()
      ensures taken == PredictTaken(State(), pc)
    {
      taken := cur[IndexOf(pc)] >= WEAK_TAKEN;
    }

    method Apply(update: PredictorUpdate)
      requires Valid()
      modifies next, this`nextPredictions, this`nextCorrect
      ensures NextState() == BranchPredictors.Apply(State(), update)
    {
      Copy(cur, next);
      nextPredictions, nextCorrect := predictions, correct;
      if !update.valid {
        return;
      }
      var index := IndexOf(update.pc);
      if update.actualTaken {
        if next[index] < STRONG_TAKEN {
          next[index] := next[index] + 1;
        }
      } else if next[index] > STRONG_NOT_TAKEN {
        next[index] := next[index] - 1;
      }
      nextPredictions := nextPredictions + 1;
      if update.predictedNextPc == update.actualNextPc {
        nextCorrect := nextCorrect + 1;
      }
    }
  }
}
