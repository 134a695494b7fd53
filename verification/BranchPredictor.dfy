// The bimodal branch predictor (src/tomasulo/branch_predictor.cpp): 256
// two-bit saturating counters indexed by the pc. Nothing else in the machine
// depends on what it predicts.
module BranchPredictors {
  import opened Types

  const TABLE_SIZE := 256

  const STRONG_NOT_TAKEN := 0
  const WEAK_NOT_TAKEN := 1
  const WEAK_TAKEN := 2
  const STRONG_TAKEN := 3

  type Counter = c: int | STRONG_NOT_TAKEN <= c <= STRONG_TAKEN
  type Counters = s: seq<Counter> | |s| == TABLE_SIZE witness Repeat<Counter>(TABLE_SIZE, STRONG_NOT_TAKEN)

  datatype PredictorState = PredictorState(counters: Counters, predictions: nat, correct: nat)

  const FRESH_PREDICTOR := PredictorState(Repeat<Counter>(TABLE_SIZE, WEAK_NOT_TAKEN), 0, 0)

  datatype PredictorUpdate = PredictorUpdate(
    pc: Address, actualTaken: bool, predictedNextPc: Address, actualNextPc: Address, valid: bool)

  const NO_UPDATE := PredictorUpdate(0, false, 0, 0, false)

  function IndexOf(pc: Address): (index: nat)
    ensures index < TABLE_SIZE
  {
    LowByte((pc >> 2) & 0xff)
  }

  function LowByte(field: Word): (index: nat)
    requires field <= 0xff
    ensures index < TABLE_SIZE
  {
    field as int
  }

  predicate PredictTaken(p: PredictorState, pc: Address) {
    p.counters[IndexOf(pc)] >= WEAK_TAKEN
  }

  function Trained(counter: Counter, taken: bool): Counter {
    if taken then (if counter < STRONG_TAKEN then counter + 1 else counter)
    else (if counter > STRONG_NOT_TAKEN then counter - 1 else counter)
  }

  /** The predictor after a cycle. */
  function Apply(p: PredictorState, update: PredictorUpdate): PredictorState {
    if !update.valid then p
    else
      var index := IndexOf(update.pc);
      PredictorState(p.counters[index := Trained(p.counters[index], update.actualTaken)],
                     p.predictions + 1,
                     if update.predictedNextPc == update.actualNextPc then p.correct + 1 else p.correct)
  }

  // An update of a branch at pc with a given outcome.
  predicate Outcome(update: PredictorUpdate, pc: Address, taken: bool) {
    update.valid && update.pc == pc && update.actualTaken == taken
  }

  /** Two outcomes alike decide the next prediction, whatever was learnt before. */
  lemma TwoOutcomesDecide(p: PredictorState, first: PredictorUpdate, second: PredictorUpdate, pc: Address, taken: bool)
    requires Outcome(first, pc, taken) && Outcome(second, pc, taken)
    ensures PredictTaken(Apply(Apply(p, first), second), pc) == taken
  {
    hide IndexOf;
  }

  /** After three outcomes alike, a single contrary one does not change the prediction. */
  lemma OneSurpriseIsForgiven(p: PredictorState, runs: seq<PredictorUpdate>, surprise: PredictorUpdate, pc: Address,
          taken: bool)
    requires |runs| == 3 && Outcome(runs[0], pc, taken) && Outcome(runs[1], pc, taken) && Outcome(runs[2], pc, taken)
    requires Outcome(surprise, pc, !taken)
    ensures PredictTaken(Apply(Apply(Apply(Apply(p, runs[0]), runs[1]), runs[2]), surprise), pc) == taken
  {
    hide IndexOf;
  }
}
