// The machine together with its branch predictor: one deterministic system,
// whose runs are runs of the machine under the predictions the predictor makes.
module PredictedRuns {
  import opened Image
  import opened BranchPredictors
  import opened Pipeline
  import opened Invariants
  import opened Assertions
  import opened Theorems

  datatype System = System(machine: Machine, predictor: PredictorState)

  /** What the predictor says at the machine's pc. */
  predicate Prediction(s: System) { PredictTaken(s.predictor, s.machine.pc) }

  /** Only committing conditional branches train the predictor. */
  function UpdateOf(w: Wires): PredictorUpdate {
    var entry := w.rob.commit.entry;
    if w.rob.commit.valid && entry.isBranch
    then PredictorUpdate(entry.pc, entry.branchTaken, entry.predictedNextPc, entry.actualNextPc, true)
    else NO_UPDATE
  }

  function CycleSystem(s: System): (s': System)
    requires InRange(s.machine)
    ensures InRange(s'.machine)
  {
    if s.machine.status != Running then s
    else System(Cycle(s.machine, Prediction(s)),
                BranchPredictors.Apply(s.predictor, UpdateOf(Observe(s.machine, Prediction(s)))))
  }

  function RunSystem(bytes: Bytes, n: nat): (s: System)
    ensures InRange(s.machine)
  {
    if n == 0 then System(Reset(bytes), FRESH_PREDICTOR) else CycleSystem(RunSystem(bytes, n - 1))
  }

  /** The predictions made along the run of an image. */
  function PredictionsOf(bytes: Bytes): nat -> bool {
    (n: nat) => Prediction(RunSystem(bytes, n))
  }

  lemma PredictionAt(bytes: Bytes, n: nat)
    ensures PredictionsOf(bytes)(n) == Prediction(RunSystem(bytes, n))
  {
    hide RunSystem, Prediction;
  }

  lemma CycledMachine(s: System)
    requires InRange(s.machine)
    ensures CycleSystem(s).machine == Cycle(s.machine, Prediction(s))
  {
    hide Latch, Observe, Prediction, UpdateOf, BranchPredictors.Apply;
  }

  /** So everything proved of runs under arbitrary predictions holds of the machine with its predictor. */
  lemma {:induction false} SystemRunsMachine(bytes: Bytes, n: nat)
    ensures RunSystem(bytes, n).machine == RunFor(bytes, PredictionsOf(bytes), n)
  {
    hide Cycle, CycleSystem, PredictionsOf, Prediction, Reset;
    if n > 0 {
      SystemRunsMachine(bytes, n - 1);
      CycledMachine(RunSystem(bytes, n - 1));
      PredictionAt(bytes, n - 1);
    }
  }

  /** No assertion fires on any run of any image. */
  lemma ReachableAsserts(bytes: Bytes, n: nat)
    ensures var s := RunSystem(bytes, n);
            s.machine.status == Running ==> Asserted(s.machine, Observe(s.machine, Prediction(s)))
  {
    hide RunSystem, RunFor, PredictionsOf, Prediction, Asserted, Observe, Consistent;
    SystemRunsMachine(bytes, n);
    var gh := RunIsConsistent(bytes, PredictionsOf(bytes), n);
    var s := RunSystem(bytes, n);
    if s.machine.status == Running {
      NoAssertionFires(s.machine, gh, Prediction(s));
    }
  }
}
