// What the branch predictor has learnt: on a run that fetches in order its
// counters are those of the committed branches of the sequential run, whatever
// was speculated on the way.
module TrainedRuns {
  import opened Types
  import opened Image
  import opened Isa
  import opened Decoder
  import opened ReorderBuffers
  import opened Pipeline
  import opened Invariants
  import opened IssueSteps
  import opened CycleSteps
  import opened Refinement
  import opened BranchPredictors
  import opened PredictedRuns
  import opened Theorems
  import opened Halting
  import opened Stops
  import ArithmeticShifts
  import Numerals
  import ManualFields
  import ROB = ReorderBuffers
  import ReservationStations
  import LoadStoreQueues

  /** One outcome moves the counter of its branch one step towards 3 or towards 0. */
  function Moved(counters: seq<int>, pc: int, taken: bool): (after: seq<int>)
    requires |counters| == 256
    ensures |after| == 256
  {
    var i := pc / 4 % 256;
    if taken then counters[i := if counters[i] < 3 then counters[i] + 1 else 3]
    else counters[i := if counters[i] > 0 then counters[i] - 1 else 0]
  }

  /** A conditional branch and whether it is taken. */
  datatype BranchOutcome = NoBranch | BranchOutcome(pc: Address, taken: bool)

  /** What instruction d does in state a. */
  function OutcomeIn(a: Arch, d: DecodedInstruction): BranchOutcome {
    if !d.isBranch then NoBranch
    else BranchOutcome(a.pc, BranchTaken(d.op, ReadRegister(a.regs, d.rs1), ReadRegister(a.regs, d.rs2)))
  }

  /** What step k of the sequential run does. */
  function OutcomeAt(start: Arch, k: nat): BranchOutcome {
    match StateAt(start, k)
    case None => NoBranch
    case Some(a) => OutcomeIn(a, InstructionAt(start, k))
  }

  /** The counters after the conditional branches among the first k steps, from 1 everywhere. */
  function Learnt(start: Arch, k: nat): (counters: seq<int>)
    ensures |counters| == 256
  {
    if k == 0 then seq(256, _ => 1)
    else
      match OutcomeAt(start, k - 1)
      case NoBranch => Learnt(start, k - 1)
      case BranchOutcome(pc, taken) => Moved(Learnt(start, k - 1), pc as int, taken)
  }

  /** How many of the first k steps are conditional branches. */
  function Branches(start: Arch, k: nat): nat {
    if k == 0 then 0 else Branches(start, k - 1) + if OutcomeAt(start, k - 1).NoBranch? then 0 else 1
  }

  // --- The table --------------------------------------------------------------------------

  lemma IndexIsSpan(pc: Address)
    ensures (pc >> 2) & 0xff == Numerals.Right(pc, 2) & Numerals.LowMask(8)
    ensures IndexOf(pc) == Numerals.Value((pc >> 2) & 0xff)
    ensures Numerals.Value(pc) == pc as int
  {
  }

  /** Four bytes of code share a counter; the table repeats every 1024. */
  lemma IndexNumber(pc: Address)
    ensures IndexOf(pc) == pc as int / 4 % 256
  {
    hide IndexOf, Numerals.Value, Numerals.Right, Numerals.LowMask, ArithmeticShifts.PowerOfTwo;
    IndexIsSpan(pc);
    ManualFields.Powers();
    ManualFields.SpanIsDigits(pc, 2, 8);
  }

  lemma TrainingMoves(p: PredictorState, update: PredictorUpdate)
    requires update.valid
    ensures BranchPredictors.Apply(p, update).counters == Moved(p.counters, update.pc as int, update.actualTaken)
    ensures BranchPredictors.Apply(p, update).predictions == p.predictions + 1
  {
    hide IndexOf;
    IndexNumber(update.pc);
  }

  // --- A commit ------------------------------------------------------------------------------

  /** A committing branch trains the predictor with what the sequential run does at its position,
      and nothing else does. */
  lemma CommitTrains(m: Machine, gh: Ghost, start: Arch, taken: bool)
    requires Inv(m, gh, start) && InRange(m)
    ensures var u := UpdateOf(Observe(m, taken));
            var outcome := OutcomeAt(start, m.committed);
            && (u.valid ==> Retires(Observe(m, taken)))
            && (Retires(Observe(m, taken)) ==>
                  outcome == if u.valid then BranchOutcome(u.pc, u.actualTaken) else NoBranch)
            && (u.valid ==>
                  && StateAt(start, m.committed + 1).Some?
                  && u.actualNextPc == StateAt(start, m.committed + 1).value.pc)
  {
    hide Consistent, Observe, StateAt, Decode, ReadWord, Meaning, OutcomeIn, ROB.Plan, RatSteps.RegisterEffect,
         AllFetched, EntryMatches, WellFormed, Chained, HaltIsYoungest, Mispredicted;
    RobInOrder(m, gh);
    WiresOf(m, taken);
    PlanOfHead(m.rob);
    if Observe(m, taken).rob.commit.valid {
      CommittedFacts(m, gh);
      assert FetchedInOrder(start, gh.slots[m.rob.head]) by {
        assert AllFetched(start, m.rob, gh.slots);
        FetchedEntry(start, m.rob, gh.slots, m.rob.head);
      }
      HeadStep(m, gh, start);
      OutcomeOfHead(m.rob.cur[m.rob.head], gh.slots[m.rob.head]);
    }
  }

  lemma OutcomeOfHead(e: RobEntry, s: Slot)
    requires EntryMatches(e, s) && Meaning(s) && e.ready
    ensures e.isBranch ==> !e.op.HALT? && !s.dec.op.HALT? && !s.faults && e.actualNextPc == s.nextPc
    ensures OutcomeIn(s.pre, s.dec) == if e.isBranch then BranchOutcome(e.pc, e.branchTaken) else NoBranch
  {
    hide BranchTaken, ReadRegister, ResultValue, Successor, Faults, After;
  }

  lemma CommittedCount(m: Machine, taken: bool)
    requires InRange(m) && m.status == Running
    ensures Cycle(m, taken).committed == if Retires(Observe(m, taken)) then m.committed + 1 else m.committed
  {
    hide Observe, ROB.Apply, NextStatus, NextPcOf;
  }

  // --- A run ----------------------------------------------------------------------------------

  /** The counters are those of the committed branches of the sequential run. */
  lemma {:induction false} PredictorLearns(bytes: Bytes, n: nat)
    requires InOrderFetches(bytes, PredictionsOf(bytes), n)
    ensures var s := RunSystem(bytes, n);
            && s.predictor.counters == Learnt(Boot(bytes), s.machine.committed)
            && s.predictor.predictions == Branches(Boot(bytes), s.machine.committed)
  {
    hide RunFor, InOrderFetches, PredictionsOf, Prediction, Boot, StateAt, Inv, Cycle, Observe, UpdateOf, Moved,
         OutcomeAt, StoppedAt, Retires, BranchPredictors.Apply, Reset;
    if n == 0 {
      FreshCounters(bytes);
    } else {
      var predict := PredictionsOf(bytes);
      var s := RunSystem(bytes, n - 1);
      FewerFetches(bytes, predict, n - 1, n);
      PredictorLearns(bytes, n - 1);
      SystemRunsMachine(bytes, n - 1);
      if s.machine.status == Running {
        var gh := RunKeepsInv(bytes, predict, n - 1);
        CommitTrains(s.machine, gh, Boot(bytes), Prediction(s));
        CommittedCount(s.machine, Prediction(s));
        var u := UpdateOf(Observe(s.machine, Prediction(s)));
        if u.valid { TrainingMoves(s.predictor, u); } else { NoTraining(s.predictor, u); }
      }
    }
  }

  lemma FreshCounters(bytes: Bytes)
    ensures RunSystem(bytes, 0).predictor.counters == Learnt(Boot(bytes), RunSystem(bytes, 0).machine.committed)
    ensures RunSystem(bytes, 0).predictor.predictions == RunSystem(bytes, 0).machine.committed == 0
  {
  }

  lemma NoTraining(p: PredictorState, u: PredictorUpdate)
    requires !u.valid
    ensures BranchPredictors.Apply(p, u) == p
  {
  }

  /** So each prediction is decided by the committed branches that share its counter. */
  lemma PredictionIsLearnt(bytes: Bytes, n: nat)
    requires InOrderFetches(bytes, PredictionsOf(bytes), n)
    ensures var s := RunSystem(bytes, n);
            Prediction(s) <==> Learnt(Boot(bytes), s.machine.committed)[s.machine.pc as int / 4 % 256] >= 2
  {
    hide RunSystem, Learnt, Boot, InOrderFetches, PredictionsOf, IndexOf;
    PredictorLearns(bytes, n);
    IndexNumber(RunSystem(bytes, n).machine.pc);
  }

  // --- Accuracy ---------------------------------------------------------------------------------

  /** In this cycle a mispredicted conditional branch commits. */
  predicate BranchFlushes(s: System)
    requires InRange(s.machine)
  {
    s.machine.status == Running
    && UpdateOf(Observe(s.machine, Prediction(s))).valid && Observe(s.machine, Prediction(s)).rob.flush
  }

  function FlushedBranches(bytes: Bytes, n: nat): nat {
    if n == 0 then 0
    else FlushedBranches(bytes, n - 1) + if BranchFlushes(RunSystem(bytes, n - 1)) then 1 else 0
  }

  lemma UpdateFlushes(m: Machine, taken: bool)
    requires InRange(m)
    ensures var w := Observe(m, taken);
            UpdateOf(w).valid ==> (w.rob.flush <==> UpdateOf(w).predictedNextPc != UpdateOf(w).actualNextPc)
  {
    hide PlanIssue, PlanCdb, PreviewRob, ReservationStations.Plan, LoadStoreQueues.Plan;
  }

  /** Every predicted branch is counted as correct unless its commit flushes. */
  lemma {:induction false} WrongPredictionsFlush(bytes: Bytes, n: nat)
    ensures RunSystem(bytes, n).predictor.predictions
              == RunSystem(bytes, n).predictor.correct + FlushedBranches(bytes, n)
  {
    hide Observe, UpdateOf, Prediction, Cycle, Reset, IndexOf;
    if n > 0 {
      WrongPredictionsFlush(bytes, n - 1);
      var s := RunSystem(bytes, n - 1);
      UpdateFlushes(s.machine, Prediction(s));
    }
  }
}
