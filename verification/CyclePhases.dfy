// The parts of a clock cycle that do not depend on how modules are stored:
// the orders in which the simulator runs them, what each must compute from
// the frozen outputs, and what it reports (src/tomasulo/cpu.cpp).
module CyclePhases {
  import opened Types
  import opened Isa
  import opened WordArithmetic
  import opened ReorderBuffers
  import opened Pipeline
  import opened PredictedRuns
  import opened Assertions
  import BranchPredictors
  import CommonDataBuses
  import RegisterFiles
  import RenameTables
  import ROB = ReorderBuffers
  import RS = ReservationStations
  import LSQ = LoadStoreQueues
  import MU = MemoryUnits
  import FU = FunctionalUnits
  import Issue = IssueUnits

  datatype PlanStep = IssueStep | RobStep | StationStep | QueueStep

  datatype Module =
    | BusModule | RobModule | StationModule | QueueModule | UnitModule
    | RegisterModule | RenameModule | PredictorModule | MemoryModule

  // How many orders of each kind the simulator prepares.
  const ORDER_VARIANTS := 64

  ghost predicate Distinct<T>(order: seq<T>) {
    forall i, j :: 0 <= i < j < |order| ==> order[i] != order[j]
  }

  ghost predicate IsPlanOrder(order: seq<PlanStep>) {
    |order| == 4 && Distinct(order) && forall k: PlanStep :: k in order
  }

  /** A permutation of the nine modules. */
  ghost predicate IsOrder(order: seq<Module>) {
    |order| == 9 && Distinct(order) && forall k: Module :: k in order
  }

  lemma OnlyBranchesArePredicted(d: DecodedInstruction, pc: Address, p: bool, q: bool)
    requires !d.isBranch
    ensures PredictedNextPc(d, pc, p) == PredictedNextPc(d, pc, q)
  {
  }

  ghost predicate OrdersOk(plans: seq<seq<PlanStep>>, applies: seq<seq<Module>>, latches: seq<seq<Module>>) {
    && |plans| == |applies| == |latches| == ORDER_VARIANTS
    && forall i :: 0 <= i < ORDER_VARIANTS ==> IsPlanOrder(plans[i]) && IsOrder(applies[i]) && IsOrder(latches[i])
  }

  lemma OrderLength(order: seq<Module>)
    requires IsOrder(order)
    ensures |order| == 9 && Distinct(order)
  {
  }

  lemma TurnOf(order: seq<Module>, k: Module) returns (turn: nat)
    requires IsOrder(order)
    ensures turn < |order| && order[turn] == k
  {
    assert k in order;
    turn :| turn < |order| && order[turn] == k;
  }

  lemma PlanOrderLength(order: seq<PlanStep>)
    requires IsPlanOrder(order)
    ensures |order| == 4
  {
  }

  lemma PlanTurnOf(order: seq<PlanStep>, step: PlanStep) returns (turn: nat)
    requires IsPlanOrder(order)
    ensures turn < |order| && order[turn] == step
  {
    assert step in order;
    turn :| turn < |order| && order[turn] == step;
  }

  /** Whether a module reports that it took what it was given. */
  predicate Accepted(k: Module, m: Machine, w: Wires)
    requires InRange(m)
  {
    match k
    case RobModule => ROB.IssueAccepted(m.rob, RobInputsOf(w), w.rob)
    case StationModule => RS.IssueAccepted(m.rs, RsInputsOf(m, w), w.rs)
    case QueueModule => LSQ.IssueAccepted(m.lsq, LsqInputsOf(w))
    case UnitModule => FU.Accepts(m.fu, w.rs.dispatch, w.preview.flush, w.cdb.integerGranted)
    case MemoryModule => MU.Accepts(m.memory, w.lsq.request)
    case _ => false
  }

  // The states of all modules, or what their next latch will make of them.
  datatype Parts = Parts(
    preferLoad: bool, rob: RobState, rs: RS.RsState, lsq: LSQ.LsqState, fu: FUResult,
    regs: Registers, rat: RenameTables.Table, predictor: BranchPredictors.PredictorState, memory: MU.MemoryState)

  predicate SamePart(k: Module, p: Parts, q: Parts) {
    match k
    case BusModule => p.preferLoad == q.preferLoad
    case RobModule => p.rob == q.rob
    case StationModule => p.rs == q.rs
    case QueueModule => p.lsq == q.lsq
    case UnitModule => p.fu == q.fu
    case RegisterModule => p.regs == q.regs
    case RenameModule => p.rat == q.rat
    case PredictorModule => p.predictor == q.predictor
    case MemoryModule => p.memory == q.memory
  }

  /** Everything but module k's part is the same. */
  predicate OnlyPart(k: Module, p: Parts, q: Parts) {
    && (k.BusModule? || p.preferLoad == q.preferLoad)
    && (k.RobModule? || p.rob == q.rob)
    && (k.StationModule? || p.rs == q.rs)
    && (k.QueueModule? || p.lsq == q.lsq)
    && (k.UnitModule? || p.fu == q.fu)
    && (k.RegisterModule? || p.regs == q.regs)
    && (k.RenameModule? || p.rat == q.rat)
    && (k.PredictorModule? || p.predictor == q.predictor)
    && (k.MemoryModule? || p.memory == q.memory)
  }

  /** p with module k's part taken from q. */
  function WithPart(k: Module, p: Parts, q: Parts): Parts {
    match k
    case BusModule => p.(preferLoad := q.preferLoad)
    case RobModule => p.(rob := q.rob)
    case StationModule => p.(rs := q.rs)
    case QueueModule => p.(lsq := q.lsq)
    case UnitModule => p.(fu := q.fu)
    case RegisterModule => p.(regs := q.regs)
    case RenameModule => p.(rat := q.rat)
    case PredictorModule => p.(predictor := q.predictor)
    case MemoryModule => p.(memory := q.memory)
  }

  /** Taking a part that agrees with the goal reaches the goal there and loses it nowhere else. */
  lemma TakesPart(k: Module, p: Parts, q: Parts, goal: Parts)
    ensures SamePart(k, q, goal) ==> SamePart(k, WithPart(k, p, q), goal)
    ensures forall j: Module :: SamePart(j, p, goal) && j != k ==> SamePart(j, WithPart(k, p, q), goal)
  {
  }

  lemma OthersStay(k: Module, p: Parts, q: Parts, goal: Parts)
    requires OnlyPart(k, p, q)
    ensures forall j: Module :: SamePart(j, p, goal) && j != k ==> SamePart(j, q, goal)
  {
  }

  lemma AllPartsSame(p: Parts, q: Parts)
    ensures (forall k: Module :: SamePart(k, p, q)) <==> p == q
  {
    if forall k: Module :: SamePart(k, p, q) {
      assert SamePart(BusModule, p, q) && SamePart(RobModule, p, q) && SamePart(StationModule, p, q);
      assert SamePart(QueueModule, p, q) && SamePart(UnitModule, p, q) && SamePart(RegisterModule, p, q);
      assert SamePart(RenameModule, p, q) && SamePart(PredictorModule, p, q) && SamePart(MemoryModule, p, q);
    }
  }

  function PartsOf(s: System): Parts {
    var m := s.machine;
    Parts(m.preferLoad, m.rob, m.rs, m.lsq, m.fu, m.regs, m.rat, s.predictor, m.memory)
  }

  predicate RingsInRange(p: Parts) {
    p.rob.head < ROB_CAPACITY && p.rob.tail < ROB_CAPACITY && p.lsq.head < LSQ.LSQ_CAPACITY
    && p.lsq.tail < LSQ.LSQ_CAPACITY
  }

  /** What the modules demand of the frozen outputs. */
  predicate Guards(w: Wires, m: Machine) {
    && InRange(m)
    && (w.rob.commit.valid ==> m.rob.count > 0)
    && (w.rob.flush ==> w.rob.commit.valid)
    && w.rs.selectedIndex <= RS.RS_CAPACITY
    && (w.lsq.removeHead ==> m.lsq.count > 0)
    && (w.lsq.installLoadResult ==> w.lsq.clearLoadResult || !m.lsq.loadResult.valid)
    && (w.rs.dispatch.valid ==> FU.Executable(w.rs.dispatch.op))
    && (w.lsq.request.valid ==> w.lsq.request.tag.valid)
  }

  /** What the modules must compute from the current state and the frozen outputs. */
  function Goal(w: Wires, s: System): Parts
    requires Guards(w, s.machine)
  {
    var m := s.machine;
    Parts(w.cdb.nextPreferLoad,
          ROB.Apply(m.rob, RobInputsOf(w), w.rob),
          RS.Apply(m.rs, RsInputsOf(m, w), w.rs),
          LSQ.Apply(m.lsq, LsqInputsOf(w), w.lsq),
          FU.NextResult(m.fu, w.rs.dispatch, w.preview.flush, w.cdb.integerGranted),
          RegisterFiles.Committed(m.regs, RegisterWriteOf(w)),
          RenameTables.NextTable(m.rat, RatWriteOf(w), RatCommitOf(w), w.rob.flush),
          BranchPredictors.Apply(s.predictor, UpdateOf(w)),
          MU.Apply(m.memory, w.lsq.request))
  }

  // The modules' reports in one cycle.
  datatype Acceptance = Acceptance(rob: bool, station: bool, queue: bool, unit: bool, memory: bool) {
    predicate Of(k: Module) {
      match k
      case RobModule => rob
      case StationModule => station
      case QueueModule => queue
      case UnitModule => unit
      case MemoryModule => memory
      case _ => false
    }

    function With(k: Module, accepted: bool): Acceptance {
      match k
      case RobModule => this.(rob := accepted)
      case StationModule => this.(station := accepted)
      case QueueModule => this.(queue := accepted)
      case UnitModule => this.(unit := accepted)
      case MemoryModule => this.(memory := accepted)
      case _ => this
    }
  }

  /** A report is recorded for its module and leaves the other reports alone. */
  lemma ReportRecorded(a: Acceptance, k: Module, m: Machine, w: Wires)
    requires InRange(m)
    ensures var b := a.With(k, Accepted(k, m, w));
            b.Of(k) == Accepted(k, m, w) && forall j: Module :: j != k ==> b.Of(j) == a.Of(j)
  {
    hide ROB.IssueAccepted, RS.IssueAccepted, LSQ.IssueAccepted, MU.Accepts, FU.Accepts;
  }

  /** The assertions the simulator evaluates once every module has reported. */
  lemma ReportsAreGood(a: Acceptance, m: Machine, w: Wires)
    requires InRange(m) && Asserted(m, w)
    requires forall k: Module :: a.Of(k) == Accepted(k, m, w)
    ensures IssueEffective(w) ==> a.rob && (w.issue.writeRs ==> a.station) && (w.issue.writeLsq ==> a.queue)
    ensures w.rs.dispatchValid && FU.CanAccept(m.fu, w.cdb.integerGranted) && !w.preview.flush ==> a.unit
    ensures w.lsq.request.valid ==> a.memory
  {
    hide ROB.IssueAccepted, RS.IssueAccepted, LSQ.IssueAccepted, MU.Accepts, FU.Accepts, FU.CanAccept, InstallAsserted;
    assert a.Of(RobModule) == a.rob && a.Of(StationModule) == a.station && a.Of(QueueModule) == a.queue;
    assert a.Of(UnitModule) == a.unit && a.Of(MemoryModule) == a.memory;
  }

  // The four plans of one cycle.
  datatype Plans = Plans(
    issue: Issue.IssueOutputs, fetchError: bool, rob: RobOutputs, rs: RS.RsDecision, lsq: LSQ.LsqDecision)

  /** The plan a step is responsible for has been made. */
  predicate PlanMade(step: PlanStep, p: Plans, m: Machine, taken: bool, preview: Preview,
          cdb: CommonDataBuses.CdbDecision)
    requires InRange(m)
  {
    match step
    case IssueStep =>
      p.issue == PlanIssue(m, preview.flush, taken, cdb)
          && p.fetchError == (Fetches(m, preview.flush) && MU.Fetch(m.memory, m.pc).None?)
    case RobStep => p.rob == ROB.Plan(m.rob)
    case StationStep => p.rs == RS.Plan(m.rs, preview.flush)
    case QueueStep => p.lsq == LSQ.Plan(m.lsq, ObserveLsq(m, preview, cdb))
  }

  /** A step changes no plan but its own. */
  predicate OnlyPlans(step: PlanStep, before: Plans, p: Plans) {
    p == match step
         case IssueStep => before.(issue := p.issue, fetchError := p.fetchError)
         case RobStep => before.(rob := p.rob)
         case StationStep => before.(rs := p.rs)
         case QueueStep => before.(lsq := p.lsq)
  }

  lemma PlanStays(step: PlanStep, before: Plans, p: Plans, other: PlanStep,
                  m: Machine, taken: bool, preview: Preview, cdb: CommonDataBuses.CdbDecision)
    requires InRange(m) && OnlyPlans(step, before, p)
    requires PlanMade(step, p, m, taken, preview, cdb) && PlanMade(other, before, m, taken, preview, cdb)
    ensures PlanMade(other, p, m, taken, preview, cdb)
  {
    hide PlanIssue, ROB.Plan, RS.Plan, LSQ.Plan, Fetches, MU.Fetch, ObserveLsq;
  }

  lemma PlansAreWires(p: Plans, m: Machine, taken: bool, preview: Preview, cdb: CommonDataBuses.CdbDecision)
    requires InRange(m) && forall step: PlanStep :: PlanMade(step, p, m, taken, preview, cdb)
    requires preview == PreviewRob(m.rob) && cdb == PlanCdb(m, preview.flush)
    ensures Wires(preview, cdb, p.fetchError, p.issue, p.rob, p.rs, p.lsq) == Observe(m, taken)
  {
    hide PlanIssue, PlanCdb, PreviewRob, ROB.Plan, RS.Plan, LSQ.Plan, Fetches, MU.Fetch, ObserveLsq;
    assert PlanMade(IssueStep, p, m, taken, preview, cdb) && PlanMade(RobStep, p, m, taken, preview, cdb);
    assert PlanMade(StationStep, p, m, taken, preview, cdb) && PlanMade(QueueStep, p, m, taken, preview, cdb);
  }

  lemma PlansMeetGuards(m: Machine, taken: bool)
    requires InRange(m) && Asserted(m, Observe(m, taken))
    ensures Guards(Observe(m, taken), m)
  {
    hide PlanIssue, PlanCdb, PreviewRob, LSQ.MakeRequest, LSQ.LoadCompletion, LSQ.MaySend, LSQ.MatchingResponse,
         RS.MakeExecute, IssueAsserted, MU.Accepts, FU.Accepts, FU.Executable;
  }

  /** The modules' goal is the next state of the whole system. */
  lemma GoalOfCycle(s: System)
    requires InRange(s.machine) && s.machine.status == Running
    requires Asserted(s.machine, Observe(s.machine, Prediction(s)))
    ensures Guards(Observe(s.machine, Prediction(s)), s.machine)
    ensures Goal(Observe(s.machine, Prediction(s)), s) == PartsOf(CycleSystem(s))
  {
    hide Observe, Prediction, ROB.Apply, RS.Apply, LSQ.Apply, FU.NextResult, RegisterFiles.Committed,
         RenameTables.NextTable, MU.Apply, BranchPredictors.Apply, NextPcOf, NextStatus, NextFetchStopped, RobInputsOf,
         RsInputsOf, LsqInputsOf, UpdateOf, Asserted;
    PlansMeetGuards(s.machine, Prediction(s));
  }

  /** The fields of the next state that no module holds. */
  lemma FieldsOfCycle(s: System)
    requires InRange(s.machine) && s.machine.status == Running
    ensures var w := Observe(s.machine, Prediction(s));
            var m' := CycleSystem(s).machine;
            && m'.pc == NextPcOf(s.machine, w) && m'.fetchStopped == NextFetchStopped(s.machine, w)
            && m'.status == NextStatus(s.machine, w) && m'.cycles == s.machine.cycles + 1
            && m'.committed == (if Retires(w) then s.machine.committed + 1 else s.machine.committed)
            && m'.exitCode == if w.rob.commit.halted then And(ReadRegister(s.machine.regs, 10), 0xff)
                else s.machine.exitCode
  {
    hide Observe, Prediction, ROB.Apply, RS.Apply, LSQ.Apply, FU.NextResult, RegisterFiles.Committed,
         RenameTables.NextTable, MU.Apply, BranchPredictors.Apply, NextPcOf, NextStatus, NextFetchStopped, RobInputsOf,
         RsInputsOf, LsqInputsOf, UpdateOf, And, ReadRegister;
  }

  lemma NextIsInRange(s: System)
    requires InRange(s.machine)
    ensures RingsInRange(PartsOf(CycleSystem(s)))
  {
    hide CycleSystem;
  }
}
