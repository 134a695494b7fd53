// The simulator's CPU as an object: each cycle freezes every module's outputs,
// lets the modules compute their next state in an arbitrary order, and latches
// them in an arbitrary order (src/tomasulo/cpu.cpp).
module Cpus {
  import opened Types
  import opened Image
  import opened Isa
  import opened WordArithmetic
  import opened Decoder
  import opened Arrays
  import opened ReorderBuffers
  import opened Pipeline
  import opened PredictedRuns
  import opened CyclePhases
  import opened Refinement
  import opened Assertions
  import opened BranchPredictorClass
  import opened CommonDataBusClass
  import opened FunctionalUnitClass
  import opened LoadStoreQueueClass
  import opened MemoryUnitClass
  import opened RegisterFileClass
  import opened RenameTableClass
  import opened ReorderBufferClass
  import opened ReservationStationClass
  import BranchPredictors
  import CommonDataBuses
  import RegisterFiles
  import RenameTables
  import ROB = ReorderBuffers
  import RS = ReservationStations
  import LSQ = LoadStoreQueues
  import MU = MemoryUnits
  import FU = FunctionalUnits
  import Issue = IssueUnits

  /** The system a load leaves. */
  ghost function LoadedSystem(bytes: Bytes, parsed: bool): System {
    System(Reset(bytes).(status := if parsed then Running else LoadError), BranchPredictors.FRESH_PREDICTOR)
  }

  // The modules that keep what has been computed.
  method NewStorage()
    returns (memory: MemoryUnit, registers: RegisterFile, predictor: BranchPredictor, renaming: RenameTable)
    ensures memory.Valid() && registers.Valid() && predictor.Valid() && renaming.Valid()
    ensures Apart(renaming.Repr(), predictor.Repr() + (registers.Repr() + memory.Repr()))
    ensures Apart(predictor.Repr(), registers.Repr() + memory.Repr())
    ensures Apart(registers.Repr(), memory.Repr())
    ensures fresh(renaming.Repr() + (predictor.Repr() + (registers.Repr() + memory.Repr())))
    ensures allocated(renaming.Repr() + (predictor.Repr() + (registers.Repr() + memory.Repr())))
  {
    hide RenameTable.Repr, BranchPredictor.Repr, RegisterFile.Repr, MemoryUnit.Repr;
    memory := new MemoryUnit();
    registers := new RegisterFile();
    predictor := new BranchPredictor();
    renaming := new RenameTable();
  }

  // The modules that hold instructions in flight; they share nothing with what exists already.
  method NewBuffers(ghost owned: set<object>)
    returns (queue: LoadStoreQueue, stations: ReservationStation, rob: ReorderBuffer)
    ensures queue.Valid() && stations.Valid() && rob.Valid()
    ensures Apart(queue.Repr(), owned)
    ensures Apart(stations.Repr(), queue.Repr() + owned)
    ensures Apart(rob.Repr(), stations.Repr() + (queue.Repr() + owned))
    ensures fresh(rob.Repr() + (stations.Repr() + queue.Repr()))
  {
    hide LoadStoreQueue.Repr, ReservationStation.Repr, ReorderBuffer.Repr;
    queue := new LoadStoreQueue();
    stations := new ReservationStation();
    rob := new ReorderBuffer();
  }

  class Cpu {
    const memoryUnit: MemoryUnit
    const registerFile: RegisterFile
    const renameTable: RenameTable
    const rob: ReorderBuffer
    const stations: ReservationStation
    const queue: LoadStoreQueue
    const unit: FunctionalUnit
    const bus: CommonDataBus
    const predictor: BranchPredictor

    var pc: Address
    var nextPc: Address
    var fetchStopped: bool
    var nextFetchStopped: bool
    var status: Status
    var cycles: nat
    var committed: nat
    var exitCode: Word

    const planOrders: seq<seq<PlanStep>>
    const applyOrders: seq<seq<Module>>
    const latchOrders: seq<seq<Module>>

    // The modules own disjoint objects of the right shapes.
    ghost predicate Shaped() {
      && rob.Shaped() && stations.Valid() && queue.Shaped() && renameTable.Valid() && predictor.Valid()
      && registerFile.registers.Length == REGISTER_COUNT && memoryUnit.image.Valid()
      && Apart(rob.Repr(), stations.Repr() + (queue.Repr() + Storage()))
      && Apart(stations.Repr(), queue.Repr() + Storage())
      && Apart(queue.Repr(), Storage())
      && Apart(renameTable.Repr(), predictor.Repr() + (registerFile.Repr() + memoryUnit.Repr()))
      && Apart(predictor.Repr(), registerFile.Repr() + memoryUnit.Repr())
      && Apart(registerFile.Repr(), memoryUnit.Repr())
      && OrdersOk(planOrders, applyOrders, latchOrders)
    }

    // The objects of the modules that keep what has been computed.
    ghost function Storage(): (objects: set<object>)
      ensures this !in objects
    {
      renameTable.Repr() + (predictor.Repr() + (registerFile.Repr() + memoryUnit.Repr()))
    }

    // The objects the modules own.
    ghost function Modules(): (objects: set<object>)
      ensures this !in objects
    {
      {unit, bus} + (rob.Repr() + (stations.Repr() + (queue.Repr() + Storage())))
    }

    // The objects this machine owns.
    ghost function Repr(): set<object> {
      {this} + Modules()
    }

    ghost predicate Valid()
      reads rob`head, rob`tail, queue`head, queue`tail, registerFile`pending, memoryUnit`storeWrite
    {
      Shaped() && rob.Valid() && queue.Valid() && registerFile.Valid() && memoryUnit.Valid()
    }

    /** The current states of all modules. */
    ghost function Now(): Parts
      requires Valid()
      reads bus`preferLoad, rob`head, rob`tail, rob`count, rob.cur, rob.generations, stations`cursor, stations.cur
      reads queue`head, queue`tail, queue`count, queue`loadResult, queue.cur, unit`result
      reads registerFile`pending, registerFile.registers, renameTable.cur, predictor`predictions, predictor`correct,
          predictor.cur
      reads memoryUnit`transaction, memoryUnit`response, memoryUnit`storeWrite, memoryUnit.image.bytes
    {
      Parts(bus.preferLoad, rob.State(), stations.State(), queue.State(), unit.result,
            registerFile.State(), renameTable.State(), predictor.State(), memoryUnit.State())
    }

    /** What latching now would make of them. */
    ghost function Coming(): Parts
      requires Valid()
      reads rob`head, rob`tail, queue`head, queue`tail
      reads bus`nextPreferLoad, rob`nextHead, rob`nextTail, rob`nextCount, rob.next, rob.nextGenerations
      reads stations`nextCursor, stations.next, queue`nextHead, queue`nextTail, queue`nextCount, queue`nextLoadResult,
          queue.next
      reads unit`nextResult, registerFile`pending, registerFile.registers, renameTable.next
      reads predictor`nextPredictions, predictor`nextCorrect, predictor.next
      reads memoryUnit`nextTransaction, memoryUnit`nextResponse, memoryUnit`storeWrite, memoryUnit.image.bytes
    {
      Parts(bus.nextPreferLoad, rob.NextState(), stations.NextState(), queue.NextState(), unit.nextResult,
            registerFile.NextState(), renameTable.NextState(), predictor.NextState(), memoryUnit.NextState())
    }

    ghost function Machine(): Machine
      requires Valid()
      reads this, bus, rob, stations, queue, unit, registerFile, renameTable, predictor, memoryUnit
      reads rob.cur, rob.generations, stations.cur, queue.cur, registerFile.registers, renameTable.cur, predictor.cur,
          memoryUnit.image.bytes
    {
      var now := Now();
      Pipeline.Machine(
        now.regs, now.rat, now.rob, now.rs, now.lsq, now.fu, now.preferLoad, now.memory,
        pc, fetchStopped, status, cycles, committed, exitCode)
    }

    ghost function Whole(): System
      requires Valid()
      reads this, bus, rob, stations, queue, unit, registerFile, renameTable, predictor, memoryUnit
      reads rob.cur, rob.generations, stations.cur, queue.cur, registerFile.registers, renameTable.cur, predictor.cur,
          memoryUnit.image.bytes
    {
      System(Machine(), Now().predictor)
    }

    constructor (plans: seq<seq<PlanStep>>, applies: seq<seq<Module>>, latches: seq<seq<Module>>)
      requires OrdersOk(plans, applies, latches)
      ensures Valid() && status == NotLoaded
      ensures fresh(Repr())
    {
      hide OrdersOk, ReorderBuffer.Repr, ReservationStation.Repr, LoadStoreQueue.Repr, RenameTable.Repr,
           BranchPredictor.Repr, RegisterFile.Repr, MemoryUnit.Repr;
      var memory, registers, predictions, renaming := NewStorage();
      var loads, waiting, ordering := NewBuffers(renaming.Repr()
          + (predictions.Repr() + (registers.Repr() + memory.Repr())));
      memoryUnit, registerFile, renameTable, rob, stations, queue, predictor :=
        memory, registers, renaming, ordering, waiting, loads, predictions;
      unit := new FunctionalUnit();
      bus := new CommonDataBus();
      pc, nextPc, fetchStopped, nextFetchStopped := 0, 0, false, false;
      status, cycles, committed, exitCode := NotLoaded, 0, 0, 0;
      planOrders, applyOrders, latchOrders := plans, applies, latches;
      new;
      assert Apart(rob.Repr(), stations.Repr() + (queue.Repr() + Storage()));
      assert Shaped();
    }

    // --- Phase A: observe -------------------------------------------------------

    method PreviewHead() returns (preview: Preview)
      requires Valid()
      ensures preview == PreviewRob(Machine().rob)
      ensures Valid() && Whole() == old(Whole())
    {
      var found, head := rob.Front();
      preview := Preview(NO_STORE, false, 0);
      if !found {
        return;
      }
      if head.isStore && !head.ready {
        preview := preview.(storeRequest := StoreMessage(head.tag, true));
      }
      if (head.isBranch || head.isJump) && head.ready {
        preview := preview.(flush := head.predictedNextPc != head.actualNextPc);
        if preview.flush {
          preview := preview.(redirectPc := head.actualNextPc);
        }
      }
    }

    method PlanBus(flush: bool) returns (decision: CommonDataBuses.CdbDecision)
      requires Valid()
      ensures decision == PlanCdb(Machine(), flush)
      ensures Valid() && Whole() == old(Whole())
    {
      if flush {
        decision := bus.Plan(NO_RESULT, NO_RESULT);
      } else {
        decision := bus.Plan(unit.result, queue.loadResult);
      }
    }

    // --- Phase B: plan ------------------------------------------------------------

    method SourceState(register: RegisterIndex) returns (source: Issue.SourceState)
      requires Valid()
      ensures source == SourceOf(Machine(), register)
    {
      source := Issue.SourceState(0, NO_TAG, 0, false);
      if register == 0 {
        return;
      }
      var value := registerFile.Read(register);
      var tag := renameTable.Find(register);
      source := source.(architecturalValue := value, producer := tag);
      if !tag.valid {
        return;
      }
      var found, producer := rob.Find(tag);
      if found && producer.ready {
        source := source.(producerReady := true, producerValue := producer.value);
      }
    }

    /** The predictor is asked about conditional branches only. */
    method PredictedPacket(d: DecodedInstruction) returns (packet: Issue.DecodePacket)
      requires Valid()
      ensures packet == PacketOf(pc, d, Prediction(Whole()))
    {
      hide PredictedNextPc, BranchPredictors.PredictTaken;
      var taken := false;
      if d.isBranch {
        taken := predictor.Predict(pc);
      } else {
        OnlyBranchesArePredicted(d, pc, taken, Prediction(Whole()));
      }
      packet := PacketOf(pc, d, taken);
    }

    /** What issuing a decoded instruction depends on, from the current state only. */
    method GatherInputs(d: DecodedInstruction, decision: CommonDataBuses.CdbDecision)
      returns (inputs: Issue.IssueInputs)
      requires Valid() && InRange(Machine())
      ensures inputs == IssueInputsOf(Machine(), d, Prediction(Whole()), decision)
    {
      hide PacketOf, SourceOf, Prediction, NextTag, RS.Full, Apart, OrdersOk;
      var packet := PredictedPacket(d);
      var tag := rob.NextFreeTag();
      var rs1 := SourceState(d.rs1);
      var rs2 := SourceState(d.rs2);
      var robFull := rob.IsFull();
      var stationsFull := stations.IsFull();
      var queueFull := queue.IsFull();
      inputs := Issue.IssueInputs(packet, tag, rs1, rs2, decision.broadcast, !robFull, !stationsFull, !queueFull);
    }

    method PlanIssueStep(flush: bool, decision: CommonDataBuses.CdbDecision)
      returns (outputs: Issue.IssueOutputs, fetchError: bool)
      requires Valid() && InRange(Machine())
      ensures outputs == PlanIssue(Machine(), flush, Prediction(Whole()), decision)
      ensures fetchError == (Fetches(Machine(), flush) && MU.Fetch(Machine().memory, pc).None?)
    {
      hide Decode, Issue.Plan, IssueInputsOf, Prediction, ReadWord;
      outputs, fetchError := Issue.NO_ISSUE, false;
      var robFull := rob.IsFull();
      if flush || fetchStopped || robFull {
        return;
      }
      var word := memoryUnit.FetchWord(pc);
      if word.None? {
        fetchError := true;
        return;
      }
      var inputs := GatherInputs(Decode(word.value), decision);
      outputs := Issue.Plan(inputs);
    }

    /** One plan; the others stay as they were made. */
    method PlanOne(step: PlanStep, before: Plans, preview: Preview, decision: CommonDataBuses.CdbDecision)
      returns (p: Plans)
      requires Valid() && InRange(Machine())
      ensures Valid() && Machine() == old(Machine()) && Whole() == old(Whole())
      ensures PlanMade(step, p, Machine(), Prediction(Whole()), preview, decision)
      ensures OnlyPlans(step, before, p)
    {
      hide PlanIssue, ROB.Plan, RS.Plan, LSQ.Plan, Prediction, Fetches, MU.Fetch, Apart, OrdersOk;
      match step {
        case IssueStep =>
          var issue, fetchError := PlanIssueStep(preview.flush, decision);
          p := before.(issue := issue, fetchError := fetchError);
        case RobStep =>
          var outputs := rob.PlanOutputs();
          p := before.(rob := outputs);
        case StationStep =>
          var dispatch := stations.PlanDispatch(preview.flush);
          p := before.(rs := dispatch);
        case QueueStep =>
          var access := queue.PlanOutputs(
            LSQ.LsqObserve(preview.storeRequest, memoryUnit.response, !memoryUnit.transaction.valid,
                           decision.loadGranted, preview.flush));
          p := before.(lsq := access);
      }
    }

    /** One step of the loop over the plans. */
    method PlanNext(order: seq<PlanStep>, i: nat, before: Plans, preview: Preview,
            decision: CommonDataBuses.CdbDecision)
      returns (p: Plans)
      requires Valid() && InRange(Machine()) && i < |order|
      requires forall j :: 0 <= j < i ==> PlanMade(order[j], before, Machine(), Prediction(Whole()), preview, decision)
      ensures Valid() && Machine() == old(Machine()) && Whole() == old(Whole())
      ensures forall j :: 0 <= j <= i ==> PlanMade(order[j], p, Machine(), Prediction(Whole()), preview, decision)
    {
      hide PlanMade, OnlyPlans, Prediction, Valid, Machine, Whole, Shaped, Repr;
      p := PlanOne(order[i], before, preview, decision);
      forall j | 0 <= j < i
        ensures PlanMade(order[j], p, Machine(), Prediction(Whole()), preview, decision)
      {
        PlanStays(order[i], before, p, order[j], Machine(), Prediction(Whole()), preview, decision);
      }
    }

    /** All four plans, in any order. */
    method PlanAll(order: seq<PlanStep>, preview: Preview, decision: CommonDataBuses.CdbDecision) returns (w: Wires)
      requires Valid() && InRange(Machine()) && IsPlanOrder(order)
      requires preview == PreviewRob(Machine().rob) && decision == PlanCdb(Machine(), preview.flush)
      ensures w == Observe(Machine(), Prediction(Whole()))
      ensures Valid() && Whole() == old(Whole())
    {
      hide PlanCdb, PreviewRob, Prediction, Valid, Machine, Whole, Observe, IsPlanOrder, PlanMade, Shaped, Repr;
      PlanOrderLength(order);
      var p := Plans(Issue.NO_ISSUE, false, RobOutputs(NO_COMMIT, NO_STORE, false, 0), RS.NO_DECISION,
          LSQ.NO_LSQ_DECISION);
      for i := 0 to 4
        invariant Valid() && Machine() == old(Machine()) && Whole() == old(Whole())
        invariant forall j :: 0 <= j < i ==> PlanMade(order[j], p, Machine(), Prediction(Whole()), preview, decision)
      {
        p := PlanNext(order, i, p, preview, decision);
      }
      forall step: PlanStep
        ensures PlanMade(step, p, Machine(), Prediction(Whole()), preview, decision)
      {
        var turn := PlanTurnOf(order, step);
      }
      PlansAreWires(p, Machine(), Prediction(Whole()), preview, decision);
      w := Wires(preview, decision, p.fetchError, p.issue, p.rob, p.rs, p.lsq);
    }

    // --- Phase C: apply ------------------------------------------------------------

    method ApplyBus(w: Wires)
      requires Valid()
      modifies bus`nextPreferLoad
      ensures Valid() && Now() == old(Now())
      ensures Coming() == old(Coming().(preferLoad := w.cdb.nextPreferLoad))
    {
      hide OrdersOk, Now;
      bus.Apply(w.cdb);
    }

    method ApplyRob(w: Wires) returns (accepted: bool)
      requires Valid() && (w.rob.commit.valid ==> rob.count > 0) && (w.rob.flush ==> w.rob.commit.valid)
      modifies rob`nextHead, rob`nextTail, rob`nextCount, rob.next, rob.nextGenerations
      ensures Valid() && Now() == old(Now())
      ensures Coming() == old(Coming().(rob := ROB.Apply(rob.State(), RobInputsOf(w), w.rob)))
      ensures accepted == old(ROB.IssueAccepted(rob.State(), RobInputsOf(w), w.rob))
    {
      hide OrdersOk, Now, RobInputsOf, ROB.Apply, ROB.IssueAccepted;
      accepted := rob.Apply(RobInputsOf(w), w.rob);
    }

    function StationInputs(w: Wires): RS.RsInputs
      reads unit`result
    {
      RS.RsInputs(w.issue.rsEntry, w.issue.writeRs && IssueEffective(w), w.cdb.broadcast,
                  FU.CanAccept(unit.result, w.cdb.integerGranted), w.preview.flush)
    }

    method ApplyStations(w: Wires) returns (accepted: bool)
      requires Valid() && w.rs.selectedIndex <= RS.RS_CAPACITY
      modifies stations`nextCursor, stations.next
      ensures Valid() && Now() == old(Now())
      ensures Coming() == old(Coming().(rs := RS.Apply(stations.State(), StationInputs(w), w.rs)))
      ensures accepted == old(RS.IssueAccepted(stations.State(), StationInputs(w), w.rs))
    {
      hide OrdersOk, Now, RS.Apply, RS.IssueAccepted, StationInputs;
      accepted := stations.Apply(StationInputs(w), w.rs);
    }

    method ApplyQueue(w: Wires) returns (accepted: bool)
      requires Valid() && (w.lsq.removeHead ==> queue.count > 0)
      requires w.lsq.installLoadResult ==> w.lsq.clearLoadResult || !queue.loadResult.valid
      modifies queue`nextHead, queue`nextTail, queue`nextCount, queue`nextLoadResult, queue.next
      ensures Valid() && Now() == old(Now())
      ensures Coming() == old(Coming().(lsq := LSQ.Apply(queue.State(), LsqInputsOf(w), w.lsq)))
      ensures accepted == old(LSQ.IssueAccepted(queue.State(), LsqInputsOf(w)))
    {
      hide OrdersOk, Now, LSQ.Apply, LSQ.IssueAccepted;
      accepted := queue.Apply(LsqInputsOf(w), w.lsq);
    }

    method ApplyUnit(w: Wires) returns (accepted: bool)
      requires Valid() && (w.rs.dispatch.valid ==> FU.Executable(w.rs.dispatch.op))
      modifies unit`nextResult
      ensures Valid() && Now() == old(Now())
      ensures Coming() == old(Coming().(fu :=
                FU.NextResult(unit.result, w.rs.dispatch, w.preview.flush, w.cdb.integerGranted)))
      ensures accepted == old(FU.Accepts(unit.result, w.rs.dispatch, w.preview.flush, w.cdb.integerGranted))
    {
      hide OrdersOk, Now, FU.NextResult, FU.Accepts, FU.Executable;
      accepted := unit.Apply(w.rs.dispatch, w.preview.flush, w.cdb.integerGranted);
    }

    method ApplyRegisters(w: Wires)
      requires Valid()
      modifies registerFile`pending
      ensures Valid() && Now() == old(Now())
      ensures Coming() == old(Coming().(regs := RegisterFiles.Committed(registerFile.State(), RegisterWriteOf(w))))
    {
      hide OrdersOk, RegisterFiles.Committed, RegisterWriteOf;
      registerFile.Apply(RegisterWriteOf(w));
    }

    method ApplyRenaming(w: Wires)
      requires Valid()
      modifies renameTable.next
      ensures Valid() && Now() == old(Now())
      ensures Coming() == old(Coming().(rat :=
                RenameTables.NextTable(renameTable.State(), RatWriteOf(w), RatCommitOf(w), w.rob.flush)))
    {
      hide OrdersOk, Now, RenameTables.NextTable, RatWriteOf, RatCommitOf;
      renameTable.Apply(RatWriteOf(w), RatCommitOf(w), w.rob.flush);
    }

    method ApplyPredictor(w: Wires)
      requires Valid()
      modifies predictor`nextPredictions, predictor`nextCorrect, predictor.next
      ensures Valid() && Now() == old(Now())
      ensures Coming() == old(Coming().(predictor := BranchPredictors.Apply(predictor.State(), UpdateOf(w))))
    {
      hide OrdersOk, Now, BranchPredictors.Apply, UpdateOf;
      predictor.Apply(UpdateOf(w));
    }

    method ApplyMemory(w: Wires) returns (accepted: bool)
      requires Valid() && (w.lsq.request.valid ==> w.lsq.request.tag.valid)
      modifies memoryUnit`nextTransaction, memoryUnit`nextResponse, memoryUnit`storeWrite
      ensures Valid() && Now() == old(Now())
      ensures Coming() == old(Coming().(memory := MU.Apply(memoryUnit.State(), w.lsq.request)))
      ensures accepted == old(MU.Accepts(memoryUnit.State(), w.lsq.request))
    {
      hide OrdersOk, MU.Apply, MU.Accepts;
      accepted := memoryUnit.Apply(w.lsq.request);
    }

    // What computing and latching may change.
    lemma OwnsState()
      ensures this !in Modules()
      ensures {bus, rob, stations, queue, unit, registerFile, renameTable, predictor, memoryUnit} <= Modules()
      ensures {rob.cur, rob.next} <= Modules() && {rob.generations, rob.nextGenerations} <= Modules()
      ensures {stations.cur, stations.next} <= Modules() && {queue.cur, queue.next} <= Modules()
      ensures {renameTable.cur, renameTable.next} <= Modules() && {predictor.cur, predictor.next} <= Modules()
      ensures registerFile.registers in Modules() && memoryUnit.image.bytes in Modules()
    {
    }

    // What the modules demand of their inputs.
    lemma GuardsNow(w: Wires)
      requires Valid() && Guards(w, Machine())
      ensures InRange(Machine()) && (w.rob.commit.valid ==> rob.count > 0) && (w.rob.flush ==> w.rob.commit.valid)
      ensures w.rs.selectedIndex <= RS.RS_CAPACITY && (w.rs.dispatch.valid ==> FU.Executable(w.rs.dispatch.op))
      ensures w.lsq.removeHead ==> queue.count > 0
      ensures w.lsq.installLoadResult ==> w.lsq.clearLoadResult || !queue.loadResult.valid
      ensures w.lsq.request.valid ==> w.lsq.request.tag.valid
    {
      hide FU.Executable, Shaped;
    }

    // The goal and the reports, module by module.
    lemma GoalNow(w: Wires, goal: Parts)
      requires Valid() && Guards(w, Machine()) && goal == Goal(w, Whole())
      ensures goal.preferLoad == w.cdb.nextPreferLoad && goal.rob == ROB.Apply(rob.State(), RobInputsOf(w), w.rob)
      ensures goal.rs == RS.Apply(stations.State(), StationInputs(w), w.rs)
      ensures goal.lsq == LSQ.Apply(queue.State(), LsqInputsOf(w), w.lsq)
      ensures goal.fu == FU.NextResult(unit.result, w.rs.dispatch, w.preview.flush, w.cdb.integerGranted)
      ensures goal.regs == RegisterFiles.Committed(registerFile.State(), RegisterWriteOf(w))
      ensures goal.rat == RenameTables.NextTable(renameTable.State(), RatWriteOf(w), RatCommitOf(w), w.rob.flush)
      ensures goal.predictor == BranchPredictors.Apply(predictor.State(), UpdateOf(w))
      ensures goal.memory == MU.Apply(memoryUnit.State(), w.lsq.request)
    {
      hide Shaped, ROB.Apply, RS.Apply, LSQ.Apply, MU.Apply, FU.NextResult, RegisterFiles.Committed,
           RenameTables.NextTable, BranchPredictors.Apply, RobInputsOf, LsqInputsOf, RegisterWriteOf, RatWriteOf,
           RatCommitOf, UpdateOf;
    }

    lemma ReportsNow(k: Module, w: Wires)
      requires Valid() && InRange(Machine())
      ensures Accepted(k, Machine(), w) ==
              match k
              case RobModule => ROB.IssueAccepted(rob.State(), RobInputsOf(w), w.rob)
              case StationModule => RS.IssueAccepted(stations.State(), StationInputs(w), w.rs)
              case QueueModule => LSQ.IssueAccepted(queue.State(), LsqInputsOf(w))
              case UnitModule => FU.Accepts(unit.result, w.rs.dispatch, w.preview.flush, w.cdb.integerGranted)
              case MemoryModule => MU.Accepts(memoryUnit.State(), w.lsq.request)
              case _ => false
    {
      hide Shaped, ROB.IssueAccepted, RS.IssueAccepted, LSQ.IssueAccepted, MU.Accepts, FU.Accepts, RobInputsOf,
           LsqInputsOf;
    }

    /** What one module computes depends on the current state only, and disturbs no other module. */
    method ApplyOne(k: Module, w: Wires, ghost goal: Parts) returns (accepted: bool)
      requires Valid() && Guards(w, Machine()) && goal == Goal(w, Whole())
      modifies Modules()
      ensures Valid() && Now() == old(Now()) && Coming() == WithPart(k, old(Coming()), goal)
      ensures accepted == Accepted(k, Machine(), w)
    {
      hide Valid, Now, Coming, Modules, Guards, Goal, Accepted, ROB.Apply, RS.Apply, LSQ.Apply, MU.Apply, FU.NextResult,
           RegisterFiles.Committed, RenameTables.NextTable, BranchPredictors.Apply, RobInputsOf, StationInputs,
           LsqInputsOf, RegisterWriteOf, RatWriteOf, RatCommitOf, UpdateOf, ROB.IssueAccepted, RS.IssueAccepted,
           LSQ.IssueAccepted, MU.Accepts, FU.Accepts;
      OwnsState();
      GuardsNow(w);
      GoalNow(w, goal);
      ReportsNow(k, w);
      accepted := false;
      match k {
        case BusModule => ApplyBus(w);
        case RobModule => accepted := ApplyRob(w);
        case StationModule => accepted := ApplyStations(w);
        case QueueModule => accepted := ApplyQueue(w);
        case UnitModule => accepted := ApplyUnit(w);
        case RegisterModule => ApplyRegisters(w);
        case RenameModule => ApplyRenaming(w);
        case PredictorModule => ApplyPredictor(w);
        case MemoryModule => accepted := ApplyMemory(w);
      }
    }

    /** All nine modules, in any order, compute the goal; each reports whether it took what it was given. */
    method ApplyAll(order: seq<Module>, w: Wires, ghost goal: Parts) returns (a: Acceptance)
      requires Valid() && Guards(w, Machine()) && goal == Goal(w, Whole()) && IsOrder(order)
      modifies Modules()
      ensures Valid() && Now() == old(Now()) && Coming() == goal
      ensures forall k: Module :: a.Of(k) == Accepted(k, Machine(), w)
    {
      hide Valid, Now, Coming, Modules, Guards, Goal, SamePart, WithPart, Accepted, Acceptance.Of, Acceptance.With,
           IsOrder;
      OrderLength(order);
      AllPartsSame(goal, goal);
      GuardsNow(w);
      a := Acceptance(false, false, false, false, false);
      for i := 0 to 9
        invariant Valid() && Now() == old(Now()) && Machine() == old(Machine())
        invariant forall j :: 0 <= j < i ==>
                    SamePart(order[j], Coming(), goal) && a.Of(order[j]) == Accepted(order[j], Machine(), w)
      {
        ghost var coming, before := Coming(), a;
        var accepted := ApplyOne(order[i], w, goal);
        a := a.With(order[i], accepted);
        TakesPart(order[i], coming, goal, goal);
        ReportRecorded(before, order[i], Machine(), w);
      }
      forall k: Module
        ensures SamePart(k, Coming(), goal) && a.Of(k) == Accepted(k, Machine(), w)
      {
        var turn := TurnOf(order, k);
      }
      AllPartsSame(Coming(), goal);
    }

    // --- Phase D: latch ----------------------------------------------------------

    method LatchBus()
      requires Valid()
      modifies bus`preferLoad
      ensures Valid() && Now() == old(Now()).(preferLoad := old(Coming()).preferLoad)
      ensures OnlyPart(BusModule, old(Coming()), Coming())
    {
      hide OrdersOk;
      bus.Latch();
    }

    method LatchRob()
      requires Valid() && Coming().rob.head < ROB_CAPACITY && Coming().rob.tail < ROB_CAPACITY
      modifies rob`head, rob`tail, rob`count, rob.cur, rob.generations
      ensures Valid() && Now() == old(Now()).(rob := old(Coming()).rob) && OnlyPart(RobModule, old(Coming()), Coming())
    {
      hide OrdersOk;
      rob.Latch();
    }

    method LatchStations()
      requires Valid()
      modifies stations`cursor, stations.cur
      ensures Valid() && Now() == old(Now()).(rs := old(Coming()).rs)
      ensures OnlyPart(StationModule, old(Coming()), Coming())
    {
      hide OrdersOk;
      stations.Latch();
    }

    method LatchQueue()
      requires Valid() && Coming().lsq.head < LSQ.LSQ_CAPACITY && Coming().lsq.tail < LSQ.LSQ_CAPACITY
      modifies queue`head, queue`tail, queue`count, queue`loadResult, queue.cur
      ensures Valid() && Now() == old(Now()).(lsq := old(Coming()).lsq)
      ensures OnlyPart(QueueModule, old(Coming()), Coming())
    {
      hide OrdersOk;
      queue.Latch();
    }

    method LatchUnit()
      requires Valid()
      modifies unit`result
      ensures Valid() && Now() == old(Now()).(fu := old(Coming()).fu) && OnlyPart(UnitModule, old(Coming()), Coming())
    {
      hide OrdersOk;
      unit.Latch();
    }

    method LatchRegisters()
      requires Valid()
      modifies registerFile`pending, registerFile.registers
      ensures Valid() && Now() == old(Now()).(regs := old(Coming()).regs)
      ensures OnlyPart(RegisterModule, old(Coming()), Coming())
    {
      hide OrdersOk;
      registerFile.Latch();
    }

    method LatchRenaming()
      requires Valid()
      modifies renameTable.cur
      ensures Valid() && Now() == old(Now()).(rat := old(Coming()).rat)
      ensures OnlyPart(RenameModule, old(Coming()), Coming())
    {
      hide OrdersOk;
      renameTable.Latch();
    }

    method LatchPredictor()
      requires Valid()
      modifies predictor`predictions, predictor`correct, predictor.cur
      ensures Valid() && Now() == old(Now()).(predictor := old(Coming()).predictor)
      ensures OnlyPart(PredictorModule, old(Coming()), Coming())
    {
      hide OrdersOk;
      predictor.Latch();
    }

    method LatchMemory()
      requires Valid()
      modifies memoryUnit`transaction, memoryUnit`response, memoryUnit.image.bytes
      ensures Valid() && Now() == old(Now()).(memory := old(Coming()).memory)
      ensures OnlyPart(MemoryModule, old(Coming()), Coming())
    {
      hide OrdersOk;
      memoryUnit.Latch();
    }

    /** One module takes its next state; the others keep what they have and what they computed. */
    method LatchOne(k: Module, ghost goal: Parts)
      requires Valid() && RingsInRange(goal) && SamePart(k, Coming(), goal)
      modifies Modules()
      ensures Valid() && Now() == WithPart(k, old(Now()), old(Coming())) && OnlyPart(k, old(Coming()), Coming())
    {
      hide Valid, Now, Coming, OnlyPart;
      match k {
        case BusModule => LatchBus();
        case RobModule => LatchRob();
        case StationModule => LatchStations();
        case QueueModule => LatchQueue();
        case UnitModule => LatchUnit();
        case RegisterModule => LatchRegisters();
        case RenameModule => LatchRenaming();
        case PredictorModule => LatchPredictor();
        case MemoryModule => LatchMemory();
      }
    }

    /** All nine latches, in any order. */
    method LatchAll(order: seq<Module>, ghost goal: Parts)
      requires IsOrder(order) && Valid() && RingsInRange(goal) && Coming() == goal
      modifies Modules()
      ensures Valid() && Now() == goal
    {
      hide Valid, Now, Coming, Modules, IsOrder, SamePart, OnlyPart, WithPart, RingsInRange;
      AllPartsSame(goal, goal);
      OrderLength(order);
      for i := 0 to 9
        invariant Valid()
        invariant forall j :: 0 <= j < i ==> SamePart(order[j], Now(), goal)
        invariant forall j :: i <= j < |order| ==> SamePart(order[j], Coming(), goal)
      {
        ghost var now, coming := Now(), Coming();
        LatchOne(order[i], goal);
        TakesPart(order[i], now, coming, goal);
        OthersStay(order[i], coming, Coming(), goal);
      }
      forall k: Module
        ensures SamePart(k, Now(), goal)
      {
        var turn := TurnOf(order, k);
      }
      AllPartsSame(Now(), goal);
    }

    // --- The cycle -------------------------------------------------------------------

    /** Where to fetch next; a flush overrides an issue. */
    method Redirect(w: Wires)
      requires Valid()
      modifies this`nextPc, this`nextFetchStopped
      ensures Valid() && nextPc == NextPcOf(Machine(), w) && nextFetchStopped == NextFetchStopped(Machine(), w)
    {
      hide Valid, Now, Coming, Modules;
      nextPc, nextFetchStopped := pc, fetchStopped;
      if IssueEffective(w) {
        nextPc := w.issue.robEntry.predictedNextPc;
        if w.issue.robEntry.op.HALT? {
          nextFetchStopped := true;
        }
      }
      if w.rob.flush {
        nextPc, nextFetchStopped := w.rob.redirectPc, false;
      }
    }

    /** The status after this cycle; later assignments win. */
    method JudgeStatus(w: Wires) returns (next: Status)
      requires Valid()
      ensures next == NextStatus(Machine(), w)
    {
      next := status;
      if w.fetchError && rob.count == 0 {
        next := FetchOutOfBound;
      }
      if w.issue.status.InvalidInstruction? && rob.count == 0 {
        next := Status.InvalidInstruction;
      }
      if w.issue.status.InvalidAllocation? {
        next := InternalError;
      }
      if w.lsq.memoryError {
        next := MemoryOutOfBound;
      }
      if w.rob.commit.halted {
        next := Status.Halted;
      }
    }

    /** Every module computes its part of the goal, in the given order, and no assertion fires. */
    method Compute(order: seq<Module>, w: Wires, ghost goal: Parts)
      requires Valid() && IsOrder(order) && Guards(w, Machine()) && goal == Goal(w, Whole())
      requires InRange(Machine()) && Asserted(Machine(), w)
      modifies Modules()
      ensures Valid() && Now() == old(Now()) && Coming() == goal
    {
      hide Valid, Now, Coming, Guards, Goal, IsOrder, Asserted, Accepted, Acceptance.Of, InRange;
      var a := ApplyAll(order, w, goal);
      ReportsAreGood(a, Machine(), w);
      if IssueEffective(w) {
        assert a.rob && (w.issue.writeRs ==> a.station) && (w.issue.writeLsq ==> a.queue);
      }
      if w.rs.dispatchValid && FU.CanAccept(unit.result, w.cdb.integerGranted) && !w.preview.flush {
        assert a.unit by { FieldsNow(); }
      }
      if w.lsq.request.valid {
        assert a.memory;
      }
    }

    /** Counts a commit, and reads the exit code of a HALT before the registers latch. */
    method Settle(w: Wires)
      requires Valid()
      modifies this`committed, this`exitCode
      ensures Valid() && committed == if Retires(w) then old(committed) + 1 else old(committed)
      ensures exitCode == if w.rob.commit.halted then And(ReadRegister(Now().regs, 10), 0xff) else old(exitCode)
    {
      hide And, Coming, Modules, Apart, OrdersOk;
      if w.rob.commit.valid && !w.rob.commit.entry.op.HALT? {
        committed := committed + 1;
      }
      if w.rob.commit.halted {
        var value := registerFile.Read(10);
        exitCode := And(value, 0xff);
      }
    }

    method Finish(next: Status)
      requires Valid()
      modifies this`pc, this`fetchStopped, this`status, this`cycles
      ensures pc == nextPc && fetchStopped == nextFetchStopped && status == next && cycles == old(cycles) + 1
    {
      pc := nextPc;
      fetchStopped := nextFetchStopped;
      status := next;
      cycles := cycles + 1;
    }

    lemma Assembled(s: System)
      requires Valid() && Now() == PartsOf(s)
      requires pc == s.machine.pc && fetchStopped == s.machine.fetchStopped && status == s.machine.status
      requires cycles == s.machine.cycles && committed == s.machine.committed && exitCode == s.machine.exitCode
      ensures Whole() == s
    {
      hide Valid;
    }

    lemma FieldsNow()
      requires Valid()
      ensures Whole().machine == Machine() && InRange(Machine()) && this in Repr()
      ensures Machine().status == status && Machine().cycles == cycles && Machine().committed == committed
      ensures Machine().exitCode == exitCode
      ensures Machine().regs == registerFile.State() && Machine().rob == rob.State() && Machine().fu == unit.result
    {
    }

    lemma OrdersNow(variant: nat)
      requires Valid() && variant < ORDER_VARIANTS
      ensures |planOrders| == |applyOrders| == |latchOrders| == ORDER_VARIANTS
      ensures IsPlanOrder(planOrders[variant]) && IsOrder(applyOrders[variant]) && IsOrder(latchOrders[variant])
    {
      hide IsPlanOrder, IsOrder, Apart;
    }

    /** Phases A and B: every output of this cycle, in the given order of plans. */
    method FreezeOutputs(order: seq<PlanStep>) returns (w: Wires)
      requires Valid() && InRange(Machine()) && IsPlanOrder(order)
      ensures w == Pipeline.Observe(Machine(), Prediction(Whole()))
      ensures Valid() && Whole() == old(Whole())
    {
      hide Valid, Machine, Whole, Shaped, Repr, IsPlanOrder, Pipeline.Observe, Prediction, PreviewRob, PlanCdb;
      FieldsNow();
      var preview := PreviewHead();
      FieldsNow();
      var decision := PlanBus(preview.flush);
      FieldsNow();
      w := PlanAll(order, preview, decision);
      FieldsNow();
    }

    /** Phase D: the modules latch in the given order, then the fetch state, the status and the cycle count follow. */
    method Install(order: seq<Module>, next: Status, ghost s: System)
      requires Valid() && IsOrder(order) && Coming() == PartsOf(s) && RingsInRange(PartsOf(s))
      requires nextPc == s.machine.pc && nextFetchStopped == s.machine.fetchStopped && next == s.machine.status
      requires cycles + 1 == s.machine.cycles && committed == s.machine.committed && exitCode == s.machine.exitCode
      modifies Repr()
      ensures Valid() && Whole() == s
    {
      hide Valid, Now, Coming, Modules, IsOrder, RingsInRange;
      LatchAll(order, PartsOf(s));
      Finish(next);
      Assembled(s);
    }

    /** Phase C, in the given order, and what phase D will find beside the modules' next states. */
    method ComputeNext(w: Wires, order: seq<Module>, ghost s: System) returns (next: Status)
      requires Valid() && Whole() == s && s.machine.status == Running && InRange(s.machine)
      requires w == Pipeline.Observe(s.machine, Prediction(s)) && Asserted(s.machine, w) && IsOrder(order)
      modifies Modules(), this`nextPc, this`nextFetchStopped, this`committed, this`exitCode
      ensures Valid() && Coming() == PartsOf(CycleSystem(s))
      ensures var m' := CycleSystem(s).machine;
              && nextPc == m'.pc && nextFetchStopped == m'.fetchStopped && next == m'.status
              && cycles + 1 == m'.cycles && committed == m'.committed && exitCode == m'.exitCode
    {
      hide Valid, Now, Coming, Modules, InRange, IsOrder, Pipeline.Observe, Asserted, Guards, Goal, Prediction,
           CycleSystem, NextStatus, NextPcOf, NextFetchStopped, ReadRegister, And, Retires;
      OwnsState();
      GoalOfCycle(s);
      FieldsOfCycle(s);
      Redirect(w);
      Compute(order, w, PartsOf(CycleSystem(s)));
      next := JudgeStatus(w);
      Settle(w);
    }

    /** Phases C and D, in the given orders. */
    method Advance(w: Wires, applyOrder: seq<Module>, latchOrder: seq<Module>, ghost s: System)
      requires Valid() && Whole() == s && s.machine.status == Running && InRange(s.machine)
      requires w == Pipeline.Observe(s.machine, Prediction(s)) && Asserted(s.machine, w)
      requires IsOrder(applyOrder) && IsOrder(latchOrder)
      modifies Repr()
      ensures Valid() && Whole() == CycleSystem(s)
    {
      hide Valid, Now, Coming, Modules, InRange, IsOrder, Pipeline.Observe, Asserted, Prediction, CycleSystem, Machine,
           RingsInRange;
      NextIsInRange(s);
      var next := ComputeNext(w, applyOrder, s);
      Install(latchOrder, next, CycleSystem(s));
    }

    /** One clock cycle. Whatever the orders, the system makes the one step its state determines. */
    method Cycle()
      requires Valid()
      requires status == Running ==>
                 InRange(Machine()) && Asserted(Machine(), Pipeline.Observe(Machine(), Prediction(Whole())))
      modifies Repr()
      ensures Valid() && Whole() == CycleSystem(old(Whole()))
    {
      hide Valid, Machine, Whole, Shaped, Repr, IsPlanOrder, IsOrder, Pipeline.Observe, Asserted, Prediction,
           Pipeline.Cycle;
      FieldsNow();
      if status != Running {
        return;
      }
      var variant := (cycles + 1) % ORDER_VARIANTS;
      OrdersNow(variant);
      var w := FreezeOutputs(planOrders[variant]);
      FieldsNow();
      Advance(w, applyOrders[variant], latchOrders[variant], Whole());
    }

    // --- Load and run -----------------------------------------------------------------

    method ResetBuffers()
      requires Valid()
      modifies rob.Repr() + stations.Repr() + queue.Repr()
      ensures Valid()
      ensures Now() == old(Now()).(rob := EMPTY_ROB, rs := RS.RsState(RS.EMPTY_STATIONS, 0), lsq := LSQ.EMPTY_LSQ)
    {
      hide OrdersOk, ReorderBuffer.State, ReorderBuffer.NextState, ReservationStation.State,
           ReservationStation.NextState, LoadStoreQueue.State, LoadStoreQueue.NextState, RegisterFile.State,
           RenameTable.State, BranchPredictor.State, MemoryUnit.State;
      rob.Reset();
      stations.Reset();
      queue.Reset();
    }

    method ResetTables()
      requires Valid()
      modifies registerFile.Repr() + renameTable.Repr() + predictor.Repr()
      ensures Valid()
      ensures Now() == old(Now()).(regs := Repeat(REGISTER_COUNT, 0), rat := RenameTables.EMPTY_TABLE,
                                   predictor := BranchPredictors.FRESH_PREDICTOR)
    {
      hide OrdersOk, RegisterFile.State, RegisterFile.NextState, RenameTable.State, RenameTable.NextState,
           BranchPredictor.State, BranchPredictor.NextState, ReorderBuffer.State, ReservationStation.State,
           LoadStoreQueue.State, MemoryUnit.State;
      registerFile.Reset();
      renameTable.Reset();
      predictor.Reset();
    }

    method ResetBus()
      requires Valid()
      modifies unit, bus
      ensures Valid() && Now() == old(Now()).(fu := NO_RESULT, preferLoad := false)
    {
      hide OrdersOk, ReorderBuffer.State, ReservationStation.State, LoadStoreQueue.State, RegisterFile.State,
           RenameTable.State, BranchPredictor.State, MemoryUnit.State;
      unit.Reset();
      bus.Reset();
    }

    lemma OwnsModules()
      ensures rob.Repr() + stations.Repr() + queue.Repr() <= Repr()
      ensures registerFile.Repr() + renameTable.Repr() + predictor.Repr() <= Repr()
      ensures {unit, bus} <= Repr() && memoryUnit.Repr() <= Repr()
    {
      hide ReorderBuffer.Repr, ReservationStation.Repr, LoadStoreQueue.Repr, RegisterFile.Repr, RenameTable.Repr,
           BranchPredictor.Repr, MemoryUnit.Repr;
    }

    /** Every module starts afresh, with these bytes in memory. */
    method ResetModules(bytes: Bytes)
      requires Valid()
      modifies Repr()
      ensures Valid() && Now() == PartsOf(System(Reset(bytes), BranchPredictors.FRESH_PREDICTOR))
    {
      hide Valid, Now, Repr, Shaped, ReorderBuffer.Repr, ReservationStation.Repr, LoadStoreQueue.Repr,
           RegisterFile.Repr, RenameTable.Repr, BranchPredictor.Repr, MemoryUnit.Repr;
      OwnsModules();
      ResetBuffers();
      ResetTables();
      ResetBus();
      LoadImage(bytes);
    }

    method LoadImage(image: Bytes)
      requires Valid()
      modifies memoryUnit.Repr()
      ensures Valid() && Now() == old(Now()).(memory := MU.MemoryState(image, MU.NO_TRANSACTION, NO_RESPONSE))
    {
      hide OrdersOk, ReorderBuffer.State, ReservationStation.State, LoadStoreQueue.State, RegisterFile.State,
           RenameTable.State, BranchPredictor.State, ReorderBuffer.NextState, ReservationStation.NextState,
           LoadStoreQueue.NextState;
      memoryUnit.Load(image);
    }

    method ClearFetch()
      requires Valid()
      modifies this`pc, this`nextPc, this`fetchStopped, this`nextFetchStopped
      ensures pc == 0 && !fetchStopped
    {
      pc, nextPc, fetchStopped, nextFetchStopped := 0, 0, false, false;
    }

    method ClearCounts(next: Status)
      requires Valid()
      modifies this`cycles, this`committed, this`exitCode, this`status
      ensures cycles == committed == 0 && exitCode == 0 && status == next
    {
      cycles, committed, exitCode, status := 0, 0, 0, next;
    }

    /** Resets everything and takes what parsing left in memory: the whole image, or as much as came
        before the error. Nothing of an earlier run survives, whether the text was an image or not. */
    method Load(bytes: Bytes, parsed: bool)
      requires Valid()
      modifies Repr()
      ensures Valid() && Whole() == LoadedSystem(bytes, parsed)
    {
      hide Valid, Now, Whole, Shaped;
      ResetModules(bytes);
      ClearFetch();
      ClearCounts(if parsed then Running else LoadError);
      Assembled(LoadedSystem(bytes, parsed));
    }

    lemma OwnsAllocated()
      ensures allocated(Repr())
    {
    }

    lemma RunsOn(image: Bytes, n: nat)
      ensures RunSystem(image, n + 1) == CycleSystem(RunSystem(image, n))
    {
      hide CycleSystem;
    }

    /** At most `limit` cycles from where the run of an image stands after `start` cycles. */
    method Run(limit: nat, ghost image: Bytes, ghost start: nat) returns (outcome: Status, value: Word, ghost ran: nat)
      requires Valid() && Whole() == RunSystem(image, start)
      modifies Repr()
      ensures Valid() && ran <= limit && Whole() == RunSystem(image, start + ran)
      ensures outcome == status && value == exitCode && (status == Running ==> ran == limit)
    {
      hide Valid, Whole, Shaped, Repr, RunSystem, CycleSystem, Asserted, Prediction, Machine, Pipeline.Observe;
      ran := 0;
      var left := limit;
      FieldsNow();
      while status == Running && left > 0
        invariant Valid() && ran + left == limit && Whole() == RunSystem(image, start + ran)
      {
        FieldsNow();
        ReachableAsserts(image, start + ran);
        RunsOn(image, start + ran);
        Cycle();
        ran := ran + 1;
        left := left - 1;
      }
      outcome, value := status, exitCode;
    }
  }
}
