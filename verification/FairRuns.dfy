// Fair scheduling on whole runs: what is ready is on the bus within a fixed
// number of cycles.
module FairRuns {
  import opened Types
  import opened Image
  import opened Pipeline
  import opened Invariants
  import opened LoadStoreQueues
  import opened CycleSteps
  import opened Progress
  import opened Theorems
  import Fairness
  import FU = FunctionalUnits
  import RS = ReservationStations

  /** Nothing in flight survives this cycle: the machine has stopped, or flushes. */
  predicate Interrupted(m: Machine)
    requires InRange(m)
  {
    m.status != Running || PreviewRob(m.rob).flush
  }

  /** The bus carries `result` in this cycle. */
  predicate Broadcasts(m: Machine, result: FUResult)
    requires InRange(m)
  {
    var cdb := PlanCdb(m, PreviewRob(m.rob).flush);
    cdb.completion == result && cdb.broadcast == CdbMessage(result.tag, result.result, true)
  }

  /** Cycles until station k's result is broadcast, at most. */
  function StationTurn(m: Machine, k: nat): int {
    3 + 2 * Distance(m.rs.cursor, k) + (if UnitWaits(m) then 1 else 0)
  }

  lemma BroadcastNow(m: Machine)
    requires InRange(m) && !PreviewRob(m.rob).flush && PlanCdb(m, false).completion.valid
    ensures Broadcasts(m, PlanCdb(m, false).completion)
  {
    hide PreviewRob;
  }

  /** Every running cycle that does not flush is an execution step and an access step. */
  lemma RunExecutes(bytes: Bytes, predict: nat -> bool, n: nat)
    returns (inputs: RS.RsInputs, o: LsqObserve, accesses: LsqInputs)
    requires RunFor(bytes, predict, n).status == Running && !PreviewRob(RunFor(bytes, predict, n).rob).flush
    ensures ExecutionStep(RunFor(bytes, predict, n), inputs, RunFor(bytes, predict, n + 1))
    ensures AccessStep(RunFor(bytes, predict, n), o, accesses, RunFor(bytes, predict, n + 1))
    ensures TagsAreValid(RunFor(bytes, predict, n))
  {
    hide RunFor, Cycle, Consistent, Stepped, Observe, ObservationOf, EventOf, PreviewRob, RS.Plan, RS.Apply,
         FU.NextResult, PlanCdb, AccessStep;
    var m, m' := RunFor(bytes, predict, n), RunFor(bytes, predict, n + 1);
    var gh := RunIsConsistent(bytes, predict, n);
    RunStep(bytes, predict, n);
    StepHolds(m, gh, predict(n));
    o := ObservationOf(m, predict(n));
    var w, ev := Observe(m, predict(n)), EventOf(m, gh, predict(n));
    WireParts(m, gh, predict(n), w, o, ev, m');
    ExecutionStepHolds(m, gh, predict(n), w, o, ev, m');
    AccessStepHolds(m, gh, predict(n), w, o, ev, m');
    inputs, accesses := RsInputsOf(m, w), LsqInputsOf(w);
  }

  /** An executed result is broadcast in this cycle or the next. */
  lemma {:induction false} ExecutedIsBroadcast(bytes: Bytes, predict: nat -> bool, n: nat) returns (j: nat)
    requires RunFor(bytes, predict, n).status == Running && RunFor(bytes, predict, n).fu.valid
    ensures n <= j < n + (if UnitWaits(RunFor(bytes, predict, n)) then 2 else 1)
    ensures Interrupted(RunFor(bytes, predict, j))
              || Broadcasts(RunFor(bytes, predict, j), RunFor(bytes, predict, n).fu)
    decreases UnitWaits(RunFor(bytes, predict, n))
  {
    hide RunFor, ExecutionStep, Broadcasts, PreviewRob, PlanCdb, UnitWaits;
    var m := RunFor(bytes, predict, n);
    j := n;
    if !PreviewRob(m.rob).flush {
      var inputs, _, _ := RunExecutes(bytes, predict, n);
      UnitProgress(m, inputs, RunFor(bytes, predict, n + 1));
      if UnitWaits(m) {
        j := n + 1;
        if RunFor(bytes, predict, j).status == Running { j := ExecutedIsBroadcast(bytes, predict, j); }
      } else {
        BroadcastNow(m);
      }
    }
  }

  lemma StationTurnFalls(m: Machine, inputs: RS.RsInputs, m': Machine, k: nat)
    requires ExecutionStep(m, inputs, m') && k < RS.RS_CAPACITY && RS.ReadyToGo(m.rs.cur[k])
    ensures 3 <= StationTurn(m, k) <= 34 && FU.ExecuteInstruction(RS.MakeExecute(m.rs.cur[k])).valid
    ensures || m'.fu == FU.ExecuteInstruction(RS.MakeExecute(m.rs.cur[k]))
            || (m'.rs.cur[k] == m.rs.cur[k] && StationTurn(m', k) < StationTurn(m, k))
  {
    hide UnitWaits, RS.ReadyToGo, RS.Plan, RS.Apply, PlanCdb, Distance, FU.NextResult, FU.ExecuteInstruction,
         RS.MakeExecute;
    Fairness.DistanceRange(m.rs.cursor, k);
    StationProgress(m, inputs, m', k);
  }

  lemma CursorInRange(bytes: Bytes, predict: nat -> bool, n: nat)
    requires RunFor(bytes, predict, n).status == Running
    ensures RunFor(bytes, predict, n).rs.cursor < RS.RS_CAPACITY
  {
    hide RunFor;
    var _ := RunIsConsistent(bytes, predict, n);
  }

  /** Fair scheduling: the result of an instruction that is ready in a station is on the bus within 34
      cycles, unless the machine flushes or stops before. */
  lemma {:induction false} ReadyIsBroadcast(bytes: Bytes, predict: nat -> bool, n: nat, k: nat) returns (j: nat)
    requires RunFor(bytes, predict, n).status == Running
    requires k < RS.RS_CAPACITY && RS.ReadyToGo(RunFor(bytes, predict, n).rs.cur[k])
    ensures n <= j < n + StationTurn(RunFor(bytes, predict, n), k) <= n + 34
    ensures || Interrupted(RunFor(bytes, predict, j))
            || Broadcasts(RunFor(bytes, predict, j),
                FU.ExecuteInstruction(RS.MakeExecute(RunFor(bytes, predict, n).rs.cur[k])))
    decreases StationTurn(RunFor(bytes, predict, n), k)
  {
    hide RunFor, ExecutionStep, Broadcasts, PreviewRob, UnitWaits, RS.ReadyToGo, Distance, FU.ExecuteInstruction,
         RS.MakeExecute;
    var m := RunFor(bytes, predict, n);
    CursorInRange(bytes, predict, n);
    Fairness.DistanceRange(m.rs.cursor, k);
    j := n;
    if !PreviewRob(m.rob).flush {
      var inputs, _, _ := RunExecutes(bytes, predict, n);
      StationTurnFalls(m, inputs, RunFor(bytes, predict, n + 1), k);
      var m' := RunFor(bytes, predict, n + 1);
      if m'.status != Running {
        j := n + 1;
      } else if m'.fu == FU.ExecuteInstruction(RS.MakeExecute(m.rs.cur[k])) {
        j := ExecutedIsBroadcast(bytes, predict, n + 1);
      } else {
        j := ReadyIsBroadcast(bytes, predict, n + 1, k);
      }
    }
  }

  /** A load's result is on the bus in the cycle it enters the buffer or the next, unless the machine
      flushes or stops before. */
  lemma {:induction false} LoadIsBroadcast(bytes: Bytes, predict: nat -> bool, n: nat) returns (j: nat)
    requires RunFor(bytes, predict, n).status == Running && RunFor(bytes, predict, n).lsq.loadResult.valid
    ensures n <= j < n + (if BufferWaits(RunFor(bytes, predict, n)) then 2 else 1)
    ensures Interrupted(RunFor(bytes, predict, j))
              || Broadcasts(RunFor(bytes, predict, j), RunFor(bytes, predict, n).lsq.loadResult)
    decreases BufferWaits(RunFor(bytes, predict, n))
  {
    hide RunFor, AccessStep, Broadcasts, PreviewRob, PlanCdb, BufferWaits;
    var m := RunFor(bytes, predict, n);
    j := n;
    if !PreviewRob(m.rob).flush {
      if BufferWaits(m) {
        j := n + 1;
        if RunFor(bytes, predict, j).status == Running {
          var _, o, inputs := RunExecutes(bytes, predict, n);
          BufferProgress(m, o, inputs, RunFor(bytes, predict, j));
          j := LoadIsBroadcast(bytes, predict, j);
        }
      } else {
        var _, _, _ := RunExecutes(bytes, predict, n);
        BusGrants(m);
        BroadcastNow(m);
      }
    }
  }

  // --- Turns ------------------------------------------------------------------------------------

  /** The functional unit takes what station k hands over in this cycle; k == 16: nothing is handed over. */
  predicate Takes(m: Machine, k: nat)
    requires InRange(m)
  {
    var flush := PreviewRob(m.rob).flush;
    RS.Plan(m.rs, flush).selectedIndex == k && FU.CanAccept(m.fu, PlanCdb(m, flush).integerGranted)
  }

  predicate TakesAny(m: Machine)
    requires InRange(m)
  {
    exists k :: 0 <= k < RS.RS_CAPACITY && Takes(m, k)
  }

  /** How many of the cycles i .. j-1 dispatch an instruction. */
  function Dispatchings(bytes: Bytes, predict: nat -> bool, i: nat, j: nat): nat
    requires i <= j
    decreases j - i
  {
    if i == j then 0
    else (if TakesAny(RunFor(bytes, predict, i)) then 1 else 0) + Dispatchings(bytes, predict, i + 1, j)
  }

  lemma SomeoneIsTaken(m: Machine, k: nat)
    requires InRange(m) && TagsAreValid(m) && !PreviewRob(m.rob).flush
    requires k < RS.RS_CAPACITY && RS.ReadyToGo(m.rs.cur[k]) && m.rs.cursor < RS.RS_CAPACITY
    ensures TakesAny(m) <==> !UnitWaits(m)
    ensures Takes(m, k) <==> !UnitWaits(m) && RS.SelectReady(m.rs) == k
    ensures RS.SelectReady(m.rs) == RS.Plan(m.rs, false).selectedIndex
  {
    hide PreviewRob, PlanCdb, RS.SelectReady;
    BusGrants(m);
    Fairness.SelectedFirst(m.rs, k);
    assert !UnitWaits(m) ==> Takes(m, RS.SelectReady(m.rs));
  }

  /** Station k is served, or waits unchanged: one dispatch closer to its turn, or the unit is busy for
      this cycle only. */
  lemma TurnStep(m: Machine, inputs: RS.RsInputs, m': Machine, k: nat)
    requires InRange(m) && !PreviewRob(m.rob).flush && ExecutionStep(m, inputs, m')
    requires k < RS.RS_CAPACITY && RS.ReadyToGo(m.rs.cur[k])
    ensures || Takes(m, k)
            || (&& m'.rs.cur[k] == m.rs.cur[k] && m.rs.cursor < RS.RS_CAPACITY && m'.rs.cursor < RS.RS_CAPACITY
                && (if TakesAny(m) then !UnitWaits(m) && 0 <= Distance(m'.rs.cursor, k) < Distance(m.rs.cursor, k)
                    else UnitWaits(m) && !UnitWaits(m') && m'.rs.cursor == m.rs.cursor))
  {
    hide PreviewRob, UnitWaits, PlanCdb, RS.ReadyToGo, Distance, RS.Plan, RS.Apply, FU.NextResult, FU.Executable,
         FU.ExecuteInstruction, RS.MakeExecute, Takes, TakesAny, RS.SelectReady;
    SomeoneIsTaken(m, k);
    if UnitWaits(m) {
      StationProgress(m, inputs, m', k);
    } else {
      BusGrants(m);
      Fairness.TurnComesCloser(m.rs, inputs, k);
      if RS.SelectReady(m.rs) != k { Fairness.DistanceRange(m'.rs.cursor, k); }
    }
  }

  /** At most fifteen others go first, and at most one cycle more is lost to a busy unit: within sixteen
      dispatches and 32 cycles station k's instruction is dispatched, with the operands it has, unless
      the machine flushes or stops before. */
  lemma {:induction false} DispatchedInTurn(bytes: Bytes, predict: nat -> bool, n: nat, k: nat) returns (j: nat)
    requires RunFor(bytes, predict, n).status == Running
    requires k < RS.RS_CAPACITY && RS.ReadyToGo(RunFor(bytes, predict, n).rs.cur[k])
    ensures n <= j <= n + StationTurn(RunFor(bytes, predict, n), k) - 3 < n + 32
    ensures Dispatchings(bytes, predict, n, j) <= Distance(RunFor(bytes, predict, n).rs.cursor, k) <= 15
    ensures var m := RunFor(bytes, predict, j);
            || Interrupted(m)
            || (Takes(m, k) && RS.Plan(m.rs, false).dispatch == RS.MakeExecute(RunFor(bytes, predict, n).rs.cur[k]))
    decreases StationTurn(RunFor(bytes, predict, n), k)
  {
    hide RunFor, ExecutionStep, PreviewRob, UnitWaits, RS.ReadyToGo, Distance, RS.MakeExecute, Takes, TakesAny, RS.Plan;
    var m := RunFor(bytes, predict, n);
    CursorInRange(bytes, predict, n);
    Fairness.DistanceRange(m.rs.cursor, k);
    j := n;
    if !PreviewRob(m.rob).flush && !Takes(m, k) {
      var inputs, _, _ := RunExecutes(bytes, predict, n);
      TurnStep(m, inputs, RunFor(bytes, predict, n + 1), k);
      j := n + 1;
      if RunFor(bytes, predict, n + 1).status == Running {
        j := DispatchedInTurn(bytes, predict, n + 1, k);
      }
    } else if !PreviewRob(m.rob).flush {
      TakenOperands(m, k);
    }
  }

  lemma TakenOperands(m: Machine, k: nat)
    requires InRange(m) && k < RS.RS_CAPACITY && Takes(m, k) && !PreviewRob(m.rob).flush
    ensures RS.Plan(m.rs, false).dispatch == RS.MakeExecute(m.rs.cur[k])
  {
    hide PreviewRob, PlanCdb, RS.MakeExecute;
  }
}
