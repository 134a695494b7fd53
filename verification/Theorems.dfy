// Whole runs of the machine, from a loaded image, under any predictions.
module Theorems {
  import opened Types
  import opened Image
  import opened Isa
  import opened ReorderBuffers
  import opened LoadStoreQueues
  import opened Pipeline
  import opened Invariants
  import opened RobSteps
  import opened CycleSteps
  import opened MachineSteps
  import opened Refinement
  import opened SpeculativePath
  import opened Stops
  import opened Progress
  import ReservationStations
  import MemoryUnits
  import FunctionalUnits
  import RenameTables
  import RegisterFiles

  // --- Refinement over all runs -------------------------------------------------------

  /** A running machine's registers and pc, the oldest instruction's or the fetch pc, are those of the
      sequential run after exactly `committed` steps; its memory is that state's, or the next one's
      exactly when the oldest instruction is a store that has landed. */
  ghost predicate RunningAt(m: Machine, start: Arch) {
    && m.rob.head < ROB_CAPACITY
    && StateAt(start, m.committed).Some?
    && m.regs == StateAt(start, m.committed).value.regs
    && StateAt(start, m.committed).value.pc == ArchitecturalPc(m)
    && var k := if HeadWritten(m) then m.committed + 1 else m.committed;
       StateAt(start, k).Some? && m.memory.bytes == StateAt(start, k).value.mem
  }

  /** Where the next instruction to commit starts. */
  function ArchitecturalPc(m: Machine): Address
    requires m.rob.head < ROB_CAPACITY
  {
    if m.rob.count > 0 then m.rob.cur[m.rob.head].pc else m.pc
  }

  ghost predicate Refines(m: Machine, start: Arch) {
    if m.status == Running then RunningAt(m, start) else StoppedAt(m, start)
  }

  lemma RunStep(bytes: Bytes, predict: nat -> bool, n: nat)
    ensures RunFor(bytes, predict, n + 1) == Cycle(RunFor(bytes, predict, n), predict(n))
  {
    hide Cycle;
  }

  lemma RunStart(bytes: Bytes, predict: nat -> bool)
    ensures RunFor(bytes, predict, 0) == Reset(bytes)
  {
    hide Cycle, Reset;
  }

  lemma ResetInv(bytes: Bytes)
    ensures Inv(Reset(bytes), Ghost(Boot(bytes), Boot(bytes), NoSlots()), Boot(bytes))
  {
    hide Consistent;
    ResetIsConsistent(bytes, NoSlots());
  }

  /** In the first n cycles, whatever is issued on the sequential path is the word that path fetches there. */
  ghost predicate InOrderFetches(bytes: Bytes, predict: nat -> bool, n: nat) {
    forall j: nat :: j < n ==> FetchesInOrder(RunFor(bytes, predict, j), Boot(bytes), predict(j))
  }

  lemma FewerFetches(bytes: Bytes, predict: nat -> bool, j: nat, n: nat)
    requires j <= n && InOrderFetches(bytes, predict, n)
    ensures InOrderFetches(bytes, predict, j)
    ensures j < n ==> FetchesInOrder(RunFor(bytes, predict, j), Boot(bytes), predict(j))
  {
    hide FetchesInOrder, RunFor;
  }

  lemma {:induction false} RunKeepsInv(bytes: Bytes, predict: nat -> bool, n: nat) returns (gh: Ghost)
    requires InOrderFetches(bytes, predict, n)
    ensures var m := RunFor(bytes, predict, n);
            if m.status == Running then Inv(m, gh, Boot(bytes)) else StoppedAt(m, Boot(bytes))
  {
    hide Inv, RunFor, Cycle, InOrderFetches, FetchesInOrder, NextGhost, Boot, StoppedAt;
    if n == 0 {
      RunStart(bytes, predict);
      ResetInv(bytes);
      gh := Ghost(Boot(bytes), Boot(bytes), NoSlots());
      ResetRuns(bytes);
    } else {
      FewerFetches(bytes, predict, n - 1, n);
      gh := RunKeepsInv(bytes, predict, n - 1);
      RunStep(bytes, predict, n - 1);
      var m := RunFor(bytes, predict, n - 1);
      if m.status == Running {
        InvAfter(m, gh, Boot(bytes), predict(n - 1));
        StopIsArchitectural(m, gh, Boot(bytes), predict(n - 1));
        gh := NextGhost(m, gh, predict(n - 1));
      } else {
        StoppedStays(m, predict(n - 1));
      }
    }
  }

  lemma ResetRuns(bytes: Bytes)
    ensures Reset(bytes).status == Running
  {
  }

  lemma StoppedStays(m: Machine, taken: bool)
    requires InRange(m) && m.status != Running
    ensures Cycle(m, taken) == m
  {
    hide Latch, Observe;
  }

  /** Refinement: after any number of cycles, under any predictions, the machine is a prefix of the
      sequential run, and stops only where and how the sequential machine stops. */
  lemma {:induction false} MachineRefinesIsa(bytes: Bytes, predict: nat -> bool, n: nat)
    requires InOrderFetches(bytes, predict, n)
    ensures Refines(RunFor(bytes, predict, n), Boot(bytes))
  {
    hide InOrderFetches, Boot, StoppedAt, RunFor, Consistent, Isa.Step, StateAt, AllFetched, PathInv, WellFormed,
         HeadWritten;
    var gh := RunKeepsInv(bytes, predict, n);
    var m := RunFor(bytes, predict, n);
    if m.status == Running {
      MemoryIsSequential(m, gh, Boot(bytes));
      StillRunning(m, gh);
      if m.rob.count == 0 {
        EmptyIsSequential(m, gh);
      } else {
        PathOfInv(m, gh, Boot(bytes));
        RobInOrder(m, gh);
        HeadIsValid(m.rob);
        HeadOnRun(m, gh, Boot(bytes));
      }
    }
  }

  /** Code that no store changes within 31 steps of its fetch is fetched in order in every run. */
  lemma {:induction false} StableCodeIsFetchedInOrder(bytes: Bytes, predict: nat -> bool, n: nat)
    requires CodeStable(Boot(bytes))
    ensures InOrderFetches(bytes, predict, n)
  {
    hide Inv, Cycle, RunFor, CodeStable, Boot, StoppedAt, IssueEffective, Observe, StateAt;
    if n > 0 {
      StableCodeIsFetchedInOrder(bytes, predict, n - 1);
      var gh := RunKeepsInv(bytes, predict, n - 1);
      if RunFor(bytes, predict, n - 1).status == Running {
        StableFetch(RunFor(bytes, predict, n - 1), gh, Boot(bytes), predict(n - 1));
      }
    }
  }

  // --- The sequential run is a single path ------------------------------------------------

  lemma {:induction false} EarlierStates(start: Arch, j: nat, k: nat)
    requires j <= k && StateAt(start, k).Some?
    ensures StateAt(start, j).Some?
    ensures j < k ==> Isa.Step(StateAt(start, j).value).Next?
    decreases k - j
  {
    hide Isa.Step;
    if j < k {
      EarlierStates(start, j, k - 1);
      if j < k - 1 {} else { assert StateAt(start, k).Some?; }
    }
  }

  /** The sequential machine stops at one step only. */
  lemma StopIsUnique(start: Arch, j: nat, k: nat)
    requires StateAt(start, j).Some? && StateAt(start, k).Some?
    requires !Isa.Step(StateAt(start, j).value).Next? && !Isa.Step(StateAt(start, k).value).Next?
    ensures j == k
  {
    hide Isa.Step, StateAt;
    if j < k { EarlierStates(start, j, k); }
    if k < j { EarlierStates(start, k, j); }
  }

  /** Predictions change how long a run takes, never what it computes: any two halted runs of an
      image agree on exit code, registers, memory and number of committed instructions. */
  lemma {:induction false} PredictionsDoNotMatter(bytes: Bytes, p: nat -> bool, i: nat, q: nat -> bool, j: nat)
    requires InOrderFetches(bytes, p, i) && InOrderFetches(bytes, q, j)
    requires RunFor(bytes, p, i).status == Status.Halted && RunFor(bytes, q, j).status == Status.Halted
    ensures var a := RunFor(bytes, p, i);
            var b := RunFor(bytes, q, j);
            a.exitCode == b.exitCode && a.committed == b.committed && a.regs == b.regs
                && a.memory.bytes == b.memory.bytes
  {
    hide InOrderFetches, Boot, RunFor, Isa.Step;
    MachineRefinesIsa(bytes, p, i);
    MachineRefinesIsa(bytes, q, j);
    StopIsUnique(Boot(bytes), RunFor(bytes, p, i).committed, RunFor(bytes, q, j).committed);
  }

  // --- Bounded progress ----------------------------------------------------------------------

  lemma {:induction false} RunIsConsistent(bytes: Bytes, predict: nat -> bool, n: nat) returns (gh: Ghost)
    ensures RunFor(bytes, predict, n).status == Running ==> Consistent(RunFor(bytes, predict, n), gh)
  {
    hide Consistent, Cycle, NextGhost;
    if n == 0 {
      ResetIsConsistent(bytes, NoSlots());
      gh := Ghost(Boot(bytes), Boot(bytes), NoSlots());
    } else {
      gh := RunIsConsistent(bytes, predict, n - 1);
      var m := RunFor(bytes, predict, n - 1);
      if m.status == Running {
        ConsistentAfter(m, gh, predict(n - 1));
        gh := NextGhost(m, gh, predict(n - 1));
      } else {
        StoppedStays(m, predict(n - 1));
      }
    }
  }

  lemma CycleCounts(m: Machine, taken: bool)
    requires InRange(m)
    ensures m.committed <= Cycle(m, taken).committed
    ensures m.status != Running ==> Cycle(m, taken) == m
  {
    hide Observe, ReorderBuffers.Apply, ReservationStations.Apply, LoadStoreQueues.Apply, MemoryUnits.Apply,
         FunctionalUnits.NextResult, RenameTables.NextTable, NextStatus, NextPcOf, RegisterFiles.Committed;
  }

  lemma {:induction false} CountsGrow(bytes: Bytes, predict: nat -> bool, n: nat, k: nat)
    ensures RunFor(bytes, predict, n).committed <= RunFor(bytes, predict, n + k).committed
    ensures RunFor(bytes, predict, n).status != Running ==> RunFor(bytes, predict, n + k) == RunFor(bytes, predict, n)
  {
    hide Cycle;
    if k > 0 {
      CountsGrow(bytes, predict, n, k - 1);
      CycleCounts(RunFor(bytes, predict, n + k - 1), predict(n + k - 1));
    }
  }

  /** k cycles without a commit use up k units of work. */
  lemma {:induction false} WorkUsedUp(bytes: Bytes, predict: nat -> bool, n: nat, k: nat) returns (gh: Ghost)
    requires RunFor(bytes, predict, n + k).status == Running
    requires RunFor(bytes, predict, n + k).committed == RunFor(bytes, predict, n).committed
    ensures Consistent(RunFor(bytes, predict, n + k), gh)
    ensures RunFor(bytes, predict, n + k).rob.head < ROB_CAPACITY
    ensures RunFor(bytes, predict, n + k).lsq.head < LSQ_CAPACITY
    ensures Work(RunFor(bytes, predict, n + k), gh) + k <= COMMIT_BOUND
  {
    hide Consistent, Cycle, NextGhost, Work;
    if k == 0 {
      gh := RunIsConsistent(bytes, predict, n);
      WorkIsBounded(RunFor(bytes, predict, n), gh);
    } else {
      var m := RunFor(bytes, predict, n + k - 1);
      CountsGrow(bytes, predict, n, k - 1);
      CycleCounts(m, predict(n + k - 1));
      gh := WorkUsedUp(bytes, predict, n, k - 1);
      WorkFalls(m, gh, predict(n + k - 1));
      ConsistentAfter(m, gh, predict(n + k - 1));
      gh := NextGhost(m, gh, predict(n + k - 1));
    }
  }

  /** From any reachable state the machine commits or stops within 36 cycles: it never deadlocks. */
  lemma CommitsOrStops(bytes: Bytes, predict: nat -> bool, n: nat)
    ensures var m := RunFor(bytes, predict, n);
            var later := RunFor(bytes, predict, n + COMMIT_BOUND);
            later.status != Running || later.committed > m.committed
  {
    hide Consistent, Cycle, RunFor, Work;
    CountsGrow(bytes, predict, n, COMMIT_BOUND);
    var later := RunFor(bytes, predict, n + COMMIT_BOUND);
    if later.status == Running && later.committed == RunFor(bytes, predict, n).committed {
      var gh := WorkUsedUp(bytes, predict, n, COMMIT_BOUND);
      WorkIsBounded(later, gh);
    }
  }

  /** After 36 * c cycles a machine that still runs has committed at least c instructions. */
  lemma {:induction false} LinearTime(bytes: Bytes, predict: nat -> bool, c: nat)
    ensures var m := RunFor(bytes, predict, COMMIT_BOUND * c);
            m.status != Running || m.committed >= c
  {
    hide RunFor;
    if c > 0 {
      LinearTime(bytes, predict, c - 1);
      CommitsOrStops(bytes, predict, COMMIT_BOUND * (c - 1));
      CountsGrow(bytes, predict, COMMIT_BOUND * (c - 1), COMMIT_BOUND);
      assert COMMIT_BOUND * (c - 1) + COMMIT_BOUND == COMMIT_BOUND * c;
    }
  }
}
