// Whole simulations: load an image, run it, and what the result means.
module Simulations {
  import opened Types
  import opened Image
  import opened Isa
  import opened Pipeline
  import opened PredictedRuns
  import opened Refinement
  import opened Progress
  import opened Stops
  import opened Theorems
  import opened Halting
  import opened Cpus

  /** A stopped system stays as it is. */
  lemma {:induction false} StoppedRunStays(image: Bytes, n: nat, k: nat)
    requires RunSystem(image, n).machine.status != Running
    ensures RunSystem(image, n + k) == RunSystem(image, n)
  {
    if k > 0 {
      StoppedRunStays(image, n, k - 1);
    }
  }

  lemma ParsedImage(image: Bytes)
    ensures LoadedSystem(image, true) == RunSystem(image, 0)
  {
    hide Reset;
    LoadedRuns(image);
  }

  lemma LoadedRuns(image: Bytes)
    ensures Reset(image).status == Running
  {
  }

  lemma RunRefines(image: Bytes, limit: nat)
    requires InOrderFetches(image, PredictionsOf(image), limit)
    ensures Refines(RunSystem(image, limit).machine, Boot(image))
  {
    hide RunSystem, InOrderFetches, Boot, Refines;
    SystemRunsMachine(image, limit);
    MachineRefinesIsa(image, PredictionsOf(image), limit);
  }

  /** The simulator refines the sequential machine, cycle limit and orders notwithstanding. */
  method Execute(cpu: Cpu, image: Bytes, limit: nat) returns (outcome: Status, value: Word)
    requires cpu.Valid()
    modifies cpu.Repr()
    ensures cpu.Valid() && cpu.Whole() == RunSystem(image, limit)
    ensures outcome == cpu.Whole().machine.status && value == cpu.Whole().machine.exitCode
    ensures InOrderFetches(image, PredictionsOf(image), limit) ==> Refines(cpu.Whole().machine, Boot(image))
  {
    hide RunSystem, Cpu.Valid, Cpu.Whole, Cpu.Repr, InOrderFetches, Boot, Refines;
    ghost var ran;
    cpu.Load(image, true);
    ParsedImage(image);
    outcome, value, ran := cpu.Run(limit, image, 0);
    cpu.FieldsNow();
    if ran < limit { StoppedRunStays(image, ran, limit - ran); }
    if InOrderFetches(image, PredictionsOf(image), limit) { RunRefines(image, limit); }
  }

  /** Order independence over whole runs: two simulators with different orders, from any earlier
      states, end in the same system state after running the same image for as long. */
  method SeedsAgree(a: Cpu, b: Cpu, image: Bytes, limit: nat)
    requires a.Valid() && b.Valid() && a.Repr() !! b.Repr()
    modifies a.Repr(), b.Repr()
    ensures a.Valid() && b.Valid() && a.Whole() == b.Whole()
  {
    hide RunSystem, Cpu.Valid, Cpu.Whole, Cpu.Modules, InOrderFetches, Boot, Refines;
    a.OwnsState();
    b.OwnsState();
    b.OwnsAllocated();
    var _, _ := Execute(a, image, limit);
    var _, _ := Execute(b, image, limit);
  }

  /** A program that halts sequentially after n steps: 36 * (n + 1) cycles are enough for the simulator to
      return its exit code, registers and memory, if and only if it never answers a load of a
      mispredicted path with a failure; otherwise it stops at such a load. */
  lemma ExecutionOfHaltingProgram(image: Bytes, limit: nat, n: nat, exitCode: Word)
    requires InOrderFetches(image, PredictionsOf(image), COMMIT_BOUND * (n + 1)) && limit >= COMMIT_BOUND * (n + 1)
    requires HaltsAt(Boot(image), n, exitCode)
    ensures var m := RunSystem(image, limit).machine;
            || HaltedAs(m, Boot(image), n, exitCode)
            || (m.status == MemoryOutOfBound && WrongPathLoad(m, Boot(image)))
    ensures HaltedAs(RunSystem(image, limit).machine, Boot(image), n, exitCode) <==>
              forall j: nat :: j < limit ==> !Misled(RunSystem(image, j).machine, Boot(image))
  {
    hide RunSystem, RunFor, PredictionsOf, InOrderFetches, Boot, HaltsAt, HaltedAs, Misled, WrongPathLoad;
    var enough := COMMIT_BOUND * (n + 1);
    SystemRunsMachine(image, enough);
    HaltingPrograms(image, PredictionsOf(image), n, exitCode);
    HaltsUnlessMisled(image, PredictionsOf(image), n, exitCode);
    HaltedIsStopped(RunSystem(image, enough).machine, Boot(image), n, exitCode);
    StoppedRunStays(image, enough, limit - enough);
    if !HaltedAs(RunSystem(image, limit).machine, Boot(image), n, exitCode) {
      var j: nat :| j < enough && Misled(RunFor(image, PredictionsOf(image), j), Boot(image));
      SystemRunsMachine(image, j);
      assert Misled(RunSystem(image, j).machine, Boot(image));
    }
    forall j: nat | j < limit && Misled(RunSystem(image, j).machine, Boot(image))
      ensures !HaltedAs(RunSystem(image, limit).machine, Boot(image), n, exitCode)
    {
      SystemRunsMachine(image, j);
      if j >= enough {
        StoppedRunStays(image, enough, j - enough);
        OnlyRunningIsMisled(RunSystem(image, j).machine, Boot(image));
      } else {
        assert Misled(RunFor(image, PredictionsOf(image), j), Boot(image));
      }
    }
  }

  lemma HaltedIsStopped(m: Machine, start: Arch, n: nat, exitCode: Word)
    ensures HaltedAs(m, start, n, exitCode) ==> m.status == Status.Halted
  {
    hide StateAt;
  }

  lemma OnlyRunningIsMisled(m: Machine, start: Arch)
    requires InRange(m)
    ensures Misled(m, start) ==> m.status == Running
  {
    hide AccessFails, WrongPathLoad;
  }
}
