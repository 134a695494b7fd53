// Whole runs over the integers: the sequential run and, where it fetches in
// order, the out-of-order machine.
module ManualRuns {
  import opened Numerals
  import opened Image
  import opened Isa
  import opened Pipeline
  import opened Invariants
  import opened Stops
  import opened Theorems
  import opened ManualSteps
  import Manuals

  /** A booted machine: pc 0, registers 0, and the image. */
  function Booted(bytes: Bytes): Manuals.State {
    Manuals.State(0, seq(32, _ => 0), ByteNumbers(bytes))
  }

  lemma BootIsBooted(bytes: Bytes)
    ensures StateOf(Boot(bytes)) == Booted(bytes)
  {
    ManualArithmetic.ZeroValue();
    assert Numbers(Boot(bytes).regs) == seq(32, _ => 0);
  }

  /** The sequential run, state by state, and its stop are those of the manual's machine. */
  lemma {:induction false} RunIsManual(start: Arch, n: nat)
    ensures match StateAt(start, n)
            case Some(a) =>
              && Manuals.Run(StateOf(start), n) == Manuals.Continues(StateOf(a))
              && Manuals.Run(StateOf(start), n + 1) == OutcomeOf(Isa.Step(a))
            case None => !Manuals.Run(StateOf(start), n).Continues?
  {
    hide Isa.Step, Manuals.Step, StateOf;
    if n > 0 {
      RunIsManual(start, n - 1);
    }
    if StateAt(start, n).Some? {
      StepIsManual(StateAt(start, n).value);
    }
  }

  /** The machine's registers, pc and memory, or its halt, are those of the manual's machine: after
      `committed` steps, or one more for the memory while the oldest instruction is a store that has landed. */
  ghost predicate MatchesManual(m: Machine, boot: Manuals.State)
    requires Manuals.IsState(boot) && InRange(m)
  {
    var now := Manuals.Run(boot, m.committed);
    var next := Manuals.Run(boot, m.committed + 1);
    && now.Continues? && now.state.regs == Numbers(m.regs)
    && (m.status == Running ==> now.state.pc == Value(ArchitecturalPc(m)))
    && ((m.status == Running && !HeadWritten(m)) || m.status == Status.Halted ==>
          now.state.mem == ByteNumbers(m.memory.bytes))
    && (m.status == Running && HeadWritten(m) ==>
          next.Continues? && next.state.mem == ByteNumbers(m.memory.bytes))
    && (m.status == Status.Halted ==> next == Manuals.Halts(Value(m.exitCode)))
    && (m.status == FetchOutOfBound ==> next == Manuals.FetchFails)
    && (m.status == InvalidInstruction ==> next == Manuals.Illegal)
  }

  /** Every machine that fetched in order computes what the manual says. */
  lemma {:induction false} MachineIsManual(bytes: Bytes, predict: nat -> bool, n: nat)
    requires InOrderFetches(bytes, predict, n)
    ensures MatchesManual(RunFor(bytes, predict, n), Booted(bytes))
  {
    hide RunFor, InOrderFetches, Boot, Booted, Numbers, ByteNumbers, Value, StateAt, Isa.Step, Manuals.Run, HeadWritten,
         ArchitecturalPc, FaultIsSequential;
    var m := RunFor(bytes, predict, n);
    MachineRefinesIsa(bytes, predict, n);
    BootIsBooted(bytes);
    RunIsManual(Boot(bytes), m.committed);
    RunIsManual(Boot(bytes), m.committed + 1);
  }
}
