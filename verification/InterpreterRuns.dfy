// Whole runs of the interpreter: it follows the instruction set until the
// first misjudged comparison, and up to there the out-of-order machine and the
// interpreter compute the same thing.
module InterpreterRuns {
  import opened Types
  import opened WordArithmetic
  import opened Image
  import opened Isa
  import opened Decoder
  import opened Pipeline
  import opened Theorems
  import opened Progress
  import opened Stops
  import opened Halting
  import opened Interpreters
  import opened DecoderInverse
  import opened EncoderInverse
  import opened Programs

  /** The interpreter's state after exactly n instructions, if it gets that far. */
  function InterpretedAt(start: Arch, n: nat): Option<Arch> {
    if n == 0 then Some(start)
    else
      match InterpretedAt(start, n - 1)
      case None => None
      case Some(a) => match InterpretedStep(a) { case Next(b) => Some(b) case _ => None }
  }

  lemma StepKeepsZero(a: Arch)
    requires a.regs[0] == 0 && Isa.Step(a).Next?
    ensures Isa.Step(a).state.regs[0] == 0
  {
    hide Decode, ReadWord, ResultValue, MemoryAfter, Successor, Faults;
  }

  lemma {:induction false} ZeroStaysZero(start: Arch, n: nat)
    requires start.regs[0] == 0
    ensures StateAt(start, n).Some? ==> StateAt(start, n).value.regs[0] == 0
  {
    hide Isa.Step;
    if n > 0 && StateAt(start, n).Some? {
      ZeroStaysZero(start, n - 1);
      StepKeepsZero(StateAt(start, n - 1).value);
    }
  }

  /** No comparison is misjudged in the first n steps. */
  ghost predicate NoMissteps(start: Arch, n: nat) {
    forall k :: 0 <= k < n && StateAt(start, k).Some? ==> !Misstep(StateAt(start, k).value)
  }

  lemma {:induction false} InterpreterFollowsIsa(start: Arch, n: nat)
    requires start.regs[0] == 0 && NoMissteps(start, n)
    ensures InterpretedAt(start, n) == StateAt(start, n)
  {
    hide Isa.Step, InterpretedStep, Misstep;
    if n > 0 {
      InterpreterFollowsIsa(start, n - 1);
      if StateAt(start, n - 1).Some? {
        ZeroStaysZero(start, n - 1);
        StepAgrees(StateAt(start, n - 1).value);
      }
    }
  }

  /** The interpreter halts at step n. */
  ghost predicate InterpreterHaltsAt(start: Arch, n: nat, exitCode: Word) {
    InterpretedAt(start, n).Some? && InterpretedStep(InterpretedAt(start, n).value) == Isa.Halted(exitCode)
  }

  /** The machine has halted with the interpreter's exit code, registers, memory and instruction count. */
  ghost predicate HaltedLike(m: Machine, start: Arch, n: nat, exitCode: Word) {
    && InterpretedAt(start, n).Some?
    && m.status == Status.Halted && m.exitCode == exitCode && m.committed == n
    && m.regs == InterpretedAt(start, n).value.regs && m.memory.bytes == InterpretedAt(start, n).value.mem
  }

  /** The two implementations agree: when the interpreter halts after n instructions without misjudging
      a comparison, the out-of-order machine halts under any predictions with the same exit code,
      registers, memory and instruction count, if and only if no load of a mispredicted path is answered
      with a failure; otherwise it stops at such a load. */
  lemma ImplementationsAgree(image: Bytes, predict: nat -> bool, n: nat, exitCode: Word)
    requires InOrderFetches(image, predict, COMMIT_BOUND * (n + 1)) && NoMissteps(Boot(image), n)
    requires InterpreterHaltsAt(Boot(image), n, exitCode)
    ensures var m := RunFor(image, predict, COMMIT_BOUND * (n + 1));
            || HaltedLike(m, Boot(image), n, exitCode)
            || (m.status == MemoryOutOfBound && WrongPathLoad(m, Boot(image)))
    ensures HaltedLike(RunFor(image, predict, COMMIT_BOUND * (n + 1)), Boot(image), n, exitCode) <==>
              forall j: nat :: j < COMMIT_BOUND * (n + 1) ==> !Misled(RunFor(image, predict, j), Boot(image))
  {
    hide InOrderFetches, RunFor, Isa.Step, InterpretedStep, StateAt, InterpretedAt, NoMissteps, Boot,
         Misled, WrongPathLoad;
    BootHasZero(image);
    InterpreterFollowsIsa(Boot(image), n);
    HaltsAlike(StateAt(Boot(image), n).value, exitCode);
    HaltingPrograms(image, predict, n, exitCode);
    HaltsUnlessMisled(image, predict, n, exitCode);
  }

  lemma BootHasZero(image: Bytes)
    ensures Boot(image).regs[0] == 0
  {
  }

  lemma HaltsAlike(a: Arch, exitCode: Word)
    requires InterpretedStep(a) == Isa.Halted(exitCode)
    ensures Isa.Step(a) == Isa.Halted(exitCode)
  {
    hide Decode, ReadWord, RawRead, Write, Retired, And;
  }

  // --- The comparison it gets wrong --------------------------------------------------------

  /** A misjudged comparison completes in both machines. */
  lemma ComparisonCompletes(a: Arch)
    requires Misstep(a)
    ensures InterpretedStep(a).Next? && Isa.Step(a).Next?
  {
    hide Decode, ReadWord, SignedLess, Less, Retired, Writeback, NextAddress, After, Successor;
    DecodeIsWellFormed(ReadWord(a.mem, a.pc).value);
  }

  /** The interpreter's run is the sequential run, state by state, if and only if it misjudges no comparison. */
  lemma {:induction false} InterpreterFollowsIsaIff(start: Arch, n: nat)
    requires start.regs[0] == 0
    ensures (forall k: nat :: k <= n ==> InterpretedAt(start, k) == StateAt(start, k)) <==> NoMissteps(start, n)
  {
    hide Isa.Step, InterpretedStep, Misstep;
    if NoMissteps(start, n) {
      forall k: nat | k <= n ensures InterpretedAt(start, k) == StateAt(start, k) { InterpreterFollowsIsa(start, k); }
    } else {
      var k: nat :| k < n && StateAt(start, k).Some? && Misstep(StateAt(start, k).value);
      ZeroStaysZero(start, k);
      var a := StateAt(start, k).value;
      StepAgrees(a);
      ComparisonCompletes(a);
      assert InterpretedStep(a) == Next(InterpretedStep(a).state) && Isa.Step(a) == Next(Isa.Step(a).state);
      assert InterpretedAt(start, k) == StateAt(start, k) ==> InterpretedAt(start, k + 1) != StateAt(start, k + 1);
    }
  }

  /** addi x3, x0, 1; slt x1, x0, x3; halt. */
  function SltProgram(): seq<Word> {
    [Encode(RecordI(ADDI, 3, 0, 1)), Encode(RecordR(SLT, 1, 0, 3)), HALT_ENCODING]
  }

  ghost predicate HoldsSlt(mem: Bytes) {
    && ReadWord(mem, 0).Some? && Decode(ReadWord(mem, 0).value) == RecordI(ADDI, 3, 0, 1)
    && ReadWord(mem, 4).Some? && Decode(ReadWord(mem, 4).value) == RecordR(SLT, 1, 0, 3)
  }

  /** There is an image with these two instructions. */
  lemma SltExists() returns (mem: Bytes)
    ensures HoldsSlt(mem)
  {
    hide Decode, Encode, ReadWord, Loaded;
    mem := Loaded(SltProgram());
    LoadedWord(SltProgram(), 0);
    LoadedWord(SltProgram(), 1);
    RoundTripOpImmediate(ADDI, 3, 0, 1);
    RoundTripR(SLT, 1, 0, 3);
  }

  // The state after the addi.
  function AfterAddi(mem: Bytes): Arch {
    Arch(4, Repeat(REGISTER_COUNT, 0 as Word)[3 := 1], mem)
  }

  lemma AddiStep(mem: Bytes)
    requires HoldsSlt(mem)
    ensures Isa.Step(Boot(mem)) == Next(AfterAddi(mem)) && !Misstep(Boot(mem))
  {
    hide Decode, ReadWord;
  }

  lemma SltStep(mem: Bytes)
    requires HoldsSlt(mem)
    ensures InterpretedStep(AfterAddi(mem)) == Next(Arch(8, AfterAddi(mem).regs[1 := 0], mem))
    ensures Isa.Step(AfterAddi(mem)) == Next(Arch(8, AfterAddi(mem).regs[1 := 1], mem))
  {
    hide Decode, ReadWord, SignedLess;
    ZeroIsBelowOne();
    var regs := AfterAddi(mem).regs;
    assert regs[1 := 0][0 := 0] == regs[1 := 0];
  }

  lemma ZeroIsBelowOne()
    ensures SignedLess(0, 1) && !SignedLess(0, 0)
  {
  }

  /** Run from such an image, the instruction set leaves 1 in x1, the interpreter 0. */
  lemma SltDisagrees(mem: Bytes)
    requires HoldsSlt(mem)
    ensures StateAt(Boot(mem), 2).Some? && StateAt(Boot(mem), 2).value.regs[1] == 1
    ensures InterpretedAt(Boot(mem), 2).Some? && InterpretedAt(Boot(mem), 2).value.regs[1] == 0
  {
    hide HoldsSlt, Isa.Step, InterpretedStep, Misstep, Boot;
    AddiStep(mem);
    BootHasZero(mem);
    StepAgrees(Boot(mem));
    SltStep(mem);
    assert StateAt(Boot(mem), 1) == Some(AfterAddi(mem));
    assert InterpretedAt(Boot(mem), 0) == Some(Boot(mem));
    assert InterpretedAt(Boot(mem), 1) == Some(AfterAddi(mem));
  }
}
