// Why a load fault may be speculative: a program that halts sequentially, and
// that the machine, whatever it predicts, stops with a memory error. An indirect
// jump waits for a loaded register while the load behind it, on the path the
// machine guesses, is answered out of range.
module MisledProgram {
  import opened Types
  import opened Image
  import opened Isa
  import opened Decoder
  import opened DecoderInverse
  import opened EncoderInverse
  import opened Pipeline
  import opened Refinement
  import opened Theorems
  import opened Halting
  import opened Programs

  /** lw x1, 16(x0); addi x1, x1, 0; jalr x0, 20(x1); lw x0, -4(x0); a zero word; and at 20 halt. */
  function Program(): seq<Word> {
    [Encode(RecordI(LW, 1, 0, 16)), Encode(RecordI(ADDI, 1, 1, 0)), Encode(RecordI(JALR, 0, 1, 20)),
     Encode(RecordI(LW, 0, 0, 0xffff_fffc)), 0, HALT_ENCODING]
  }

  function Instruction(i: nat): DecodedInstruction {
    if i == 0 then RecordI(LW, 1, 0, 16)
    else if i == 1 then RecordI(ADDI, 1, 1, 0)
    else if i == 2 then RecordI(JALR, 0, 1, 20)
    else if i == 3 then RecordI(LW, 0, 0, 0xffff_fffc)
    else if i == 4 then NO_INSTRUCTION
    else NO_INSTRUCTION.(op := HALT)
  }

  ghost predicate HoldsProgram(image: Bytes) {
    && RawRead(image, 16, WORD) == Some(0)
    && forall i :: 0 <= i < 6 ==>
         ReadWord(image, WordAddress(i)).Some? && Decode(ReadWord(image, WordAddress(i)).value) == Instruction(i)
  }

  /** There is such an image. */
  lemma ProgramExists() returns (image: Bytes)
    ensures HoldsProgram(image)
  {
    hide Decode, Encode, ReadWord, Loaded, WordAddress, RawRead;
    image := Loaded(Program());
    forall i | 0 <= i < 6
      ensures ReadWord(image, WordAddress(i)) == Some(Program()[i])
    {
      LoadedWord(Program(), i);
    }
    RoundTripLoad(LW, 1, 0, 16);
    RoundTripOpImmediate(ADDI, 1, 1, 0);
    RoundTripJalr(0, 1, 20);
    RoundTripLoad(LW, 0, 0, 0xffff_fffc);
    FixedWords();
    FifthAddress();
    WordIsRaw(image, 16);
  }

  lemma FifthAddress()
    ensures WordAddress(4) == 16
  {
  }

  // --- The sequential run -------------------------------------------------------------------

  function ContinuedAt(image: Bytes, pc: Address): Arch { Boot(image).(pc := pc) }

  lemma LoadStep(image: Bytes)
    requires HoldsProgram(image)
    ensures Isa.Step(Boot(image)) == Next(ContinuedAt(image, 4))
  {
    hide Decode, ReadWord, RawRead;
    assert Decode(ReadWord(image, WordAddress(0)).value) == Instruction(0);
    SixteenIsIn();
    assert Boot(image).regs[1 := 0] == Boot(image).regs;
  }

  lemma SixteenIsIn()
    ensures InBounds(16, 4)
  {
  }

  lemma AddStep(image: Bytes)
    requires HoldsProgram(image)
    ensures Isa.Step(ContinuedAt(image, 4)) == Next(ContinuedAt(image, 8))
  {
    hide Decode, ReadWord, RawRead;
    assert Decode(ReadWord(image, WordAddress(1)).value) == Instruction(1);
    assert Boot(image).regs[1 := 0] == Boot(image).regs;
  }

  lemma JumpStep(image: Bytes)
    requires HoldsProgram(image)
    ensures Isa.Step(ContinuedAt(image, 8)) == Next(ContinuedAt(image, 20))
    ensures Isa.Step(ContinuedAt(image, 20)) == Isa.Halted(0)
  {
    hide Decode, ReadWord, RawRead;
    assert Decode(ReadWord(image, WordAddress(2)).value) == Instruction(2);
    assert Decode(ReadWord(image, WordAddress(5)).value) == Instruction(5);
  }

  /** The sequential machine halts after three instructions, and never writes memory. */
  lemma SequentialRun(image: Bytes)
    requires HoldsProgram(image)
    ensures HaltsAt(Boot(image), 3, 0) && CodeStable(Boot(image))
  {
    hide Isa.Step, HoldsProgram, ReadWord;
    LoadStep(image);
    AddStep(image);
    JumpStep(image);
    var start := Boot(image);
    NextState(start, 0, start, ContinuedAt(image, 4));
    NextState(start, 1, ContinuedAt(image, 4), ContinuedAt(image, 8));
    NextState(start, 2, ContinuedAt(image, 8), ContinuedAt(image, 20));
    forall j: nat | StateAt(start, j).Some? ensures StateAt(start, j).value.mem == image {
      if j > 3 { EarlierStates(start, 3, j); }
    }
  }
}
