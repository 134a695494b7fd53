// One sequential step is one step of the manual's machine over the integers,
// and so is every run.
module ManualSteps {
  import opened Types
  import opened WordArithmetic
  import opened Numerals
  import opened Image
  import opened Decoder
  import opened Isa
  import opened ManualFields
  import opened ManualArithmetic
  import Datapath
  import Pipeline
  import ReadOverWrite
  import Manuals

  // --- The numbers of a state -----------------------------------------------------------------

  function Numbers(regs: Registers): (numbers: seq<int>)
    ensures |numbers| == 32 && forall i :: 0 <= i < 32 ==> numbers[i] == Value(regs[i])
  {
    seq(32, i requires 0 <= i < 32 => Value(regs[i]))
  }

  function ByteValue(b: Byte): (n: int)
    ensures 0 <= n < 256
  {
    b as int
  }

  function ByteNumbers(mem: Bytes): (numbers: seq<int>)
    ensures |numbers| == Manuals.MEMORY_BYTES
    ensures forall i :: 0 <= i < Manuals.MEMORY_BYTES ==> numbers[i] == ByteValue(mem[i])
  {
    seq(MEMORY_SIZE, i requires 0 <= i < MEMORY_SIZE => ByteValue(mem[i]))
  }

  function StateOf(a: Arch): (s: Manuals.State)
    ensures Manuals.IsState(s)
  {
    Manuals.State(Value(a.pc), Numbers(a.regs), ByteNumbers(a.mem))
  }

  function OutcomeOf(r: StepResult): Manuals.Outcome {
    match r
    case Next(b) => Manuals.Continues(StateOf(b))
    case Halted(exitCode) => Manuals.Halts(Value(exitCode))
    case FetchFault => Manuals.FetchFails
    case IllegalInstruction => Manuals.Illegal
    case MemoryFault => Manuals.AccessFails
  }

  lemma RegisterValue(a: Arch, i: RegisterIndex)
    requires i < 32
    ensures Value(ReadRegister(a.regs, i)) == Manuals.Register(StateOf(a), i)
  {
    hide Value;
    ZeroValue();
  }

  lemma Written(a: Arch, i: RegisterIndex, v: Word, pc: Address)
    requires i < 32
    ensures Manuals.Continues(StateOf(Arch(pc, WriteRegister(a.regs, i, v), a.mem)))
            == Manuals.Put(StateOf(a), i, Value(v), Value(pc))
  {
    hide Value, ByteNumbers;
    assert Numbers(WriteRegister(a.regs, i, v)) == if i == 0 then Numbers(a.regs) else Numbers(a.regs)[i := Value(v)];
  }

  lemma NextAddress(pc: Address)
    ensures Value(Add(pc, INSTRUCTION_WIDTH)) == Manuals.Wrap(Value(pc) + 4)
  {
    hide Value, Add;
    AddIsSum(pc, INSTRUCTION_WIDTH);
    FourIsFour();
  }

  lemma FourIsFour()
    ensures Value(INSTRUCTION_WIDTH) == 4
  {
  }

  // --- Memory -----------------------------------------------------------------------------------

  lemma ByteValues(w: Word)
    ensures Value(w & 0xff) == ByteValue(ByteOf(w, 0))
    ensures Value(w & 0xff00) == 0x100 * ByteValue(ByteOf(w, 1))
    ensures Value(w & 0xff_0000) == 0x1_0000 * ByteValue(ByteOf(w, 2))
    ensures Value(w & 0xff00_0000) == 0x100_0000 * ByteValue(ByteOf(w, 3))
  {
  }

  /** Byte k of a word weighs 256^k. */
  lemma WordIsItsBytes(w: Word)
    ensures Value(w) == ByteValue(ByteOf(w, 0)) + 0x100 * ByteValue(ByteOf(w, 1)) + 0x1_0000 * ByteValue(ByteOf(w, 2))
                        + 0x100_0000 * ByteValue(ByteOf(w, 3))
  {
    hide Value, ByteOf, ByteValue;
    SplitAt24(w);
    SplitAt16(w);
    SplitAt8(w);
    ByteValues(w);
  }

  lemma BytesOfNumber(v: int, b0: int, b1: int, b2: int, b3: int)
    requires 0 <= b0 < 256 && 0 <= b1 < 256 && 0 <= b2 < 256 && 0 <= b3 < 256
    requires v == b0 + 0x100 * b1 + 0x1_0000 * b2 + 0x100_0000 * b3
    ensures v % 256 == b0 && v / 256 % 256 == b1 && v / 65536 % 256 == b2 && v / 16777216 % 256 == b3
  {
    var above1 := b1 + 0x100 * (b2 + 0x100 * b3);
    Remainder(v, b0, above1, 0x100);
    Remainder(v, b0 + 0x100 * b1, b2 + 0x100 * b3, 0x1_0000);
    Remainder(v, b0 + 0x100 * b1 + 0x1_0000 * b2, b3, 0x100_0000);
    Remainder(above1, b1, b2 + 0x100 * b3, 0x100);
    Remainder(b2 + 0x100 * b3, b2, b3, 0x100);
  }

  lemma NoByte()
    ensures ByteValue(0) == 0
  {
  }

  lemma InRangeNumber(address: Address, width: MemoryWidth)
    ensures InBounds(address, WidthInBytes(width)) <==> Manuals.InMemory(Value(address), WidthInBytes(width))
  {
    hide Value, Position;
    PositionIsValue(address);
  }

  lemma LittleNumber(mem: Bytes, start: nat, width: MemoryWidth, raw: Word)
    requires start + WidthInBytes(width) <= MEMORY_SIZE
    requires forall k :: 0 <= k < 4 ==> ByteOf(raw, k) == if k < WidthInBytes(width) then mem[start + k] else 0
    ensures Value(raw) == Manuals.Little(ByteNumbers(mem), start, WidthInBytes(width))
  {
    hide ByteOf, ByteValue, Value, ByteNumbers;
    NoByte();
    WordIsItsBytes(raw);
    assert ByteOf(raw, 0) == mem[start];
    assert width != BYTE ==> ByteOf(raw, 1) == mem[start + 1];
    assert width == WORD ==> ByteOf(raw, 2) == mem[start + 2] && ByteOf(raw, 3) == mem[start + 3];
  }

  /** An access finds the little-endian number at its address, or fails past the end of memory. */
  lemma ReadNumber(mem: Bytes, address: Address, width: MemoryWidth)
    ensures RawRead(mem, address, width).Some? <==> Manuals.InMemory(Value(address), WidthInBytes(width))
    ensures RawRead(mem, address, width).Some? ==>
              Value(RawRead(mem, address, width).value)
              == Manuals.Little(ByteNumbers(mem), Value(address), WidthInBytes(width))
  {
    hide RawRead, ByteOf, Value, Position, InBounds, ByteNumbers, Manuals.Little, Manuals.InMemory;
    ReadOverWrite.LoadIsBytewise(mem, address, width);
    PositionIsValue(address);
    InRangeNumber(address, width);
    if RawRead(mem, address, width).Some? {
      BoundsOf(address, width);
      LittleNumber(mem, Position(address), width, RawRead(mem, address, width).value);
    }
  }

  lemma BoundsOf(address: Address, width: MemoryWidth)
    requires InBounds(address, WidthInBytes(width))
    ensures Position(address) + WidthInBytes(width) <= MEMORY_SIZE
  {
  }

  lemma PositionIsValue(address: Address)
    ensures Position(address) == Value(address)
  {
  }

  lemma StoredNumber(mem: Bytes, start: nat, width: MemoryWidth, v: Word, after: Bytes)
    requires start + WidthInBytes(width) <= MEMORY_SIZE
    requires after == Patched(mem, start, width, v)
    ensures ByteNumbers(after) == Manuals.Stored(ByteNumbers(mem), start, WidthInBytes(width), Value(v))
  {
    hide ByteOf, ByteValue, Value, ByteNumbers;
    WordIsItsBytes(v);
    BytesOfNumber(Value(v), ByteValue(ByteOf(v, 0)), ByteValue(ByteOf(v, 1)), ByteValue(ByteOf(v, 2)),
                  ByteValue(ByteOf(v, 3)));
  }

  /** A store leaves the bytes of its number, lowest first, and touches nothing else. */
  lemma WriteNumber(mem: Bytes, address: Address, width: MemoryWidth, v: Word)
    ensures Write(mem, address, width, v).Some? <==> Manuals.InMemory(Value(address), WidthInBytes(width))
    ensures Write(mem, address, width, v).Some? ==>
              ByteNumbers(Write(mem, address, width, v).value)
              == Manuals.Stored(ByteNumbers(mem), Value(address), WidthInBytes(width), Value(v))
  {
    hide Patched, Value, Position, InBounds, ByteNumbers, Manuals.Stored, Manuals.InMemory;
    PositionIsValue(address);
    InRangeNumber(address, width);
    if InBounds(address, WidthInBytes(width)) {
      BoundsOf(address, width);
      StoredNumber(mem, Position(address), width, v, Patched(mem, Position(address), width, v));
    }
  }

  // --- Decoding ---------------------------------------------------------------------------------

  lemma OpcodeValues()
    ensures Value(LOAD_OPCODE) == 0x03 && Value(OP_IMMEDIATE_OPCODE) == 0x13 && Value(AUIPC_OPCODE) == 0x17
    ensures Value(STORE_OPCODE) == 0x23 && Value(OP_OPCODE) == 0x33 && Value(LUI_OPCODE) == 0x37
    ensures Value(BRANCH_OPCODE) == 0x63 && Value(JALR_OPCODE) == 0x67 && Value(JAL_OPCODE) == 0x6f
    ensures Value(HALT_ENCODING) == 0x0ff00513 && Value(ALTERNATE_FUNCT7) == 32 && Value(BASE_FUNCT7) == 0
  {
  }

  /** Which decoder a word goes to, by its manual opcode. */
  lemma Dispatch(w: Word)
    requires w != HALT_ENCODING
    ensures var code := Manuals.OpcodeOf(Value(w));
            Decode(w) == if code == 0x03 then DecodeLoad(w)
                         else if code == 0x13 then DecodeOpImmediate(w)
                         else if code == 0x17 || code == 0x37 then DecodeU(w)
                         else if code == 0x23 then DecodeS(w)
                         else if code == 0x33 then DecodeR(w)
                         else if code == 0x63 then DecodeB(w)
                         else if code == 0x67 then DecodeJalr(w)
                         else if code == 0x6f then DecodeJ(w)
                         else NO_INSTRUCTION
  {
    hide Value, Opcode, Manuals.OpcodeOf, DecodeLoad, DecodeOpImmediate, DecodeU, DecodeS, DecodeR, DecodeB, DecodeJalr,
         DecodeJ;
    CodeNumbers(w);
    OpcodeValues();
    EqualNumbers(Opcode(w), LOAD_OPCODE);
    EqualNumbers(Opcode(w), OP_IMMEDIATE_OPCODE);
    EqualNumbers(Opcode(w), AUIPC_OPCODE);
    EqualNumbers(Opcode(w), STORE_OPCODE);
    EqualNumbers(Opcode(w), OP_OPCODE);
    EqualNumbers(Opcode(w), LUI_OPCODE);
    EqualNumbers(Opcode(w), BRANCH_OPCODE);
    EqualNumbers(Opcode(w), JALR_OPCODE);
    EqualNumbers(Opcode(w), JAL_OPCODE);
  }

  lemma CodeValues(code: Word)
    ensures (code == 0 <==> Value(code) == 0) && (code == 1 <==> Value(code) == 1) && (code == 2 <==> Value(code) == 2)
    ensures (code == 3 <==> Value(code) == 3) && (code == 4 <==> Value(code) == 4) && (code == 5 <==> Value(code) == 5)
    ensures (code == 6 <==> Value(code) == 6) && (code == 7 <==> Value(code) == 7)
    ensures code == ALTERNATE_FUNCT7 <==> Value(code) == 32
  {
    EqualNumbers(code, 0);
    EqualNumbers(code, 1);
    EqualNumbers(code, 2);
    EqualNumbers(code, 3);
    EqualNumbers(code, 4);
    EqualNumbers(code, 5);
    EqualNumbers(code, 6);
    EqualNumbers(code, 7);
    EqualNumbers(code, ALTERNATE_FUNCT7);
  }

  // --- Loads and stores -------------------------------------------------------------------------

  lemma LoadOps(code: Word)
    ensures var op := OpOfLoad(code);
            && (op.INVALID? <==> Value(code) == 3 || Value(code) > 5)
            && (!op.INVALID? ==> WidthInBytes(WidthOf(op)) == Manuals.BytesMoved(Value(code)))
            && (op.LB? <==> Value(code) == 0) && (op.LH? <==> Value(code) == 1)
  {
    hide Value;
    CodeValues(code);
  }

  lemma StoreOps(code: Word)
    ensures var op := OpOfStore(code);
            && (op.INVALID? <==> Value(code) > 2)
            && (!op.INVALID? ==> WidthInBytes(WidthOf(op)) == Manuals.BytesMoved(Value(code)))
  {
    hide Value;
    CodeValues(code);
  }

  lemma OffsetNumber(x: Word, immediate: Word, offset: int)
    requires Value(immediate) == Manuals.Wrap(offset)
    ensures Value(Add(x, immediate)) == Manuals.Wrap(Value(x) + offset)
  {
    hide Value, Add;
    AddIsSum(x, immediate);
  }

  lemma AddressNumber(a: Arch, d: DecodedInstruction, offset: int)
    requires d.rs1 < 32 && Value(d.immediate) == Manuals.Wrap(offset)
    ensures Value(DataAddress(d, a)) == Manuals.Wrap(Manuals.Register(StateOf(a), d.rs1) + offset)
  {
    hide Value, Add, ReadRegister, StateOf, Manuals.Wrap;
    RegisterValue(a, d.rs1);
    OffsetNumber(ReadRegister(a.regs, d.rs1), d.immediate, offset);
  }

  /** An instruction that neither branches, jumps nor stores sets its register and goes on. */
  lemma StraightStep(a: Arch, w: Word, d: DecodedInstruction)
    requires ReadWord(a.mem, a.pc) == Some(w) && Decode(w) == d
    requires !d.op.HALT? && !d.op.INVALID? && !d.isStore && !d.isBranch && !d.isJump && !Faults(d, a)
    ensures d.rd < 32
    ensures OutcomeOf(Isa.Step(a))
            == Manuals.Put(StateOf(a), d.rd, Value(ResultValue(d, a)), Manuals.Wrap(Value(a.pc) + 4))
  {
    hide Value, Decode, ReadWord, ResultValue, Successor, Faults, WriteRegister, StateOf, Manuals.Put, Add;
    DecodeIsWellFormed(w);
    Datapath.StraightAhead(d, a);
    NextAddress(a.pc);
    Written(a, d.rd, ResultValue(d, a), Successor(d, a));
    WritesNothing(a.regs, d.rd, ResultValue(d, a));
  }

  lemma WritesNothing(regs: Registers, i: RegisterIndex, v: Word)
    ensures i == 0 ==> WriteRegister(regs, i, v) == regs
  {
  }

  lemma ExtendNumber(op: Op, raw: Word, code: int)
    requires ReadOverWrite.Fits(raw, WidthOf(op))
    requires (op.LB? <==> code == 0) && (op.LH? <==> code == 1)
    ensures Value(Extend(op, raw)) == Manuals.Extended(code, Value(raw))
  {
    hide Value, Extend, Subtract;
    ReadOverWrite.ExtendIsWidened(op, raw);
    ExtensionConstants();
    LessIsOrder(raw, 0x80);
    LessIsOrder(raw, 0x8000);
    LessIsOrder(0xff, raw);
    LessIsOrder(0xffff, raw);
    SubtractIsDifference(raw, 0x100);
    SubtractIsDifference(raw, 0x1_0000);
  }

  lemma ExtensionConstants()
    ensures Value(0x80) == 128 && Value(0x100) == 256 && Value(0x8000) == 32768 && Value(0x1_0000) == 65536
    ensures Value(0xff) == 255 && Value(0xffff) == 65535
  {
  }

  lemma RawFits(mem: Bytes, address: Address, width: MemoryWidth)
    requires RawRead(mem, address, width).Some?
    ensures ReadOverWrite.Fits(RawRead(mem, address, width).value, width)
  {
    hide ReadWord;
  }

  lemma LoadStep(a: Arch, w: Word)
    requires ReadWord(a.mem, a.pc) == Some(w) && Decode(w) == DecodeLoad(w)
    ensures OutcomeOf(Isa.Step(a)) == Manuals.Load(StateOf(a), Value(w))
  {
    hide Value, Decode, Funct3, ReadWord, RawRead, OpOfLoad, WidthOf, Extend, DecodeRd, DecodeRs1, DecodeImmediateI,
         Numbers, ByteNumbers, InBounds, DataAddress, Manuals.Put, Manuals.Little, Manuals.Extended, Manuals.Register,
         Manuals.Funct3Of, Manuals.RdOf, Manuals.Rs1Of, Manuals.ImmediateI, Manuals.BytesMoved, Manuals.Wrap;
    var d := Decode(w);
    CodeNumbers(w);
    LoadOps(Funct3(w));
    if !d.op.INVALID? {
      RdNumber(w);
      Rs1Number(w);
      ImmediateINumber(w);
      AddressNumber(a, d, Manuals.ImmediateI(Value(w)));
      ReadNumber(a.mem, DataAddress(d, a), WidthOf(d.op));
      InRangeNumber(DataAddress(d, a), WidthOf(d.op));
      if !Faults(d, a) {
        StraightStep(a, w, d);
        var raw := RawRead(a.mem, DataAddress(d, a), WidthOf(d.op)).value;
        RawFits(a.mem, DataAddress(d, a), WidthOf(d.op));
        ExtendNumber(d.op, raw, Manuals.Funct3Of(Value(w)));
      }
    }
  }

  lemma StoreStep(a: Arch, w: Word)
    requires ReadWord(a.mem, a.pc) == Some(w) && Decode(w) == DecodeS(w)
    ensures OutcomeOf(Isa.Step(a)) == Manuals.Store(StateOf(a), Value(w))
  {
    hide Value, Decode, Funct3, ReadWord, Write, OpOfStore, WidthOf, DecodeRs1, DecodeRs2, DecodeImmediateS, Numbers,
         ByteNumbers, InBounds, DataAddress, Manuals.Stored, Manuals.Register, Manuals.Funct3Of, Manuals.Rs1Of,
         Manuals.Rs2Of, Manuals.ImmediateS, Manuals.BytesMoved, Manuals.Wrap, Add;
    var d := Decode(w);
    CodeNumbers(w);
    StoreOps(Funct3(w));
    if !d.op.INVALID? {
      DecodeIsWellFormed(w);
      Rs1Number(w);
      Rs2Number(w);
      ImmediateSNumber(w);
      AddressNumber(a, d, Manuals.ImmediateS(Value(w)));
      RegisterValue(a, d.rs2);
      WriteNumber(a.mem, DataAddress(d, a), WidthOf(d.op), ReadRegister(a.regs, d.rs2));
      InRangeNumber(DataAddress(d, a), WidthOf(d.op));
      Datapath.StraightAhead(d, a);
      NextAddress(a.pc);
    }
  }

  // --- Integer instructions -----------------------------------------------------------------------

  lemma RegisterOps(w: Word)
    ensures var op := OpOfR(Funct3(w), Funct7(w));
            var code, alternate := Manuals.Funct3Of(Value(w)), Manuals.Funct7Of(Value(w));
            && (op.INVALID? <==> alternate != 0 && !(alternate == 32 && (code == 0 || code == 5)))
            && (!op.INVALID? ==> CodeOf(op) == code && (IsAlternate(op) <==> alternate == 32))
  {
    hide Value, Funct3, Funct7, Manuals.Funct3Of, Manuals.Funct7Of;
    CodeNumbers(w);
    CodeBelowEight(w);
    CodeValues(Funct3(w));
    CodeValues(Funct7(w));
  }

  lemma CodeBelowEight(w: Word)
    ensures 0 <= Manuals.Funct3Of(Value(w)) < 8
  {
    hide Value;
  }

  lemma ImmediateOps(w: Word)
    ensures var op := OpOfImmediate(Funct3(w), Funct7(w));
            var code, alternate := Manuals.Funct3Of(Value(w)), Manuals.Funct7Of(Value(w));
            && (op.INVALID? <==> (code == 1 || code == 5) && alternate != 0 && !(code == 5 && alternate == 32))
            && (!op.INVALID? ==> CodeOf(op) == code && (IsAlternate(op) <==> code == 5 && alternate == 32))
            && (!op.INVALID? ==> (op.SLLI? || op.SRLI? || op.SRAI? <==> code == 1 || code == 5))
  {
    hide Value, Funct3, Funct7, Manuals.Funct3Of, Manuals.Funct7Of;
    CodeNumbers(w);
    CodeBelowEight(w);
    CodeValues(Funct3(w));
    CodeValues(Funct7(w));
  }

  lemma RegistersStep(a: Arch, w: Word)
    requires ReadWord(a.mem, a.pc) == Some(w) && Decode(w) == DecodeR(w)
    ensures OutcomeOf(Isa.Step(a)) == Manuals.OperateRegisters(StateOf(a), Value(w))
  {
    hide Value, Decode, Funct3, Funct7, ReadWord, OpOfR, DecodeRd, DecodeRs1, DecodeRs2, Numbers, ByteNumbers, CodeOf,
         IsAlternate, RegisterRegister, ComputedValue, Manuals.Put, Manuals.Operate, Manuals.Register, Manuals.Funct3Of,
         Manuals.Funct7Of, Manuals.RdOf, Manuals.Rs1Of, Manuals.Rs2Of, Manuals.Wrap, ReadRegister;
    var d := Decode(w);
    RegisterOps(w);
    if !d.op.INVALID? {
      RdNumber(w);
      Rs1Number(w);
      Rs2Number(w);
      RegisterValue(a, d.rs1);
      RegisterValue(a, d.rs2);
      Datapath.ComputedByClass(d, a.pc, ReadRegister(a.regs, d.rs1), ReadRegister(a.regs, d.rs2));
      RegisterNumber(d.op, ReadRegister(a.regs, d.rs1), ReadRegister(a.regs, d.rs2));
      StraightStep(a, w, d);
    }
  }

  lemma ImmediateStep(a: Arch, w: Word)
    requires ReadWord(a.mem, a.pc) == Some(w) && Decode(w) == DecodeOpImmediate(w)
    ensures OutcomeOf(Isa.Step(a)) == Manuals.OperateImmediate(StateOf(a), Value(w))
  {
    hide Value, Decode, Funct3, Funct7, ReadWord, OpOfImmediate, DecodeRd, DecodeRs1, ExtractBits, DecodeImmediateI,
         Numbers, ByteNumbers, CodeOf, IsAlternate, RegisterImmediate, ComputedValue, Manuals.Put, Manuals.Operate,
         Manuals.Register, Manuals.Funct3Of, Manuals.Funct7Of, Manuals.RdOf, Manuals.Rs1Of, Manuals.Rs2Of,
         Manuals.ImmediateI, Manuals.Wrap, ReadRegister;
    var d := Decode(w);
    ImmediateOps(w);
    if !d.op.INVALID? {
      RdNumber(w);
      Rs1Number(w);
      Rs2Number(w);
      ImmediateINumber(w);
      RegisterValue(a, d.rs1);
      Datapath.ComputedByClass(d, a.pc, ReadRegister(a.regs, d.rs1), ReadRegister(a.regs, d.rs2));
      ImmediateNumber(d.op, ReadRegister(a.regs, d.rs1), d.immediate);
      StraightStep(a, w, d);
    }
  }

  lemma UpperStep(a: Arch, w: Word)
    requires ReadWord(a.mem, a.pc) == Some(w) && Decode(w) == DecodeU(w)
    requires Manuals.OpcodeOf(Value(w)) == 0x17 || Manuals.OpcodeOf(Value(w)) == 0x37
    ensures var s, v := StateOf(a), Value(w);
            var value := if Manuals.OpcodeOf(v) == 0x17 then Manuals.Wrap(s.pc + Manuals.ImmediateU(v))
                else Manuals.ImmediateU(v);
            OutcomeOf(Isa.Step(a)) == Manuals.Put(s, Manuals.RdOf(v), value, Manuals.Wrap(s.pc + 4))
  {
    hide Value, Decode, Opcode, ReadWord, DecodeRd, DecodeImmediateU, Numbers, ByteNumbers, Manuals.Put,
         Manuals.OpcodeOf, Manuals.RdOf, Manuals.ImmediateU, Add;
    var d := Decode(w);
    CodeNumbers(w);
    OpcodeValues();
    EqualNumbers(Opcode(w), AUIPC_OPCODE);
    EqualNumbers(Opcode(w), LUI_OPCODE);
    RdNumber(w);
    ImmediateUNumber(w);
    AddIsSum(a.pc, d.immediate);
    StraightStep(a, w, d);
  }

  // --- Control ------------------------------------------------------------------------------------

  lemma BranchOps(w: Word)
    ensures var op := OpOfBranch(Funct3(w));
            var code := Manuals.Funct3Of(Value(w));
            && (op.INVALID? <==> !Manuals.BranchCode(code))
            && (!op.INVALID? ==>
                  code == if op.BEQ? then 0 else if op.BNE? then 1 else if op.BLT? then 4 else if op.BGE? then 5
                          else if op.BLTU? then 6 else 7)
  {
    hide Value, Funct3, Manuals.Funct3Of;
    CodeNumbers(w);
    CodeBelowEight(w);
    CodeValues(Funct3(w));
  }

  lemma BranchTarget(a: Arch, d: DecodedInstruction, code: int, offset: int)
    requires IsBranchOp(d.op) && d.rs1 < 32 && d.rs2 < 32 && Value(d.immediate) == Manuals.Wrap(offset)
    requires code == if d.op.BEQ? then 0 else if d.op.BNE? then 1 else if d.op.BLT? then 4 else if d.op.BGE? then 5
                     else if d.op.BLTU? then 6 else 7
    ensures var s := StateOf(a);
            var taken := Manuals.Taken(code, Manuals.Register(s, d.rs1), Manuals.Register(s, d.rs2));
            Value(Successor(d, a)) == Manuals.Wrap(s.pc + if taken then offset else 4)
  {
    hide Value, Numbers, ByteNumbers, BranchTaken, Manuals.Taken, Manuals.Register, ReadRegister, Add, ClearLowBit,
         Manuals.Wrap;
    RegisterValue(a, d.rs1);
    RegisterValue(a, d.rs2);
    BranchNumber(d.op, ReadRegister(a.regs, d.rs1), ReadRegister(a.regs, d.rs2), code);
    OffsetNumber(a.pc, d.immediate, offset);
    NextAddress(a.pc);
  }

  lemma BranchMoves(a: Arch, w: Word)
    requires ReadWord(a.mem, a.pc) == Some(w) && Decode(w).isBranch
    ensures OutcomeOf(Isa.Step(a)) == Manuals.Continues(StateOf(a).(pc := Value(Successor(Decode(w), a))))
  {
    hide Value, Decode, ReadWord, Successor, Numbers, ByteNumbers, Add;
    DecodeIsWellFormed(w);
  }

  lemma BranchStep(a: Arch, w: Word)
    requires ReadWord(a.mem, a.pc) == Some(w) && Decode(w) == DecodeB(w)
    ensures OutcomeOf(Isa.Step(a)) == Manuals.Branch(StateOf(a), Value(w))
  {
    hide Value, Decode, Funct3, ReadWord, OpOfBranch, DecodeRs1, DecodeRs2, DecodeImmediateB, Numbers, ByteNumbers,
         Successor, Manuals.Taken, Manuals.BranchCode, Manuals.Register, Manuals.Funct3Of, Manuals.Rs1Of,
         Manuals.Rs2Of, Manuals.ImmediateB, Manuals.Wrap, After;
    var d := Decode(w);
    BranchOps(w);
    if !d.op.INVALID? {
      Rs1Number(w);
      Rs2Number(w);
      ImmediateBNumber(w);
      BranchTarget(a, d, Manuals.Funct3Of(Value(w)), Manuals.ImmediateB(Value(w)));
      BranchMoves(a, w);
    }
  }

  lemma JumpEffect(a: Arch, d: DecodedInstruction)
    requires WellDecoded(d) && d.isJump
    ensures ResultValue(d, a) == Add(a.pc, INSTRUCTION_WIDTH) && MemoryAfter(d, a) == a.mem && !Faults(d, a)
    ensures !d.op.HALT? && !d.op.INVALID?
  {
    hide Add, RegisterRegister, RegisterImmediate, Write, RawRead;
  }

  lemma JumpValue(a: Arch, w: Word, target: int)
    requires ReadWord(a.mem, a.pc) == Some(w) && Decode(w).isJump
    requires Value(Successor(Decode(w), a)) == target && DecodeRd(w) == Decode(w).rd
    ensures OutcomeOf(Isa.Step(a)) == Manuals.Jump(StateOf(a), Value(w), target)
  {
    hide Value, Decode, ReadWord, DecodeRd, Successor, Numbers, ByteNumbers, Add, WriteRegister, Manuals.Put,
         Manuals.RdOf, Manuals.Wrap, ResultValue, MemoryAfter, Faults;
    var d := Decode(w);
    DecodeIsWellFormed(w);
    JumpEffect(a, d);
    RdNumber(w);
    NextAddress(a.pc);
    Written(a, d.rd, ResultValue(d, a), Successor(d, a));
    WritesNothing(a.regs, d.rd, ResultValue(d, a));
  }

  lemma JumpStep(a: Arch, w: Word)
    requires ReadWord(a.mem, a.pc) == Some(w) && Decode(w) == DecodeJ(w)
    ensures OutcomeOf(Isa.Step(a))
            == Manuals.Jump(StateOf(a), Value(w), Manuals.Wrap(Value(a.pc) + Manuals.ImmediateJ(Value(w))))
  {
    hide Value, Decode, ReadWord, DecodeRd, DecodeImmediateJ, Numbers, ByteNumbers, Add, Isa.Step, Manuals.Jump,
         Manuals.ImmediateJ, Manuals.Wrap;
    ImmediateJNumber(w);
    OffsetNumber(a.pc, Decode(w).immediate, Manuals.ImmediateJ(Value(w)));
    JumpValue(a, w, Manuals.Wrap(Value(a.pc) + Manuals.ImmediateJ(Value(w))));
  }

  lemma RegisterTarget(a: Arch, d: DecodedInstruction, offset: int)
    requires d.op.JALR? && d.rs1 < 32 && Value(d.immediate) == Manuals.Wrap(offset)
    ensures Value(Successor(d, a)) == Manuals.Wrap(Manuals.Register(StateOf(a), d.rs1) + offset) / 2 * 2
  {
    hide Value, Numbers, ByteNumbers, Manuals.Register, ReadRegister, Add, ClearLowBit, Manuals.Wrap;
    RegisterValue(a, d.rs1);
    OffsetNumber(ReadRegister(a.regs, d.rs1), d.immediate, offset);
    ClearLowBitIsEven(Add(ReadRegister(a.regs, d.rs1), d.immediate));
  }

  lemma RegisterJumpStep(a: Arch, w: Word)
    requires ReadWord(a.mem, a.pc) == Some(w) && Decode(w) == DecodeJalr(w)
    ensures var s, v := StateOf(a), Value(w);
            var target := Manuals.Wrap(Manuals.Register(s, Manuals.Rs1Of(v)) + Manuals.ImmediateI(v)) / 2 * 2;
            OutcomeOf(Isa.Step(a)) == if Manuals.Funct3Of(v) != 0 then Manuals.Illegal else Manuals.Jump(s, v, target)
  {
    hide Value, Decode, Funct3, ReadWord, DecodeRd, DecodeRs1, DecodeImmediateI, Numbers, ByteNumbers, Successor, After,
         Manuals.Jump, Manuals.ImmediateI, Manuals.Register, Manuals.Funct3Of, Manuals.Rs1Of, Manuals.Wrap;
    CodeNumbers(w);
    CodeValues(Funct3(w));
    if Funct3(w) == 0 {
      Rs1Number(w);
      ImmediateINumber(w);
      RegisterTarget(a, Decode(w), Manuals.ImmediateI(Value(w)));
      JumpValue(a, w, Value(Successor(Decode(w), a)));
    }
  }

  // --- Every step, every run -----------------------------------------------------------------------

  lemma FetchNumber(a: Arch)
    ensures ReadWord(a.mem, a.pc).Some? <==> Manuals.InMemory(Value(a.pc), 4)
    ensures ReadWord(a.mem, a.pc).Some? ==>
              Value(ReadWord(a.mem, a.pc).value) == Manuals.Little(ByteNumbers(a.mem), Value(a.pc), 4)
  {
    hide Value, ReadWord, ByteNumbers, Manuals.Little, Manuals.InMemory;
    ReadNumber(a.mem, a.pc, WORD);
  }

  lemma HaltNumber(a: Arch)
    ensures Value(And(a.regs[10], 0xff)) == StateOf(a).regs[10] % 256
  {
    hide Value, And, ByteNumbers, LowMask, ArithmeticShifts.PowerOfTwo;
    LowByte(a.regs[10]);
    MaskIsRemainder(a.regs[10], 8);
  }

  lemma LowByte(x: Word)
    ensures And(x, 0xff) == x & LowMask(8) && ArithmeticShifts.PowerOfTwo(8) == 256
  {
  }

  lemma ExecuteNumber(a: Arch, w: Word)
    requires ReadWord(a.mem, a.pc) == Some(w) && w != HALT_ENCODING
    ensures OutcomeOf(Isa.Step(a)) == Manuals.Execute(StateOf(a), Value(w))
  {
    hide Value, Decode, ReadWord, DecodeLoad, DecodeOpImmediate, DecodeU, DecodeS, DecodeR, DecodeB, DecodeJalr,
         DecodeJ, Numbers, ByteNumbers, Manuals.OpcodeOf, Manuals.Funct3Of, Manuals.RdOf, Manuals.Rs1Of, Manuals.Load,
         Manuals.Store, Manuals.Branch, Manuals.OperateImmediate, Manuals.OperateRegisters, Manuals.Jump, Manuals.Put,
         Manuals.Register, Manuals.ImmediateI, Manuals.ImmediateJ, Manuals.ImmediateU, Manuals.Wrap, After, Faults,
         Successor;
    Dispatch(w);
    OpcodeValues();
    EqualNumbers(w, HALT_ENCODING);
    var code := Manuals.OpcodeOf(Value(w));
    if code == 0x03 { LoadStep(a, w); }
    else if code == 0x13 { ImmediateStep(a, w); }
    else if code == 0x17 || code == 0x37 { UpperStep(a, w); }
    else if code == 0x23 { StoreStep(a, w); }
    else if code == 0x33 { RegistersStep(a, w); }
    else if code == 0x63 { BranchStep(a, w); }
    else if code == 0x67 { RegisterJumpStep(a, w); }
    else if code == 0x6f { JumpStep(a, w); }
  }

  /** The sequential step is the manual's step on the numbers of the state. */
  lemma StepIsManual(a: Arch)
    ensures OutcomeOf(Isa.Step(a)) == Manuals.Step(StateOf(a))
  {
    hide Value, Decode, ReadWord, And, Numbers, ByteNumbers, Manuals.Little, Manuals.InMemory, Manuals.Execute, After,
         Faults, Successor;
    FetchNumber(a);
    if ReadWord(a.mem, a.pc).Some? {
      var w := ReadWord(a.mem, a.pc).value;
      if w == HALT_ENCODING { HaltStep(a); } else { ExecuteNumber(a, w); }
    }
  }

  lemma HaltStep(a: Arch)
    requires ReadWord(a.mem, a.pc) == Some(HALT_ENCODING)
    ensures OutcomeOf(Isa.Step(a)) == Manuals.Execute(StateOf(a), Value(HALT_ENCODING))
  {
    hide Value, ReadWord, And, Numbers, ByteNumbers, After, Faults, Successor;
    OpcodeValues();
    HaltNumber(a);
  }

  // --- Predicted addresses ---------------------------------------------------------------------------

  /** A branch predicted taken and a JAL are predicted at their targets, all else at the next word. */
  lemma PredictionNumber(w: Word, pc: Address, taken: bool)
    requires !Decode(w).op.INVALID? && w != HALT_ENCODING
    ensures var code, v := Manuals.OpcodeOf(Value(w)), Value(w);
            Value(Pipeline.PredictedNextPc(Decode(w), pc, taken))
            == Manuals.Wrap(Value(pc) + if code == 0x63 && taken then Manuals.ImmediateB(v)
                                        else if code == 0x6f then Manuals.ImmediateJ(v) else 4)
  {
    hide Value, Add, Decode, DecodeImmediateB, DecodeImmediateJ, Manuals.OpcodeOf, Manuals.ImmediateB,
         Manuals.ImmediateJ, Manuals.Wrap;
    ControlClasses(w);
    ImmediateBNumber(w);
    ImmediateJNumber(w);
    NextAddress(pc);
    OffsetNumber(pc, DecodeImmediateB(w), Manuals.ImmediateB(Value(w)));
    OffsetNumber(pc, DecodeImmediateJ(w), Manuals.ImmediateJ(Value(w)));
  }

  lemma ControlClasses(w: Word)
    requires !Decode(w).op.INVALID? && w != HALT_ENCODING
    ensures var code, d := Manuals.OpcodeOf(Value(w)), Decode(w);
            && (d.isBranch <==> code == 0x63) && (d.op.JAL? <==> code == 0x6f)
            && (d.isBranch ==> d.immediate == DecodeImmediateB(w))
            && (d.op.JAL? ==> d.immediate == DecodeImmediateJ(w))
  {
    hide Value, Funct3, Funct7, Opcode, OpOfR, OpOfImmediate, OpOfLoad, OpOfStore, OpOfBranch, DecodeRd, DecodeRs1,
         DecodeRs2, DecodeImmediateI, DecodeImmediateS, DecodeImmediateB, DecodeImmediateU, DecodeImmediateJ,
         ExtractBits, Manuals.OpcodeOf, Decode;
    Dispatch(w);
  }
}
