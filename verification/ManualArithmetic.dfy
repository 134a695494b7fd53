// The operations of RV32I compute what the manual says of the numbers they are
// given.
module ManualArithmetic {
  import opened Types
  import opened WordArithmetic
  import opened ArithmeticShifts
  import opened Numerals
  import opened Decoder
  import opened Isa
  import Manuals

  // --- Logic --------------------------------------------------------------------------------

  /** XOR, OR and AND by their code. */
  function Logic(code: int, x: Word, y: Word): Word {
    if code == 4 then Xor(x, y) else if code == 6 then Or(x, y) else And(x, y)
  }

  lemma LogicHalf(code: int, x: Word, y: Word)
    ensures Half(Logic(code, x, y)) == Logic(code, Half(x), Half(y))
  {
    hide Half, And, Or, Xor;
    if code == 4 { XorHalf(x, y); } else if code == 6 { OrHalf(x, y); } else { AndHalf(x, y); }
  }

  lemma LogicBit(code: int, x: Word, y: Word)
    ensures Bit(Logic(code, x, y), 0) == Manuals.BitOf(code, Bit(x, 0), Bit(y, 0))
  {
    hide Bit, And, Or, Xor;
    AndBits(x, y, 0);
    OrBits(x, y, 0);
    XorBits(x, y, 0);
  }

  lemma LogicOfZeros(code: int, x: Word, y: Word)
    requires x == 0 && y == 0
    ensures Value(Logic(code, x, y)) == 0
  {
  }

  lemma ZeroIsZero(x: Word)
    requires Value(x) == 0
    ensures x == 0
  {
    EqualNumbers(x, 0);
  }

  lemma {:induction false} LogicIsBitwise(code: int, x: Word, y: Word, bits: nat)
    requires Value(x) < Manuals.TwoTo(bits) && Value(y) < Manuals.TwoTo(bits)
    ensures Value(Logic(code, x, y)) == Manuals.Bitwise(code, Value(x), Value(y), bits)
    decreases bits
  {
    hide Value, Bit, Logic, Manuals.BitOf;
    if bits == 0 {
      ZeroIsZero(x);
      ZeroIsZero(y);
      LogicOfZeros(code, x, y);
    } else {
      HalfIsQuotient(x);
      HalfIsQuotient(y);
      HalfIsQuotient(Logic(code, x, y));
      LogicHalf(code, x, y);
      LogicBit(code, x, y);
      LogicIsBitwise(code, Half(x), Half(y), bits - 1);
    }
  }

  lemma AllBits()
    ensures Manuals.TwoTo(32) == MODULUS
  {
    assert Manuals.TwoTo(8) == 0x100;
    assert Manuals.TwoTo(16) == 0x1_0000;
    assert Manuals.TwoTo(24) == 0x100_0000;
  }

  /** XOR, OR and AND work on the bits of the numbers. */
  lemma LogicNumber(code: int, x: Word, y: Word)
    ensures Value(Logic(code, x, y)) == Manuals.Bitwise(code, Value(x), Value(y), 32)
  {
    hide Value, Logic, Manuals.Bitwise;
    AllBits();
    LogicIsBitwise(code, x, y, 32);
  }

  // --- Shifts and comparisons -------------------------------------------------------------------

  lemma {:induction false} PowersAgree(n: Word)
    ensures PowerOfTwo(n) == Manuals.TwoTo(Value(n))
    decreases n
  {
    hide Value;
    if n == 0 {
      ZeroValue();
    } else {
      PredecessorValue(n);
      PowersAgree(n - 1);
    }
  }

  lemma ZeroValue()
    ensures Value(0) == 0 && Value(1) == 1
  {
  }

  lemma PredecessorValue(n: Word)
    requires n != 0
    ensures Value(n) > 0 && Value(n - 1) == Value(n) - 1
  {
    hide Value, Subtract;
    ZeroValue();
    EqualNumbers(n, 0);
    SubtractSubtracts(n, 1);
    SubtractIsDifference(n, 1);
  }

  lemma AmountSpan(y: Word)
    ensures ShiftAmount(y) == y & LowMask(5) && PowerOfTwo(5) == 32
  {
  }

  lemma AmountNumber(y: Word)
    ensures Value(ShiftAmount(y)) == Value(y) % 32
  {
    hide Value, ShiftAmount, LowMask, PowerOfTwo;
    AmountSpan(y);
    MaskIsRemainder(y, 5);
  }

  lemma SignedNumber(x: Word)
    ensures Manuals.AsSigned(Value(x)) == Signed(x) && Manuals.Wrap(Signed(x)) == Value(x)
  {
    hide Value, Signed;
    SignedIsTwosComplement(x);
  }

  lemma SignedLessNumber(x: Word, y: Word)
    ensures SignedLess(x, y) <==> Manuals.AsSigned(Value(x)) < Manuals.AsSigned(Value(y))
  {
    hide Value, Signed, Manuals.AsSigned;
    SignedNumber(x);
    SignedNumber(y);
  }

  lemma ShiftLeftNumber(x: Word, y: Word)
    ensures Value(ShiftLeft(x, y)) == Manuals.Wrap(Value(x) * Manuals.TwoTo(Value(y) % 32))
  {
    hide Value, ShiftAmount, PowerOfTwo, Manuals.TwoTo;
    LeftIsProduct(x, ShiftAmount(y));
    AmountNumber(y);
    PowersAgree(ShiftAmount(y));
  }

  lemma ShiftRightNumber(x: Word, y: Word)
    ensures Value(ShiftRight(x, y)) == Value(x) / Manuals.TwoTo(Value(y) % 32)
  {
    hide Value, ShiftAmount, PowerOfTwo, Manuals.TwoTo;
    RightIsQuotient(x, ShiftAmount(y));
    AmountNumber(y);
    PowersAgree(ShiftAmount(y));
  }

  lemma ArithmeticShiftNumber(x: Word, y: Word)
    ensures Value(ShiftRightArithmetic(x, ShiftAmount(y)))
            == Manuals.Wrap(Manuals.AsSigned(Value(x)) / Manuals.TwoTo(Value(y) % 32))
  {
    hide Value, Signed, ShiftAmount, ShiftRightArithmetic, PowerOfTwo, Manuals.TwoTo, Manuals.AsSigned, Manuals.Wrap;
    ShiftIsFloorDivision(x, ShiftAmount(y));
    AmountNumber(y);
    PowersAgree(ShiftAmount(y));
    SignedNumber(x);
    SignedNumber(ShiftRightArithmetic(x, ShiftAmount(y)));
  }

  // --- The operations ------------------------------------------------------------------------------

  /** The manual's function code of an operation. */
  function CodeOf(op: Op): int {
    if op.ADD? || op.SUB? || op.ADDI? then 0
    else if op.SLL? || op.SLLI? then 1
    else if op.SLT? || op.SLTI? then 2
    else if op.SLTU? || op.SLTIU? then 3
    else if op.XOR? || op.XORI? then 4
    else if op.SRL? || op.SRA? || op.SRLI? || op.SRAI? then 5
    else if op.OR? || op.ORI? then 6
    else 7
  }

  predicate IsAlternate(op: Op) { op.SUB? || op.SRA? || op.SRAI? }

  lemma TruthNumber(b: bool)
    ensures Value(AsWord(b)) == if b then 1 else 0
  {
  }

  lemma RegisterNumber(op: Op, x: Word, y: Word)
    requires IsRegisterOp(op)
    ensures Value(RegisterRegister(op, x, y)) == Manuals.Operate(CodeOf(op), IsAlternate(op), Value(x), Value(y))
  {
    hide Value, RegisterRegister, CodeOf, IsAlternate, Manuals.Operate;
    if op.ADD? || op.SUB? { RegisterSumNumber(op, x, y); }
    else if op.SLT? || op.SLTU? { RegisterComparisonNumber(op, x, y); }
    else if op.XOR? || op.OR? || op.AND? { RegisterLogicNumber(op, x, y); }
    else { RegisterShiftNumber(op, x, y); }
  }

  lemma RegisterSumNumber(op: Op, x: Word, y: Word)
    requires op.ADD? || op.SUB?
    ensures Value(RegisterRegister(op, x, y)) == Manuals.Operate(CodeOf(op), IsAlternate(op), Value(x), Value(y))
  {
    hide Value, Add, Subtract, Manuals.TwoTo, Manuals.AsSigned, Manuals.Bitwise;
    AddIsSum(x, y);
    SubtractIsDifference(x, y);
  }

  lemma RegisterComparisonNumber(op: Op, x: Word, y: Word)
    requires op.SLT? || op.SLTU?
    ensures Value(RegisterRegister(op, x, y)) == Manuals.Operate(CodeOf(op), IsAlternate(op), Value(x), Value(y))
  {
    hide Value, Less, SignedLess, AsWord, Manuals.TwoTo, Manuals.AsSigned, Manuals.Bitwise, Manuals.Wrap;
    SignedLessNumber(x, y);
    LessIsOrder(x, y);
    TruthNumber(SignedLess(x, y));
    TruthNumber(Less(x, y));
  }

  lemma RegisterLogicNumber(op: Op, x: Word, y: Word)
    requires op.XOR? || op.OR? || op.AND?
    ensures Value(RegisterRegister(op, x, y)) == Manuals.Operate(CodeOf(op), IsAlternate(op), Value(x), Value(y))
  {
    hide Value, And, Or, Xor, Manuals.TwoTo, Manuals.AsSigned, Manuals.Bitwise, Manuals.Wrap;
    LogicNumber(CodeOf(op), x, y);
  }

  lemma RegisterShiftNumber(op: Op, x: Word, y: Word)
    requires op.SLL? || op.SRL? || op.SRA?
    ensures Value(RegisterRegister(op, x, y)) == Manuals.Operate(CodeOf(op), IsAlternate(op), Value(x), Value(y))
  {
    hide Value, ShiftLeft, ShiftRight, ShiftRightArithmetic, ShiftAmount, Manuals.TwoTo, Manuals.AsSigned, Manuals.Wrap,
         Manuals.Bitwise;
    ShiftLeftNumber(x, y);
    ShiftRightNumber(x, y);
    ArithmeticShiftNumber(x, y);
  }

  lemma ImmediateNumber(op: Op, x: Word, y: Word)
    requires IsImmediateOp(op)
    ensures Value(RegisterImmediate(op, x, y)) == Manuals.Operate(CodeOf(op), IsAlternate(op), Value(x), Value(y))
  {
    hide Value, Add, And, Or, Xor, Less, SignedLess, ShiftLeft, ShiftRight, ShiftRightArithmetic, ShiftAmount,
         AsWord, Manuals.TwoTo, Manuals.AsSigned, Manuals.Bitwise;
    match op
    case ADDI => AddIsSum(x, y);
    case SLLI => ShiftLeftNumber(x, y);
    case SLTI => SignedLessNumber(x, y); TruthNumber(SignedLess(x, y));
    case SLTIU => LessIsOrder(x, y); TruthNumber(Less(x, y));
    case XORI => LogicNumber(4, x, y);
    case SRLI => ShiftRightNumber(x, y);
    case SRAI => ArithmeticShiftNumber(x, y);
    case ORI => LogicNumber(6, x, y);
    case ANDI => LogicNumber(7, x, y);
  }

  lemma BranchNumber(op: Op, x: Word, y: Word, code: int)
    requires IsBranchOp(op)
    requires code == if op.BEQ? then 0 else if op.BNE? then 1 else if op.BLT? then 4 else if op.BGE? then 5
                     else if op.BLTU? then 6 else 7
    ensures BranchTaken(op, x, y) <==> Manuals.Taken(code, Value(x), Value(y))
  {
    hide Value, Less, SignedLess, Manuals.AsSigned;
    EqualNumbers(x, y);
    LessIsOrder(x, y);
    SignedLessNumber(x, y);
  }
}
