// An arithmetic right shift is floor division of the signed value by a power
// of two.
module ArithmeticShifts {
  import opened WordArithmetic
  import FU = FunctionalUnits
  import Datapath

  function PowerOfTwo(n: bv32): (p: int)
    ensures p > 0
    decreases n
  {
    if n == 0 then 1 else 2 * PowerOfTwo(n - 1)
  }

  // --- One position ----------------------------------------------------------------

  lemma ShiftedBits0(x: bv32)
    ensures Bit(ShiftRightArithmetic(x, 1), 0) == Bit(x, 1)
    ensures Bit(ShiftRightArithmetic(x, 1), 1) == Bit(x, 2)
    ensures Bit(ShiftRightArithmetic(x, 1), 2) == Bit(x, 3)
    ensures Bit(ShiftRightArithmetic(x, 1), 3) == Bit(x, 4)
    ensures Bit(ShiftRightArithmetic(x, 1), 4) == Bit(x, 5)
    ensures Bit(ShiftRightArithmetic(x, 1), 5) == Bit(x, 6)
    ensures Bit(ShiftRightArithmetic(x, 1), 6) == Bit(x, 7)
    ensures Bit(ShiftRightArithmetic(x, 1), 7) == Bit(x, 8)
  {
  }

  lemma ShiftedBits8(x: bv32)
    ensures Bit(ShiftRightArithmetic(x, 1), 8) == Bit(x, 9)
    ensures Bit(ShiftRightArithmetic(x, 1), 9) == Bit(x, 10)
    ensures Bit(ShiftRightArithmetic(x, 1), 10) == Bit(x, 11)
    ensures Bit(ShiftRightArithmetic(x, 1), 11) == Bit(x, 12)
    ensures Bit(ShiftRightArithmetic(x, 1), 12) == Bit(x, 13)
    ensures Bit(ShiftRightArithmetic(x, 1), 13) == Bit(x, 14)
    ensures Bit(ShiftRightArithmetic(x, 1), 14) == Bit(x, 15)
    ensures Bit(ShiftRightArithmetic(x, 1), 15) == Bit(x, 16)
  {
  }

  lemma ShiftedBits16(x: bv32)
    ensures Bit(ShiftRightArithmetic(x, 1), 16) == Bit(x, 17)
    ensures Bit(ShiftRightArithmetic(x, 1), 17) == Bit(x, 18)
    ensures Bit(ShiftRightArithmetic(x, 1), 18) == Bit(x, 19)
    ensures Bit(ShiftRightArithmetic(x, 1), 19) == Bit(x, 20)
    ensures Bit(ShiftRightArithmetic(x, 1), 20) == Bit(x, 21)
    ensures Bit(ShiftRightArithmetic(x, 1), 21) == Bit(x, 22)
    ensures Bit(ShiftRightArithmetic(x, 1), 22) == Bit(x, 23)
    ensures Bit(ShiftRightArithmetic(x, 1), 23) == Bit(x, 24)
  {
  }

  lemma ShiftedBits24(x: bv32)
    ensures Bit(ShiftRightArithmetic(x, 1), 24) == Bit(x, 25)
    ensures Bit(ShiftRightArithmetic(x, 1), 25) == Bit(x, 26)
    ensures Bit(ShiftRightArithmetic(x, 1), 26) == Bit(x, 27)
    ensures Bit(ShiftRightArithmetic(x, 1), 27) == Bit(x, 28)
    ensures Bit(ShiftRightArithmetic(x, 1), 28) == Bit(x, 29)
    ensures Bit(ShiftRightArithmetic(x, 1), 29) == Bit(x, 30)
    ensures Bit(ShiftRightArithmetic(x, 1), 30) == Bit(x, 31)
    ensures Bit(ShiftRightArithmetic(x, 1), 31) == Bit(x, 31)
  {
  }

  /** Shifting by one position drops the lowest bit: the quotient by two, rounded down. */
  lemma HalfIsFloor(x: bv32)
    ensures Signed(x) == 2 * Signed(ShiftRightArithmetic(x, 1)) + Bit(x, 0)
  {
    hide Bit, ShiftRightArithmetic;
    ShiftedBits0(x);
    ShiftedBits8(x);
    ShiftedBits16(x);
    ShiftedBits24(x);
  }

  // --- Any number of positions ---------------------------------------------------------

  lemma LogicalShiftsCompose(x: bv32, n: bv32)
    requires n <= 30
    ensures (x >> n) >> (1 as bv32) == x >> (n + 1)
  {
  }

  lemma LogicalShiftStaysLow(x: bv32, n: bv32)
    requires n <= 31 && x < 0x8000_0000
    ensures x >> n < 0x8000_0000
  {
  }

  lemma FilledCompose(x: bv32, n: bv32)
    requires n <= 30 && x >= 0x8000_0000
    ensures Filled(x, n) >= 0x8000_0000
    ensures Filled(Filled(x, n), 1) == Filled(x, n + 1)
  {
    hide Filled, Flip;
    FilledIsFlipped(x, n);
    FilledIsFlipped(x, n + 1);
    FilledIsFlipped(Filled(x, n), 1);
    FlipTwice(x);
    FlipTwice(Flip(x) >> n);
    LogicalShiftStaysLow(Flip(x), n);
    LogicalShiftsCompose(Flip(x), n);
  }

  lemma ShiftsCompose(x: bv32, n: bv32)
    requires n <= 30
    ensures ShiftRightArithmetic(x, n + 1) == ShiftRightArithmetic(ShiftRightArithmetic(x, n), 1)
  {
    hide Filled, ShiftRightArithmetic;
    AsFilled(x, n);
    AsFilled(x, n + 1);
    AsFilled(ShiftRightArithmetic(x, n), 1);
    if x >= 0x8000_0000 {
      FilledCompose(x, n);
    } else {
      LogicalShiftStaysLow(x, n);
      LogicalShiftsCompose(x, n);
    }
  }

  lemma FloorsCompose(v: int, p: int, q: int, b: int)
    requires p > 0 && 0 <= b <= 1 && v / p == 2 * q + b
    ensures v / (2 * p) == q
  {
    var r := v % p;
    assert v == (2 * p) * q + (b * p + r);
    QuotientIsUnique(v, 2 * p, q, b * p + r);
  }

  lemma MultiplesAreLarge(d: int, e: int)
    requires d > 0
    ensures e >= 1 ==> d * e >= d
    ensures e <= -1 ==> d * e <= -d
  {
  }

  lemma QuotientIsUnique(v: int, d: int, q: int, r: int)
    requires d > 0 && 0 <= r < d && v == d * q + r
    ensures v / d == q
  {
    var e := v / d - q;
    assert d * e == r - v % d;
    MultiplesAreLarge(d, e);
  }

  /** Section 2.4.2 of the RISC-V Unprivileged ISA manual: SRA divides the signed value by 2^n, rounding down. */
  lemma {:induction false} ShiftIsFloorDivision(x: bv32, n: bv32)
    requires n <= 31
    ensures Signed(ShiftRightArithmetic(x, n)) == Signed(x) / PowerOfTwo(n)
    decreases n
  {
    hide ShiftRightArithmetic, Signed, Bit;
    if n == 0 {
      ShiftByNothing(x, n);
    } else {
      ShiftIsFloorDivision(x, n - 1);
      ShiftsCompose(x, n - 1);
      var half := ShiftRightArithmetic(x, n - 1);
      HalfIsFloor(half);
      FloorsCompose(Signed(x), PowerOfTwo(n - 1), Signed(ShiftRightArithmetic(half, 1)), Bit(half, 0));
    }
  }

  /** So does the functional unit, for every operand and amount. */
  lemma {:induction false} UnitShiftIsFloorDivision(x: bv32, y: bv32)
    ensures Signed(FU.ArithmeticShiftRight(x, ShiftAmount(y))) == Signed(x) / PowerOfTwo(ShiftAmount(y))
  {
    hide FU.ArithmeticShiftRight, ShiftRightArithmetic, Signed, ShiftAmount, PowerOfTwo;
    Datapath.ShiftsAgree(x, ShiftAmount(y));
    ShiftIsFloorDivision(x, ShiftAmount(y));
  }
}
