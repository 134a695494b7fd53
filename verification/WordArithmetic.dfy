// Arithmetic on 32-bit words; additions and subtractions wrap around.
module WordArithmetic {

  function Add(x: bv32, y: bv32): bv32 { x + y }
  function Subtract(x: bv32, y: bv32): bv32 { x - y }
  function And(x: bv32, y: bv32): bv32 { x & y }
  function Or(x: bv32, y: bv32): bv32 { x | y }
  function Xor(x: bv32, y: bv32): bv32 { x ^ y }

  /** Shifts use the low five bits of the amount. */
  function ShiftAmount(x: bv32): (n: bv32)
    ensures n <= 31
  {
    x & 0x1f
  }

  function ShiftLeft(x: bv32, y: bv32): bv32 { x << ShiftAmount(y) }
  function ShiftRight(x: bv32, y: bv32): bv32 { x >> ShiftAmount(y) }

  function Bit(x: bv32, position: bv32): (b: int)
    requires position < 32
    ensures 0 <= b <= 1
  {
    if (x >> position) & 1 != 0 then 1 else 0
  }

  /** The value of a word read as a two's complement number: bit 31 weighs -2^31. */
  function Signed(x: bv32): int {
    Bit(x, 0) + 0x2 * Bit(x, 1) + 0x4 * Bit(x, 2) + 0x8 * Bit(x, 3)
    + 0x10 * Bit(x, 4) + 0x20 * Bit(x, 5) + 0x40 * Bit(x, 6) + 0x80 * Bit(x, 7)
    + 0x100 * Bit(x, 8) + 0x200 * Bit(x, 9) + 0x400 * Bit(x, 10) + 0x800 * Bit(x, 11)
    + 0x1000 * Bit(x, 12) + 0x2000 * Bit(x, 13) + 0x4000 * Bit(x, 14) + 0x8000 * Bit(x, 15)
    + 0x1_0000 * Bit(x, 16) + 0x2_0000 * Bit(x, 17) + 0x4_0000 * Bit(x, 18) + 0x8_0000 * Bit(x, 19)
    + 0x10_0000 * Bit(x, 20) + 0x20_0000 * Bit(x, 21) + 0x40_0000 * Bit(x, 22) + 0x80_0000 * Bit(x, 23)
    + 0x100_0000 * Bit(x, 24) + 0x200_0000 * Bit(x, 25) + 0x400_0000 * Bit(x, 26) + 0x800_0000 * Bit(x, 27)
    + 0x1000_0000 * Bit(x, 28) + 0x2000_0000 * Bit(x, 29) + 0x4000_0000 * Bit(x, 30) - 0x8000_0000 * Bit(x, 31)
  }

  predicate Less(x: bv32, y: bv32) { x < y }
  predicate SignedLess(x: bv32, y: bv32) { Signed(x) < Signed(y) }

  function ClearLowBit(x: bv32): bv32 { x & 0xffff_fffe }

  /** Section 2.4.1 of the RISC-V Unprivileged ISA manual: the original sign bit is copied into the
      vacated upper bits. */
  function ShiftRightArithmetic(x: bv32, amount: bv32): bv32
    requires amount <= 31
  {
    if x >= 0x8000_0000 then (x >> amount) | !((0xffff_ffff as bv32) >> amount) else x >> amount
  }

  lemma SignBitTells(x: bv32)
    ensures x & 0x8000_0000 != 0 <==> x >= 0x8000_0000
  {
  }

  lemma SmallAmount(n: bv32)
    requires n <= 31
    ensures n & 31 == n
  {
  }

  lemma VacatedBits(n: bv32)
    requires 0 < n <= 31
    ensures !((0xffff_ffff as bv32) >> n) == (0xffff_ffff as bv32) << (32 - n)
  {
  }

  function Half(x: bv32): bv32 { x >> 1 }

  lemma AndHalf(x: bv32, y: bv32)
    ensures Half(And(x, y)) == And(Half(x), Half(y))
  {
  }

  lemma OrHalf(x: bv32, y: bv32)
    ensures Half(Or(x, y)) == Or(Half(x), Half(y))
  {
  }

  lemma XorHalf(x: bv32, y: bv32)
    ensures Half(Xor(x, y)) == Xor(Half(x), Half(y))
  {
  }

  // --- Shifts seen as shifts of the complement -------------------------------------

  function Filled(x: bv32, n: bv32): bv32
    requires n <= 31
  {
    (x >> n) | !((0xffff_ffff as bv32) >> n)
  }

  function Flip(x: bv32): bv32 { !x }

  // Filling with ones is a logical shift of the complement.
  lemma FilledIsFlipped(x: bv32, n: bv32)
    requires n <= 31
    ensures Filled(x, n) == Flip(Flip(x) >> n)
  {
  }

  lemma FlipTwice(x: bv32)
    ensures Flip(Flip(x)) == x && (x >= 0x8000_0000 <==> Flip(x) < 0x8000_0000)
  {
  }

  lemma AsFilled(x: bv32, n: bv32)
    requires n <= 31
    ensures ShiftRightArithmetic(x, n) == if x >= 0x8000_0000 then Filled(x, n) else x >> n
  {
  }

  lemma LogicalShiftByNothing(x: bv32, n: bv32)
    requires n == 0
    ensures x >> n == x
  {
  }

  lemma ShiftByNothing(x: bv32, n: bv32)
    requires n == 0
    ensures ShiftRightArithmetic(x, n) == x
  {
    hide Filled, Flip, ShiftRightArithmetic;
    AsFilled(x, n);
    FilledIsFlipped(x, n);
    FlipTwice(x);
    LogicalShiftByNothing(x, n);
    LogicalShiftByNothing(Flip(x), n);
  }
}
