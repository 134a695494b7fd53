// Words as numbers: what each word operation does to the bits of a word, or to
// the integer the word stands for.
module Numerals {
  import opened WordArithmetic
  import opened ArithmeticShifts

  const MODULUS := 0x1_0000_0000

  /** The number a word stands for. */
  function Value(x: bv32): (n: int)
    ensures 0 <= n < MODULUS
  {
    x as int
  }

  // --- A word is the sum of its bits ------------------------------------------------

  function Bits0(x: bv32): (b: int)
    ensures 0 <= b <= 0xff
  {
    Bit(x, 0) + 0x2 * Bit(x, 1) + 0x4 * Bit(x, 2) + 0x8 * Bit(x, 3)
    + 0x10 * Bit(x, 4) + 0x20 * Bit(x, 5) + 0x40 * Bit(x, 6) + 0x80 * Bit(x, 7)
  }

  function Bits8(x: bv32): (b: int)
    ensures 0 <= b <= 0xff
  {
    Bit(x, 8) + 0x2 * Bit(x, 9) + 0x4 * Bit(x, 10) + 0x8 * Bit(x, 11)
    + 0x10 * Bit(x, 12) + 0x20 * Bit(x, 13) + 0x40 * Bit(x, 14) + 0x80 * Bit(x, 15)
  }

  function Bits16(x: bv32): (b: int)
    ensures 0 <= b <= 0xff
  {
    Bit(x, 16) + 0x2 * Bit(x, 17) + 0x4 * Bit(x, 18) + 0x8 * Bit(x, 19)
    + 0x10 * Bit(x, 20) + 0x20 * Bit(x, 21) + 0x40 * Bit(x, 22) + 0x80 * Bit(x, 23)
  }

  function Bits24(x: bv32): (b: int)
    ensures 0 <= b <= 0xff
  {
    Bit(x, 24) + 0x2 * Bit(x, 25) + 0x4 * Bit(x, 26) + 0x8 * Bit(x, 27)
    + 0x10 * Bit(x, 28) + 0x20 * Bit(x, 29) + 0x40 * Bit(x, 30) + 0x80 * Bit(x, 31)
  }

  lemma SplitAt24(x: bv32)
    ensures Value(x) == Value(x & 0xff00_0000) + Value(x & 0xff_ffff)
  {
  }

  lemma SplitAt16(x: bv32)
    ensures Value(x & 0xff_ffff) == Value(x & 0xff_0000) + Value(x & 0xffff)
  {
  }

  lemma SplitAt8(x: bv32)
    ensures Value(x & 0xffff) == Value(x & 0xff00) + Value(x & 0xff)
  {
  }

  lemma Part0(x: bv32)
    ensures Value(x & 0xff) == Bits0(x)
  {
  }

  lemma Part8(x: bv32)
    ensures Value(x & 0xff00) == 0x100 * Bits8(x)
  {
  }

  lemma Part16(x: bv32)
    ensures Value(x & 0xff_0000) == 0x1_0000 * Bits16(x)
  {
  }

  lemma Part24(x: bv32)
    ensures Value(x & 0xff00_0000) == 0x100_0000 * Bits24(x)
  {
  }

  /** Bit i weighs 2^i. */
  lemma WordIsItsBits(x: bv32)
    ensures Value(x) == Bits0(x) + 0x100 * Bits8(x) + 0x1_0000 * Bits16(x) + 0x100_0000 * Bits24(x)
  {
    hide Value, Bits0, Bits8, Bits16, Bits24;
    SplitAt24(x);
    SplitAt16(x);
    SplitAt8(x);
    Part0(x);
    Part8(x);
    Part16(x);
    Part24(x);
  }

  lemma SplitAt31(x: bv32)
    ensures Value(x) == Value(x & 0x8000_0000) + Value(x & 0x7fff_ffff)
  {
  }

  lemma Part31(x: bv32)
    ensures Value(x & 0x8000_0000) == 0x8000_0000 * Bit(x, 31)
  {
  }

  lemma BelowSign(x: bv32)
    ensures Value(x & 0x7fff_ffff) < 0x8000_0000
  {
    hide Value, Bit, Bits0, Bits8, Bits16;
    WordIsItsBits(x);
    SplitAt31(x);
    Part31(x);
  }

  lemma SignWeighs(x: bv32)
    ensures Value(x) >= 0x8000_0000 <==> Bit(x, 31) == 1
  {
    hide Value, Bit;
    SplitAt31(x);
    Part31(x);
    BelowSign(x);
  }

  lemma SignedIsSum(x: bv32)
    ensures Signed(x) == Value(x) - MODULUS * Bit(x, 31)
  {
    hide Value, Bit;
    WordIsItsBits(x);
  }

  /** Read as a signed number, a word with bit 31 set stands for 2^32 less. */
  lemma SignedIsTwosComplement(x: bv32)
    ensures Signed(x) == if Value(x) >= 0x8000_0000 then Value(x) - MODULUS else Value(x)
  {
    hide Value, Bit, Signed;
    SignedIsSum(x);
    SignWeighs(x);
  }

  // --- Logic and shifts, bit by bit ---------------------------------------------------------

  /** The bits of a conjunction are the products of the bits. */
  lemma AndBits(x: bv32, y: bv32, position: bv32)
    requires position < 32
    ensures Bit(And(x, y), position) == Bit(x, position) * Bit(y, position)
  {
  }

  lemma OrBits(x: bv32, y: bv32, position: bv32)
    requires position < 32
    ensures Bit(Or(x, y), position) == Bit(x, position) + Bit(y, position) - Bit(x, position) * Bit(y, position)
  {
  }

  lemma XorBits(x: bv32, y: bv32, position: bv32)
    requires position < 32
    ensures Bit(Xor(x, y), position) == if Bit(x, position) == Bit(y, position) then 0 else 1
  {
  }

  lemma ShiftRightBy(x: bv32, n: bv32, position: bv32)
    requires position < 32 && n < 32
    ensures Bit(x >> n, position) == if position + n < 32 then Bit(x, position + n) else 0
  {
  }

  lemma ShiftLeftBy(x: bv32, n: bv32, position: bv32)
    requires position < 32 && n < 32
    ensures Bit(x << n, position) == if n <= position then Bit(x, position - n) else 0
  {
  }

  lemma ShiftLeftBits(x: bv32, y: bv32, position: bv32)
    requires position < 32
    ensures var n := y & 0x1f;
            Bit(ShiftLeft(x, y), position) == if n <= position then Bit(x, position - n) else 0
  {
    hide Bit;
    ShiftLeftBy(x, ShiftAmount(y), position);
  }

  lemma ShiftRightBits(x: bv32, y: bv32, position: bv32)
    requires position < 32
    ensures var n := y & 0x1f;
            Bit(ShiftRight(x, y), position) == if position + n < 32 then Bit(x, position + n) else 0
  {
    hide Bit;
    ShiftRightBy(x, ShiftAmount(y), position);
  }

  lemma Remainder(v: int, low: int, rest: int, d: int)
    requires 0 <= low < d && v == low + d * rest
    ensures v % d == low && v / d == rest
  {
    QuotientIsUnique(v, d, rest, low);
  }

  /** Different words stand for different numbers. */
  lemma EqualNumbers(x: bv32, y: bv32)
    ensures Value(x) == Value(y) ==> x == y
  {
    assert (x as int) as bv32 == x && (y as int) as bv32 == y;
  }

  // --- Order -----------------------------------------------------------------------------

  lemma OrderAt24(x: bv32, y: bv32)
    ensures x < y <==>
              || x & 0xff00_0000 < y & 0xff00_0000
              || (x & 0xff00_0000 == y & 0xff00_0000 && x & 0xff_ffff < y & 0xff_ffff)
  {
  }

  lemma OrderAt16(x: bv32, y: bv32)
    ensures x & 0xff_ffff < y & 0xff_ffff <==>
              || x & 0xff_0000 < y & 0xff_0000
              || (x & 0xff_0000 == y & 0xff_0000 && x & 0xffff < y & 0xffff)
  {
  }

  lemma OrderAt8(x: bv32, y: bv32)
    ensures x & 0xffff < y & 0xffff <==>
              || x & 0xff00 < y & 0xff00
              || (x & 0xff00 == y & 0xff00 && x & 0xff < y & 0xff)
  {
  }

  lemma PartsInOrder24(x: bv32, y: bv32)
    ensures x & 0xff00_0000 < y & 0xff00_0000 <==> Value(x & 0xff00_0000) < Value(y & 0xff00_0000)
  {
  }

  lemma PartsInOrder16(x: bv32, y: bv32)
    ensures x & 0xff_0000 < y & 0xff_0000 <==> Value(x & 0xff_0000) < Value(y & 0xff_0000)
  {
  }

  lemma PartsInOrder8(x: bv32, y: bv32)
    ensures x & 0xff00 < y & 0xff00 <==> Value(x & 0xff00) < Value(y & 0xff00)
  {
  }

  lemma PartsInOrder0(x: bv32, y: bv32)
    ensures x & 0xff < y & 0xff <==> Value(x & 0xff) < Value(y & 0xff)
  {
  }

  lemma Order16(x: bv32, y: bv32)
    ensures x & 0xffff < y & 0xffff <==> Value(x & 0xffff) < Value(y & 0xffff)
  {
    hide Value, Bits0, Bits8;
    OrderAt8(x, y);
    PartsInOrder8(x, y);
    PartsInOrder0(x, y);
    EqualNumbers(x & 0xff00, y & 0xff00);
    SplitAt8(x);
    SplitAt8(y);
    Part8(x);
    Part8(y);
    Part0(x);
    Part0(y);
  }

  lemma Order24(x: bv32, y: bv32)
    ensures x & 0xff_ffff < y & 0xff_ffff <==> Value(x & 0xff_ffff) < Value(y & 0xff_ffff)
  {
    hide Value, Bits16;
    OrderAt16(x, y);
    PartsInOrder16(x, y);
    Order16(x, y);
    EqualNumbers(x & 0xff_0000, y & 0xff_0000);
    SplitAt16(x);
    SplitAt16(y);
    Part16(x);
    Part16(y);
    BelowPart16(x);
    BelowPart16(y);
  }

  lemma BelowPart16(x: bv32)
    ensures Value(x & 0xffff) < 0x1_0000
  {
    hide Value, Bits0, Bits8;
    SplitAt8(x);
    Part8(x);
    Part0(x);
  }

  lemma BelowPart24(x: bv32)
    ensures Value(x & 0xff_ffff) < 0x100_0000
  {
    hide Value, Bits16;
    SplitAt16(x);
    Part16(x);
    BelowPart16(x);
  }

  /** Words compare as the numbers they stand for. */
  lemma LessIsOrder(x: bv32, y: bv32)
    ensures Less(x, y) <==> Value(x) < Value(y)
  {
    hide Value, Bits24;
    OrderAt24(x, y);
    PartsInOrder24(x, y);
    Order24(x, y);
    EqualNumbers(x & 0xff00_0000, y & 0xff00_0000);
    SplitAt24(x);
    SplitAt24(y);
    Part24(x);
    Part24(y);
    BelowPart24(x);
    BelowPart24(y);
  }

  // --- Sums ------------------------------------------------------------------------------

  // Bit i is the carry into position i.
  function CarriesOf(x: bv32, y: bv32): bv32 { x ^ y ^ (x + y) }

  lemma AdderAt(x: bv32, y: bv32, i: bv32)
    requires i < 31
    ensures Bit(x, i) + Bit(y, i) + Bit(CarriesOf(x, y), i) == Bit(Add(x, y), i) + 2 * Bit(CarriesOf(x, y), i + 1)
  {
  }

  lemma NoCarryIn(x: bv32, y: bv32)
    ensures Bit(CarriesOf(x, y), 0) == 0
  {
  }

  lemma Parity(x: bv32, y: bv32, i: bv32)
    requires i < 32
    ensures var sum := Bit(x, i) + Bit(y, i) + Bit(CarriesOf(x, y), i);
            sum == Bit(Add(x, y), i) || sum == Bit(Add(x, y), i) + 2
  {
  }

  lemma Adder0(x: bv32, y: bv32)
    ensures Bits0(x) + Bits0(y) == Bits0(Add(x, y)) + 0x100 * Bit(CarriesOf(x, y), 8)
  {
    hide Bit, Add, CarriesOf;
    NoCarryIn(x, y);
    AdderAt(x, y, 0); AdderAt(x, y, 1); AdderAt(x, y, 2); AdderAt(x, y, 3);
    AdderAt(x, y, 4); AdderAt(x, y, 5); AdderAt(x, y, 6); AdderAt(x, y, 7);
  }

  lemma Adder8(x: bv32, y: bv32)
    ensures Bits8(x) + Bits8(y) + Bit(CarriesOf(x, y), 8) == Bits8(Add(x, y)) + 0x100 * Bit(CarriesOf(x, y), 16)
  {
    hide Bit, Add, CarriesOf;
    AdderAt(x, y, 8); AdderAt(x, y, 9); AdderAt(x, y, 10); AdderAt(x, y, 11);
    AdderAt(x, y, 12); AdderAt(x, y, 13); AdderAt(x, y, 14); AdderAt(x, y, 15);
  }

  lemma Adder16(x: bv32, y: bv32)
    ensures Bits16(x) + Bits16(y) + Bit(CarriesOf(x, y), 16) == Bits16(Add(x, y)) + 0x100 * Bit(CarriesOf(x, y), 24)
  {
    hide Bit, Add, CarriesOf;
    AdderAt(x, y, 16); AdderAt(x, y, 17); AdderAt(x, y, 18); AdderAt(x, y, 19);
    AdderAt(x, y, 20); AdderAt(x, y, 21); AdderAt(x, y, 22); AdderAt(x, y, 23);
  }

  lemma Adder24(x: bv32, y: bv32)
    ensures var sum := Bits24(x) + Bits24(y) + Bit(CarriesOf(x, y), 24);
            sum == Bits24(Add(x, y)) || sum == Bits24(Add(x, y)) + 0x100
  {
    hide Bit, Add, CarriesOf;
    Parity(x, y, 31);
    AdderAt(x, y, 24); AdderAt(x, y, 25); AdderAt(x, y, 26); AdderAt(x, y, 27);
    AdderAt(x, y, 28); AdderAt(x, y, 29); AdderAt(x, y, 30);
  }

  /** Addition is addition modulo 2^32. */
  lemma AddIsSum(x: bv32, y: bv32)
    ensures Value(Add(x, y)) == (Value(x) + Value(y)) % MODULUS
  {
    hide Value, Bit, Add, CarriesOf, Bits0, Bits8, Bits16, Bits24;
    WordIsItsBits(x);
    WordIsItsBits(y);
    WordIsItsBits(Add(x, y));
    Adder0(x, y);
    Adder8(x, y);
    Adder16(x, y);
    Adder24(x, y);
  }

  lemma DifferenceBack(x: bv32, y: bv32)
    ensures Add(x - y, y) == x
  {
  }

  lemma SubtractSubtracts(x: bv32, y: bv32)
    ensures Subtract(x, y) == x - y
  {
  }

  /** Subtraction is subtraction modulo 2^32. */
  lemma SubtractIsDifference(x: bv32, y: bv32)
    ensures Value(Subtract(x, y)) == (Value(x) - Value(y)) % MODULUS
  {
    hide Value, Add, Subtract;
    SubtractSubtracts(x, y);
    DifferenceBack(x, y);
    AddIsSum(x - y, y);
  }

  // --- Halves, quotients and remainders -----------------------------------------------------

  lemma HalfBits0(x: bv32)
    ensures Bits0(Half(x)) == Bit(x, 1) + 0x2 * Bit(x, 2) + 0x4 * Bit(x, 3) + 0x8 * Bit(x, 4)
                             + 0x10 * Bit(x, 5) + 0x20 * Bit(x, 6) + 0x40 * Bit(x, 7) + 0x80 * Bit(x, 8)
  {
  }

  lemma HalfBits8(x: bv32)
    ensures Bits8(Half(x)) == Bit(x, 9) + 0x2 * Bit(x, 10) + 0x4 * Bit(x, 11) + 0x8 * Bit(x, 12)
                             + 0x10 * Bit(x, 13) + 0x20 * Bit(x, 14) + 0x40 * Bit(x, 15) + 0x80 * Bit(x, 16)
  {
  }

  lemma HalfBits16(x: bv32)
    ensures Bits16(Half(x)) == Bit(x, 17) + 0x2 * Bit(x, 18) + 0x4 * Bit(x, 19) + 0x8 * Bit(x, 20)
                              + 0x10 * Bit(x, 21) + 0x20 * Bit(x, 22) + 0x40 * Bit(x, 23) + 0x80 * Bit(x, 24)
  {
  }

  lemma HalfBits24(x: bv32)
    ensures Bits24(Half(x)) == Bit(x, 25) + 0x2 * Bit(x, 26) + 0x4 * Bit(x, 27) + 0x8 * Bit(x, 28)
                              + 0x10 * Bit(x, 29) + 0x20 * Bit(x, 30) + 0x40 * Bit(x, 31)
  {
  }

  /** One position to the right is half of the number; what falls out is its parity. */
  lemma HalfIsQuotient(x: bv32)
    ensures Value(x) == 2 * Value(Half(x)) + Bit(x, 0)
  {
    hide Value, Bit;
    WordIsItsBits(x);
    WordIsItsBits(Half(x));
    HalfBits0(x);
    HalfBits8(x);
    HalfBits16(x);
    HalfBits24(x);
  }

  function Right(x: bv32, n: bv32): bv32
    requires n <= 31
  {
    x >> n
  }

  function Left(x: bv32, n: bv32): bv32
    requires n <= 31
  {
    x << n
  }

  lemma NotShifted(x: bv32, n: bv32)
    requires n == 0
    ensures Right(x, n) == x && Left(x, n) == x
  {
  }

  lemma RightOnce(x: bv32, n: bv32)
    requires 0 < n <= 31
    ensures Right(x, n) == Half(Right(x, n - 1))
  {
  }

  /** A right shift by n divides by 2^n. */
  lemma {:induction false} RightIsQuotient(x: bv32, n: bv32)
    requires n <= 31
    ensures Value(Right(x, n)) == Value(x) / PowerOfTwo(n)
    decreases n
  {
    hide Value, Bit, Half, Right;
    if n == 0 {
      NotShifted(x, n);
    } else {
      RightIsQuotient(x, n - 1);
      RightOnce(x, n);
      HalfIsQuotient(Right(x, n - 1));
      FloorsCompose(Value(x), PowerOfTwo(n - 1), Value(Right(x, n)), Bit(Right(x, n - 1), 0));
    }
  }

  lemma LeftOnce(x: bv32, n: bv32)
    requires 0 < n <= 31
    ensures Left(x, n) == Left(x, n - 1) << 1
  {
  }

  lemma TwiceByShift(x: bv32)
    ensures x << 1 == Add(x, x)
  {
  }

  lemma LeftDoubles(x: bv32, n: bv32)
    requires 0 < n <= 31
    ensures Left(x, n) == Add(Left(x, n - 1), Left(x, n - 1))
  {
    hide Left, Add;
    LeftOnce(x, n);
    TwiceByShift(Left(x, n - 1));
  }

  lemma DoubledRemainder(v: int)
    ensures (v % MODULUS + v % MODULUS) % MODULUS == (v + v) % MODULUS
  {
    var q, low := v / MODULUS, v % MODULUS;
    if low + low < MODULUS {
      Remainder(v + v, low + low, 2 * q, MODULUS);
    } else {
      Remainder(v + v, low + low - MODULUS, 2 * q + 1, MODULUS);
    }
  }

  function Scaled(v: int, p: int): int { v * p % MODULUS }

  lemma ScaledByOne(v: int)
    requires 0 <= v < MODULUS
    ensures Scaled(v, 1) == v
  {
  }

  lemma ScaledTwice(v: int, p: int)
    ensures (Scaled(v, p) + Scaled(v, p)) % MODULUS == Scaled(v, 2 * p)
  {
    DoubledRemainder(v * p);
    assert v * (2 * p) == v * p + v * p;
  }

  /** A left shift by n multiplies by 2^n, modulo 2^32. */
  lemma {:induction false} LeftIsProduct(x: bv32, n: bv32)
    requires n <= 31
    ensures Value(Left(x, n)) == Scaled(Value(x), PowerOfTwo(n))
    decreases n
  {
    hide Value, Add, Left, Scaled;
    if n == 0 {
      NotShifted(x, n);
      ScaledByOne(Value(x));
    } else {
      LeftIsProduct(x, n - 1);
      LeftDoubles(x, n);
      AddIsSum(Left(x, n - 1), Left(x, n - 1));
      ScaledTwice(Value(x), PowerOfTwo(n - 1));
    }
  }

  function LowMask(n: bv32): bv32
    requires n <= 31
  {
    (1 << n) - 1
  }

  lemma MaskedHalf(x: bv32, n: bv32)
    requires 0 < n <= 31
    ensures Half(x & LowMask(n)) == Half(x) & LowMask(n - 1)
    ensures Bit(x & LowMask(n), 0) == Bit(x, 0)
  {
  }

  lemma MaskedByNothing(x: bv32, n: bv32)
    requires n == 0
    ensures Value(x & LowMask(n)) == 0
  {
  }

  lemma RemainderOfHalf(v: int, h: int, b: int, p: int)
    requires p > 0 && 0 <= b <= 1 && v == 2 * h + b
    ensures 2 * (h % p) + b == v % (2 * p)
  {
    var q, r := h / p, h % p;
    assert v == (2 * p) * q + (2 * r + b);
    QuotientIsUnique(v, 2 * p, q, 2 * r + b);
  }

  /** The low n bits are the remainder by 2^n. */
  lemma {:induction false} MaskIsRemainder(x: bv32, n: bv32)
    requires n <= 31
    ensures Value(x & LowMask(n)) == Value(x) % PowerOfTwo(n)
    decreases n
  {
    hide Value, Bit, Half, LowMask;
    if n == 0 {
      MaskedByNothing(x, n);
    } else {
      MaskIsRemainder(Half(x), n - 1);
      MaskedHalf(x, n);
      HalfIsQuotient(x);
      HalfIsQuotient(x & LowMask(n));
      RemainderOfHalf(Value(x), Value(Half(x)), Bit(x, 0), PowerOfTwo(n - 1));
    }
  }

  lemma Evened(x: bv32)
    ensures Half(ClearLowBit(x)) == Half(x) && Bit(ClearLowBit(x), 0) == 0
  {
  }

  /** Clearing the low bit rounds down to an even number. */
  lemma ClearLowBitIsEven(x: bv32)
    ensures Value(ClearLowBit(x)) == Value(x) / 2 * 2
  {
    hide Value, Bit, Half, ClearLowBit;
    Evened(x);
    HalfIsQuotient(x);
    HalfIsQuotient(ClearLowBit(x));
  }
}
