// The decoder's fields and immediates are the manual's numbers.
module ManualFields {
  import opened Types
  import opened WordArithmetic
  import opened ArithmeticShifts
  import opened Numerals
  import opened Decoder
  import DecoderInverse
  import Manuals

  // --- Fields -----------------------------------------------------------------------------

  /** Bits at..at+n-1 of a word are digits of its number. */
  lemma SpanIsDigits(w: Word, at: Word, n: Word)
    requires at <= 31 && n <= 31
    ensures Value(Right(w, at) & LowMask(n)) == Value(w) / PowerOfTwo(at) % PowerOfTwo(n)
  {
    hide Value, Right, LowMask, PowerOfTwo;
    RightIsQuotient(w, at);
    MaskIsRemainder(Right(w, at), n);
  }

  lemma Powers()
    ensures PowerOfTwo(0) == 1 && PowerOfTwo(1) == 2 && PowerOfTwo(2) == 4 && PowerOfTwo(3) == 8 && PowerOfTwo(4) == 16
    ensures PowerOfTwo(5) == 32
    ensures PowerOfTwo(6) == 64 && PowerOfTwo(7) == 128 && PowerOfTwo(8) == 256 && PowerOfTwo(10) == 1024
    ensures PowerOfTwo(11) == 2048 && PowerOfTwo(12) == 4096 && PowerOfTwo(15) == 32768 && PowerOfTwo(20) == 1048576
    ensures PowerOfTwo(21) == 2097152 && PowerOfTwo(25) == 33554432 && PowerOfTwo(31) == 2147483648
  {
  }

  lemma CodeSpans(w: Word)
    ensures w & 0x7f == Right(w, 0) & LowMask(7)
    ensures (w >> 12) & 7 == Right(w, 12) & LowMask(3)
    ensures w >> 25 == Right(w, 25)
  {
  }

  lemma RegisterSpans(w: Word)
    ensures (w >> 7) & 0x1f == Right(w, 7) & LowMask(5)
    ensures (w >> 15) & 0x1f == Right(w, 15) & LowMask(5)
    ensures (w >> 20) & 0x1f == Right(w, 20) & LowMask(5)
  {
  }

  lemma RdSpan(w: Word)
    ensures ExtractBits(w, 11, 7) == (w >> 7) & 0x1f
  {
  }

  lemma Rs1Span(w: Word)
    ensures ExtractBits(w, 19, 15) == (w >> 15) & 0x1f
  {
  }

  lemma Rs2Span(w: Word)
    ensures ExtractBits(w, 24, 20) == (w >> 20) & 0x1f
  {
  }

  lemma RegisterIsValue(field: Word)
    requires field <= 31
    ensures RegisterField(field) == Value(field)
  {
  }

  lemma FieldBounds(w: Word)
    ensures ExtractBits(w, 11, 7) <= 31 && ExtractBits(w, 19, 15) <= 31 && ExtractBits(w, 24, 20) <= 31
  {
  }

  /** Codes: section 2.2. */
  lemma CodeNumbers(w: Word)
    ensures Value(Opcode(w)) == Manuals.OpcodeOf(Value(w))
    ensures Value(Funct3(w)) == Manuals.Funct3Of(Value(w))
    ensures Value(Funct7(w)) == Manuals.Funct7Of(Value(w))
  {
    hide Value, Right, LowMask, Opcode, Funct3, Funct7;
    DecoderInverse.CodeFields(w);
    CodeSpans(w);
    Powers();
    SpanIsDigits(w, 0, 7);
    SpanIsDigits(w, 12, 3);
    RightIsQuotient(w, 25);
  }

  lemma RdNumber(w: Word)
    ensures DecodeRd(w) == Manuals.RdOf(Value(w))
  {
    hide Value, Right, LowMask, ExtractBits, RegisterField;
    FieldBounds(w);
    RdSpan(w);
    RegisterSpans(w);
    Powers();
    RegisterIsValue(ExtractBits(w, 11, 7));
    SpanIsDigits(w, 7, 5);
  }

  lemma Rs1Number(w: Word)
    ensures DecodeRs1(w) == Manuals.Rs1Of(Value(w))
  {
    hide Value, Right, LowMask, ExtractBits, RegisterField;
    FieldBounds(w);
    Rs1Span(w);
    RegisterSpans(w);
    Powers();
    RegisterIsValue(ExtractBits(w, 19, 15));
    SpanIsDigits(w, 15, 5);
  }

  lemma Rs2Number(w: Word)
    ensures DecodeRs2(w) == Manuals.Rs2Of(Value(w)) && Value(ExtractBits(w, 24, 20)) == Manuals.Rs2Of(Value(w))
  {
    hide Value, Right, LowMask, ExtractBits, RegisterField;
    FieldBounds(w);
    Rs2Span(w);
    RegisterSpans(w);
    Powers();
    RegisterIsValue(ExtractBits(w, 24, 20));
    SpanIsDigits(w, 20, 5);
  }

  // --- Immediates ---------------------------------------------------------------------------

  lemma Negative12(n: Word)
    requires 0x800 <= n < 0x1000
    ensures SignExtend(n, 12) == n - 0x1000
  {
    hide BitMask, SignBit;
    DecoderInverse.Masks();
  }

  lemma Positive12(n: Word)
    requires n < 0x800
    ensures SignExtend(n, 12) == n
  {
    hide BitMask, SignBit;
    DecoderInverse.Masks();
  }

  lemma Extended12(n: Word)
    requires n < 0x1000
    ensures SignExtend(n, 12) == if n < 0x800 then n else n - 0x1000
  {
    hide SignExtend;
    if n < 0x800 { Positive12(n); } else { Negative12(n); }
  }

  lemma Negative13(n: Word)
    requires 0x1000 <= n < 0x2000
    ensures SignExtend(n, 13) == n - 0x2000
  {
    hide BitMask, SignBit;
    DecoderInverse.Masks();
  }

  lemma Positive13(n: Word)
    requires n < 0x1000
    ensures SignExtend(n, 13) == n
  {
    hide BitMask, SignBit;
    DecoderInverse.Masks();
  }

  lemma Extended13(n: Word)
    requires n < 0x2000
    ensures SignExtend(n, 13) == if n < 0x1000 then n else n - 0x2000
  {
    hide SignExtend;
    if n < 0x1000 { Positive13(n); } else { Negative13(n); }
  }

  lemma Negative21(n: Word)
    requires 0x10_0000 <= n < 0x20_0000
    ensures SignExtend(n, 21) == n - 0x20_0000
  {
    hide BitMask, SignBit;
    DecoderInverse.Masks();
  }

  lemma Positive21(n: Word)
    requires n < 0x10_0000
    ensures SignExtend(n, 21) == n
  {
    hide BitMask, SignBit;
    DecoderInverse.Masks();
  }

  lemma Extended21(n: Word)
    requires n < 0x20_0000
    ensures SignExtend(n, 21) == if n < 0x10_0000 then n else n - 0x20_0000
  {
    hide SignExtend;
    if n < 0x10_0000 { Positive21(n); } else { Negative21(n); }
  }

  /** Taking the number of values off the upper half reads a field as a two's complement number. */
  lemma SignedIs(n: Word, extended: Word, half: Word, values: Word)
    requires Value(values) == 2 * Value(half) && Value(n) < Value(values)
    requires extended == if n < half then n else n - values
    ensures Value(extended) == Manuals.Wrap(Manuals.SignedField(Value(n), Value(values)))
  {
    hide Value, Subtract;
    SubtractSubtracts(n, values);
    LessIsOrder(n, half);
    SubtractIsDifference(n, values);
  }

  lemma SpanI(w: Word)
    ensures ExtractBits(w, 31, 20) == Right(w, 20) && Right(w, 20) <= 0xfff
  {
  }

  lemma ImmediateINumber(w: Word)
    ensures Value(DecodeImmediateI(w)) == Manuals.Wrap(Manuals.ImmediateI(Value(w)))
  {
    hide Value, Right, ExtractBits, SignExtend, PowerOfTwo;
    SpanI(w);
    Powers();
    RightIsQuotient(w, 20);
    Extended12(Right(w, 20));
    Constants();
    LessIsOrder(0xfff, Right(w, 20));
    SignedIs(Right(w, 20), DecodeImmediateI(w), 0x800, 0x1000);
  }

  lemma Constants()
    ensures Value(0xfff) == 4095 && Value(0x800) == 2048 && Value(0x1000) == 4096
    ensures Value(0x1fff) == 8191 && Value(0x2000) == 8192
    ensures Value(0x1f_ffff) == 2097151 && Value(0x10_0000) == 1048576 && Value(0x20_0000) == 2097152
  {
  }

  lemma SmallProduct(v: int, p: int, q: int)
    requires 0 <= v < p && 0 < q && p * q <= MODULUS
    ensures Scaled(v, q) == v * q
  {
    MultiplesAreLarge(q, p - v);
    assert q * (p - v) == p * q - v * q;
    assert v * q >= 0;
  }

  lemma SmallSum(x: Word, y: Word)
    requires Value(x) + Value(y) < MODULUS
    ensures Value(Add(x, y)) == Value(x) + Value(y)
  {
    hide Value, Add;
    AddIsSum(x, y);
  }

  // A span moved to its place in an immediate.
  function Piece(w: Word, at: Word, n: Word, up: Word): Word
    requires at <= 31 && n <= 31 && up <= 31
  {
    Left(Right(w, at) & LowMask(n), up)
  }

  // The digits of v from weight `below` on.
  function Span(v: int, below: int, values: int): (d: int)
    requires below > 0 && values > 0
    ensures 0 <= d < values
  {
    v / below % values
  }

  /** A span of bits moved up weighs as much more. */
  lemma PieceNumber(w: Word, at: Word, n: Word, up: Word, below: int, values: int, weight: int)
    requires at <= 31 && n <= 31 && up <= 31
    requires below == PowerOfTwo(at) && values == PowerOfTwo(n) && weight == PowerOfTwo(up)
    requires values * weight <= MODULUS
    ensures Value(Piece(w, at, n, up)) == Span(Value(w), below, values) * weight
  {
    hide Value, Right, Left, LowMask, PowerOfTwo, Scaled;
    SpanIsDigits(w, at, n);
    LeftIsProduct(Right(w, at) & LowMask(n), up);
    SmallProduct(Value(w) / below % values, values, weight);
  }

  lemma SpansS(w: Word)
    ensures ExtractBits(w, 31, 25) == w >> 25 && ExtractBits(w, 11, 7) == (w >> 7) & 0x1f
  {
  }

  lemma JoinedS(w: Word)
    ensures ((w >> 25) << 5) | ((w >> 7) & 0x1f) == ((w >> 25) << 5) + ((w >> 7) & 0x1f)
    ensures ((w >> 25) << 5) + ((w >> 7) & 0x1f) <= 0xfff
  {
  }

  lemma PiecesOfS(w: Word)
    ensures Piece(w, 25, 7, 5) == (w >> 25) << 5
    ensures Piece(w, 7, 5, 0) == (w >> 7) & 0x1f
  {
  }

  lemma OffsetBitsS(w: Word)
    ensures (ExtractBits(w, 31, 25) << 5) | ExtractBits(w, 11, 7) == SumS(w) && SumS(w) <= 0xfff
  {
    hide ExtractBits, Piece;
    SpansS(w);
    JoinedS(w);
    PiecesOfS(w);
  }

  function SumS(w: Word): Word { Add(Piece(w, 25, 7, 5), Piece(w, 7, 5, 0)) }

  lemma SumSNumber(w: Word)
    ensures Value(SumS(w)) == Span(Value(w), 33554432, 128) * 32 + Span(Value(w), 128, 32)
  {
    hide Value, PowerOfTwo, Add, Piece, Span;
    Powers();
    PieceNumber(w, 25, 7, 5, 33554432, 128, 32);
    PieceNumber(w, 7, 5, 0, 128, 32, 1);
    SmallSum(Piece(w, 25, 7, 5), Piece(w, 7, 5, 0));
  }

  lemma FieldOfS(v: int)
    requires 0 <= v < MODULUS
    ensures Manuals.ImmediateS(v) == Manuals.SignedField(Span(v, 33554432, 128) * 32 + Span(v, 128, 32), 4096)
  {
  }

  lemma ImmediateSNumber(w: Word)
    ensures Value(DecodeImmediateS(w)) == Manuals.Wrap(Manuals.ImmediateS(Value(w)))
  {
    hide Value, ExtractBits, SignExtend, SumS, Span, Manuals.ImmediateS, Manuals.SignedField;
    OffsetBitsS(w);
    SumSNumber(w);
    FieldOfS(Value(w));
    Constants();
    LessIsOrder(0xfff, SumS(w));
    Extended12(SumS(w));
    SignedIs(SumS(w), DecodeImmediateS(w), 0x800, 0x1000);
  }

  lemma UpperSpan(w: Word)
    ensures DecodeImmediateU(w) == Left(Right(w, 12), 12)
  {
  }

  lemma ImmediateUNumber(w: Word)
    ensures Value(DecodeImmediateU(w)) == Manuals.ImmediateU(Value(w))
  {
    hide Value, Right, Left, DecodeImmediateU, PowerOfTwo;
    UpperSpan(w);
    Powers();
    RightIsQuotient(w, 12);
    LeftIsProduct(Right(w, 12), 12);
  }

  lemma PiecesOfB(w: Word)
    ensures Piece(w, 31, 1, 12) == (w >> 31) << 12 && Piece(w, 7, 1, 11) == ((w >> 7) & 1) << 11
    ensures Piece(w, 25, 6, 5) == ((w >> 25) & 0x3f) << 5 && Piece(w, 8, 4, 1) == ((w >> 8) & 0xf) << 1
  {
  }

  function SumB(w: Word): Word {
    Add(Add(Piece(w, 31, 1, 12), Piece(w, 7, 1, 11)), Add(Piece(w, 25, 6, 5), Piece(w, 8, 4, 1)))
  }

  lemma JoinedB(w: Word)
    ensures ((w >> 31) << 12) | (((w >> 7) & 1) << 11) | (((w >> 25) & 0x3f) << 5) | (((w >> 8) & 0xf) << 1)
            == (((w >> 31) << 12) + (((w >> 7) & 1) << 11)) + ((((w >> 25) & 0x3f) << 5) + (((w >> 8) & 0xf) << 1))
  {
  }

  lemma BoundB(w: Word)
    ensures ((w >> 31) << 12) | (((w >> 7) & 1) << 11) | (((w >> 25) & 0x3f) << 5) | (((w >> 8) & 0xf) << 1) <= 0x1fff
  {
  }

  lemma OffsetBitsBSum(w: Word)
    ensures OffsetBitsB(w) == SumB(w) && SumB(w) <= 0x1fff
  {
    hide OffsetBitsB, Piece;
    DecoderInverse.OffsetsB(w);
    JoinedB(w);
    BoundB(w);
    PiecesOfB(w);
  }

  lemma SumBNumber(w: Word)
    ensures Value(SumB(w)) == Span(Value(w), 2147483648, 2) * 4096 + Span(Value(w), 128, 2) * 2048
                              + Span(Value(w), 33554432, 64) * 32 + Span(Value(w), 256, 16) * 2
  {
    hide Value, PowerOfTwo, Add, Piece, Span;
    Powers();
    PieceNumber(w, 31, 1, 12, 2147483648, 2, 4096);
    PieceNumber(w, 7, 1, 11, 128, 2, 2048);
    PieceNumber(w, 25, 6, 5, 33554432, 64, 32);
    PieceNumber(w, 8, 4, 1, 256, 16, 2);
    SmallSum(Piece(w, 31, 1, 12), Piece(w, 7, 1, 11));
    SmallSum(Piece(w, 25, 6, 5), Piece(w, 8, 4, 1));
    SmallSum(Add(Piece(w, 31, 1, 12), Piece(w, 7, 1, 11)), Add(Piece(w, 25, 6, 5), Piece(w, 8, 4, 1)));
  }

  lemma FieldOfB(v: int)
    requires 0 <= v < MODULUS
    ensures Manuals.ImmediateB(v)
            == Manuals.SignedField(Span(v, 2147483648, 2) * 4096 + Span(v, 128, 2) * 2048
                                   + Span(v, 33554432, 64) * 32 + Span(v, 256, 16) * 2, 8192)
  {
  }

  lemma ImmediateBNumber(w: Word)
    ensures Value(DecodeImmediateB(w)) == Manuals.Wrap(Manuals.ImmediateB(Value(w)))
  {
    hide Value, OffsetBitsB, SignExtend, SumB, Span, Manuals.ImmediateB, Manuals.SignedField;
    OffsetBitsBSum(w);
    SumBNumber(w);
    FieldOfB(Value(w));
    Constants();
    LessIsOrder(0x1fff, SumB(w));
    Extended13(SumB(w));
    SignedIs(SumB(w), DecodeImmediateB(w), 0x1000, 0x2000);
  }

  lemma PiecesOfJ(w: Word)
    ensures Piece(w, 31, 1, 20) == (w >> 31) << 20 && Piece(w, 12, 8, 12) == ((w >> 12) & 0xff) << 12
    ensures Piece(w, 20, 1, 11) == ((w >> 20) & 1) << 11 && Piece(w, 21, 10, 1) == ((w >> 21) & 0x3ff) << 1
  {
  }

  function SumJ(w: Word): Word {
    Add(Add(Piece(w, 31, 1, 20), Piece(w, 12, 8, 12)), Add(Piece(w, 20, 1, 11), Piece(w, 21, 10, 1)))
  }

  lemma JoinedJ(w: Word)
    ensures ((w >> 31) << 20) | (((w >> 12) & 0xff) << 12) | (((w >> 20) & 1) << 11) | (((w >> 21) & 0x3ff) << 1)
            == (((w >> 31) << 20) + (((w >> 12) & 0xff) << 12)) + ((((w >> 20) & 1) << 11) + (((w >> 21) & 0x3ff) << 1))
  {
  }

  lemma BoundJ(w: Word)
    ensures ((w >> 31) << 20) | (((w >> 12) & 0xff) << 12) | (((w >> 20) & 1) << 11) | (((w >> 21) & 0x3ff) << 1)
            <= 0x1f_ffff
  {
  }

  lemma OffsetBitsJSum(w: Word)
    ensures OffsetBitsJ(w) == SumJ(w) && SumJ(w) <= 0x1f_ffff
  {
    hide OffsetBitsJ, Piece;
    DecoderInverse.OffsetsJ(w);
    JoinedJ(w);
    BoundJ(w);
    PiecesOfJ(w);
  }

  lemma SumJNumber(w: Word)
    ensures Value(SumJ(w)) == Span(Value(w), 2147483648, 2) * 1048576 + Span(Value(w), 4096, 256) * 4096
                              + Span(Value(w), 1048576, 2) * 2048 + Span(Value(w), 2097152, 1024) * 2
  {
    hide Value, PowerOfTwo, Add, Piece, Span;
    Powers();
    PieceNumber(w, 31, 1, 20, 2147483648, 2, 1048576);
    PieceNumber(w, 12, 8, 12, 4096, 256, 4096);
    PieceNumber(w, 20, 1, 11, 1048576, 2, 2048);
    PieceNumber(w, 21, 10, 1, 2097152, 1024, 2);
    SmallSum(Piece(w, 31, 1, 20), Piece(w, 12, 8, 12));
    SmallSum(Piece(w, 20, 1, 11), Piece(w, 21, 10, 1));
    SmallSum(Add(Piece(w, 31, 1, 20), Piece(w, 12, 8, 12)), Add(Piece(w, 20, 1, 11), Piece(w, 21, 10, 1)));
  }

  lemma FieldOfJ(v: int)
    requires 0 <= v < MODULUS
    ensures Manuals.ImmediateJ(v)
            == Manuals.SignedField(Span(v, 2147483648, 2) * 1048576 + Span(v, 4096, 256) * 4096
                                   + Span(v, 1048576, 2) * 2048 + Span(v, 2097152, 1024) * 2, 2097152)
  {
  }

  lemma ImmediateJNumber(w: Word)
    ensures Value(DecodeImmediateJ(w)) == Manuals.Wrap(Manuals.ImmediateJ(Value(w)))
  {
    hide Value, OffsetBitsJ, SignExtend, SumJ, Span, Manuals.ImmediateJ, Manuals.SignedField;
    OffsetBitsJSum(w);
    SumJNumber(w);
    FieldOfJ(Value(w));
    Constants();
    LessIsOrder(0x1f_ffff, SumJ(w));
    Extended21(SumJ(w));
    SignedIs(SumJ(w), DecodeImmediateJ(w), 0x10_0000, 0x20_0000);
  }

  /** Zero extension keeps the remainder. */
  lemma ZeroExtendNumber(x: Word, width: Word)
    requires 0 < width <= 31
    ensures Value(ZeroExtend(x, width)) == Value(x) % PowerOfTwo(width)
  {
    hide Value, PowerOfTwo, LowMask, ZeroExtend;
    ExtensionIsMask(x, width);
    MaskIsRemainder(x, width);
  }

  lemma ExtensionIsMask(x: Word, width: Word)
    requires 0 < width <= 31
    ensures ZeroExtend(x, width) == x & LowMask(width)
  {
  }
}
