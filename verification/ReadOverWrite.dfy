// What a load reads after a store, byte by byte, for every pair of widths and
// every overlap (src/memory/image.cpp, src/memory/memory_unit.cpp and the load
// extension of src/tomasulo/load_store_queue.cpp).
module ReadOverWrite {
  import opened Types
  import opened WordArithmetic
  import opened Image
  import opened Isa
  import opened MemoryUnits
  import LSQ = LoadStoreQueues

  /** The byte at a position after a store from `start` on. */
  function MergedByte(bytes: Bytes, start: nat, width: MemoryWidth, value: Word, position: nat): Byte
    requires position < MEMORY_SIZE
  {
    if start <= position < start + WidthInBytes(width) then ByteOf(value, position - start) else bytes[position]
  }

  lemma PatchedBytes(bytes: Bytes, start: nat, width: MemoryWidth, value: Word)
    requires start + WidthInBytes(width) <= MEMORY_SIZE
    ensures forall i :: 0 <= i < MEMORY_SIZE ==>
              Patched(bytes, start, width, value)[i] == MergedByte(bytes, start, width, value, i)
  {
    hide ByteOf;
  }

  /** A store changes the bytes it covers, to the value's bytes in little-endian order, and nothing else. */
  lemma StoreIsBytewise(bytes: Bytes, address: Address, width: MemoryWidth, value: Word)
    ensures Write(bytes, address, width, value).Some? <==> InBounds(address, WidthInBytes(width))
    ensures var after := Write(bytes, address, width, value);
            after.Some? ==>
              forall i :: 0 <= i < MEMORY_SIZE ==>
                  after.value[i] == MergedByte(bytes, Position(address), width, value, i)
  {
    hide Position, MergedByte, Patched;
    if InBounds(address, WidthInBytes(width)) { PatchedBytes(bytes, Position(address), width, value); }
  }

  // --- Words and their bytes ---------------------------------------------------------

  lemma BytesOfJoin4(b0: Byte, b1: Byte, b2: Byte, b3: Byte)
    ensures var w := Join4(b0, b1, b2, b3);
            ByteOf(w, 0) == b0 && ByteOf(w, 1) == b1 && ByteOf(w, 2) == b2 && ByteOf(w, 3) == b3
  {
  }

  lemma BytesOfJoin2(low: Byte, high: Byte)
    ensures var w := Join2(low, high) as Word;
            ByteOf(w, 0) == low && ByteOf(w, 1) == high && ByteOf(w, 2) == 0 && ByteOf(w, 3) == 0
  {
  }

  lemma BytesOfByte(b: Byte)
    ensures var w := b as Word;
            ByteOf(w, 0) == b && ByteOf(w, 1) == 0 && ByteOf(w, 2) == 0 && ByteOf(w, 3) == 0
  {
  }

  lemma WordFromBytes(w: Word)
    ensures Join4(ByteOf(w, 0), ByteOf(w, 1), ByteOf(w, 2), ByteOf(w, 3)) == w
  {
  }

  /** A word is determined by its four bytes. */
  lemma SameBytes(v: Word, w: Word)
    requires forall k :: 0 <= k < 4 ==> ByteOf(v, k) == ByteOf(w, k)
    ensures v == w
  {
    hide ByteOf, Join4;
    WordFromBytes(v);
    WordFromBytes(w);
    assert ByteOf(v, 0) == ByteOf(w, 0) && ByteOf(v, 1) == ByteOf(w, 1) && ByteOf(v, 2) == ByteOf(w, 2)
           && ByteOf(v, 3) == ByteOf(w, 3);
  }

  /** The unextended value read from `start` on. */
  function RawAt(bytes: Bytes, start: nat, width: MemoryWidth): Word
    requires start + WidthInBytes(width) <= MEMORY_SIZE
  {
    match width
    case BYTE => bytes[start] as Word
    case HALF => Join2(bytes[start], bytes[start + 1]) as Word
    case WORD => Join4(bytes[start], bytes[start + 1], bytes[start + 2], bytes[start + 3])
  }

  lemma BytesOfRaw(bytes: Bytes, start: nat, width: MemoryWidth)
    requires start + WidthInBytes(width) <= MEMORY_SIZE
    ensures forall k :: 0 <= k < 4 ==>
              ByteOf(RawAt(bytes, start, width), k) == if k < WidthInBytes(width) then bytes[start + k] else 0
  {
    hide ByteOf, Join2, Join4;
    match width
    case BYTE => BytesOfByte(bytes[start]);
    case HALF => BytesOfJoin2(bytes[start], bytes[start + 1]);
    case WORD => BytesOfJoin4(bytes[start], bytes[start + 1], bytes[start + 2], bytes[start + 3]);
  }

  lemma ReadsRaw(bytes: Bytes, address: Address, width: MemoryWidth)
    requires InBounds(address, WidthInBytes(width))
    ensures RawRead(bytes, address, width) == Some(RawAt(bytes, Position(address), width))
  {
    hide Position, Join2, Join4;
  }

  /** A read yields the bytes from its address on, lowest address first, and zeros above its width. */
  lemma LoadIsBytewise(bytes: Bytes, address: Address, width: MemoryWidth)
    ensures RawRead(bytes, address, width).Some? <==> InBounds(address, WidthInBytes(width))
    ensures RawRead(bytes, address, width).Some? ==>
              forall k :: 0 <= k < 4 ==>
                ByteOf(RawRead(bytes, address, width).value, k)
                == if k < WidthInBytes(width) then bytes[Position(address) + k] else 0
  {
    hide Position, ByteOf, RawAt, Join2, Join4;
    if InBounds(address, WidthInBytes(width)) {
      ReadsRaw(bytes, address, width);
      BytesOfRaw(bytes, Position(address), width);
    }
  }

  // --- Addresses are byte numbers --------------------------------------------------------

  lemma PositionIsAddress(address: Address)
    ensures Position(address) == address as int
  {
  }

  /** One, two or four bytes from position p on lie in the megabyte of memory. */
  predicate InMegabyte(p: nat, width: MemoryWidth) {
    match width
    case BYTE => p + 1 <= 0x10_0000
    case HALF => p + 2 <= 0x10_0000
    case WORD => p + 4 <= 0x10_0000
  }

  /** What is read at position p: nothing out of range, else the bytes from p on, lowest first. */
  ghost predicate ReadsFrom(read: Option<Word>, bytes: Bytes, p: nat, width: MemoryWidth) {
    && (read.Some? <==> InMegabyte(p, width))
    && (read.Some? ==>
          forall k :: 0 <= k < WidthInBytes(width) ==> ByteOf(read.value, k) == bytes[p + k])
  }

  /** What a store leaves at position p: nothing changes out of range, else the bytes from p on do. */
  ghost predicate WritesFrom(written: Option<Bytes>, bytes: Bytes, p: nat, width: MemoryWidth, value: Word) {
    && (written.Some? <==> InMegabyte(p, width))
    && (written.Some? ==>
          forall i :: 0 <= i < 0x10_0000 ==>
            written.value[i] == if p <= i < p + WidthInBytes(width) then ByteOf(value, i - p) else bytes[i])
  }

  lemma PositionNamesByte(bytes: Bytes, address: Address, width: MemoryWidth, value: Word)
    ensures ReadsFrom(RawRead(bytes, address, width), bytes, Position(address), width)
    ensures WritesFrom(Write(bytes, address, width, value), bytes, Position(address), width, value)
  {
    hide Position, ByteOf, Write, RawRead;
    LoadIsBytewise(bytes, address, width);
    StoreIsBytewise(bytes, address, width, value);
  }

  /** Address p names byte p of memory. */
  lemma AddressNamesByte(bytes: Bytes, address: Address, width: MemoryWidth, value: Word)
    ensures ReadsFrom(RawRead(bytes, address, width), bytes, address as int, width)
    ensures WritesFrom(Write(bytes, address, width, value), bytes, address as int, width, value)
  {
    hide Position, Write, RawRead, ReadsFrom, WritesFrom;
    PositionIsAddress(address);
    PositionNamesByte(bytes, address, width, value);
  }

  // --- A load after a store --------------------------------------------------------------

  /** The raw value read at (la, lw) after storing `value` at (sa, sw), given by its bytes. */
  ghost predicate IsMerge(raw: Word, bytes: Bytes, sa: Address, sw: MemoryWidth, value: Word, la: Address,
          lw: MemoryWidth)
    requires InBounds(la, WidthInBytes(lw))
  {
    forall k :: 0 <= k < 4 ==>
      ByteOf(raw, k) == if k < WidthInBytes(lw) then MergedByte(bytes, Position(sa), sw, value, Position(la) + k) else 0
  }

  /** A load of any width after a store of any width reads the bytewise merge of new and old bytes. */
  lemma LoadAfterStore(bytes: Bytes, sa: Address, sw: MemoryWidth, value: Word, la: Address, lw: MemoryWidth)
    requires InBounds(sa, WidthInBytes(sw)) && InBounds(la, WidthInBytes(lw))
    ensures Write(bytes, sa, sw, value).Some?
    ensures RawRead(Write(bytes, sa, sw, value).value, la, lw).Some?
    ensures IsMerge(RawRead(Write(bytes, sa, sw, value).value, la, lw).value, bytes, sa, sw, value, la, lw)
  {
    hide Position, ByteOf, Write, RawRead;
    StoreIsBytewise(bytes, sa, sw, value);
    LoadIsBytewise(Write(bytes, sa, sw, value).value, la, lw);
  }

  lemma MergeIsUnique(v: Word, w: Word, bytes: Bytes, sa: Address, sw: MemoryWidth, value: Word, la: Address,
          lw: MemoryWidth)
    requires InBounds(la, WidthInBytes(lw))
    requires IsMerge(v, bytes, sa, sw, value, la, lw) && IsMerge(w, bytes, sa, sw, value, la, lw)
    ensures v == w
  {
    hide ByteOf;
    SameBytes(v, w);
  }

  /** A load that overlaps no stored byte reads what it would have read before. */
  lemma DisjointLoad(bytes: Bytes, sa: Address, sw: MemoryWidth, value: Word, la: Address, lw: MemoryWidth)
    requires Position(la) + WidthInBytes(lw) <= Position(sa) || Position(sa) + WidthInBytes(sw) <= Position(la)
    requires InBounds(sa, WidthInBytes(sw))
    ensures Write(bytes, sa, sw, value).Some?
    ensures RawRead(Write(bytes, sa, sw, value).value, la, lw) == RawRead(bytes, la, lw)
  {
    hide Position, ByteOf, Write, RawRead;
    var after := Write(bytes, sa, sw, value);
    StoreIsBytewise(bytes, sa, sw, value);
    LoadIsBytewise(after.value, la, lw);
    LoadIsBytewise(bytes, la, lw);
    if InBounds(la, WidthInBytes(lw)) {
      SameBytes(RawRead(after.value, la, lw).value, RawRead(bytes, la, lw).value);
    }
  }

  /** The low bytes of a value that fit a width. */
  function Truncated(value: Word, width: MemoryWidth): Word {
    match width
    case BYTE => value & 0xff
    case HALF => value & 0xffff
    case WORD => value
  }

  lemma TruncatedBytes(value: Word, width: MemoryWidth)
    ensures forall k :: 0 <= k < 4 ==>
              ByteOf(Truncated(value, width), k) == if k < WidthInBytes(width) then ByteOf(value, k) else 0
  {
  }

  /** Loading back what was just stored at the same address and width gives the stored bytes. */
  lemma ReadBack(bytes: Bytes, address: Address, width: MemoryWidth, value: Word)
    requires InBounds(address, WidthInBytes(width))
    ensures Write(bytes, address, width, value).Some?
    ensures RawRead(Write(bytes, address, width, value).value, address, width) == Some(Truncated(value, width))
  {
    hide Position, ByteOf, Write, RawRead, Truncated;
    LoadAfterStore(bytes, address, width, value, address, width);
    TruncatedBytes(value, width);
    MergeIsUnique(RawRead(Write(bytes, address, width, value).value, address, width).value, Truncated(value, width),
                  bytes, address, width, value, address, width);
  }

  // --- Sign and zero extension --------------------------------------------------------------

  /** The two's complement reading of a loaded value: LB and LH subtract 2^8 or 2^16 when the top bit
      of what they read is set, the other loads keep what they read. */
  function Widened(op: Op, raw: Word): Word {
    if op.LB? && raw >= 0x80 then Subtract(raw, 0x100)
    else if op.LH? && raw >= 0x8000 then Subtract(raw, 0x1_0000)
    else raw
  }

  predicate Fits(raw: Word, width: MemoryWidth) {
    match width
    case BYTE => raw <= 0xff
    case HALF => raw <= 0xffff
    case WORD => true
  }

  lemma ExtendByte(raw: Word)
    requires raw <= 0xff
    ensures SignExtend(raw, 8) == if raw >= 0x80 then raw - 0x100 else raw
    ensures ZeroExtend(raw, 8) == raw
  {
  }

  lemma MaskHalf()
    ensures BitMask(16) == 0xffff && SignBit(16) == 0x8000
  {
  }

  lemma ExtendPositiveHalf(raw: Word)
    requires raw < 0x8000
    ensures SignExtend(raw, 16) == raw
  {
    hide BitMask, SignBit;
    MaskHalf();
  }

  lemma ExtendNegativeHalf(raw: Word)
    requires 0x8000 <= raw <= 0xffff
    ensures SignExtend(raw, 16) == raw - 0x1_0000
  {
    hide BitMask, SignBit;
    MaskHalf();
  }

  lemma ExtendHalf(raw: Word)
    requires raw <= 0xffff
    ensures SignExtend(raw, 16) == if raw >= 0x8000 then raw - 0x1_0000 else raw
  {
    hide SignExtend;
    if raw < 0x8000 { ExtendPositiveHalf(raw); } else { ExtendNegativeHalf(raw); }
  }

  lemma ZeroExtendHalf(raw: Word)
    requires raw <= 0xffff
    ensures ZeroExtend(raw, 16) == raw
  {
  }

  lemma ExtendIsWidened(op: Op, raw: Word)
    requires Fits(raw, WidthOf(op))
    ensures Extend(op, raw) == Widened(op, raw)
  {
    hide SignExtend, ZeroExtend;
    if op.LB? || op.LBU? { ExtendByte(raw); }
    if op.LH? || op.LHU? { ExtendHalf(raw); ZeroExtendHalf(raw); }
  }

  lemma RawFits(bytes: Bytes, start: nat, width: MemoryWidth)
    requires start + WidthInBytes(width) <= MEMORY_SIZE
    ensures Fits(RawAt(bytes, start, width), width)
  {
  }

  // --- Through the memory unit and the load/store queue ------------------------------------------

  /** A completed in-range store is seen, merged byte by byte, by every later in-range load of any width,
      extended as the load asks. */
  lemma LoadSeesStore(m: MemoryState, ignored: MemoryRequest, entry: LSQ.LsqEntry)
    requires Completes(m) && m.transaction.request.kind.STORE?
    requires InBounds(m.transaction.request.address, WidthInBytes(m.transaction.request.width))
    requires entry.kind.LOAD? && InBounds(entry.address, WidthInBytes(WidthOf(entry.op)))
    ensures var store := m.transaction.request;
            var after := Apply(m, ignored);
            var response := Respond(after.bytes, LSQ.MakeRequest(entry));
            && after.response.success && after.response.isStore
            && response.success
            && IsMerge(response.value, m.bytes, store.address, store.width, store.value, entry.address,
                WidthOf(entry.op))
            && LSQ.LoadCompletion(entry, response).result == Widened(entry.op, response.value)
  {
    hide Position, ByteOf, Write, RawRead, WidthOf, Extend, Widened, RawAt;
    var store := m.transaction.request;
    var width := WidthOf(entry.op);
    LoadAfterStore(m.bytes, store.address, store.width, store.value, entry.address, width);
    var after := Apply(m, ignored).bytes;
    ReadsRaw(after, entry.address, width);
    RawFits(after, Position(entry.address), width);
    ExtendIsWidened(entry.op, RawAt(after, Position(entry.address), width));
  }

  /** A store out of range fails and changes nothing. */
  lemma OutOfRangeStore(m: MemoryState, ignored: MemoryRequest)
    requires Completes(m) && m.transaction.request.kind.STORE?
    requires !InBounds(m.transaction.request.address, WidthInBytes(m.transaction.request.width))
    ensures Apply(m, ignored).bytes == m.bytes
    ensures Apply(m, ignored).response.valid && !Apply(m, ignored).response.success
  {
    hide Position, InBounds;
  }
}
