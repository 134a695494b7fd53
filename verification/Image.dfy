// Byte-addressed little-endian memory (src/memory/image.cpp).
module Image {
  import opened Types

  const MEMORY_SIZE := 0x10_0000

  datatype Option<+T> = None | Some(value: T)

  function WidthInBytes(width: MemoryWidth): nat {
    match width
    case BYTE => 1
    case HALF => 2
    case WORD => 4
  }

  /** Where an address points in the byte array. */
  function Position(address: Address): nat { address as int }

  predicate InBounds(address: Address, width: nat) {
    width <= MEMORY_SIZE && Position(address) <= MEMORY_SIZE - width
  }

  type Bytes = s: seq<Byte> | |s| == MEMORY_SIZE witness Repeat(MEMORY_SIZE, 0 as Byte)

  function Join2(low: Byte, high: Byte): HalfWord {
    (low as HalfWord) | ((high as HalfWord) << 8)
  }

  function Join4(b0: Byte, b1: Byte, b2: Byte, b3: Byte): Word {
    (b0 as Word) | ((b1 as Word) << 8) | ((b2 as Word) << 16) | ((b3 as Word) << 24)
  }

  function ReadByte(bytes: Bytes, address: Address): Option<Byte> {
    if !InBounds(address, 1) then None else Some(bytes[Position(address)])
  }

  function ReadHalf(bytes: Bytes, address: Address): Option<HalfWord> {
    if !InBounds(address, 2) then None
    else
      var start := Position(address);
      Some(Join2(bytes[start], bytes[start + 1]))
  }

  function ReadWord(bytes: Bytes, address: Address): Option<Word> {
    if !InBounds(address, 4) then None
    else
      var start := Position(address);
      Some(Join4(bytes[start], bytes[start + 1], bytes[start + 2], bytes[start + 3]))
  }

  function ByteOf(value: Word, position: nat): Byte
    requires position < 4
  {
    if position == 0 then (value & 0xff) as Byte
    else if position == 1 then ((value >> 8) & 0xff) as Byte
    else if position == 2 then ((value >> 16) & 0xff) as Byte
    else ((value >> 24) & 0xff) as Byte
  }

  /** The bytes once a value's low bytes are stored from `start` on, lowest first. */
  function Patched(bytes: Bytes, start: nat, width: MemoryWidth, value: Word): Bytes
    requires start + WidthInBytes(width) <= MEMORY_SIZE
  {
    match width
    case BYTE =>
      bytes[start := ByteOf(value, 0)]
    case HALF =>
      bytes[start := ByteOf(value, 0)][start + 1 := ByteOf(value, 1)]
    case WORD =>
      bytes[start := ByteOf(value, 0)][start + 1 := ByteOf(value, 1)]
           [start + 2 := ByteOf(value, 2)][start + 3 := ByteOf(value, 3)]
  }

  /** Memory after a store; None when the store is out of range. */
  function Write(bytes: Bytes, address: Address, width: MemoryWidth, value: Word): Option<Bytes> {
    if !InBounds(address, WidthInBytes(width)) then None
    else Some(Patched(bytes, Position(address), width, value))
  }
}
