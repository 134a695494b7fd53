// The memory image and the data port as objects (src/memory/image.cpp,
// src/memory/memory_unit.cpp), proved against Image and MemoryUnits.
module MemoryUnitClass {
  import opened Types
  import opened Image
  import opened Isa
  import opened MemoryUnits

  class MemoryImage {
    const bytes: array<Byte>

    ghost predicate Valid() {
      bytes.Length == MEMORY_SIZE
    }

    ghost function Contents(): Bytes
      requires Valid()
      reads bytes
    {
      bytes[..]
    }

    constructor ()
      ensures Valid() && fresh(bytes)
    {
      bytes := new Byte[MEMORY_SIZE](_ => 0);
    }

    /** A program image, already parsed into bytes. */
    method Load(image: Bytes)
      requires Valid()
      modifies bytes
      ensures Contents() == image
    {
      forall i | 0 <= i < MEMORY_SIZE {
        bytes[i] := image[i];
      }
    }

    method LoadByte(address: Address) returns (value: Option<Byte>)
      requires Valid()
      ensures value == ReadByte(Contents(), address)
    {
      if !InBounds(address, 1) {
        return None;
      }
      return Some(bytes[Position(address)]);
    }

    method LoadHalf(address: Address) returns (value: Option<HalfWord>)
      requires Valid()
      ensures value == ReadHalf(Contents(), address)
    {
      hide Join2, Position;
      if !InBounds(address, 2) {
        return None;
      }
      var start := Position(address);
      return Some(Join2(bytes[start], bytes[start + 1]));
    }

    method LoadWord(address: Address) returns (value: Option<Word>)
      requires Valid()
      ensures value == ReadWord(Contents(), address)
    {
      hide Join4, Position;
      if !InBounds(address, 4) {
        return None;
      }
      var start := Position(address);
      return Some(Join4(bytes[start], bytes[start + 1], bytes[start + 2], bytes[start + 3]));
    }

    /** False, and nothing changes, when the store is out of range. */
    method StoreByte(address: Address, value: Word) returns (stored: bool)
      requires Valid()
      modifies bytes
      ensures stored == InBounds(address, 1)
      ensures Contents() == if stored then Patched(old(Contents()), Position(address), BYTE, value) else old(Contents())
    {
      hide ByteOf, Position;
      stored := InBounds(address, 1);
      if stored {
        bytes[Position(address)] := ByteOf(value, 0);
      }
    }

    method StoreHalf(address: Address, value: Word) returns (stored: bool)
      requires Valid()
      modifies bytes
      ensures stored == InBounds(address, 2)
      ensures Contents() == if stored then Patched(old(Contents()), Position(address), HALF, value) else old(Contents())
    {
      hide ByteOf, Position;
      stored := InBounds(address, 2);
      if stored {
        var start := Position(address);
        bytes[start] := ByteOf(value, 0);
        bytes[start + 1] := ByteOf(value, 1);
      }
    }

    method StoreWord(address: Address, value: Word) returns (stored: bool)
      requires Valid()
      modifies bytes
      ensures stored == InBounds(address, 4)
      ensures Contents() == if stored then Patched(old(Contents()), Position(address), WORD, value) else old(Contents())
    {
      hide ByteOf, Position;
      stored := InBounds(address, 4);
      if stored {
        var start := Position(address);
        bytes[start] := ByteOf(value, 0);
        bytes[start + 1] := ByteOf(value, 1);
        bytes[start + 2] := ByteOf(value, 2);
        bytes[start + 3] := ByteOf(value, 3);
      }
    }
  }

  class MemoryUnit {
    const image: MemoryImage
    var transaction: Transaction
    var nextTransaction: Transaction
    var response: MemoryResponse
    var nextResponse: MemoryResponse
    var storeWrite: StoreWrite

    // A scheduled write is in range.
    ghost predicate Valid()
      reads this`storeWrite
    {
      image.Valid() && (storeWrite.valid ==> InBounds(storeWrite.address, WidthInBytes(storeWrite.width)))
    }

    // The objects this unit owns.
    ghost function Repr(): set<object> {
      {this, image, image.bytes}
    }

    ghost function State(): MemoryState
      requires image.Valid()
      reads this`transaction, this`response, image.bytes
    {
      MemoryState(image.Contents(), transaction, response)
    }

    // The unit once the scheduled write has reached memory.
    ghost function NextState(): MemoryState
      requires image.Valid()
      reads this`nextTransaction, this`nextResponse, this`storeWrite, image.bytes
    {
      MemoryState(Written(image.Contents(), storeWrite), nextTransaction, nextResponse)
    }

    constructor ()
      ensures Valid() && !storeWrite.valid && !transaction.valid && !response.valid
      ensures fresh(Repr()) && allocated(Repr())
    {
      image := new MemoryImage();
      transaction, nextTransaction := NO_TRANSACTION, NO_TRANSACTION;
      response, nextResponse := NO_RESPONSE, NO_RESPONSE;
      storeWrite := NO_STORE_WRITE;
    }

    method Load(bytes: Bytes)
      requires Valid()
      modifies Repr()
      ensures Valid() && State() == MemoryState(bytes, NO_TRANSACTION, NO_RESPONSE)
    {
      transaction, nextTransaction := NO_TRANSACTION, NO_TRANSACTION;
      response, nextResponse := NO_RESPONSE, NO_RESPONSE;
      storeWrite := NO_STORE_WRITE;
      image.Load(bytes);
    }

    method FetchWord(pc: Address) returns (word: Option<Word>)
      requires Valid()
      ensures word == Fetch(State(), pc)
    {
      word := image.LoadWord(pc);
    }

    method ReadData(address: Address, width: MemoryWidth) returns (value: Word, success: bool)
      requires Valid()
      ensures success == RawRead(State().bytes, address, width).Some?
      ensures value == if success then RawRead(State().bytes, address, width).value else 0
    {
      hide ReadByte, ReadHalf, ReadWord;
      value, success := 0, false;
      match width {
        case BYTE =>
          var read := image.LoadByte(address);
          if read.Some? { value, success := read.value as Word, true; }
        case HALF =>
          var read := image.LoadHalf(address);
          if read.Some? { value, success := read.value as Word, true; }
        case WORD =>
          var read := image.LoadWord(address);
          if read.Some? { value, success := read.value, true; }
      }
    }

    method ScheduleStore(request: MemoryRequest) returns (scheduled: bool)
      requires Valid() && !storeWrite.valid
      modifies this`storeWrite
      ensures Valid()
      ensures scheduled == InBounds(request.address, WidthInBytes(request.width))
      ensures storeWrite == if scheduled then StoreWrite(request.address, request.value, request.width, true)
                else old(storeWrite)
    {
      hide Position;
      scheduled := InBounds(request.address, WidthInBytes(request.width));
      if scheduled {
        storeWrite := StoreWrite(request.address, request.value, request.width, true);
      }
    }

    /** The response of a finished transaction; a store's bytes wait for the latch. */
    method CompleteTransaction()
      requires Valid() && Completes(State()) && storeWrite == NO_STORE_WRITE
      modifies this`nextTransaction, this`nextResponse, this`storeWrite
      ensures Valid() && nextTransaction == NO_TRANSACTION
      ensures nextResponse == Respond(State().bytes, transaction.request)
      ensures storeWrite == ScheduledWrite(State())
    {
      hide Position, RawRead;
      var request := transaction.request;
      var answer := MemoryResponse(request.tag, 0, request.kind.STORE?, false, true);
      if request.kind.LOAD? {
        var value, success := ReadData(request.address, request.width);
        answer := answer.(value := value, success := success);
      } else {
        var scheduled := ScheduleStore(request);
        answer := answer.(success := scheduled);
      }
      nextResponse := answer;
      nextTransaction := NO_TRANSACTION;
    }

    /** The port takes no request in the cycle a transaction completes. */
    method Apply(request: MemoryRequest) returns (accepted: bool)
      requires Valid()
      requires !transaction.valid && request.valid ==> request.tag.valid
      modifies this`nextTransaction, this`nextResponse, this`storeWrite
      ensures Valid() && NextState() == MemoryUnits.Apply(State(), request)
      ensures accepted == Accepts(State(), request)
    {
      nextTransaction, nextResponse, storeWrite := transaction, NO_RESPONSE, NO_STORE_WRITE;
      accepted := false;
      if transaction.valid {
        if transaction.remaining > 1 {
          nextTransaction := nextTransaction.(remaining := nextTransaction.remaining - 1);
        } else {
          CompleteTransaction();
        }
        return;
      }
      if !request.valid {
        return;
      }
      nextTransaction := Transaction(request, DATA_LATENCY, true);
      accepted := true;
    }

    method ApplyStoreWrite() returns (written: bool)
      requires Valid() && storeWrite.valid
      modifies image.bytes
      ensures written && image.Contents() == Written(old(image.Contents()), storeWrite)
    {
      hide Position, Patched;
      match storeWrite.width {
        case BYTE => written := image.StoreByte(storeWrite.address, storeWrite.value);
        case HALF => written := image.StoreHalf(storeWrite.address, storeWrite.value);
        case WORD => written := image.StoreWord(storeWrite.address, storeWrite.value);
      }
    }

    /** Stores change memory here and nowhere else. */
    method Latch()
      requires Valid()
      modifies this`transaction, this`response, image.bytes
      ensures Valid() && State() == old(NextState())
      ensures nextTransaction == old(nextTransaction) && nextResponse == old(nextResponse)
    {
      if storeWrite.valid {
        var written := ApplyStoreWrite();
        assert written;
      }
      transaction := nextTransaction;
      response := nextResponse;
    }
  }
}
