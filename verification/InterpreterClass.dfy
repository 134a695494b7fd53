// The sequential interpreter as an object (src/reference/interpreter.cpp),
// proved against Interpreters.
module InterpreterClass {
  import opened Types
  import opened WordArithmetic
  import opened Image
  import opened Isa
  import opened Decoder
  import opened Interpreters
  import opened InterpreterRuns
  import opened Arrays
  import opened MemoryUnitClass

  datatype Condition =
    | NotLoaded | Ready | Running | Halted | LoadError
    | FetchOutOfBounds | InvalidInstruction | MemoryOutOfBounds

  /** The step a stopped interpreter cannot complete is the reason for its status. */
  predicate Explains(status: Condition, step: StepResult, exitCode: Word) {
    match status
    case Halted => step == Isa.Halted(exitCode)
    case FetchOutOfBounds => step == FetchFault
    case InvalidInstruction => step == IllegalInstruction
    case MemoryOutOfBounds => step == MemoryFault
    case _ => true
  }

  class Interpreter {
    const image: MemoryImage
    const registers: array<Word>
    var pc: Address
    var status: Condition
    var count: nat
    var exitCode: Word

    // x0 always holds 0.
    ghost predicate Valid()
      reads registers
    {
      image.Valid() && registers.Length == REGISTER_COUNT && registers[0] == 0 && Apart({registers}, {image.bytes})
    }

    // The objects this interpreter owns.
    ghost function Repr(): set<object> {
      {this, registers, image.bytes}
    }

    ghost function State(): Arch
      requires Valid()
      reads this`pc, registers, image.bytes
    {
      Arch(pc, registers[..], image.Contents())
    }

    constructor ()
      ensures Valid() && status == NotLoaded && fresh(Repr())
    {
      image := new MemoryImage();
      registers := new Word[REGISTER_COUNT](_ => 0);
      pc, status, count, exitCode := 0, NotLoaded, 0, 0;
    }

    /** Takes what parsing left in memory: the whole image, or as much as came before the error. */
    method Load(bytes: Bytes, parsed: bool)
      requires Valid()
      modifies Repr()
      ensures Valid() && State() == Boot(bytes) && count == 0 && exitCode == 0
      ensures status == if parsed then Ready else LoadError
    {
      Fill(registers, 0);
      pc, count, exitCode := 0, 0, 0;
      image.Load(bytes);
      status := if parsed then Ready else LoadError;
    }

    /** The unextended value of any width, or none out of range. */
    method ReadRaw(width: MemoryWidth, address: Address) returns (value: Option<Word>)
      requires Valid()
      ensures value == RawRead(State().mem, address, width)
    {
      hide ReadByte, ReadHalf, ReadWord;
      match width {
        case BYTE =>
          var read := image.LoadByte(address);
          value := if read.None? then None else Some(read.value as Word);
        case HALF =>
          var read := image.LoadHalf(address);
          value := if read.None? then None else Some(read.value as Word);
        case WORD =>
          value := image.LoadWord(address);
      }
    }

    method ReadData(op: Op, address: Address) returns (value: Option<Word>)
      requires Valid() && IsLoadOp(op)
      ensures value == match RawRead(State().mem, address, WidthOf(op))
                       case None => None
                       case Some(raw) => Some(Widen(op, raw))
    {
      hide RawRead, Widen, WidthOf;
      var raw := ReadRaw(WidthOf(op), address);
      value := if raw.None? then None else Some(Widen(op, raw.value));
    }

    /** False, and nothing changes, when the store is out of range. */
    method WriteData(op: Op, address: Address, value: Word) returns (stored: bool)
      requires Valid() && IsStoreOp(op)
      modifies image.bytes
      ensures Valid()
      ensures stored == Write(old(State()).mem, address, WidthOf(op), value).Some?
      ensures State() == if stored then old(State()).(mem := Write(old(State()).mem, address, WidthOf(op), value).value)
                else old(State())
    {
      hide Position, Patched;
      if op.SB? {
        stored := image.StoreByte(address, value);
      } else if op.SH? {
        stored := image.StoreHalf(address, value);
      } else {
        stored := image.StoreWord(address, value);
      }
    }

    /** Writes a result, forces x0 back to 0, and moves on. */
    method Retire(d: DecodedInstruction, value: Word, next: Address)
      requires Valid()
      modifies this`pc, this`status, this`count, registers
      ensures Valid() && State() == Arch(next, Retired(old(State()).regs, d, value), old(State()).mem)
      ensures status == Running && count == old(count) + 1
    {
      hide HasWriteback;
      if HasWriteback(d.op) && d.rd != 0 && d.rd < REGISTER_COUNT {
        registers[d.rd] := value;
      }
      pc := next;
      registers[0] := 0;
      count := count + 1;
      status := Running;
      assert registers[..] == Retired(old(registers[..]), d, value);
    }

    /** Executes a decoded instruction. */
    method Execute(d: DecodedInstruction)
      requires Valid() && d.rs1 < REGISTER_COUNT && d.rs2 < REGISTER_COUNT
      modifies Repr()
      ensures Valid() && exitCode == old(exitCode)
      ensures match Executed(old(State()), d)
              case Next(b) => State() == b && status == Running && count == old(count) + 1
              case _ => State() == old(State()) && status == MemoryOutOfBounds && count == old(count)
    {
      hide RawRead, Write, Retired, Widen, Writeback, NextAddress, Add, WidthOf;
      var x, y := registers[d.rs1], registers[d.rs2];
      if IsLoadOp(d.op) {
        var value := ReadData(d.op, Add(x, d.immediate));
        if value.None? {
          status := MemoryOutOfBounds;
          return;
        }
        Retire(d, value.value, Add(pc, INSTRUCTION_WIDTH));
      } else if IsStoreOp(d.op) {
        var stored := WriteData(d.op, Add(x, d.immediate), y);
        if !stored {
          status := MemoryOutOfBounds;
          return;
        }
        Retire(d, 0, Add(pc, INSTRUCTION_WIDTH));
      } else {
        Retire(d, Writeback(d, pc, x, y), NextAddress(d, pc, x, y));
      }
    }

    /** One instruction; a stopped interpreter does nothing, and a failing step changes only the status. */
    method Step()
      requires Valid()
      modifies Repr()
      ensures Valid()
      ensures !(old(status) in {Ready, Running}) ==>
                State() == old(State()) && status == old(status) && count == old(count)
      ensures status != Condition.Halted || old(status) == Condition.Halted ==> exitCode == old(exitCode)
      ensures old(status) in {Ready, Running} ==>
                match InterpretedStep(old(State()))
                case Next(b) => State() == b && status == Running && count == old(count) + 1
                case Halted(code) => State() == old(State()) && status == Condition.Halted && exitCode == code
                    && count == old(count)
                case FetchFault => State() == old(State()) && status == FetchOutOfBounds && count == old(count)
                case IllegalInstruction =>
                    State() == old(State()) && status == Condition.InvalidInstruction && count == old(count)
                case MemoryFault => State() == old(State()) && status == MemoryOutOfBounds && count == old(count)
    {
      hide Decode, ReadWord, Executed, And;
      if !(status in {Ready, Running}) {
        return;
      }
      var fetched := image.LoadWord(pc);
      if fetched.None? {
        status := FetchOutOfBounds;
        return;
      }
      var d := Decode(fetched.value);
      RegistersFit(fetched.value);
      if d.op.HALT? {
        status := Condition.Halted;
        exitCode := And(registers[10], 0xff);
        return;
      }
      if d.op.INVALID? {
        status := Condition.InvalidInstruction;
        return;
      }
      Execute(d);
    }

    lemma RegistersFit(word: Word)
      ensures Decode(word).rs1 < REGISTER_COUNT && Decode(word).rs2 < REGISTER_COUNT
    {
      hide Decode;
      DecodeIsWellFormed(word);
    }

    /** At most `limit` instructions of a loaded program. */
    method Run(limit: nat, ghost start: Arch)
      requires Valid() && status == Ready && count == 0 && State() == start
      modifies Repr()
      ensures Valid() && count <= limit && InterpretedAt(start, count) == Some(State())
      ensures status in {Ready, Running} ==> count == limit
      ensures Explains(status, InterpretedStep(State()), exitCode)
    {
      hide InterpretedStep, State, Valid;
      var left := limit;
      while status in {Ready, Running} && left > 0
        invariant Valid() && count + left <= limit && InterpretedAt(start, count) == Some(State())
        invariant status in {Ready, Running} ==> count + left == limit
        invariant Explains(status, InterpretedStep(State()), exitCode)
      {
        Step();
        left := left - 1;
      }
    }
  }
}
