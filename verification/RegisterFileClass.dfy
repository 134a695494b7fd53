// The committed registers as the object the simulator latches every cycle
// (src/tomasulo/register_file.cpp), proved against RegisterFiles.
module RegisterFileClass {
  import opened Types
  import opened Isa
  import opened RegisterFiles
  import opened Arrays

  class RegisterFile {
    const registers: array<Word>
    var pending: RegisterWrite

    // A valid pending write names a register that can be written.
    ghost predicate Valid()
      reads this`pending
    {
      registers.Length == REGISTER_COUNT && (pending.valid ==> 0 < pending.rd < REGISTER_COUNT)
    }

    // The objects this file owns.
    ghost function Repr(): set<object> {
      {this, registers}
    }

    ghost function State(): Registers
      requires registers.Length == REGISTER_COUNT
      reads registers
    {
      registers[..]
    }

    // The registers once the pending write is latched.
    ghost function NextState(): Registers
      requires registers.Length == REGISTER_COUNT
      reads this`pending, registers
    {
      Committed(registers[..], pending)
    }

    constructor ()
      ensures Valid() && State() == Repeat(REGISTER_COUNT, 0) && !pending.valid
      ensures fresh(Repr()) && allocated(Repr())
    {
      registers := new Word[REGISTER_COUNT](_ => 0);
      pending := NO_WRITE;
      new;
      assert registers[..] == Repeat(REGISTER_COUNT, 0);
    }

    method Reset()
      requires Valid()
      modifies Repr()
      ensures Valid() && State() == Repeat(REGISTER_COUNT, 0) && !pending.valid
    {
      Fill(registers, 0);
      pending := NO_WRITE;
    }

    method Read(index: RegisterIndex) returns (value: Word)
      requires Valid()
      ensures value == ReadRegister(State(), index)
    {
      if index == 0 || index >= REGISTER_COUNT {
        return 0;
      }
      return registers[index];
    }

    /** Nothing changes before the latch, and a write to x0 or past x31 is dropped. */
    method Apply(write: RegisterWrite)
      requires Valid()
      modifies this`pending
      ensures Valid() && NextState() == Committed(State(), write)
    {
      pending := write;
      if pending.rd == 0 || pending.rd >= REGISTER_COUNT {
        pending := pending.(valid := false);
      }
    }

    method Latch()
      requires Valid()
      modifies this`pending, registers
      ensures Valid() && State() == old(NextState()) && NextState() == old(NextState())
      ensures !pending.valid
    {
      if pending.valid {
        registers[pending.rd] := pending.value;
      }
      registers[0] := 0;
      pending := NO_WRITE;
    }
  }
}
