// Committed registers with x0 fixed at zero (src/tomasulo/register_file.cpp).
module RegisterFiles {
  import opened Types
  import opened Isa

  datatype RegisterWrite = RegisterWrite(rd: RegisterIndex, value: Word, valid: bool)

  const NO_WRITE := RegisterWrite(0, 0, false)

  /** The registers after a cycle that commits `write`. */
  function Committed(regs: Registers, write: RegisterWrite): Registers {
    var written := if write.valid then WriteRegister(regs, write.rd, write.value) else regs;
    written[0 := 0]
  }
}
