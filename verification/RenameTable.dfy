// The youngest uncommitted producer of each register
// (src/tomasulo/rename_table.cpp).
module RenameTables {
  import opened Types

  datatype RatWrite = RatWrite(rd: RegisterIndex, tag: RobTag, valid: bool)
  datatype RatCommit = RatCommit(rd: RegisterIndex, tag: RobTag, valid: bool)

  type Table = s: seq<RobTag> | |s| == REGISTER_COUNT witness Repeat(REGISTER_COUNT, NO_TAG)

  const EMPTY_TABLE: Table := Repeat(REGISTER_COUNT, NO_TAG)

  predicate ValidRegister(index: RegisterIndex) { 0 < index < REGISTER_COUNT }

  function Lookup(table: Table, index: RegisterIndex): RobTag {
    if !ValidRegister(index) || !table[index].valid then NO_TAG else table[index]
  }

  function AfterCommit(table: Table, commit: RatCommit): Table {
    if commit.valid && commit.tag.valid && ValidRegister(commit.rd) && table[commit.rd] == commit.tag
    then table[commit.rd := NO_TAG]
    else table
  }

  function AfterIssue(table: Table, write: RatWrite): Table {
    if write.valid && write.tag.valid && ValidRegister(write.rd) then table[write.rd := write.tag] else table
  }

  /** Flush beats issue, issue beats commit. */
  function NextTable(table: Table, write: RatWrite, commit: RatCommit, flush: bool): Table {
    if flush then EMPTY_TABLE
    else AfterIssue(AfterCommit(table, commit), write)[0 := NO_TAG]
  }
}
