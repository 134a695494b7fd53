// The rename table as the object the simulator latches every cycle
// (src/tomasulo/rename_table.cpp), proved against RenameTables.
module RenameTableClass {
  import opened Types
  import opened RenameTables
  import opened Arrays

  class RenameTable {
    const cur: array<RobTag>
    const next: array<RobTag>

    ghost predicate Valid() {
      cur.Length == next.Length == REGISTER_COUNT && cur != next
    }

    // The objects this table owns.
    ghost function Repr(): set<object> {
      {this, cur, next}
    }

    ghost function State(): Table
      requires Valid()
      reads cur
    {
      cur[..]
    }

    // What the next latch will make current: x0 is never renamed.
    ghost function NextState(): Table
      requires Valid()
      reads next
    {
      next[..][0 := NO_TAG]
    }

    constructor ()
      ensures Valid() && State() == EMPTY_TABLE && NextState() == EMPTY_TABLE
      ensures fresh(Repr()) && allocated(Repr())
    {
      cur := new RobTag[REGISTER_COUNT](_ => NO_TAG);
      next := new RobTag[REGISTER_COUNT](_ => NO_TAG);
      new;
      assert cur[..] == EMPTY_TABLE && next[..][0 := NO_TAG] == EMPTY_TABLE;
    }

    method Reset()
      requires Valid()
      modifies Repr()
      ensures State() == EMPTY_TABLE && NextState() == EMPTY_TABLE
    {
      Fill(cur, NO_TAG);
      Fill(next, NO_TAG);
      assert next[..][0 := NO_TAG] == EMPTY_TABLE;
    }

    method Latch()
      requires Valid()
      modifies cur
      ensures State() == old(NextState()) && NextState() == old(NextState())
    {
      Copy(next, cur);
      cur[0] := NO_TAG;
    }

    method Find(index: RegisterIndex) returns (tag: RobTag)
      requires Valid()
      ensures tag == Lookup(State(), index)
    {
      tag := NO_TAG;
      if ValidRegister(index) && cur[index].valid {
        tag := cur[index];
      }
    }

    /** Flush beats issue, issue beats commit; a commit clears only its own mapping. */
    method Apply(write: RatWrite, commit: RatCommit, flush: bool)
      requires Valid()
      modifies next
      ensures NextState() == NextTable(State(), write, commit, flush)
    {
      Copy(cur, next);
      if flush {
        Fill(next, NO_TAG);
        assert next[..][0 := NO_TAG] == EMPTY_TABLE;
        return;
      }
      if commit.valid && commit.tag.valid && ValidRegister(commit.rd) && next[commit.rd] == commit.tag {
        next[commit.rd] := NO_TAG;
      }
      assert next[..] == AfterCommit(State(), commit);
      if write.valid && write.tag.valid && ValidRegister(write.rd) {
        next[write.rd] := write.tag;
      }
      next[0] := NO_TAG;
    }
  }
}
