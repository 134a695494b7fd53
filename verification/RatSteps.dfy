// The rename table stays exact through commit, issue and flush.
module RatSteps {
  import opened Types
  import opened Isa
  import opened ReorderBuffers
  import opened RenameTables
  import opened Invariants
  import opened RobSteps

  function CommitMessage(rob: RobState, ev: Event): RatCommit
    requires rob.head < ROB_CAPACITY
  {
    if ev.commit && rob.cur[rob.head].writesRd
    then RatCommit(rob.cur[rob.head].rd, rob.cur[rob.head].tag, true)
    else RatCommit(0, NO_TAG, false)
  }

  function IssueMessage(ev: Event): RatWrite {
    if ev.issued && ev.entry.writesRd then RatWrite(ev.entry.rd, ev.entry.tag, true) else RatWrite(0, NO_TAG, false)
  }

  function TableAfter(rat: Table, rob: RobState, ev: Event): Table
    requires rob.head < ROB_CAPACITY
  {
    NextTable(rat, IssueMessage(ev), CommitMessage(rob, ev), ev.flush)
  }

  /** How a slot's instruction changes the registers. */
  ghost predicate RegisterEffect(s: Slot) {
    && (s.dec.writesRd ==> 0 < s.dec.rd < REGISTER_COUNT)
    && s.post.regs == if s.dec.writesRd then s.pre.regs[s.dec.rd := s.value] else s.pre.regs
  }

  lemma MeaningGivesRegisters(s: Slot)
    requires Meaning(s)
    ensures RegisterEffect(s)
  {
    hide ResultValue, MemoryAfter, Successor, Faults;
  }

  lemma TableEntry(rat: Table, rob: RobState, ev: Event, r: RegisterIndex)
    requires WellFormed(rob) && 0 < r < REGISTER_COUNT
    requires ev.commit ==> rob.count > 0
    requires ev.issued ==> rob.count < ROB_CAPACITY && ev.entry.tag == NextTag(rob)
    ensures TableAfter(rat, rob, ev)[r] ==
            if ev.flush then NO_TAG
            else if ev.issued && ev.entry.writesRd && ev.entry.rd == r then ev.entry.tag
            else if ev.commit && rob.cur[rob.head].writesRd && rob.cur[rob.head].rd == r
                && rat[r] == rob.cur[rob.head].tag then NO_TAG
            else rat[r]
    ensures !TableAfter(rat, rob, ev)[0].valid
  {
    HeadIsValid(rob);
  }

  /** A mapping left in the table still names a live writer of its register. */
  lemma MappingAfter(rat: Table, rob: RobState, slots: SlotTable, rob': RobState, ev: Event, r: RegisterIndex)
    requires WellFormed(rob) && EventOk(rob, slots, ev) && Transition(rob, rob', ev)
    requires RatExact(rat, rob, slots)
    requires 0 < r < REGISTER_COUNT && TableAfter(rat, rob, ev)[r].valid
    ensures var t := TableAfter(rat, rob, ev)[r];
            Matching(t, rob'.cur) && rob'.cur[t.index].writesRd && rob'.cur[t.index].rd == r
  {
    TableEntry(rat, rob, ev, r);
    HeadIsValid(rob);
    if ev.issued { TailAge(rob); }
    hide TableAfter, ResultOk, Age;
  }

  /** Every live writer still has a mapping at least as young. */
  lemma WriterAfter(rat: Table, rob: RobState, slots: SlotTable, rob': RobState, ev: Event, i: nat)
    requires WellFormed(rob) && EventOk(rob, slots, ev) && Transition(rob, rob', ev)
    requires RatExact(rat, rob, slots)
    requires ev.issued && ev.entry.writesRd ==> 0 < ev.entry.rd < REGISTER_COUNT
    requires ev.issued ==> forall j :: 0 <= j < ROB_CAPACITY && rob.cur[j].valid ==> slots[j].id < ev.slot.id
    requires forall j :: 0 <= j < ROB_CAPACITY && rob.cur[j].valid && j != rob.head && rob.cur[rob.head].valid ==>
               slots[rob.head].id < slots[j].id
    requires i < ROB_CAPACITY && rob'.cur[i].valid && rob'.cur[i].writesRd
    ensures 0 < rob'.cur[i].rd < REGISTER_COUNT
    ensures var t := TableAfter(rat, rob, ev)[rob'.cur[i].rd];
            && t.valid && t.index < ROB_CAPACITY
            && SlotsAfter(rob, slots, ev)[i].id <= SlotsAfter(rob, slots, ev)[t.index].id
  {
    hide TableAfter, ResultOk, Age, Updated;
    Survivor(rob, slots, rob', ev, i);
    var r := rob'.cur[i].rd;
    TableEntry(rat, rob, ev, r);
    HeadIsValid(rob);
    if ev.issued { TailAge(rob); }
  }

  lemma RatExactAfter(rat: Table, rob: RobState, slots: SlotTable, rob': RobState, ev: Event)
    requires WellFormed(rob) && EventOk(rob, slots, ev) && Transition(rob, rob', ev)
    requires RatExact(rat, rob, slots)
    requires ev.issued && ev.entry.writesRd ==> 0 < ev.entry.rd < REGISTER_COUNT
    requires ev.issued ==> forall j :: 0 <= j < ROB_CAPACITY && rob.cur[j].valid ==> slots[j].id < ev.slot.id
    requires forall j :: 0 <= j < ROB_CAPACITY && rob.cur[j].valid && j != rob.head && rob.cur[rob.head].valid ==>
               slots[rob.head].id < slots[j].id
    ensures RatExact(TableAfter(rat, rob, ev), rob', SlotsAfter(rob, slots, ev))
  {
    hide TableAfter, SlotsAfter, ResultOk, EntryAfter;
    TableEntry(rat, rob, ev, 1);
    forall r | 0 < r < REGISTER_COUNT && TableAfter(rat, rob, ev)[r].valid
      ensures var t := TableAfter(rat, rob, ev)[r];
              Matching(t, rob'.cur) && rob'.cur[t.index].writesRd && rob'.cur[t.index].rd == r
    {
      MappingAfter(rat, rob, slots, rob', ev, r);
    }
    forall i | 0 <= i < ROB_CAPACITY && rob'.cur[i].valid && rob'.cur[i].writesRd
      ensures 0 < rob'.cur[i].rd < REGISTER_COUNT
      ensures var t := TableAfter(rat, rob, ev)[rob'.cur[i].rd];
              && t.valid && t.index < ROB_CAPACITY
              && SlotsAfter(rob, slots, ev)[i].id <= SlotsAfter(rob, slots, ev)[t.index].id
    {
      WriterAfter(rat, rob, slots, rob', ev, i);
    }
  }

  /** What commit and issue do to one register of the committed and of the tail state. */
  ghost predicate RegisterStep(rob: RobState, gh: Ghost, ev: Event, r: int)
    requires rob.head < ROB_CAPACITY && rob.tail < ROB_CAPACITY && 0 < r < REGISTER_COUNT
  {
    var head := rob.cur[rob.head];
    var gh' := GhostAfter(rob, gh, ev);
    && gh'.arch.regs[r] == (if ev.commit && head.writesRd && head.rd == r then gh.slots[rob.head].value
        else gh.arch.regs[r])
    && gh'.tail.regs[r] == (if ev.flush then gh'.arch.regs[r]
                            else if ev.issued && ev.entry.writesRd && ev.entry.rd == r then ev.slot.value
                            else gh.tail.regs[r])
  }

  ghost predicate RegisterFacts(rob: RobState, gh: Ghost, ev: Event)
    requires rob.head < ROB_CAPACITY
  {
    && (ev.commit ==>
          && !rob.cur[rob.head].op.HALT?
          && gh.slots[rob.head].pre == gh.arch
          && RegisterEffect(gh.slots[rob.head])
          && gh.slots[rob.head].dec.rd == rob.cur[rob.head].rd
          && gh.slots[rob.head].dec.writesRd == rob.cur[rob.head].writesRd)
    && (ev.issued ==>
          && ev.slot.pre == gh.tail
          && RegisterEffect(ev.slot)
          && ev.slot.dec.rd == ev.entry.rd
          && ev.slot.dec.writesRd == ev.entry.writesRd)
  }

  lemma RegisterSteps(rob: RobState, gh: Ghost, ev: Event, r: int)
    requires rob.head < ROB_CAPACITY && rob.tail < ROB_CAPACITY && 0 < r < REGISTER_COUNT
    requires RegisterFacts(rob, gh, ev)
    ensures RegisterStep(rob, gh, ev, r)
    ensures GhostAfter(rob, gh, ev).arch.regs[0] == gh.arch.regs[0]
  {
  }

  lemma RegisterMeaningAfter(rat: Table, rob: RobState, gh: Ghost, ev: Event, r: int)
    requires WellFormed(rob) && EventOk(rob, gh.slots, ev)
    requires RatExact(rat, rob, gh.slots) && RatMeaning(rat, rob, gh)
    requires 0 < r < REGISTER_COUNT && RegisterStep(rob, gh, ev, r)
    ensures var gh' := GhostAfter(rob, gh, ev);
            var rat' := TableAfter(rat, rob, ev);
            gh'.tail.regs[r] ==
              if rat'[r].valid && rat'[r].index < ROB_CAPACITY then gh'.slots[rat'[r].index].value else gh'.arch.regs[r]
  {
    hide TableAfter, ResultOk, Age, ArchAfter;
    HeadIsValid(rob);
    if ev.issued { TailAge(rob); }
    TableEntry(rat, rob, ev, r);
  }

  /** Renamed registers keep meaning the value at the tail, others the committed value. */
  lemma RatMeaningAfter(rat: Table, rob: RobState, gh: Ghost, rob': RobState, ev: Event)
    requires WellFormed(rob) && EventOk(rob, gh.slots, ev)
    requires RatExact(rat, rob, gh.slots) && RatMeaning(rat, rob, gh)
    requires RegisterFacts(rob, gh, ev)
    ensures RatMeaning(TableAfter(rat, rob, ev), rob', GhostAfter(rob, gh, ev))
  {
    hide TableAfter, GhostAfter, EventOk, RatExact, RegisterFacts, RegisterStep;
    forall r | 0 < r < REGISTER_COUNT
      ensures var gh' := GhostAfter(rob, gh, ev);
              var rat' := TableAfter(rat, rob, ev);
              gh'.tail.regs[r] ==
                if rat'[r].valid && rat'[r].index < ROB_CAPACITY then gh'.slots[rat'[r].index].value
                    else gh'.arch.regs[r]
    {
      RegisterSteps(rob, gh, ev, r);
      RegisterMeaningAfter(rat, rob, gh, ev, r);
    }
    RegisterSteps(rob, gh, ev, 1);
  }
}
