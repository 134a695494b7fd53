// Programs that never store into the words they fetch, and runs in which no
// fetch is overtaken by a store, meet the refinement theorems' hypothesis.
module CodeStability {
  import opened Types
  import opened Image
  import opened Isa
  import opened Decoder
  import opened Pipeline
  import opened Invariants
  import opened CycleSteps
  import opened Refinement
  import opened Stops
  import opened Theorems
  import ReadOverWrite

  /** The instruction at a's pc does not store into the word at `pc`. */
  ghost predicate Misses(a: Arch, pc: Address) {
    match ReadWord(a.mem, a.pc)
    case None => true
    case Some(word) =>
      var d := Decode(word);
      var start, target := Position(DataAddress(d, a)), Position(pc);
      d.isStore ==> target + 4 <= start || start + WidthInBytes(WidthOf(d.op)) <= target
  }

  /** No step of the run stores into a word that a later step fetches. */
  ghost predicate StoresMissCode(start: Arch) {
    forall j: nat, k: nat :: j < k && StateAt(start, j).Some? && StateAt(start, k).Some? ==>
      Misses(StateAt(start, j).value, StateAt(start, k).value.pc)
  }

  lemma WordReads(mem: Bytes, pc: Address)
    ensures RawRead(mem, pc, WORD) == ReadWord(mem, pc)
  {
  }

  lemma MissKeepsWord(a: Arch, pc: Address)
    requires Misses(a, pc) && Isa.Step(a).Next?
    ensures ReadWord(Isa.Step(a).state.mem, pc) == ReadWord(a.mem, pc)
  {
    hide Decode, ReadWord, Write, RawRead, Position, InBounds, WidthOf, ResultValue, Successor, ReadRegister;
    var d := Decode(ReadWord(a.mem, a.pc).value);
    var target := Isa.Step(a).state.mem;
    WordReads(a.mem, pc);
    WordReads(target, pc);
    if d.isStore {
      StoreInBounds(a, d);
      ReadOverWrite.DisjointLoad(a.mem, DataAddress(d, a), WidthOf(d.op), ReadRegister(a.regs, d.rs2), pc, WORD);
    }
  }

  lemma StoreInBounds(a: Arch, d: DecodedInstruction)
    requires d.isStore && !Faults(d, a)
    ensures InBounds(DataAddress(d, a), WidthInBytes(WidthOf(d.op)))
  {
    hide InBounds, WidthOf, DataAddress;
  }

  lemma {:induction false} WordStays(start: Arch, j: nat, k: nat, pc: Address)
    requires j <= k && StateAt(start, k).Some?
    requires forall i: nat :: j <= i < k && StateAt(start, i).Some? ==> Misses(StateAt(start, i).value, pc)
    ensures StateAt(start, j).Some?
    ensures ReadWord(StateAt(start, j).value.mem, pc) == ReadWord(StateAt(start, k).value.mem, pc)
    decreases k - j
  {
    hide Isa.Step, ReadWord, Misses;
    EarlierStates(start, j, k);
    if j < k {
      EarlierStates(start, k - 1, k);
      WordStays(start, j, k - 1, pc);
      MissKeepsWord(StateAt(start, k - 1).value, pc);
    }
  }

  /** The refinement theorems' hypothesis holds of every program that leaves its own code alone. */
  lemma StoresMissingCodeAreStable(start: Arch)
    requires StoresMissCode(start)
    ensures CodeStable(start)
  {
    hide StateAt, ReadWord, Misses;
    forall j: nat, k: nat | j <= k <= j + 31 && StateAt(start, j).Some? && StateAt(start, k).Some?
      ensures ReadWord(StateAt(start, j).value.mem, StateAt(start, k).value.pc)
              == ReadWord(StateAt(start, k).value.mem, StateAt(start, k).value.pc)
    {
      WordStays(start, j, k, StateAt(start, k).value.pc);
    }
  }

  // --- One run ------------------------------------------------------------------------------

  /** Step j of the run is in flight, and memory does not have its store, if it is one, yet. */
  ghost predicate UnwrittenStep(m: Machine, j: nat)
    requires InRange(m)
  {
    (if HeadWritten(m) then m.committed + 1 else m.committed) <= j < m.committed + m.rob.count
  }

  /** An instruction of the sequential run that is issued in this cycle is not stored into by an older
      store that is still to be written. */
  ghost predicate PendingStoresMiss(m: Machine, start: Arch, taken: bool)
    requires InRange(m)
  {
    var next := StateAt(start, m.committed + m.rob.count);
    Issues(m, taken) && next.Some? && next.value.pc == m.pc ==>
      forall j: nat :: UnwrittenStep(m, j) && StateAt(start, j).Some? ==> Misses(StateAt(start, j).value, m.pc)
  }

  lemma MissedFetch(m: Machine, gh: Ghost, start: Arch, taken: bool)
    requires Inv(m, gh, start) && InRange(m) && PendingStoresMiss(m, start, taken)
    ensures FetchesInOrder(m, start, taken)
  {
    hide Consistent, AllFetched, Issues, StateAt, ReadWord, Misses;
    MemoryIsSequential(m, gh, start);
    RobInOrder(m, gh);
    var j := if HeadWritten(m) then m.committed + 1 else m.committed;
    var k := m.committed + m.rob.count;
    if Issues(m, taken) && StateAt(start, k).Some? && StateAt(start, k).value.pc == m.pc {
      WordStays(start, j, k, m.pc);
    }
  }

  /** A run whose fetches find no older store still to be written over them fetches in order. */
  lemma {:induction false} MissedCodeIsFetchedInOrder(bytes: Bytes, predict: nat -> bool, n: nat)
    requires forall j: nat :: j < n ==> PendingStoresMiss(RunFor(bytes, predict, j), Boot(bytes), predict(j))
    ensures InOrderFetches(bytes, predict, n)
  {
    hide Inv, Cycle, RunFor, Boot, StoppedAt, IssueEffective, Observe, StateAt, PendingStoresMiss, WordInOrder;
    if n > 0 {
      MissedCodeIsFetchedInOrder(bytes, predict, n - 1);
      var gh := RunKeepsInv(bytes, predict, n - 1);
      var m := RunFor(bytes, predict, n - 1);
      if m.status == Running {
        MissedFetch(m, gh, Boot(bytes), predict(n - 1));
      }
    }
  }
}
