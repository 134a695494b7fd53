# A verified model of the Tomasulo RV32I simulator

The simulator holds two implementations of RV32I: a sequential interpreter and
an out-of-order pipeline with renaming, sixteen reservation stations, a
32-entry reorder buffer, an in-order load/store queue, a three-cycle memory
port, one common data bus, speculation past predicted branches, and flush when
a misprediction reaches the head of the reorder buffer. Each clock cycle
freezes every module's outputs from the current state, lets nine modules
compute their next state in an arbitrary order, and latches them in an
arbitrary order.

The project models both, and proves that the pipeline refines in-order
execution.

* `Isa.dfy` is the sequential meaning of a program, written from chapter 2 of
  the RISC-V Unprivileged ISA manual; `Decoder.dfy`, `Image.dfy` and
  `WordArithmetic.dfy` are its instruction words, memory and arithmetic.
* `Manual.dfy` states the instruction set once more, over the integers and sharing
  nothing with the rest. `Numerals.dfy`, `ManualFields.dfy`, `ManualArithmetic.dfy`,
  `ManualSteps.dfy` and `ManualRun.dfy` prove that words, fields, operations, steps
  and whole runs are those of that machine; `InstructionListing.dfy` compares the
  decoder with the manual's listing.
* One module per component (`ReorderBuffer.dfy`, `ReservationStation.dfy`,
  `LoadStoreQueue.dfy`, `MemoryUnit.dfy`, `FunctionalUnit.dfy`,
  `CommonDataBus.dfy`, `RenameTable.dfy`, `RegisterFile.dfy`, `IssueUnit.dfy`,
  `BranchPredictor.dfy`) gives the component's transition as functions.
  `Pipeline.dfy` puts them together into one cycle.
* The `...Class.dfy` files are the components as the simulator has them,
  objects that change arrays and fields in place, each method proved equal to
  those functions. `Cpu.dfy` is the simulator itself, running plans, applies and
  latches in any permutations; `InterpreterClass.dfy` is the interpreter.
* `Invariants.dfy` says what a reachable pipeline state is: a committed
  sequential state, followed by the in-flight instructions executed in order
  along the predicted path. The `...Steps.dfy` files prove, module by module,
  that a cycle keeps it; `Refinement.dfy`, `SpeculativePath.dfy`, `Stops.dfy`,
  `Progress.dfy` and `Theorems.dfy` draw the conclusions over whole runs,
  `Halting.dfy` those about programs that halt, `FairRuns.dfy` and
  `ExactlyOnce.dfy` those about scheduling, `TrainedRun.dfy` those about what
  the branch predictor has learnt, and `Guarantees.dfy` restates the
  invariants without ghost state.
* `MisledProgram.dfy`, `MisledSteps.dfy`, `MisledRun.dfy` and
  `SelfModifying.dfy` follow two short programs cycle by cycle, to show that the
  hypotheses and the exceptions of those theorems are needed.
* `Datapath.dfy`, `ArithmeticShifts.dfy`, `DecoderInverse.dfy`,
  `EncoderInverse.dfy` and `ReadOverWrite.dfy` cover the datapath, the decoder
  and memory; `Interpreter.dfy` and `InterpreterRuns.dfy` the reference
  implementation.

Words, addresses and tag generations are 32-bit and wrap around. Capacities
and the memory latency are named constants. Predictions are a parameter: a
theorem about `RunFor` holds for every predictor, and `PredictedRun.dfy` applies
it to the bimodal table the code has. The refinement theorems assume that a
run fetches in order (`InOrderFetches`): what it issues on the sequential path
is the word that path fetches there. Fetch reads memory while older stores may
still be pending, so a store can come too late for the word it changes.
Programs that change no word within 31 steps before its fetch (`CodeStable`)
meet this in every run, and so does every run in which no pending store overlaps
a fetched word.

Where the code and its documentation differ the model follows the code: the
repository's README describes tournament and global-history predictors, a
history register and a predictor option, the code has one table of 256
two-bit counters. The interpreter compares SLT and SLTU with the
instruction's immediate, which is 0 for these two; the pipeline compares
with rs2, as section 2.4.2 of the ISA manual asks, and so does `Isa.dfy`. The word
0x0ff00513 halts both machines and is otherwise `addi x10, x0, 255`.

## Model

| member | source | states |
|---|---|---|
| Theorems.MachineRefinesIsa | src/tomasulo/cpu.cpp:217-481 | for every image, every sequence of predictions and every number of cycles, as long as what is issued on the sequential path is the word that path fetches there: a running machine has the registers and architectural pc of the sequential RV32I run after exactly `committed` steps, and its memory, or the next step's exactly when the oldest instruction is a store that has landed; a stopped machine has that state and the sequential machine's own reason to stop there, save that a failed load may be off that run, which faults there if the load is on it |
| Theorems.StableCodeIsFetchedInOrder | src/tomasulo/cpu.cpp:170-192 | that hypothesis holds in every run of every program in which no store changes a word within 31 steps before its fetch |
| CodeStability.MissedCodeIsFetchedInOrder | src/tomasulo/cpu.cpp:170-192 | and of every single run in which no store older than a fetch on the sequential path, and still to be written then, overlaps the fetched word |
| Halting.HaltingPrograms | src/tomasulo/cpu.cpp:483-493 | total correctness, for runs that fetch in order: a program that halts sequentially after n steps makes the machine halt within 36 (n + 1) cycles with the same exit code, registers, memory and count; the one other outcome is a failed load that the sequential run does not execute there |
| Halting.HaltsUnlessMisled | src/tomasulo/load_store_queue.cpp:171-174 | the exact condition, for every run that fetches in order: within that bound the machine halts as the program does if and only if no cycle answers a load of a mispredicted path with a failure |
| Halting.RightPredictionsHalt | src/tomasulo/cpu.cpp:148-168 | when each prediction used by an issued instruction is what the sequential run does at that position, a halting program halts on the machine |
| Halting.StraightProgramsHalt | src/tomasulo/cpu.cpp:148-168 | a halting program whose run executes no conditional branch and no indirect jump halts on the machine under every sequence of predictions |
| MisledRun.HaltingProgramFails | src/tomasulo/load_store_queue.cpp:171-174 | the condition is needed: every image that holds a given program of six words (MisledProgram.ProgramExists makes one), which halts sequentially after three steps and never stores, stops the machine, under every sequence of predictions, with a memory error at a load the sequential run never executes |
| Theorems.PredictionsDoNotMatter | src/tomasulo/cpu.cpp:148-168 | any two halted runs of an image that fetch in order, under any two sequences of predictions, agree on exit code, registers, memory and committed count |
| Theorems.CommitsOrStops | src/tomasulo/cpu.cpp:217-481 | bounded progress: from every reachable state, 36 cycles later the machine has committed or stopped; it never deadlocks |
| Theorems.LinearTime | src/tomasulo/cpu.cpp:483-493 | after 36 c cycles a machine that still runs has committed at least c instructions |
| Theorems.StopIsUnique | src/reference/interpreter.cpp:50-393 | the sequential machine stops at one step only |
| ManualRuns.MachineIsManual | src/tomasulo/cpu.cpp:217-481 | every run that fetches in order computes what the manual says in integers: after any number of cycles the registers and pc as numbers, and the memory as bytes, are those of the integer machine of `Manual.dfy` after `committed` steps, and a halt, a fetch fault or an illegal instruction is that machine's next outcome |
| ManualRuns.RunIsManual | src/reference/interpreter.cpp:395-407 | the sequential run used as specification is, state by state and in its stop, the run of the integer machine |
| ManualSteps.StepIsManual | src/reference/interpreter.cpp:50-393 | one sequential step is one step of a machine that shares no code with the model: fields by division, arithmetic modulo 2^32, logic bit by bit, shifts by powers of two, memory as numbers below 256 indexed by the address, codes in the manual's numerals, and the exit code x10 modulo 256 |
| Refinement.InvAfter | src/tomasulo/cpu.cpp:217-481 | one cycle keeps the refinement invariant: the committed part stays the sequential run, the rest in-order execution of the predicted path |
| Stops.StopIsArchitectural | src/tomasulo/cpu.cpp:437-480 | HALT, fetch faults, illegal instructions, store faults and the faults of loads on the sequential run stop the machine only at the sequential machine's own stop, with its registers, memory and exit code |
| Stops.FailureStops | src/tomasulo/cpu.cpp:460-462 | a failed access stops the machine in that cycle and leaves the access, its position in the run and whether it is on the sequential run as they were |
| Refinement.CommitIsStep | src/tomasulo/reorder_buffer.cpp:93-107 | a commit moves the committed state by exactly one sequential step, and nothing else moves it |
| Refinement.MemoryIsSequential | src/memory/memory_unit.cpp:212-224 | memory is that of the committed state or, once the head store has landed two cycles before its commit, of the next one |
| SpeculativePath.EntryIsSequential | src/tomasulo/cpu.cpp:170-192 | an entry behind right predictions is exactly the sequential instruction of its position, decoded from the word that state fetches |
| SpeculativePath.LoadFaultIsArchitecturalIff | src/tomasulo/load_store_queue.cpp:171-174 | a failed access belongs to the sequential run if and only if every older branch and jump in flight was predicted right, and then it is that run's fault at exactly that step |
| CodeStability.StoresMissingCodeAreStable | src/tomasulo/cpu.cpp:170-192 | programs whose stores never overlap a word fetched later are stable |
| SelfModifying.StaleFetch | src/tomasulo/cpu.cpp:170-192 | and runs outside it can break refinement: every image that holds two given words (SelfModifying.ProgramExists makes one), the first a store over the second, is not refined, under any sequence of predictions, because that word was fetched before the store landed |
| TrainedRuns.CommitTrains | src/tomasulo/cpu.cpp:365-378 | when a conditional branch commits, the predictor is told its pc, whether the sequential run takes it there and where that run goes, and nothing else trains it |
| TrainedRuns.PredictorLearns | src/tomasulo/branch_predictor.cpp:19-46 | on every run that fetches in order the 256 counters are those left by the branches among the first `committed` steps of the sequential run, and the prediction count is their number: nothing speculated is ever learnt |
| TrainedRuns.PredictionIsLearnt | src/tomasulo/branch_predictor.cpp:11-13 | so a prediction is taken exactly if those branches left 2 or 3 in counter pc / 4 modulo 256 |
| TrainedRuns.WrongPredictionsFlush | src/tomasulo/branch_predictor.cpp:38-45 | every counted prediction is counted correct, or its branch flushed the pipeline when it committed |
| PredictedRuns.SystemRunsMachine | src/tomasulo/branch_predictor.cpp:11-46 | the machine with its real predictor is one of the runs under arbitrary predictions, so every theorem above applies to it |
| MachineSteps.ConsistentAfter | src/tomasulo/cpu.cpp:217-481 | every cycle that leaves the machine running keeps the global invariant linking buffer, stations, queue, unit, port, rename table and fetch pc |
| MachineSteps.ResetIsConsistent | src/tomasulo/cpu.cpp:65-92 | a freshly loaded machine meets it |
| Guarantees.ReachableIsGuaranteed | src/tomasulo/cpu.cpp:217-481 | in every reachable running state: one predicted path, exact renaming, exactly one holder per unfinished instruction, no lost wakeup, stores at their turn, stale answers match nothing, accesses in order |
| Guarantees.PathHolds | src/tomasulo/cpu.cpp:316-330 | entries are linked by pc = predecessor's predicted next pc, fetching continues the youngest, stops exactly behind HALT, and only the youngest can be HALT |
| Guarantees.RenamingHolds | src/tomasulo/rename_table.cpp:40-64 | the mapping of each register is the tag of the youngest live writer, and there is none exactly when there is no live writer |
| Guarantees.HoldingHolds | src/tomasulo/reservation_station.cpp:128-170 | conservation: every live unfinished entry is held by exactly one station, unit, queue entry or load buffer, and only such entries are held |
| ExactlyOnce.OnceEach | src/tomasulo/reorder_buffer.cpp:178-209 | over any stretch of cycles an instruction stays in flight, the cycles that finish it are one if it becomes ready and none otherwise, and the cycles that dispatch it are one if it leaves its station and none otherwise |
| ExactlyOnce.IssuedToCommitted | src/tomasulo/reservation_station.cpp:147-154 | so from its issue to its commit an instruction is finished exactly once, and dispatched exactly once if it was issued to a station |
| Guarantees.WakeupsHold | src/tomasulo/issue_unit.cpp:17-43 | every waiting operand names a strictly older, live, unfinished entry, so the broadcast it needs is still to come |
| Guarantees.StoresHold | src/tomasulo/load_store_queue.cpp:199-219 | a store at the port, or just answered, is the unfinished oldest instruction, and no flush can happen then |
| Guarantees.StaleHolds | src/tomasulo/reorder_buffer.cpp:211-219 | whatever the port still carries after a flush names no queue entry, with generations that wrap at 2^32; a match means the head sent that very request |
| Guarantees.AccessesHold | src/tomasulo/load_store_queue.cpp:154-222 | only the queue's head is ever sent, and every store older than it has reached memory by then |
| Guarantees.MemoryChangesInOrder | src/memory/memory_unit.cpp:153-224 | memory changes only when an in-range store completes, by exactly its write, and that store is the oldest instruction in flight |
| Guarantees.NoInternalError | src/tomasulo/cpu.cpp:456-458 | no run of any image reports an internal error |
| Guarantees.IssuesWheneverItMay | src/tomasulo/issue_unit.cpp:55-156 | an instruction is issued exactly when no redirection, HALT or fetch fault stands before it, its word is valid, and there is room in the 32-entry buffer and in the sixteen stations or sixteen queue entries it needs |
| Assertions.NoAssertionFires | src/tomasulo/cpu.cpp:421-437 | issue is accepted by every structure it allocates in, a dispatch the unit can take is executable and taken, a request is accepted, and a finished load finds its buffer free |
| PredictedRuns.ReachableAsserts | src/tomasulo/cpu.cpp:421-437 | hence no assertion fires in any reachable state |
| PortSteps.DeadIsNotLive | src/tomasulo/reorder_buffer.cpp:42-53 | the tag of a flushed instruction differs from every live tag |
| PortSteps.DeadAfter | src/tomasulo/reorder_buffer.cpp:55-65 | one cycle allocates at most one tag, so a dead tag ages by at most one generation |
| PortSteps.FlushedIsDead | src/tomasulo/reorder_buffer.cpp:211-219 | a flush kills the tag of whatever was in flight, because generations survive it |
| PortSteps.InFlightMemory | src/tomasulo/load_store_queue.cpp:194-222 | the instruction in flight at the port sees the in-order memory of its position |
| PortSteps.AnswerIsInOrder | src/memory/memory_unit.cpp:132-151 | the answer to the head's request is its in-order value, and fails exactly when the access is out of range |
| PortSteps.StoreLands | src/memory/memory_unit.cpp:193-224 | in the cycle a store's bytes land, memory becomes exactly the state after that store |
| PortSteps.PortOkAfterFlush | src/tomasulo/load_store_queue.cpp:235-243 | a flush leaves only dead loads at the port |
| HolderSteps.InstalledLoad | src/tomasulo/load_store_queue.cpp:176-184 | a load's result entering the buffer is its in-order value |
| StationSteps.UnitOkAfter | src/tomasulo/functional_unit.cpp:186-217 | the unit holds a correct result that no station will produce again |
| StationSteps.StationsAreDistinct | src/tomasulo/reservation_station.cpp:157-167 | two busy stations never serve the same instruction |
| IssueSteps.ResolvedNow | src/tomasulo/issue_unit.cpp:17-43 | rename lookup, buffer bypass and same-cycle broadcast together give the in-order value or a strictly older producer whose broadcast is not this one |
| ReservationStations.StationHears | src/tomasulo/reservation_station.cpp:75-91 | a busy station's operands take exactly the broadcast they wait for, and an idle station hears nothing |
| IssueUnits.StatusTells | src/tomasulo/issue_unit.cpp:55-156 | for all inputs, which status is reported, and that nothing is written unless the instruction is issued |
| LoadStoreQueues.AnswersConcernHead | src/tomasulo/load_store_queue.cpp:154-192 | for all inputs, an answer counts only if it names the head and is of its kind; a success removes the head and completes its store or installs its load, a failure is an error and removes nothing |
| CycleSteps.IssueAllOrNothing | src/tomasulo/issue_unit.cpp:55-156 | an instruction is written to every structure it needs or to none |
| RobSteps.ChainedAfter | src/tomasulo/reorder_buffer.cpp:112-168 | commit drops the first link of the chain of in-order states, issue adds one at the end, a flush leaves none |
| RatSteps.RatExactAfter | src/tomasulo/rename_table.cpp:40-64 | exactness of the rename table survives commit, issue, both on one register, and flush |
| RatSteps.RatMeaningAfter | src/tomasulo/rename_table.cpp:40-64 | a renamed register means its producer's in-order value, any other its committed value, after every cycle |
| Progress.WorkFalls | src/tomasulo/cpu.cpp:217-481 | an explicit measure of cursor distance, bus wait, port countdown and emptiness falls in every cycle that neither commits nor stops |
| Progress.WorkIsBounded | src/tomasulo/cpu.cpp:217-481 | and lies between 1 and 36 in every consistent state |
| Progress.OldestExecutes | src/tomasulo/reservation_station.cpp:50-59 | the oldest unfinished integer or control instruction is ready in its station or already executed |
| Progress.OldestAccesses | src/tomasulo/load_store_queue.cpp:194-222 | the oldest unfinished access is at the queue's head with its operands, or in the load buffer |
| Fairness.TurnComesCloser | src/tomasulo/reservation_station.cpp:50-59 | each dispatch serves a given ready station or brings the cursor strictly closer to it, leaving it unchanged |
| FairRuns.DispatchedInTurn | src/tomasulo/reservation_station.cpp:147-154 | on every run: a ready station is dispatched, with the operands it has, after at most fifteen other dispatches and within 32 cycles, unless the machine flushes or stops before |
| FairRuns.ReadyIsBroadcast | src/tomasulo/reservation_station.cpp:50-59 | on every run: the result of an instruction ready in a station is on the bus within 34 cycles, unless the machine flushes or stops before |
| FairRuns.ExecutedIsBroadcast | src/tomasulo/common_data_bus.cpp:45-78 | on every run: an executed result is on the bus in this cycle or the next, unless the machine flushes or stops before |
| FairRuns.LoadIsBroadcast | src/tomasulo/common_data_bus.cpp:45-78 | on every run: a load's result is on the bus in the cycle it enters the buffer or the next, unless the machine flushes or stops before |
| Fairness.GrantedWithinTwo | src/tomasulo/common_data_bus.cpp:45-78 | a waiting result is granted the bus this cycle or the next, whatever competes |
| Fairness.GrantsAreSound | src/tomasulo/common_data_bus.cpp:45-78 | at most one grant, one exactly when there is a valid candidate, and the granted result is what is broadcast |
| RingContents.RobIsQueue | src/tomasulo/reorder_buffer.cpp:112-168 | the ring refines a plain queue: completions in place, commit takes the first, issue appends, flush empties, for all inputs |
| RingContents.RobStaysWellFormed | src/tomasulo/reorder_buffer.cpp:112-168 | valid slots stay exactly the window from the head, each tagged with its slot and that slot's latest generation |
| RingContents.LsqIsQueue | src/tomasulo/load_store_queue.cpp:224-289 | the queue's ring refines a plain queue with wakeups, address formation, send marking, removal and issue |
| QueueSteps.LsqStaysWellFormed | src/tomasulo/load_store_queue.cpp:224-289 | its valid slots stay exactly the window from the head, for all inputs and decisions |
| Cpus.Cpu.Cycle | src/tomasulo/cpu.cpp:217-481 | whatever permutations order the four plans, nine applies and nine latches, the object makes the one step its state determines |
| Cpus.Cpu.PlanAll | src/tomasulo/cpu.cpp:251-289 | the four plans, in any order, give the outputs frozen from the current state |
| Cpus.Cpu.ApplyAll | src/tomasulo/cpu.cpp:380-419 | the nine applies, in any order, compute every module's next state from the current states and change none of those |
| Cpus.Cpu.LatchAll | src/tomasulo/cpu.cpp:495-531 | the nine latches, in any order, make every computed next state current |
| Cpus.Cpu.Compute | src/tomasulo/cpu.cpp:421-437 | after the applies every assertion about the modules' reports holds |
| Cpus.Cpu.SourceState | src/tomasulo/cpu.cpp:194-215 | the architectural value, the producer and, if it has finished, its value |
| Cpus.Cpu.PlanIssueStep | src/tomasulo/cpu.cpp:257-279 | fetch, decode, predict and issue read the current state only, and a failed fetch issues nothing |
| Cpus.Cpu.PreviewHead | src/tomasulo/cpu.cpp:126-146 | the early look at the head gives the store permission and the flush |
| Cpus.Cpu.JudgeStatus | src/tomasulo/cpu.cpp:439-473 | HALT beats a memory error, which beats internal, illegal-instruction and fetch errors; the last two need an empty buffer |
| Cpus.Cpu.Redirect | src/tomasulo/cpu.cpp:316-330 | a flush overrides an issue for the next pc and lifts a wrong-path HALT |
| Cpus.Cpu.Load | src/tomasulo/cpu.cpp:65-92 | loading leaves the whole system as fresh, whatever ran before: every module, the port, the counters and the predictor, with the bytes parsing left in memory, running if the text was an image and with a load error otherwise |
| Cpus.Cpu.Run | src/tomasulo/cpu.cpp:483-493 | running goes on to the stop or the limit, in exactly the states of the deterministic run of the image |
| CyclePhases.GoalOfCycle | src/tomasulo/cpu.cpp:217-481 | what the modules compute from the frozen outputs is the next state of the whole system |
| CyclePhases.PlansAreWires | src/tomasulo/cpu.cpp:257-294 | four plans made separately are the cycle's frozen outputs |
| Simulations.Execute | src/main.cpp:1-40 | load and run with any orders ends in the state the image and the limit determine, which refines the sequential machine if the run fetched in order |
| Simulations.SeedsAgree | tests/unit/cpu_test.cpp:437-470 | two simulators with different orders, whatever they ran before, end in the same state after running the same image for as long |
| Simulations.ExecutionOfHaltingProgram | src/tomasulo/cpu.cpp:483-493 | with its own predictor, any limit of at least 36 (n + 1) cycles and a run that fetches in order, the simulator ends with a halting program's exit code, registers, memory and count if and only if it never answers a load of a mispredicted path with a failure, and at such a load otherwise |
| ReorderBufferClass.ReorderBuffer.Apply | src/tomasulo/reorder_buffer.cpp:112-168 | the next state is the specified one, and the result says whether the issued entry was taken |
| ReorderBufferClass.ReorderBuffer.PlanOutputs | src/tomasulo/reorder_buffer.cpp:82-110 | the head's commit, store permission and flush, from the current state |
| ReorderBufferClass.ReorderBuffer.NextFreeTag | src/tomasulo/reorder_buffer.cpp:55-65 | the tail's slot with the following, wrapping generation, or no tag when full |
| ReorderBufferClass.ReorderBuffer.Find | src/tomasulo/reorder_buffer.cpp:75-80 | finds a live entry exactly when slot and generation match |
| ReorderBufferClass.ReorderBuffer.ClearSpeculative | src/tomasulo/reorder_buffer.cpp:213-219 | empties the slots, keeps the generations |
| ReservationStationClass.ReservationStation.SelectReadyIndex | src/tomasulo/reservation_station.cpp:50-59 | the scan finds the first ready station from the cursor on, round the ring |
| ReservationStationClass.ReservationStation.FindFreeIndex | src/tomasulo/reservation_station.cpp:93-107 | the scan finds the first idle station, or none |
| ReservationStationClass.ReservationStation.WakeAll | src/tomasulo/reservation_station.cpp:75-91 | in place, every waiting operand that names the broadcast gets its value |
| ReservationStationClass.ReservationStation.Apply | src/tomasulo/reservation_station.cpp:128-170 | wakeup, dispatch only when the unit takes it, then issue into a free station; a flush empties all |
| LoadStoreQueueClass.LoadStoreQueue.PlanOutputs | src/tomasulo/load_store_queue.cpp:154-222 | answers match, and requests leave, at the current head only |
| LoadStoreQueueClass.LoadStoreQueue.FormAddresses | src/tomasulo/load_store_queue.cpp:120-130 | in place, every entry whose base has arrived gets its address |
| LoadStoreQueueClass.LoadStoreQueue.RemoveNextHead | src/tomasulo/load_store_queue.cpp:132-139 | drops the oldest entry and advances the head round the ring |
| LoadStoreQueueClass.LoadStoreQueue.Apply | src/tomasulo/load_store_queue.cpp:224-289 | the next state is the specified one, with a finished load entering a buffer that is, or is becoming, free |
| MemoryUnitClass.MemoryUnit.Apply | src/memory/memory_unit.cpp:153-191 | the port advances its one transaction or takes a request, never both, and a store's bytes wait for the latch |
| MemoryUnitClass.MemoryUnit.CompleteTransaction | src/memory/memory_unit.cpp:132-151 | the response and the scheduled write of a finished transaction |
| MemoryUnitClass.MemoryUnit.ReadData | src/memory/memory_unit.cpp:76-115 | the unextended value of any width, or failure out of range |
| MemoryUnitClass.MemoryUnit.Latch | src/memory/memory_unit.cpp:212-224 | the scheduled write, which cannot fail, reaches memory here |
| MemoryUnitClass.MemoryImage.StoreWord | src/memory/image.cpp:188-204 | in place, four bytes change, lowest first, or nothing does when out of range |
| MemoryUnitClass.MemoryImage.StoreHalf | src/memory/image.cpp:176-186 | in place, two bytes change, or nothing does when out of range |
| MemoryUnitClass.MemoryImage.LoadWord | src/memory/image.cpp:155-167 | the little-endian word, or none out of range |
| RenameTableClass.RenameTable.Apply | src/tomasulo/rename_table.cpp:40-64 | flush beats issue, issue beats commit, and a commit clears only its own mapping |
| RegisterFileClass.RegisterFile.Apply | src/tomasulo/register_file.cpp:25-37 | nothing changes before the latch, and a write to x0 or past x31 is dropped |
| RegisterFileClass.RegisterFile.Latch | src/tomasulo/register_file.cpp:39-50 | the pending write takes effect once and x0 stays 0 |
| CommonDataBusClass.CommonDataBus.Plan | src/tomasulo/common_data_bus.cpp:45-78 | two-way arbitration with alternating preference |
| FunctionalUnitClass.FunctionalUnit.Apply | src/tomasulo/functional_unit.cpp:186-217 | the result register after flush, grant and dispatch, and whether the dispatch was taken |
| BranchPredictorClass.BranchPredictor.Apply | src/tomasulo/branch_predictor.cpp:19-46 | the trained saturating counter and the statistics |
| BranchPredictors.TwoOutcomesDecide | src/tomasulo/branch_predictor.cpp:19-46 | two outcomes alike decide the next prediction, whatever was learnt before |
| BranchPredictors.OneSurpriseIsForgiven | src/tomasulo/branch_predictor.cpp:19-46 | after three outcomes alike a single contrary one does not change it |
| ManualArithmetic.RegisterNumber | src/tomasulo/functional_unit.cpp:78-165 | each register-register operation gives the manual's integer result: sums and differences modulo 2^32, comparisons of the numbers or of their signed readings, logic of the bits, shifts by products and quotients |
| ManualArithmetic.ImmediateNumber | src/tomasulo/functional_unit.cpp:78-165 | so does each register-immediate operation |
| ManualArithmetic.BranchNumber | src/tomasulo/functional_unit.cpp:91-114 | and each branch condition |
| Numerals.AndBits | src/tomasulo/functional_unit.cpp:83-86 | bit by bit, AND is the product |
| Numerals.OrBits | src/tomasulo/functional_unit.cpp:129-132 | OR the sum less the product |
| Numerals.XorBits | src/tomasulo/functional_unit.cpp:162-165 | and XOR the difference of the bits |
| Numerals.ShiftLeftBits | src/tomasulo/functional_unit.cpp:133-138 | a left shift moves bit i to i + n, n the low five bits of the amount, and fills with zeros |
| Numerals.ShiftRightBits | src/tomasulo/functional_unit.cpp:153-158 | a right shift moves bit i + n to i and fills with zeros |
| Numerals.AddIsSum | src/tomasulo/functional_unit.cpp:79-82 | addition is the sum modulo 2^32 |
| Numerals.SubtractIsDifference | src/tomasulo/functional_unit.cpp:159-161 | subtraction is the difference modulo 2^32 |
| Numerals.LessIsOrder | src/tomasulo/functional_unit.cpp:139-142 | unsigned comparison is the order of the numbers |
| Numerals.SignedIsTwosComplement | src/tomasulo/functional_unit.cpp:143-146 | the signed reading is the number, less 2^32 from 2^31 on |
| Numerals.ClearLowBitIsEven | src/tomasulo/functional_unit.cpp:122-128 | the mask on JALR's target rounds it down to an even number |
| ManualSteps.HaltNumber | src/tomasulo/cpu.cpp:467-473 | the exit code is x10 modulo 256 |
| ManualSteps.PredictionNumber | src/tomasulo/cpu.cpp:148-168 | a branch predicted taken and a JAL continue at pc plus their offset modulo 2^32, everything else at pc + 4 |
| Datapath.DatapathAgrees | src/tomasulo/functional_unit.cpp:69-184 | for every word, register contents and pc: decode, operand selection and execution of an integer or control instruction are one sequential step |
| Datapath.ExecuteAgrees | src/tomasulo/functional_unit.cpp:69-184 | executing a dispatched instruction with in-order operands gives its in-order result and successor, and reports it taken exactly if it is a jump or a branch the sequential run takes |
| Datapath.ShiftsAgree | src/tomasulo/functional_unit.cpp:53-67 | the shift built from a logical shift and a mask is the arithmetic shift of section 2.4 of the ISA manual |
| ArithmeticShifts.UnitShiftIsFloorDivision | src/tomasulo/functional_unit.cpp:53-67 | SRA is floor division of the signed value by a power of two |
| ArithmeticShifts.HalfIsFloor | src/tomasulo/functional_unit.cpp:53-67 | one position halves the two's complement value, rounding down |
| Decoder.DecodeIsWellFormed | src/isa/decoder.cpp:28-61 | the flags, operand sources and register ranges of a decoded record follow from its operation, for every word |
| InstructionListing.DecodeIsListed | src/isa/decoder.cpp:6-61 | every word is decoded as the operation the manual lists its bits under, and as none if it is not listed; the listing is in numerals |
| ManualFields.ImmediateINumber | src/isa/decoder.cpp:408-411 | the I immediate is the signed upper twelve bits |
| ManualFields.ImmediateSNumber | src/isa/decoder.cpp:413-419 | the S immediate joins its two fields |
| ManualFields.ImmediateBNumber | src/isa/decoder.cpp:421-435 | the B offset joins its four fields, weighed 4096, 2048, 32 and 2 |
| ManualFields.ImmediateUNumber | src/isa/decoder.cpp:437-439 | the U immediate is the word less its low twelve bits |
| ManualFields.ImmediateJNumber | src/isa/decoder.cpp:441-456 | the J offset joins its four fields |
| DecoderInverse.DecodeLosesNothing | src/isa/decoder.cpp:28-61 | every word that decodes to an instruction is recovered exactly by encoding the decoded fields |
| DecoderInverse.DecodeIsInjective | src/isa/decoder.cpp:28-61 | no two words decode to the same instruction |
| EncoderInverse.RoundTripR | tests/unit/decoder_test.cpp:21-35 | encoding then decoding returns every register-register record |
| EncoderInverse.RoundTripOpImmediate | src/isa/decoder.cpp:408-411 | returns every register-immediate record and every signed 12-bit immediate, except that addi x10, x0, 255 is HALT |
| EncoderInverse.RoundTripShift | src/isa/decoder.cpp:143-278 | returns every immediate shift and amount |
| EncoderInverse.RoundTripLoad | src/isa/decoder.cpp:408-411 | returns every load and signed 12-bit offset |
| EncoderInverse.RoundTripJalr | src/isa/decoder.cpp:408-411 | returns every JALR and signed 12-bit offset |
| EncoderInverse.RoundTripS | src/isa/decoder.cpp:413-419 | returns every store and signed 12-bit offset |
| EncoderInverse.RoundTripB | src/isa/decoder.cpp:421-435 | returns every branch and even 13-bit offset |
| EncoderInverse.RoundTripU | src/isa/decoder.cpp:437-439 | returns every LUI and AUIPC and upper immediate |
| EncoderInverse.RoundTripJ | src/isa/decoder.cpp:441-456 | returns every JAL and even 21-bit offset |
| ReadOverWrite.AddressNamesByte | src/memory/image.cpp:137-204 | address p names byte p: an access is in range exactly if its last byte lies below 2^20, byte k of a read is byte p + k of memory, and a store changes the bytes from p on and no others |
| ManualSteps.ReadNumber | src/memory/image.cpp:137-168 | a read of one, two or four bytes gives their little-endian number |
| ManualSteps.WriteNumber | src/memory/image.cpp:170-204 | a store leaves its number's digits to base 256, lowest first, and changes nothing else |
| ManualSteps.ExtendNumber | src/tomasulo/load_store_queue.cpp:98-118 | LB and LH extend the signed reading of what they read, the other loads keep it |
| ManualFields.ZeroExtendNumber | src/tomasulo/load_store_queue.cpp:98-118 | zero extension from n bits is the remainder by 2^n |
| MemoryUnits.UntaggedIsIgnored | src/memory/memory_unit.cpp:176-184 | a free port ignores a request that names no tag |
| MemoryUnits.AnsweredInThree | src/memory/memory_unit.cpp:153-191 | an accepted request keeps the port busy for three cycles and is then answered, for one cycle, whatever is asked meanwhile |
| ReadOverWrite.StoreIsBytewise | src/memory/image.cpp:170-204 | a store changes the bytes it covers to the value's bytes, lowest first, and no others; it fails exactly out of range |
| ReadOverWrite.LoadIsBytewise | src/memory/image.cpp:137-168 | a read yields the bytes from its address on, lowest first, and zeros above its width |
| ReadOverWrite.LoadAfterStore | src/memory/image.cpp:137-204 | a load of any width after a store of any width, overlapping or not, reads the bytewise merge of old and new |
| ReadOverWrite.MergeIsUnique | src/memory/image.cpp:137-204 | and that merge determines the value read |
| ReadOverWrite.DisjointLoad | src/memory/image.cpp:137-204 | a load that overlaps no stored byte reads what it would have read before |
| ReadOverWrite.ReadBack | src/memory/image.cpp:137-204 | loading back at the same address and width gives the stored bytes |
| ReadOverWrite.ExtendIsWidened | src/tomasulo/load_store_queue.cpp:98-118 | LB and LH give the two's complement reading of what they read, the other loads keep it |
| ReadOverWrite.LoadSeesStore | src/memory/memory_unit.cpp:193-210 | through the port and the queue: a completed store is seen, merged and extended, by every later load |
| ReadOverWrite.OutOfRangeStore | src/memory/memory_unit.cpp:117-130 | a store out of range fails and changes nothing |
| Interpreters.StepAgrees | src/reference/interpreter.cpp:50-393 | the interpreter takes the ISA's step if and only if it is not about to misjudge an SLT or SLTU, which it compares with the immediate |
| Interpreters.WritebackAgrees | src/reference/interpreter.cpp:83-224 | its results are the ISA's for every instruction but SLT and SLTU, and what those two give instead |
| InterpreterRuns.InterpreterFollowsIsaIff | src/reference/interpreter.cpp:395-407 | its run is the sequential run, state by state, if and only if it misjudges no comparison |
| InterpreterRuns.ImplementationsAgree | src/reference/interpreter.cpp:395-407 | the two implementations agree on runs that fetch in order: where the interpreter halts, the out-of-order machine halts with the same exit code, registers, memory and count if and only if no load of a mispredicted path is answered with a failure, and stops at such a load otherwise |
| InterpreterRuns.SltDisagrees | src/reference/interpreter.cpp:97-100 | run from every image holding addi x3, x0, 1 and slt x1, x0, x3 (InterpreterRuns.SltExists makes one), the instruction set leaves 1 in x1 after two steps and the interpreter 0 |
| InterpreterClass.Interpreter.Step | src/reference/interpreter.cpp:50-393 | one instruction in place; a failing step changes only the status, HALT also the exit code, and a stopped interpreter does nothing |
| InterpreterClass.Interpreter.Run | src/reference/interpreter.cpp:395-407 | the state after running is that of the run's count of instructions, and the status, fault or halt with its exit code, is what the next step of that state gives |

## Left out

- Theorems.MachineRefinesIsa: assumes that the run fetches in order, because fetch reads memory without waiting for older stores; Theorems.StableCodeIsFetchedInOrder and CodeStability.MissedCodeIsFetchedInOrder give conditions on the program and on the run, and SelfModifying.StaleFetch a program outside them on which refinement fails.
- Halting.HaltingPrograms: a load of a mispredicted path that is out of range stops the machine, because the code reports it when the answer arrives; Halting.HaltsUnlessMisled gives the exact condition and MisledRun.HaltingProgramFails a program that meets it.
- Cpus.Cpu.Run: takes a limit on the number of cycles, as does InterpreterClass.Interpreter.Run on instructions; a program that never halts has no other final state.
- Cpus.Cpu.Load: starts from the bytes parsing leaves in memory and whether it succeeded; the text format of images, streams and loaded-byte statistics are not modelled.
- CyclePhases.GoalOfCycle: the arrays of orders are arbitrary permutations; the random engine and the shuffle that choose them are not modelled.
- BranchPredictorClass.BranchPredictor.Apply: is proved against the counters' transition only; how often predictions are right is not a matter of correctness.
- Cycle, commit and prediction counters are natural numbers, so their wrap-around at 2^64 is not modelled.
- Printing, accuracy as a floating-point ratio, `main` and the build are input and output.
- The generic circular queue of include/common/circular_queue.hpp is used by no module of the pipeline.
- Misaligned accesses, ECALL, EBREAK, FENCE and control registers are not implemented by the simulator.
