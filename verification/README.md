# A verified model of the PLC runtime

This project models four parts of the PLC daemon and proves properties of whole runs of them.

**The Structured Text compiler.** The type checker (`TypeChecker`, `Typing`, `Layout`) and the lowering to the stack
IR (`Lowering`, `Emitter`) are modelled for BOOL, SINT, INT and DINT, arrays with lower bound 0, and the statements
assignment, IF, WHILE, REPEAT, FOR over DINT, CASE, RETURN, EXIT, CONTINUE and the empty statement. `SourceSemantics`
gives programs a big-step meaning over named variables, with a fuel that counts loop iterations; `WasmMachine` runs the
flat code with its structured control, following sections 4.4.1, 4.4.4 and 4.4.5 of the WebAssembly Core
Specification 1.0. `Simulation` relates the two step by step, and `CompilerCorrect` states the results for whole calls
and whole runs of cycles: the compiled code halts if and only if the source does, and memory represents the source
store. EXIT and CONTINUE are compiled to branches; `BranchSemantics` says what these do, and the simulation is for all
supported programs run that way. `Placement` defines, by position in the text, when a branch leads where the source goes
on, and shows that then both meanings are the same; the results on whole programs are for those. `JumpsRight` gives
the condition for all other programs. `Nesting` shows that all emitted code is well nested. `CompilerLimits` shows where
the emitted code is not what the source means: exact conditions for integer unary minus and array lower bounds, and
loops and inputs on which EXIT and CONTINUE go elsewhere.

**The process image.** `Seqlock` models the double buffer as a protocol of atomic steps, with one writer, any number of
readers, and data copied word by word in any order. It is proved to refine an atomic register. `IoImage` is the same
buffer between protocol steps.

**The control loop.** `RuntimeState`, `FaultRecorder`, `Metrics` and `Scheduler` model the cyclic scheduler, of which
`SchedulerLaws` says what it comes to in states, outputs, deadlines and records; `FailureStreak` and `Daemon` model the
daemon's main loop. All are over arbitrary bus results, engine results and times.

**Arithmetic kernels.** `DcSync` is the distributed-clock servo, `ModbusBits` the packing of coils, `ModbusLink` the
reconnection control, `Timers` the timers TON, TOF and TP, `SlaveLayout` the EtherCAT process-image layout.

Objects the program updates in place are classes; their methods are proved to compute functions on values (`Register`,
`Lower`, `Apply`, `CycleRun`, `LoopAfter`, `TonScan` and so on), and the lemmas about whole runs are about these
functions. What the environment decides - results of the logic engine, of exchanges and of connection attempts, times,
shutdown requests - is a parameter.

Facts about the code a reader may not expect:

- Registration rounds offsets with a mask that aligns only sizes that are powers of two; other sizes stay unaligned but
  never overlap. An array with descending bounds takes almost 2^64 bytes, so that in a release build the allocation
  pointer wraps around into the process image (`Layout.LayoutIsSoundIff`, `Layout.DescendingBoundsInput`).
- Integer unary minus yields its operand unchanged (`CompilerLimits.NegationRuns`).
- Array elements are addressed without regard to the lower bound (`CompilerLimits.ElementAddressIsRightIff`).
- EXIT branches to the label numbered by the loops around it, and every conditional around it counts as a label: the k-th
  ELSIF branch as k + 1, the n-th branch with values of a CASE as n (`StatementCorrect.BranchTaken`,
  `CompilerLimits.InsideBranch`). Inside an IF inside a single loop it restarts the loop
  (`CompilerLimits.ExitInIfRightIff`); directly inside two loops it goes to the head of the outer one, which is where it
  should go if the inner loop ends the body of a WHILE (`CompilerLimits.ExitOfInnerInput`).
- CONTINUE branches to the innermost label. Directly in a loop that is its beginning: in FOR it skips the step, in REPEAT
  the UNTIL condition, so both may run forever (`CompilerLimits.ForContinueInput`,
  `CompilerLimits.RepeatContinueRightIff`). Inside an IF it leaves only that IF, which is right if nothing but ends of
  conditionals follows in the body (`CompilerLimits.ContinueEndsForInput`) and may be wrong if something does
  (`CompilerLimits.ContinueInIfInput`).
- A write to the process image starts from the version before the published one (`Seqlock.VersionRecurrence`).
- TP resets ET when the pulse ends, also while IN is TRUE (`Timers.TpElapsedIsStandardIff`).
- Output coils beyond the 32nd repeat the word (`ModbusBits.OutputsAreBitsIff`).
- Only a `fault` that is recorded freezes the recorder; faults entered from outside, such as bus failures, are not
  recorded.

## Model

| member | source | states |
|---|---|---|
| Typing.CheckExprExact | crates/plc-compiler/src/typechecker.rs:703-945 | The checker returns a typed expression exactly if that tree obeys the typing rules (names resolved, operand and result types, literal widths) and, types forgotten, is the given expression without parentheses. |
| Typing.CheckStatementExact | crates/plc-compiler/src/typechecker.rs:535-701 | The same for statements of every kind, with IF/ELSIF/ELSE, CASE labels and loops: the checker returns exactly the typing of the text, and fails if there is none. |
| Typing.CheckAllExact | crates/plc-compiler/src/typechecker.rs:522-533 | The same for statement lists. |
| Typing.CheckElsifsExact | crates/plc-compiler/src/typechecker.rs:583-612 | The same for lists of ELSIF branches: every condition BOOL, every body typed. |
| Typing.CheckBranchesExact | crates/plc-compiler/src/typechecker.rs:660-701 | The same for CASE branches. |
| Typing.CheckValuesExact | crates/plc-compiler/src/typechecker.rs:660-701 | CASE labels are accepted exactly if each is a single integer literal; ranges are refused. |
| Typing.AssignmentChecksIff | crates/plc-compiler/src/typechecker.rs:916-925 | Two expressions that check make an assignment that checks exactly if their types are equal or both in SINT, INT, DINT, LINT. |
| Typing.LiteralIsNarrowest | crates/plc-compiler/src/typechecker.rs:781-805 | An integer literal gets the narrowest of SINT, INT, DINT and LINT that holds its value. |
| Typing.BinaryTypes | crates/plc-compiler/src/typechecker.rs:861-914 | Comparisons give BOOL; logical operators check exactly if both operands are BOOL; arithmetic gives the narrowest of INT, DINT and LINT not narrower than a numeric operand. |
| Layout.RegisterIsSound | crates/plc-compiler/src/typechecker.rs:489-520 | Registering a variable of at least one byte keeps the layout sound as long as the pointer stays below 2^64: entries in increasing order without overlap, above 0x100, machine sizes aligned, every symbol one of the entries. |
| Layout.EntryIsTight | crates/plc-compiler/src/typechecker.rs:489-520 | A variable takes the first free offset of its alignment, min(size, 8); the pointer then stands directly behind it, and the symbol table has the new entry under its name. |
| Layout.LayoutIsSoundIff | crates/plc-compiler/src/typechecker.rs:349-520 | With the wrap-around of usize: the layout of any list of declarations is sound, with all bytes of each, exactly if each has at least one byte and together they end below 2^64. |
| Layout.DescendingBoundsInput | crates/plc-compiler/src/typechecker.rs:489-520 | ARRAY[2..0] OF BOOL takes 2^64 - 1 bytes, so the variable declared after it lies in the process image. |
| Layout.DistinctVariablesAreDisjoint | crates/plc-compiler/src/typechecker.rs:489-520 | Two different variables occupy disjoint intervals above the process image. |
| Layout.ClearLowBits | crates/plc-compiler/src/typechecker.rs:497-499 | Masking with the complement of 2^k - 1 aligns to 2^k (k up to 3), the alignments registration uses. |
| Layout.CheckedProgram | crates/plc-compiler/src/typechecker.rs:413-430 | A program that passes the checker has a well-typed body that is the typing of its text, and a sound layout exactly if its variables fit. |
| Layout.Checker.RegisterVariable | crates/plc-compiler/src/typechecker.rs:489-520 | The method's updates of the allocation pointer, the layout and the symbol table, wrap-around included, are `Register`, about which soundness is proved. |
| Layout.Checker.RegisterVarBlock | crates/plc-compiler/src/typechecker.rs:482-487 | A block registers its declarations one after the other. |
| Layout.Checker.Check | crates/plc-compiler/src/typechecker.rs:413-430 | Checking a program registers all blocks, then checks the body against the final symbol table. |
| Words.TruncDivRem | crates/plc-compiler/src/ir.rs:911-928 | Division and MOD truncate: quotient and remainder recompose the dividend, the remainder is smaller than the divisor and has the dividend's sign. |
| ExprCorrect.ExprRuns | crates/plc-compiler/src/ir.rs:703-783 | Code of a supported, well-typed expression, run on any operand stack over memory that represents the source store, pushes exactly the source value and changes nothing else, or traps exactly if the source evaluation does. |
| ExprCorrect.ElementRuns | crates/plc-compiler/src/ir.rs:709-719 | Address code of an array element pushes the element's address, in 32-bit arithmetic, for every index in range. |
| ExprCorrect.ElementCode | crates/plc-compiler/src/ir.rs:784-803 | Address code of an element computes base plus index times size in 32-bit arithmetic, whatever the lower bound. |
| ExprCorrect.TargetRuns | crates/plc-compiler/src/ir.rs:784-807 | Address code of an assignment target pushes the address of the denoted cell, or traps with its index. |
| ExprCorrect.BoolValues | crates/plc-compiler/src/typechecker.rs:861-934 | Every BOOL expression has value 0 or 1, given that BOOL cells hold 0 or 1. |
| ExprCorrect.NumericAgrees | crates/plc-compiler/src/ir.rs:864-983 | The instruction chosen for an operator computes the operator on 32-bit operands, traps included. |
| ExprCorrect.StoreCell | crates/plc-compiler/src/ir.rs:836-862 | Storing an admissible value at a cell's address updates exactly that cell of the represented store and leaves the process image alone. |
| Simulation.StatementRuns | crates/plc-compiler/src/ir.rs:406-701 | The simulation, for every supported statement, wherever EXIT and CONTINUE stand: the emitted code ends, returns, traps, branches or keeps running as the statement run by branches does, with the represented store, the operand stack, the labels and the process image as they must be. |
| Simulation.AllRun | crates/plc-compiler/src/ir.rs:353-355 | The same for statement lists. |
| Simulation.IfRuns | crates/plc-compiler/src/ir.rs:483-525 | The same for IF with any number of ELSIF branches: the flat chain of If, Else and End selects the first branch whose condition holds. |
| Simulation.WhileRuns | crates/plc-compiler/src/ir.rs:588-611 | The same for WHILE, iteration by iteration. |
| Simulation.RepeatRuns | crates/plc-compiler/src/ir.rs:613-635 | The same for REPEAT, with the condition skipped by a branch to the head. |
| Simulation.ForRuns | crates/plc-compiler/src/ir.rs:527-586 | The same for FOR over a DINT variable, with bound and step evaluated anew in every iteration, and the step skipped by a branch to the head. |
| Simulation.CaseRuns | crates/plc-compiler/src/ir.rs:637-701 | The same for CASE: the selector is evaluated once, the first branch listing it runs, branches without values are skipped. |
| Simulation.AssignmentRuns | crates/plc-compiler/src/ir.rs:408-415 | The same for assignments, with narrowing to the target's width. |
| Simulation.LoopLeft | crates/plc-compiler/src/ir.rs:448-455 | A branch out of a loop body to the label behind the loop, or further out, leaves exactly the labels in between. |
| StatementCorrect.TestsRun | crates/plc-compiler/src/ir.rs:656-670 | The tests of a CASE branch compute whether the selector is one of the listed values. |
| StatementCorrect.BranchTaken | crates/plc-compiler/src/ir.rs:448-455 | The branch of an EXIT or CONTINUE goes exactly to its label: execution continues there, with the labels outside it and the operand stack as it was. |
| BranchSemantics.BranchesStayInside | crates/plc-compiler/src/ir.rs:448-455 | No branch goes past more labels than there are loops around it, so that none leaves the function from within a loop. |
| Placement.PlacedGoesSameWay | crates/plc-compiler/src/ir.rs:406-701 | If every EXIT and CONTINUE of a statement branches to a label that leads where the source goes on - also behind nothing but the ends of conditionals and loop bodies - then the statement run by branches goes the way of the source, step for step and with the same stores. |
| Placement.AllPlacedGoSameWay | crates/plc-compiler/src/ir.rs:353-355 | The same for statement lists. |
| CompilerCorrect.CodeAgrees | crates/plc-compiler/src/ir.rs:347-366 | For any supported body, wherever EXIT and CONTINUE stand: if it ends, run by branches, the compiled step function halts with that result, process image untouched; while it keeps running, so does the machine. |
| CompilerCorrect.CodeReflects | crates/plc-compiler/src/ir.rs:347-366 | If the compiled step function halts, the body run by branches ends, with the result the machine shows. |
| CompilerCorrect.CompiledAgrees | crates/plc-compiler/src/ir.rs:347-366 | With well-placed jumps: if the source body ends within some fuel, the compiled step function halts with memory representing the same store (or traps), process image untouched; while the source keeps running, so does the machine, for at least as many steps. |
| CompilerCorrect.HaltingReflects | crates/plc-compiler/src/ir.rs:347-366 | If the compiled step function halts, the source body ends, with the result the machine shows. |
| CompilerCorrect.HaltsAlike | crates/plc-compiler/src/ir.rs:347-366 | The compiled step function halts if and only if the source body ends, from every store from which no index gets out of range. |
| CompilerCorrect.ScalarProgramsAreMeaningful | crates/plc-compiler/src/ir.rs:406-701 | Supported bodies over scalar variables never leave the modelled language, from no store and in no run, so the theorems apply to them without a side condition. |
| CompilerCorrect.ProcessImageIsSeparate | crates/plc-compiler/src/typechecker.rs:349-350 | Whatever the runtime writes to the bytes below 0x100 does not disturb the variables. |
| CompilerCorrect.RunsReflect | crates/plc-compiler/src/ir.rs:347-366 | However often the step function is called, and whatever is written to the process image in between, memory keeps representing a run of the source program, if no index gets out of range in the source runs from that store. |
| CompilerCorrect.ZeroPageRepresents | crates/plc-compiler/src/typechecker.rs:489-520 | Zeroed memory represents the store in which every variable is zero. |
| CompilerCorrect.CheckedProgramRuns | crates/plc-compiler/src/ir.rs:347-366 | For a program the checker accepts, whose variables fit the page, whose statements are supported and whose jumps are well placed: from a fresh instance every run of cycles is a run of the program, if no index gets out of range in the source runs from zero. |
| Nesting.LoweredIsWellNested | crates/plc-compiler/src/ir.rs:406-701 | The code of every statement, EXIT and CONTINUE included, is well nested: brackets match, an If has at most one Else, and every branch names an existing label, provided two labels are open per surrounding loop. |
| Nesting.AllAreWellNested | crates/plc-compiler/src/ir.rs:353-355 | The same for statement lists. |
| Nesting.WellNestedPrefix | crates/plc-compiler/src/ir.rs:406-701 | No prefix of well-nested code closes a bracket it did not open. |
| CompilerCorrect.StepCodeIsWellNested | crates/plc-compiler/src/ir.rs:347-366 | The body of the step function is well nested from no labels. |
| CompilerLimits.NegationRuns | crates/plc-compiler/src/ir.rs:996-1001 | Integer unary minus lowers to subtracting zero, so its code yields the operand. |
| CompilerLimits.NegationIsRightIff | crates/plc-compiler/src/ir.rs:996-1001 | It is the negated value exactly for 0 and the least 32-bit number. |
| CompilerLimits.ElementAddressIsRightIff | crates/plc-compiler/src/ir.rs:709-719 | For an index within any bounds the emitted code yields the element's address exactly if lower bound times element size is a multiple of 2^32: always for lower bound 0, never for 1. |
| JumpsRight.RightIff | crates/plc-compiler/src/ir.rs:347-366 | For any supported body and store, wherever EXIT and CONTINUE stand: the code does what the source means if and only if the body run by branches ends as it ends by its meaning, or neither ends. |
| JumpsRight.PlacedIsRight | crates/plc-compiler/src/ir.rs:347-366 | It does for every store if they are well placed. |
| CompilerLimits.InsideBranch | crates/plc-compiler/src/ir.rs:483-525 | The THEN branch of an IF runs inside one label, its k-th ELSIF branch inside k + 1: a branch from there to one of these only ends the IF. |
| CompilerLimits.InsideElse | crates/plc-compiler/src/ir.rs:483-525 | The ELSE branch runs inside one label and one more for each ELSIF. |
| CompilerLimits.InsideCaseBranch | crates/plc-compiler/src/ir.rs:637-701 | The n-th branch with values of a CASE runs inside n labels. |
| CompilerLimits.InsideCaseElse | crates/plc-compiler/src/ir.rs:637-701 | The ELSE branch of a CASE runs inside as many labels as there are branches with values. |
| CompilerLimits.RepeatContinueRightIff | crates/plc-compiler/src/ir.rs:613-635 | The code of a REPEAT whose body is CONTINUE does what the source means exactly if its condition is false: it never ends. |
| CompilerLimits.RepeatContinueRunsForever | crates/plc-compiler/src/ir.rs:613-635 | Wherever such a REPEAT stands, its code never ends, whatever the condition. |
| CompilerLimits.ForContinueRunsForever | crates/plc-compiler/src/ir.rs:527-586 | Wherever a FOR whose body is CONTINUE stands, its code never ends unless it has no iteration. |
| CompilerLimits.ExitInIfRightIff | crates/plc-compiler/src/ir.rs:448-451 | The code of WHILE c DO IF d THEN EXIT does what the source means exactly if the EXIT is not reached; otherwise it never ends. |
| CompilerLimits.RepeatContinueInput | crates/plc-compiler/src/ir.rs:613-635 | REPEAT CONTINUE; UNTIL TRUE ends in the source after one iteration; its code runs forever. |
| CompilerLimits.ForContinueInput | crates/plc-compiler/src/ir.rs:527-586 | FOR i := 0 TO 3 DO CONTINUE ends in the source with i = 4; its code runs forever. |
| CompilerLimits.ExitInIfInput | crates/plc-compiler/src/ir.rs:448-451 | WHILE TRUE DO IF TRUE THEN EXIT ends in the source; its code runs forever. |
| CompilerLimits.ContinueInIfInput | crates/plc-compiler/src/ir.rs:452-455 | A WHILE TRUE with CONTINUE inside an IF and RETURN behind the IF runs forever in the source; its code returns. |
| CompilerLimits.ContinueEndsRepeatInput | crates/plc-compiler/src/ir.rs:613-635 | REPEAT IF TRUE THEN CONTINUE; END_IF; UNTIL TRUE is well placed: source and code end after one iteration with the same memory. |
| CompilerLimits.ExitOfInnerInput | crates/plc-compiler/src/ir.rs:448-451 | WHILE TRUE DO WHILE TRUE DO EXIT is well placed: the EXIT branches to the head of the outer loop, and source and code run forever. |
| CompilerLimits.ContinueEndsForInput | crates/plc-compiler/src/ir.rs:527-586 | FOR i := 0 TO 3 DO IF TRUE THEN CONTINUE; END_IF is well placed: source and code count to four. |
| Emitter.IrLowerer.LowerStatement | crates/plc-compiler/src/ir.rs:406-481 | Lowering appends exactly the statement's code to the body, restores the loop depth, and allocates exactly its temporaries, numbered consecutively. |
| Emitter.IrLowerer.LowerIf | crates/plc-compiler/src/ir.rs:483-525 | The loop over ELSIF branches followed by the run of End markers emits the nested conditional. |
| Emitter.IrLowerer.LowerFor | crates/plc-compiler/src/ir.rs:527-586 | The code of FOR, with the depth raised around the body. |
| Emitter.IrLowerer.LowerWhile | crates/plc-compiler/src/ir.rs:588-611 | The code of WHILE. |
| Emitter.IrLowerer.LowerRepeat | crates/plc-compiler/src/ir.rs:613-635 | The code of REPEAT. |
| Emitter.IrLowerer.LowerCase | crates/plc-compiler/src/ir.rs:637-701 | The loop over the branches that list values, with its Else and End markers, emits the nested chain. |
| Emitter.IrLowerer.LowerExpr | crates/plc-compiler/src/ir.rs:703-757 | The code of an expression. |
| Emitter.IrLowerer.PushAddress | crates/plc-compiler/src/ir.rs:784-807 | The address code of a target or array. |
| Emitter.IrLowerer.AllocTempLocal | crates/plc-compiler/src/ir.rs:322-329 | A temporary gets the next index. |
| Emitter.IrLowerer.LowerProgram | crates/plc-compiler/src/ir.rs:347-366 | The step function holds the code of the body and as many locals as it uses temporaries. |
| Emitter.ListedLowersAlike | crates/plc-compiler/src/ir.rs:650-654 | Filtering out branches without values first does not change the emitted code. |
| Seqlock.ReadsAreSnapshots | crates/plc-runtime/src/io_image.rs:162-232 | In every interleaving a returned snapshot is one published version, seq1/2, published before the read returned and not before it began: no read is torn. |
| Seqlock.LaterReadsSeeNoOlderVersion | crates/plc-runtime/src/io_image.rs:162-232 | A read that began after another had returned never sees an older version. |
| Seqlock.VersionsNeverGoBack | crates/plc-runtime/src/io_image.rs:162-232 | The versions one reader sees never go backwards. |
| Seqlock.RefinesAtomicRegister | crates/plc-runtime/src/io_image.rs:162-232 | Every interleaving is a history of an atomic register: a write takes effect at its second increment, a read at its successful check, and every read sees the latest write. |
| Seqlock.HistoryIsComplete | crates/plc-runtime/src/io_image.rs:162-232 | That history consists of exactly the returned reads, in order, and the published versions. |
| Seqlock.VersionRecurrence | crates/plc-runtime/src/io_image.rs:200-232 | Version k+1 is the stores of its write over version k-1, not k. |
| Seqlock.PublishedWords | crates/plc-runtime/src/io_image.rs:200-232 | A published word is the one last stored by its write, or comes from the version before the current one. |
| Seqlock.WriterStepKeepsInv | crates/plc-runtime/src/io_image.rs:200-232 | Every writer step keeps the protocol invariant. |
| Seqlock.ReaderStepKeepsInv | crates/plc-runtime/src/io_image.rs:162-189 | Every reader step keeps the protocol invariant. |
| Seqlock.UndisturbedWrite | crates/plc-runtime/src/io_image.rs:225-232 | A write taken by itself changes the spare buffer, publishes it, and leaves the formerly published one spare. |
| Seqlock.UndisturbedRead | crates/plc-runtime/src/io_image.rs:162-189 | A read during which the writer rests returns at its first attempt with the published buffer. |
| IoImage.SeqlockBuffer.Read | crates/plc-runtime/src/io_image.rs:162-189 | With no write in progress a read returns the published buffer. |
| IoImage.SeqlockBuffer.Write | crates/plc-runtime/src/io_image.rs:200-232 | A write applies its closure to the spare buffer, swaps, and adds two to the sequence number. |
| IoImage.SeqlockBuffer.Commit | crates/plc-runtime/src/io_image.rs:215-223 | Commit swaps the buffers and makes the sequence number even. |
| FaultRecorder.FaultRecorder.RecordCycle | crates/plc-runtime/src/fault_recorder.rs:229-247 | Appends one frame to the log unless frozen, and returns its slot. |
| FaultRecorder.FaultRecorder.SetSnapshots | crates/plc-runtime/src/fault_recorder.rs:128-151 | Filling in the returned frame changes the last logged frame only. |
| FaultRecorder.FaultRecorder.RecordFault | crates/plc-runtime/src/fault_recorder.rs:255-276 | Appends the fault frame and freezes; changes nothing if already frozen. |
| FaultRecorder.FaultRecorder.RecordFaultWithIo | crates/plc-runtime/src/fault_recorder.rs:282-306 | The same with snapshots. |
| FaultRecorder.FaultRecorder.Freeze | crates/plc-runtime/src/fault_recorder.rs:312-314 | Freezes without recording. |
| FaultRecorder.FaultRecorder.FramesChronological | crates/plc-runtime/src/fault_recorder.rs:325-341 | The last min(n, capacity) logged frames in order. |
| FaultRecorder.FaultRecorder.RecentFrames | crates/plc-runtime/src/fault_recorder.rs:345-360 | Their suffix of the requested length, reversed. |
| FaultRecorder.FaultRecorder.FaultFrameOf | crates/plc-runtime/src/fault_recorder.rs:318-320 | The recorded fault's frame is the last logged frame. |
| FaultRecorder.FaultRecorder.Reset | crates/plc-runtime/src/fault_recorder.rs:363-373 | Empties the log and unfreezes. |
| Rings.PushHolds | crates/plc-runtime/src/fault_recorder.rs:236-244 | Overwriting the slot at the write position keeps the ring holding the end of the log. |
| Rings.Chronological | crates/plc-runtime/src/fault_recorder.rs:325-341 | The slots from the oldest on are the end of the log in order. |
| Rings.Backwards | crates/plc-runtime/src/fault_recorder.rs:345-360 | The slots before the write position, backwards, are the end of the log reversed. |
| Metrics.CycleMetrics.Record | crates/plc-common/src/metrics.rs:57-93 | Recording appends to the log of durations; ring, total, extremes, wrapping sum and overrun count describe the log. |
| Metrics.CycleMetrics.WindowIsLatest | crates/plc-common/src/metrics.rs:57-93 | The live samples are, as a multiset, the last min(n, size) durations. |
| Metrics.CycleMetrics.Percentile | crates/plc-common/src/metrics.rs:145-166 | A percentile in range is `PercentileOf` the window; none without samples or out of range. |
| Metrics.PercentileIsOrderStatistic | crates/plc-common/src/metrics.rs:145-166 | It is a sample with at most Rank samples below it and more than Rank not above it. |
| Metrics.PercentilesAreMonotone | crates/plc-common/src/metrics.rs:145-191 | Percentiles are monotone, from the least sample at 0 to the greatest at 100. |
| Metrics.Rank | crates/plc-common/src/metrics.rs:145-166 | The position of a percentile is p / 100 * (n - 1) rounded to the nearest integer, halves upwards. |
| Metrics.OverrunsAreCounted | crates/plc-common/src/metrics.rs:57-93 | The overruns counted are the recorded durations above the deadline. |
| Metrics.CycleMetrics.Mean | crates/plc-common/src/metrics.rs:123-129 | As long as the sum has not wrapped the mean times the count is the sum, rounded down. |
| RuntimeState.StateMachine.Transition | crates/plc-common/src/state.rs:144-157 | A transition happens exactly to a successor in the life cycle - forward, to FAULT, to SAFE_STOP, from FAULT back to INIT, from SAFE_STOP to BOOT - and is then recorded and counted. |
| RuntimeState.StateMachine.EnterFault | crates/plc-common/src/state.rs:160-166 | FAULT from every state but SAFE_STOP, which stays. |
| Scheduler.SafeOutputsHold | crates/plc-runtime/src/scheduler.rs:222-491 | From any entry to FAULT or SAFE_STOP the published outputs are the policy's value for the last logic outputs, until the logic has run again, across further faults, stops and a whole new start-up. |
| Scheduler.PublishedOutputs | crates/plc-runtime/src/scheduler.rs:222-491 | In every run the published outputs are those of the last successful run of the logic, or, if the outputs were made safe since, the value the policy derives from them. |
| Scheduler.DeadlinesDoNotDrift | crates/plc-runtime/src/scheduler.rs:208-376 | After any number of successful cycles, however long each took, the deadline is that many periods later. |
| Scheduler.SafeStopIsFinal | crates/plc-runtime/src/scheduler.rs:158-491 | No operation of the scheduler leaves SAFE_STOP. |
| Scheduler.FirstFaultIsKept | crates/plc-runtime/src/scheduler.rs:231-330 | After the first recorded fault the record never changes. |
| Scheduler.RecordedCyclesInOrder | crates/plc-runtime/src/scheduler.rs:231-330 | Recorded cycle numbers never decrease, do not exceed the cycle count, and only the last frame can be a fault, exactly if the recorder is frozen by one. |
| SchedulerLaws.HaltedOutputsAreSafe | crates/plc-runtime/src/scheduler.rs:222-491 | In every run, from FAULT or SAFE_STOP until the logic has run again, the outputs are safe in the sense of the policy: all zero; those of the last successful run of the logic; or the given values, missing ones zero and surplus ones dropped. |
| SchedulerLaws.StatesOfRuns | crates/plc-runtime/src/scheduler.rs:158-448 | The state after any run as a function of the calls: FAULT exactly after a failing cycle or an external fault, RUN only through initialisation and start, SAFE_STOP by stopping from RUN, and for good. |
| SchedulerLaws.StartsUp | crates/plc-runtime/src/scheduler.rs:158-213 | From BOOT, and again from FAULT, initialisation and start lead to RUN with the first deadline one period after the start. |
| SchedulerLaws.CycleState | crates/plc-runtime/src/scheduler.rs:222-388 | A cycle in RUN ends in FAULT exactly if the watchdog has triggered, the logic fails, or the policy is FAULT and the execution exceeds the period by more than the tolerance; otherwise it stays in RUN and the deadline moves by one period. |
| SchedulerLaws.CycleOutputs | crates/plc-runtime/src/scheduler.rs:277-287 | It publishes the outputs of the logic, or safe outputs if it fails, with respect to the last ones the logic computed. |
| SchedulerLaws.CycleRecord | crates/plc-runtime/src/scheduler.rs:231-330 | Unless frozen, the recorder gets the frame of the cycle with the inputs read and the outputs computed, if the logic ran, and the frame of the failure with its reason, which freezes it. |
| SchedulerLaws.InputsAreLastWritten | crates/plc-runtime/src/scheduler.rs:242-250 | What the logic reads are the inputs written last, zeros before. |
| Scheduler.Scheduler.constructor | crates/plc-runtime/src/scheduler.rs:104-123 | A new scheduler is in BOOT with zero outputs and empty records. |
| Scheduler.Scheduler.Initialize | crates/plc-runtime/src/scheduler.rs:158-176 | BOOT or FAULT to INIT, then to PRE_OP if the engine initialises; otherwise it stays in INIT. |
| Scheduler.Scheduler.Start | crates/plc-runtime/src/scheduler.rs:179-213 | PRE_OP to RUN with the first deadline one period ahead, unless the watchdog fails to start. |
| Scheduler.Scheduler.RunCycle | crates/plc-runtime/src/scheduler.rs:222-388 | Computes `CycleRun`, about which the cycle laws are proved, and reports success exactly for a cycle in RUN that does not fail. |
| Scheduler.Scheduler.Stop | crates/plc-runtime/src/scheduler.rs:410-428 | RUN to SAFE_STOP; safe outputs in any state. |
| Scheduler.Scheduler.EnterFault | crates/plc-runtime/src/scheduler.rs:432-448 | FAULT if allowed; safe outputs in any state. |
| Scheduler.Scheduler.SetSafeOutputs | crates/plc-runtime/src/scheduler.rs:451-491 | Publishes outputs that are safe in the sense of the policy: all zero, the last ones, or the user-defined values cut off and zero-padded. |
| FailureStreak.CountersMean | crates/plc-daemon/src/main.rs:1135-1273 | Over any sequence of results: the counter is the number of failures since the last max(1, grace) successes in a row, a streak goes on exactly while it is positive, and the remaining count completes the needed successes. |
| FailureStreak.RecoversExactlyWhen | crates/plc-daemon/src/main.rs:1246-1262 | A streak ends exactly with the last of the needed successes in a row. |
| FailureStreak.CountExtends | crates/plc-daemon/src/main.rs:1208-1262 | How one more result changes the count of failures since the last recovery. |
| Daemon.FailureHysteresis | crates/plc-daemon/src/main.rs:1135-1275 | While the loop goes on, the failure counter is that count and below the limit. |
| Daemon.BusFaultExactlyAtLimit | crates/plc-daemon/src/main.rs:1225-1244 | The bus-failure fault is entered exactly at the failure that makes the count reach a limit other than zero. |
| Daemon.ZerosThroughoutStreak | crates/plc-daemon/src/main.rs:1183-1273 | What each iteration sends and stages: zeros throughout a streak, logic outputs again only at the last success needed to recover. |
| Daemon.EndsSafely | crates/plc-daemon/src/main.rs:1150-1358 | However the loop ends, the runtime ends in FAULT (exactly after a fault) or SAFE_STOP with the policy's outputs published. |
| Daemon.IterationEnds | crates/plc-daemon/src/main.rs:1150-1325 | How every iteration ends the loop or not: shutdown before anything is sent, working-counter threshold, failure limit, failing cycle, and the last of a limited number of cycles; the cycle runs on the inputs just read. |
| Daemon.RunSchedulerLoop | crates/plc-daemon/src/main.rs:1132-1358 | The loop over the environment's iterations computes `LoopAfter`, about which the above is proved, and stops the scheduler at its end. |
| Daemon.ExchangePhase | crates/plc-daemon/src/main.rs:1183-1275 | Its part that stages, exchanges and counts failures. |
| Daemon.CyclePhase | crates/plc-daemon/src/main.rs:1277-1318 | Its part that writes inputs, runs the cycle and counts cycles. |
| DcSync.ServoSettles | crates/plc-fieldbus/src/dc_sync.rs:187-234 | If the measured clock gains r ns per update, and the first drift and the measurements are bounded so that no drift between the first and the final one clamps or overflows, the reported drift settles at the nearest value of [16 r, 16 r + 15] and stays there. |
| DcSync.DriftsFollowRecurrence | crates/plc-fieldbus/src/dc_sync.rs:187-234 | Then the reported drifts follow d' = d - (d >> 4) + r. |
| DcSync.StaysInRange | crates/plc-fieldbus/src/dc_sync.rs:187-234 | Then no update clamps or overflows, although the condition says nothing of the servo's own corrections. |
| DcSync.OneUpdate | crates/plc-fieldbus/src/dc_sync.rs:219-222 | One update moves a drift outside the band towards it without overshoot, by at least one and by at least a sixteenth of its distance; a drift in the band stays. |
| DcSync.ExpectedIsNearest | crates/plc-fieldbus/src/dc_sync.rs:187-208 | The expected time is the representable one nearest to reference, elapsed time and correction together. |
| DcSync.DriftIsDifference | crates/plc-fieldbus/src/dc_sync.rs:213-216 | For all values the drift is measured minus expected time up to multiples of 2^64. |
| DcSync.GeometricApproach | crates/plc-fieldbus/src/dc_sync.rs:219-222 | After n updates the distance has shrunk at least by (15/16)^n, monotonically and on the same side. |
| DcSync.Converges | crates/plc-fieldbus/src/dc_sync.rs:219-222 | The drift settles within as many updates as its distance. |
| DcSync.DcSystemTime.Update | crates/plc-fieldbus/src/dc_sync.rs:213-234 | The returned drift and the new correction, for any measurement. |
| DcSync.DcSystemTime.Track | crates/plc-fieldbus/src/dc_sync.rs:213-234 | The correction after a series of measurements is `CorrectionAfter`. |
| ModbusBits.CoilRoundTrip | crates/plc-fieldbus/src/modbus.rs:526-863 | Unpacking a word to q coils, packing to bytes, unpacking and repacking gives the word modulo 2^q, the whole word from 32 coils on, with zero padding bits. |
| ModbusBits.PackCoils | crates/plc-fieldbus/src/modbus.rs:715-725 | The loop that sets bits in bytes computes `Packed`. |
| ModbusBits.PackedBits | crates/plc-fieldbus/src/modbus.rs:715-725 | Coil 8 k + j is bit j of byte k; all other bits are zero. |
| ModbusBits.UnpackCoils | crates/plc-fieldbus/src/modbus.rs:526-533 | Coil i is bit i mod 8 of byte i / 8. |
| ModbusBits.UnpackOutputs | crates/plc-fieldbus/src/modbus.rs:854-863 | Output i is bit i mod 32 of the word, for any quantity. |
| ModbusBits.OutputsAreBitsIff | crates/plc-fieldbus/src/modbus.rs:854-863 | The outputs are the bits of the word exactly for quantities up to 32, or if the low bits that repeat beyond are zero. |
| ModbusBits.PackInputs | crates/plc-fieldbus/src/modbus.rs:824-838 | The first 32 coils become the bits of the input word. |
| ModbusBits.CoilsPduReadBackIff | crates/plc-fieldbus/src/modbus.rs:703-733 | A device reads back address and values of the request exactly if there are at most 2040 coils, the most whose byte count fits one byte. |
| ModbusLink.AttemptsAreLimited | crates/plc-fieldbus/src/modbus.rs:316-355 | At every moment of every run, whatever the clock does, at most the allowed number of reconnections was tried since the last successful connection, and the counter is that number. |
| ModbusLink.AttemptsAreDelayed | crates/plc-fieldbus/src/modbus.rs:316-355 | A reconnection after a failed one in the same outage comes at least the delay later. |
| ModbusLink.ExchangeReconnects | crates/plc-fieldbus/src/modbus.rs:316-355 | An exchange without a connection makes an attempt exactly if the limit is not reached and nothing is scheduled for later; what it leaves behind on success and failure; at the limit it gives up. |
| ModbusLink.ExchangeKeepsConnection | crates/plc-fieldbus/src/modbus.rs:902-940 | With a connection an exchange makes no attempt and loses the connection exactly if the traffic does. |
| ModbusLink.RetriesUntilLimit | crates/plc-fieldbus/src/modbus.rs:316-355 | From the loss of a connection on, exchanges at least the delay apart make one attempt each up to the limit, and the next one ends in FAILED. |
| ModbusLink.FailedUntilInit | crates/plc-fieldbus/src/modbus.rs:316-355 | From FAILED on nothing but init makes the driver connect again; without a shutdown it stays FAILED. |
| ModbusLink.ModbusTcpDriver.TryReconnect | crates/plc-fieldbus/src/modbus.rs:316-355 | Gives up at the limit, waits for the scheduled time, or tries once and schedules the next attempt; connected exactly if an attempt is due and succeeds. |
| ModbusLink.ModbusTcpDriver.Connect | crates/plc-fieldbus/src/modbus.rs:283-309 | Success resets attempts and schedule; failure changes neither. |
| ModbusLink.ModbusTcpDriver.Exchange | crates/plc-fieldbus/src/modbus.rs:902-940 | Reconnects if necessary; loss of the connection during requests disconnects. |
| Timers.TonClosedForm | crates/plc-stdlib/src/timers.rs:100-120 | TON: ET is the time the input has been TRUE, capped at PT; Q exactly if the input is TRUE and has been for PT. |
| Timers.TofClosedForm | crates/plc-stdlib/src/timers.rs:231-257 | TOF: Q while the input is TRUE and for PT after; FALSE before the first TRUE input. |
| Timers.TofIsDualOfTon | crates/plc-stdlib/src/timers.rs:100-257 | TOF is the inverted TON of the inverted input, with equal ET, exactly once the input has been TRUE or if PT is zero. |
| Timers.TpClosedForm | crates/plc-stdlib/src/timers.rs:367-391 | TP over whole traces: Q exactly while a pulse runs - one started by a rising edge at which every earlier pulse had ended, less than PT ago - and ET is the time since its start. |
| Timers.TpElapsedIsStandardIff | crates/plc-stdlib/src/timers.rs:367-391 | TP agrees with IEC 61131-3 in Q, and in ET exactly while a pulse runs or IN is FALSE or if PT is zero: the code resets ET with the end of the pulse, the standard holds it at PT until IN is FALSE. |
| Timers.Ton.Call | crates/plc-stdlib/src/timers.rs:100-120 | A scan of TON. |
| Timers.Tof.Call | crates/plc-stdlib/src/timers.rs:231-257 | A scan of TOF. |
| Timers.Tp.Call | crates/plc-stdlib/src/timers.rs:367-391 | A scan of TP. |
| SlaveLayout.BytesArePartitioned | crates/plc-fieldbus/src/slave_config.rs:440-462 | A byte of the image belongs to a slave exactly if it is below the total, and then to exactly one. |
| SlaveLayout.PdosFit | crates/plc-fieldbus/src/slave_config.rs:171-263 | Every PDO has its own run of bytes in the slave's interval, input PDOs in the input image and output PDOs in the output image, with room for all its bits and less than a byte to spare; the runs fill the interval. |
| SlaveLayout.EntryBits | crates/plc-fieldbus/src/slave_config.rs:162-168 | Every entry of a PDO has its own bits within the PDO. |
| SlaveLayout.NoPdosNoBytes | crates/plc-fieldbus/src/slave_config.rs:252-263 | Without PDOs in a direction a slave has no bytes there. |
| SlaveLayout.PositionsInOrder | crates/plc-fieldbus/src/slave_config.rs:440-462 | Slaves lie in the order of their ring positions. |
| SlaveLayout.LayoutIsOrderIndependent | crates/plc-fieldbus/src/slave_config.rs:418-486 | After any additions and clearings the network is the layout of its content, so insertion order does not matter. |
| SlaveLayout.LaidAlike | crates/plc-fieldbus/src/slave_config.rs:440-462 | The layout does not depend on offsets stored before. |
| SlaveLayout.NetworkConfig.RecalculateOffsets | crates/plc-fieldbus/src/slave_config.rs:440-462 | The loop over sorted positions gives every slave the sum of the sizes at lower positions as its offset, and the totals cover all slaves. |
| SlaveLayout.NetworkConfig.AddSlave | crates/plc-fieldbus/src/slave_config.rs:418-422 | Adds or replaces a slave and lays out the network anew. |

## Left out

- Compiler: function and function-block calls, field access, the integer types beyond DINT as operands, REAL, TIME and
  STRING, bitwise and shift operators on non-BOOL operands, `**`, arrays of arrays, and initial values (which the compiler
  never lowers). Statements and expressions using them are outside the supported fragment or not in the model's trees.
- Compiler: array lower bounds other than 0, FOR over variables that are not DINT (its variable is loaded and stored with
  four bytes), and CASE labels beyond 32 bits, which the lowering does not treat as the source means; the simulation
  excludes them.
- Placement.PlacedGoesSameWay: being well placed is sufficient only. A jump placed otherwise may do no harm, for instance
  if it is never reached; the condition that is exact, JumpsRight.RightIff, is about runs.
- JumpsRight.RightIff: stores from which an index gets out of range, by either meaning, are excluded.
- Compiler: the parser, the binary encoding of the IR, programs larger than one page, function and function-block bodies
  (lowered as program bodies are), source positions and error texts.
- Layout.Checker.RegisterVariable: arithmetic wraps around as in release builds; a debug build stops there instead.
- Layout.LayoutIsSoundIff: array bounds whose difference exceeds a signed 64-bit number are excluded.
- ExprCorrect.ElementRuns: an index out of range has no source meaning in the model, so nothing is stated about the
  address the code then computes.
- CompilerCorrect.CheckedProgramRuns: an index out of range has no source meaning, so nothing is stated about programs
  that reach one in a run from zero; programs without arrays never do (CompilerCorrect.ScalarProgramsAreMeaningful).
- Seqlock: weak memory orderings and the wrap-around of the 64-bit sequence number; steps are sequentially consistent and
  counters unbounded. Process data are rows of words of any number and size.
- IoImage.SeqlockBuffer.Read: the retry loop, which needs a concurrent writer, is modelled in module Seqlock only.
- IoImage: bit and channel accessors of the process data, and the deprecated direct access to outputs.
- FaultRecorder: byte encoding of the snapshots, working counters, the split of timings into phases, and the summary.
- Metrics.CycleMetrics.Percentile: percentiles are real numbers; rounding of floating-point products and NaN are not
  modelled.
- Metrics.CycleMetrics.Mean: nothing is stated once the 64-bit sum has wrapped.
- Metrics: several percentiles at once and snapshots, which repeat the single ones.
- Scheduler: waiting for the deadline, the watchdog thread, hot reload, logging.
- Daemon.RunSchedulerLoop: starting up, which the loop assumes done.
- Daemon: the results of the additional, ignored exchanges; diagnostics, web interface and metrics export; overflow of the
  failure counter.
- DcSync: per-slave clock configuration and deviation statistics. The correction wraps around as in release builds.
- ModbusBits.UnpackOutputs: shifts wrap around their amount as in release builds; a debug build stops beyond 32 coils.
- ModbusBits: registers, response validation and the MBAP header.
- ModbusLink: the contents of requests and responses; a call's traffic either is answered or loses the connection.
- Timers: resetting by call.
- SlaveLayout: slave identities, states and mailbox configuration; overflow of the 16-bit sum of bits in one PDO, and
  changes of slaves that are not followed by a recalculation.
