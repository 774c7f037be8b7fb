# Verification of the compiler and its runtimes

A Dafny model of the parts of the system where a mistake is hardest to see, with
proofs about whole runs. Everything is verified by `dafny verify dfyconfig.toml`.

* **The scheduler and the channels of the native runtime** (`Rings`, `Scheduler`,
  `SchedulerInvariant`, `SchedulerSteps`, `SchedulerTheorems`, `SchedulerHistory`,
  `Runtime`). Sixteen
  slots for cooperative tasks, four worker rings with stealing, a global ring, sixteen
  channels with message rings and wait rings. `Runtime` is the emitted program: flat
  arrays with head and tail counters that wrap at 2^64, proved to do to queues what
  `Scheduler` says. Every retry loop is a pending operation of its owner. The theorems
  hold in every state reachable by any interleaving of any operations; `SchedulerHistory`
  states them of what tasks ask for and are answered.
* **The verifier of the intermediate representation** (`Ir`, `Verifier`, `Words`,
  `IrMachine`, `VerifierSoundness`, `VerifierRules`, `FrameTheorem`). The array code of the verifier, a
  small-step machine with tagged values on one data stack shared by all words, the rules
  of what is accepted as a table, and the proof that a verified module is never stuck and never touches what lies below a
  word's arguments, at any depth of calls and recursion.
* **The lowering to WebAssembly** (`Wasm`, `WasmEmit`, `WasmOps`, `WasmHeights`,
  `WasmLadder`, `WasmRelation`, `WasmSteps`, `WasmSimulation`, `WasmTheorem`,
  `FlagSafety`, `WasmBytes`, `WasmLimits`). A machine for structured WebAssembly with labels and
  activations after sections 4.4.5 to 4.4.7 of the WebAssembly Core Specification, the
  emitter as structured code and as the flat stream of tokens it pushes, and the proof
  that the compiled code does what the words do: same states at every operation, same
  traps with the same code and source span, same results, and an end exactly where the
  word ends. `WasmBytes` takes the tokens to bytes with recorded call operands, through
  the patching, and back. The conditions are on the module alone:
  the lowered operations, IR locals at or above the arity, calls inside the module with
  at most one result, no branch in a word of one block, a declared growth that holds,
  and types that keep booleans apart. `WasmLimits` shows for each what the code does
  outside it.
* **The region heap, twice** (`Regions`, with module `RegionTheorems`, `RegionHistory`
  and `RegionHeaps`). The bump arena in growing WebAssembly memory and the hosted heap over
  system mappings: invariants of each, exactly when they hold for 64-bit sizes that may
  wrap, that both answer the same calls alike, and that every answer is what the earlier
  calls and answers say.
* **Stack bounds and the elision of push guards** (`StackBounds`, `StackTheorems`,
  `StackLayout`, `NativeStack`, `NativeMeaning`, `LayoutMeaning`). The fold of bounds with its 16 and 32 bit arithmetic
  over calls, branches and loops, that guards stop exactly the runs that need more slots
  than there are, and the layout of the code in blocks, which ties the bound to the
  growth the lowering to WebAssembly relies on, and shows that native code, stack machine
  and WebAssembly leave the same words.
* **Codecs and checks** (`Leb`, `Spans`, `Patching`, `Descriptors`,
  `DescriptorCodec`, `DescriptorWire`, `Lexer`, `LexerTheorems`, `LexerKinds`). LEB128, the span table, the patching of
  call operands, the validation and the wire form of platform descriptors, the lexer
  and the decoder of string literals.

Inputs from outside are parameters: what a word outside the module returns, whether
the system maps or unmaps memory and the host lets memory grow, which operation a
running task does next. Operands of WebAssembly calls are names in the machine;
`Patching` shows what index a name becomes.

Where the code and its own comments differ the model follows the code:

* `validate_compiled_desc` is described as checking the identity of a device as map and
  instance; it compares instances alone.
* The header comment of the descriptor format says version 5 where the constant is 6.
* A comment in the yield code says that the deadlock trap means that all tasks are
  blocked. The exit of the last runnable one ends the process with code 0 whatever still
  waits (`SchedulerTheorems.LastExitHalts`).
* The region helpers are described as reproducing the hosted checks in their order. For
  a size that rounds up to 0 with a full table they give 23 where the hosted heap gives
  26 (`RegionTheorems.StepAlike`).

Where a property does not hold of the code as it is, an input shows it and a lemma gives
the exact condition:

* The bound of a `while` leaves out what its condition pushes, so it may be below the
  true peak, and then dropping the guards changes a run and the declared growth does not
  hold (`StackTheorems.WordBound`, `ElisionOfLoop`, `LoopConditionIsDropped`,
  `StackLayout.LaidGrowthExactly`, `IdleGrowthFails`).
* Apertures that share an address are accepted if one of them begins at the last address
  (`Descriptors.AcceptedExactly`, `LastByteIsShared`).
* A base of 0 is lost on the way through the wire form, and the length check of the
  encoder is short by four bytes for each register (`DescriptorCodec.RoundTripExactly`,
  `LengthCheckExactly`).
* An access past the end of an aperture of the largest size is not seen
  (`VerifierSoundness.InsideExactly`).
* Region sizes near 2^64 wrap (`RegionTheorems.CreateKeepsExactly`,
  `HugeCreateBreaksTheArena`), and the results of a call with several come back in
  reverse (`WasmLimits.AnyResultsKept`).

## Model

| member | source | states |
|---|---|---|
| `SchedulerTheorems.TasksAreConserved` | crates/codegen-x86_64/src/task.rs:76-104 | in every reachable state a task is ready iff it is on the five run rings, and then exactly once; blocked iff it is on the wait rings, and then exactly once; and only the current task is running |
| `SchedulerTheorems.QueuesNeverOverflow` | crates/codegen-x86_64/src/task.rs:76-104 | no reachable step finds both run rings full: nothing is dropped, the queue-overflow trap of a wake-up is never raised, and spawning fails exactly when all fifteen slots are taken |
| `SchedulerTheorems.ChannelsKeepOrder` | crates/codegen-x86_64/src/channel.rs:207-218 | for every interleaving, the record of what was sent on a channel is the record of what was received followed by what is buffered, in order, and at most 64 messages are buffered |
| `SchedulerHistory.MessagesArrive` | crates/codegen-x86_64/src/channel.rs:348-420 | over every run, read from what tasks asked for and were answered: the values of the finished sends on a channel are, in order, those its finished receives were answered and then those still buffered |
| `SchedulerHistory.LoopsAreRemembered` | crates/codegen-x86_64/src/channel.rs:161-206 | a task that gave up the processor inside a send, a receive or a join goes on with that operation when it runs again |
| `SchedulerHistory.ReceiversAreServedInOrder` | crates/codegen-x86_64/src/channel.rs:219-260 | a receiver at position p of a wait ring is woken by the finished send number p + 1 on its channel, and no sooner |
| `SchedulerHistory.SendersMoveUp` | crates/codegen-x86_64/src/channel.rs:376-420 | a waiting sender moves up by one with each finished receive on its channel, and by nothing else |
| `SchedulerHistory.ChannelsAreNumbered` | crates/codegen-x86_64/src/channel.rs:41-98 | the handles a program is given are 0, 1, 2 and so on, and no channel is made twice |
| `SchedulerHistory.JoinsFinishExactly` | crates/codegen-x86_64/src/task.rs:269-289 | a join finishes if and only if its task has exited and has not been joined since, and gives back exactly that slot |
| `SchedulerHistory.SlotsAreConserved` | crates/codegen-x86_64/src/task.rs:37-119 | over every run the slots in use are those spawned and not joined |
| `SchedulerHistory.SpawnFailsExactly` | crates/codegen-x86_64/src/task.rs:37-119 | a spawn fails if and only if fifteen tasks are spawned and not joined: a program that joins what it spawns never runs out of slots |
| `SchedulerHistory.NextInOrder` | crates/codegen-x86_64/src/task.rs:183-234 | the next task is the first of the own ring, else of the global ring, else of the nearest ring that is not empty |
| `SchedulerHistory.QueuedBehind` | crates/codegen-x86_64/src/task.rs:146-183 | a task that is made ready goes behind the own ring, or behind the global one if that is full |
| `SchedulerTheorems.WaitersAreServed` | crates/codegen-x86_64/src/channel.rs:161-263 | no wake-up is lost: while receivers wait there are at most as many messages as woken receivers that have not come yet, and the same for senders and free places |
| `SchedulerTheorems.DeadlockIsReal` | crates/codegen-x86_64/src/task.rs:234-249 | the deadlock trap is raised if and only if no task is ready and the next turn of a channel loop would block; then every blocked receiver faces an empty channel and every blocked sender a full one |
| `SchedulerTheorems.LastExitHalts` | crates/codegen-x86_64/src/task.rs:128-134 | a task that exits ends the process with code 0 if and only if all run rings are empty, even while others wait forever; then every blocked task faces an empty or a full channel |
| `SchedulerTheorems.BoundedWaiting` | crates/codegen-x86_64/src/task.rs:183-198 | over any run, a ready task at position p of the running worker's ring is still queued, that much nearer, until the switch number p + 1, which runs it |
| `SchedulerTheorems.StepKeeps` | crates/codegen-x86_64/src/task.rs:137-267 | every step of every operation from a state with the invariant keeps the whole invariant, or raises a trap of a known kind |
| `SchedulerTheorems.SpawnKeeps` | crates/codegen-x86_64/src/task.rs:37-119 | spawning keeps the invariant and fails exactly when no slot is free |
| `SchedulerTheorems.MakeChanKeeps` | crates/codegen-x86_64/src/channel.rs:41-98 | making a channel keeps the invariant and fails exactly when all sixteen are in use; a new channel is empty |
| `SchedulerTheorems.SendKeeps` | crates/codegen-x86_64/src/channel.rs:100-264 | one turn of the send loop keeps the invariant |
| `SchedulerTheorems.RecvKeeps` | crates/codegen-x86_64/src/channel.rs:266-422 | one turn of the receive loop keeps the invariant |
| `SchedulerTheorems.RunIsSafe` | crates/codegen-x86_64/src/task.rs:137-267 | the invariant holds at every point of every run from the start |
| `SchedulerTheorems.DeadlockWhen` | crates/codegen-x86_64/src/channel.rs:161-206 | the exact states and operations in which a step traps with the deadlock code |
| `SchedulerTheorems.ScanMissesNothing` | crates/codegen-x86_64/src/channel.rs:41-98 | the circular scan for an unused channel finds one if there is one |
| `SchedulerSteps.SwitchKeeps` | crates/codegen-x86_64/src/task.rs:137-267 | a yield from a running, a just blocked or a just finished task either switches to a ready one and restores the invariant, or changes nothing because all run rings are empty |
| `SchedulerSteps.DispatchKeeps` | crates/codegen-x86_64/src/task.rs:183-231 | taking a task off a ring and running it keeps the conservation of tasks |
| `SchedulerSteps.EnqueueKeeps` | crates/codegen-x86_64/src/task.rs:157-182 | making a task ready keeps the conservation of tasks |
| `SchedulerSteps.BlockReceiverKeeps` | crates/codegen-x86_64/src/channel.rs:313-347 | a receiver that waits keeps the invariant up to the hand-over of the processor |
| `SchedulerSteps.BlockSenderKeeps` | crates/codegen-x86_64/src/channel.rs:170-206 | a sender that waits keeps it too |
| `SchedulerSteps.SendWakes` | crates/codegen-x86_64/src/channel.rs:219-263 | a message that finds waiting receivers wakes the oldest one and restores the bound on buffered messages |
| `SchedulerSteps.RecvWakes` | crates/codegen-x86_64/src/channel.rs:376-420 | a taken message that finds waiting senders wakes the oldest one |
| `SchedulerInvariant.GlobalHasRoom` | crates/codegen-x86_64/src/task.rs:105-113 | a task that is not ready always finds room on the global ring |
| `Scheduler.ZeroIsBoot` | crates/codegen-x86_64/src/postlude.rs:59-102 | zeroed memory is the initial state, with the main program as the running task |
| `Rings.MaskIgnoresWrap` | crates/codegen-x86_64/src/task.rs:84-89 | masking a counter that wraps at 2^64 gives the same slot as the unbounded counter |
| `Rings.QueuePush` | crates/codegen-x86_64/src/task.rs:84-89 | storing at the tail and stepping it appends to the queue the ring stands for |
| `Rings.QueuePop` | crates/codegen-x86_64/src/task.rs:183-198 | reading at the head and stepping it removes the first |
| `Rings.RingBank.Push` | crates/codegen-x86_64/src/channel.rs:207-218 | on the arrays: exactly one ring gets one more entry at its end, all others keep theirs |
| `Rings.RingBank.Pop` | crates/codegen-x86_64/src/channel.rs:348-375 | on the arrays: exactly one ring loses its first entry, which is returned |
| `Runtime.Machine.constructor` | crates/codegen-x86_64/src/postlude.rs:59-102 | the zeroed arrays stand for the initial state |
| `Runtime.Machine.Enqueue` | crates/codegen-x86_64/src/task.rs:157-182 | the code over the arrays does to the queues what making a task ready says |
| `Runtime.Machine.FindWork` | crates/codegen-x86_64/src/task.rs:183-232 | the search finds what the choice over the queues says: own ring, global ring, then the other workers in circular order |
| `Runtime.Machine.Yield` | crates/codegen-x86_64/src/task.rs:137-267 | the whole yield over the arrays is the switch over the queues |
| `Runtime.Machine.Spawn` | crates/codegen-x86_64/src/task.rs:37-119 | the spawn over the arrays is the one over the queues |
| `Runtime.Machine.Exit` | crates/codegen-x86_64/src/task.rs:121-135 | the exit over the arrays is the one over the queues |
| `Runtime.Machine.Join` | crates/codegen-x86_64/src/task.rs:269-289 | one turn of the join loop |
| `Runtime.Machine.MakeChan` | crates/codegen-x86_64/src/channel.rs:41-98 | the channel scan and set-up over the arrays |
| `Runtime.Machine.Send` | crates/codegen-x86_64/src/channel.rs:161-263 | one turn of the send loop over the arrays, with its two traps |
| `Runtime.Machine.Recv` | crates/codegen-x86_64/src/channel.rs:305-420 | one turn of the receive loop over the arrays, with its two traps, and the word it answers is the oldest message |
| `Runtime.Machine.Turn` | crates/codegen-x86_64/src/task.rs:137-267 | any operation of the running task over the arrays is the step over the queues, and keeps the invariant |
| `Runtime.Machine.Again` | crates/codegen-x86_64/src/channel.rs:161-206 | so is the next turn of a loop a resumed task is in |
| `Verifier.VerifyWord` | crates/ir/src/lib.rs:915-972 | the array code accepts a word, or gives the first error, exactly as the declarative check says |
| `Verifier.VerifyBlock` | crates/ir/src/lib.rs:1049-1396 | the same for one block, with its array of 64 types and its stack pointer |
| `Verifier.VerifyOp` | crates/ir/src/lib.rs:1075-1387 | one operation on the array is one operation on the stack of types |
| `Verifier.VerifyPlace` | crates/ir/src/lib.rs:1083-1102 | the address of a register over the array of the stack and the eight sites |
| `Verifier.VerifyAccess` | crates/ir/src/lib.rs:1239-1336 | the loads and stores of registers over the arrays, with the order of their errors |
| `Verifier.PushType` | crates/ir/src/lib.rs:1398-1410 | a push fails exactly on a full array |
| `Verifier.PopType` | crates/ir/src/lib.rs:1412-1421 | a pop fails exactly on an empty one and gives the top |
| `VerifierSoundness.AcceptedExactly` | crates/ir/src/lib.rs:915-972 | verify_word accepts exactly the words in which every operation is accepted with the types that reach it and the register it touches, blocks end in their last operation and nowhere else, the entry block takes the declared inputs, and apertures are bound exactly if they are on the bus |
| `VerifierRules.AcceptedByTheRules` | crates/ir/src/lib.rs:915-972 | verify_word accepts a word if and only if it keeps to the rules: a table of the operands each operation wants and the types it gives, 64 slots, declared types at every end of a block, and allowed register accesses |
| `VerifierRules.OpByTheRules` | crates/ir/src/lib.rs:1075-1341 | an operation is accepted if and only if the stack ends in the operands of the table and its results have room, and then leaves what the table says; otherwise the error is that of the table |
| `VerifierRules.EndByTheRules` | crates/ir/src/lib.rs:1342-1387 | a branch or return is accepted if and only if the types are those its targets or the signature declare, with the error otherwise |
| `VerifierRules.AccessByItsRules` | crates/ir/src/lib.rs:1022-1042 | an access to a register is accepted if and only if it is allowed, with the error otherwise |
| `VerifierSoundness.AccessesAreAllowed` | crates/ir/src/lib.rs:1022-1042 | in a verified word an access to a device register whose place is among the first eight of its block lies inside the aperture unless that has size 2^32 - 1, is not wider than the register allows, and never reads a register that minds it in order to write |
| `VerifierSoundness.InsideExactly` | crates/ir/src/lib.rs:1039-1041 | the saturating bounds check is right if and only if the access lies inside or the aperture has size 2^32 - 1 |
| `VerifierSoundness.FirstEight` | crates/ir/src/lib.rs:1057-1102 | the verifier knows the first eight register addresses taken in the block |
| `VerifierSoundness.PlacesAreDeclared` | crates/ir/src/lib.rs:1083-1102 | a register address lies in an aperture the word declares, bound exactly if it is on the bus |
| `VerifierSoundness.HeightBound` | crates/ir/src/lib.rs:1398-1410 | the verifier's stack never outgrows 64 entries at any point of an accepted word |
| `VerifierSoundness.ComputeSound` | crates/ir/src/lib.rs:1075-1387 | where the verifier accepts an operation the machine finds its operands with their tags and leaves exactly the types the verifier says |
| `VerifierSoundness.ComputeFrame` | crates/ir/src/lib.rs:1075-1387 | an operation does not see or change what lies below its operands |
| `FrameTheorem.VerifiedModuleIsSound` | crates/ir/src/lib.rs:908-972 | acceptance of every word and agreement of calls with their callees is all the theorems below ask for |
| `FrameTheorem.StepIsSafe` | crates/ir/src/lib.rs:915-1396 | from a verified point the machine steps to a verified point, to the trap of a guard, or to the end with results of the declared types; it is never stuck |
| `FrameTheorem.WordsAreFramed` | crates/ir/src/lib.rs:1207-1221 | over any run, through calls and recursion, the stack below a word's arguments is untouched, and if the word returns exactly its results lie above it |
| `FrameTheorem.CalledWordsAreFramed` | crates/ir/src/lib.rs:1207-1221 | the same from the call of the word on |
| `FrameTheorem.OwnStackIsBounded` | crates/ir/src/lib.rs:1049-1073 | at every point of every run the running word has at most 64 values of its own, of exactly the types the verifier computed |
| `FrameTheorem.BranchStep` | crates/ir/src/lib.rs:1330-1376 | a branch enters its block with exactly the declared entry types |
| `FrameTheorem.EnterStep` | crates/ir/src/lib.rs:1207-1221 | a call starts the callee on exactly its declared types over an untouched rest |
| `FrameTheorem.ReturnStep` | crates/ir/src/lib.rs:1377-1387 | a return leaves exactly the results above what lay below the arguments |
| `Words.MulIsProduct` | crates/codegen-x86_64/src/ophelpers.rs:138-149 | the shift-and-add product is the product modulo 2^64 |
| `Words.ArithIs` | crates/codegen-x86_64/src/word.rs:256-267 | sum, difference and product of the numbers modulo 2^64, the first operand less the second |
| `Words.CompareIs` | crates/codegen-x86_64/src/word.rs:268-278 | each comparison is the condition of its setcc after the words have been compared: zero, sign and overflow of the 64-bit difference |
| `Words.CompareOrders` | crates/codegen-x86_64/src/word.rs:268-278 | exactly one of less, equal and greater holds, and the others follow |
| `Words.BitwiseIs` | crates/codegen-x86_64/src/word.rs:280-305 | and and or, bit by bit |
| `FlagSafety.LoweringPreservesMeaning` | crates/codegen-wasm/src/lib.rs:538-1123 | for a verified module whose types keep booleans apart, every run of a word is matched by the compiled function called on the same words: a related state, the same trap code at the same source span, or the same results |
| `WasmTheorem.CompiledWordsAgree` | crates/codegen-wasm/src/lib.rs:538-1123 | the same for any module and run in which no branch condition has low 32 bits of zero without being zero |
| `WasmTheorem.CompiledWordsEndTheSame` | crates/codegen-wasm/src/lib.rs:538-1123 | where the word ends the compiled function has no other end |
| `WasmTheorem.CompiledWordsEndInTime` | crates/codegen-wasm/src/lib.rs:538-1123 | if the compiled function ends after k steps the word ends, within as many operations as k + 1 of its longest blocks have |
| `FlagSafety.LoweringPreservesTermination` | crates/codegen-wasm/src/lib.rs:538-1123 | the compiled function ends if and only if the word does, so code compiled from a word that never ends never ends |
| `WasmTheorem.StepFollows` | crates/codegen-wasm/src/lib.rs:480-536 | one step of the stack machine is some steps of the compiled code, with wasm locals 0.. equal to the data stack of every active word before and after |
| `WasmTheorem.RunFollows` | crates/codegen-wasm/src/lib.rs:480-536 | the same over whole runs |
| `FlagSafety.StepKeepsFlags` | crates/codegen-wasm/src/lib.rs:1085-1113 | under the rule on types every value of a boolean type stays 0 or 1, on the stack, in locals and through calls |
| `FlagSafety.RunsAreClean` | crates/codegen-wasm/src/lib.rs:1085-1113 | so every condition of every run is clean |
| `WasmOps.StraightOps` | crates/codegen-wasm/src/lib.rs:538-715 | the code of a straight-line operation leaves the locals that match what the operation leaves on the stack, and writes no cursor, scratch or other declared local |
| `WasmHeights.PointHeight` | crates/codegen-wasm/src/lib.rs:480-536 | the compile-time height is the height of the verifier's stack at every operation, and operands are at nonnegative heights |
| `WasmHeights.VerifiedWordsCompile` | crates/codegen-wasm/src/lib.rs:1557-1756 | the emitter fails on no verified word over the lowered operations |
| `WasmHeights.CodeUnfolds` | crates/codegen-wasm/src/lib.rs:1657-1735 | the code of a block from any operation on is determined by where the operation stands |
| `WasmRelation.GrowthKeepsBelowCursor` | crates/codegen-wasm/src/lib.rs:242-248 | if the declared growth bounds the word, the data stack never reaches the local of the dispatch cursor |
| `WasmRelation.BodyIsEmitted` | crates/codegen-wasm/src/lib.rs:1640-1737 | the function bodies of the theorem are the ones the emitter makes |
| `WasmLadder.BranchRuns` | crates/codegen-wasm/src/lib.rs:1079-1113 | from the code of any block, the branch depth emitted there runs exactly the block whose number is in the cursor, back edges included, with the locals as they are |
| `WasmLadder.LadderRuns` | crates/codegen-wasm/src/lib.rs:1679-1737 | entering the ladder runs the block the prologue named |
| `WasmLadder.TableJump` | crates/codegen-wasm/src/lib.rs:1693-1705 | entry k of the br_table lands at the code of block k, an unknown number at block 0 |
| `WasmLadder.LabelsAbove` | crates/codegen-wasm/src/lib.rs:1707-1730 | the labels around each case are those the depths count |
| `WasmEmit.FlattenUnique` | crates/codegen-wasm/src/lib.rs:1679-1737 | the stream of tokens determines the structure: two codes with the same stream are the same |
| `WasmEmit.EmitWord` | crates/codegen-wasm/src/lib.rs:1557-1756 | the loops over blocks and operations push exactly the tokens of the structured body, or fail exactly where it has none |
| `WasmBytes.SitesAreSpaced` | crates/codegen-wasm/src/lib.rs:725-747 | the operands of calls that are recorded while bytes are pushed lie inside the body, in order and five bytes apart |
| `WasmBytes.EmitBytes` | crates/codegen-wasm/src/lib.rs:538-1123 | the pushes of opcodes and immediates give the bytes of the tokens, with every call operand open and recorded |
| `WasmBytes.EmitAndPatch` | crates/codegen-wasm/src/lib.rs:1811-1841 | emitted and then patched in place, a body is the bytes of its tokens with the padded index of its callee in every call |
| `WasmBytes.StreamReads` | crates/codegen-wasm/src/lib.rs:538-1123 | the bytes of a patched body decode to its tokens, each call with the index of its callee |
| `WasmBytes.EmitFunction` | crates/codegen-wasm/src/lib.rs:1557-1841 | a word from its operations to the patched bytes of its function, which decode to the tokens of its structured code |
| `WasmEmit.EmitBlockTokens` | crates/codegen-wasm/src/lib.rs:1715-1729 | the loop over one block, stepping the height |
| `WasmEmit.EmitOpening` | crates/codegen-wasm/src/lib.rs:1683-1705 | the opening of the ladder and its header |
| `WasmEmit.EmitCases` | crates/codegen-wasm/src/lib.rs:1707-1730 | the cases with an end before each but the first |
| `WasmSimulation.GuardStops` | crates/codegen-wasm/src/lib.rs:1051-1070 | a failing guard reports its code and the start and length of its source span |
| `WasmSimulation.BranchMatches` | crates/codegen-wasm/src/lib.rs:1079-1113 | a branch comes to the code of the target block with the same data stack |
| `WasmSimulation.CallMatches` | crates/codegen-wasm/src/lib.rs:717-795 | a call starts the callee on its arguments and zeroed IR locals, and leaves the caller about to store the result |
| `WasmSimulation.RetRuns` | crates/codegen-wasm/src/lib.rs:1114-1123 | a return hands over the top slots in order |
| `WasmSimulation.CallerGoesOn` | crates/codegen-wasm/src/lib.rs:789-792 | the result is stored where the arguments began |
| `WasmLimits.AnyResultsKept` | crates/codegen-wasm/src/lib.rs:789-792 | the stores after a call keep the order of all results if and only if there is at most one |
| `WasmLimits.OrderKeptWhen` | crates/codegen-wasm/src/lib.rs:789-792 | several results come out right exactly when they read the same backwards |
| `WasmLimits.ConditionReadRight` | crates/codegen-wasm/src/lib.rs:1089-1109 | the cursor gets the right block exactly when the low 32 bits of the condition are zero only with all of it, or the targets coincide |
| `WasmLimits.LowSlotOverwrites` | crates/codegen-wasm/src/lib.rs:257-263 | a store to an IR local below the arity is harmless exactly if the stack slot of that number is out of use or equal |
| `WasmLimits.OneBlockCannotLoop` | crates/codegen-wasm/src/lib.rs:1658-1678 | a branch in a word of one block names a label that is not there |
| `RegionTheorems.AllocationsAreDisjoint` | crates/codegen-wasm/src/regions.rs:318-521 | in every reachable arena the allocations since the last resets lie in grown memory above the fixed areas, are aligned and do not overlap |
| `RegionTheorems.RunKeeps` | crates/codegen-wasm/src/regions.rs:318-521 | any sequence of calls with sizes up to 2^47 keeps live regions disjoint inside the arena, offsets aligned and at most the size, and the record of allocations sound |
| `RegionTheorems.StepKeeps` | crates/codegen-wasm/src/regions.rs:318-521 | each call keeps them, and a call that traps changes nothing |
| `RegionTheorems.CreateKeepsExactly` | crates/codegen-wasm/src/regions.rs:318-424 | for every 64-bit size: a trap changes nothing, and a region that is granted keeps the heap sound if and only if it ends within the largest memory |
| `RegionTheorems.SmallSizesFit` | crates/codegen-wasm/src/regions.rs:374-392 | which is so for sizes up to 2^47 |
| `RegionTheorems.HugeCreateBreaksTheArena` | crates/codegen-wasm/src/regions.rs:374-392 | a size for which it is not so |
| `RegionTheorems.AllocKeepsExactly` | crates/codegen-wasm/src/regions.rs:426-477 | for every size: an allocation that is granted is its own and inside the region if and only if the new offset does not wrap |
| `RegionTheorems.HostedKeeps` | crates/codegen-x86_64/src/region.rs:7-108 | the hosted table keeps every slot at or above the next-new counter free |
| `RegionTheorems.SecondPathOnlyTraps` | crates/codegen-x86_64/src/region.rs:51-76 | so its second way to a slot only ever traps |
| `RegionTheorems.StepAlike` | crates/codegen-wasm/src/regions.rs:276-521 | on heaps of the same shape the two implementations answer a call alike, and stay of the same shape, if and only if it is not the one call they order differently |
| `RegionTheorems.RunsAlike` | crates/codegen-wasm/src/regions.rs:276-521 | driven by the same calls and grants, for sizes of all 64 bits, the two give the same handles, offsets from the region base and trap codes in the same order, if and only if no call is the one they answer differently |
| `RegionHistory.ArenaAnswersAreHistory` | crates/codegen-wasm/src/regions.rs:276-521 | over every run of the arena with sizes up to 2^47 the table is what the calls and answers say, and so is every answer: an allocation is granted if and only if what was allocated since the last reset leaves room, and gets the place behind it; a region is created in the first slot that none lives in; a reset or an end is answered if and only if the region lives |
| `RegionHistory.HostedAnswersAreHistory` | crates/codegen-x86_64/src/region.rs:7-258 | the same of the hosted heap |
| `RegionHistory.FreshAfterReset` | crates/codegen-x86_64/src/region.rs:177-206 | after a reset the first allocation that fits the region gets its base |
| `RegionHeaps.ArenaHeap.Create` | crates/codegen-wasm/src/regions.rs:318-424 | the helper over the table, cursor and memory does what the specification says, and keeps the heap sound |
| `RegionHeaps.ArenaHeap.GrowToFit` | crates/codegen-wasm/src/regions.rs:240-272 | the memory covers the pages, or nothing changed |
| `RegionHeaps.ArenaHeap.Destroy` | crates/codegen-wasm/src/regions.rs:494-521 | the slot is cleared, or nothing changed |
| `RegionHeaps.ArenaHeap.Call` | crates/codegen-wasm/src/regions.rs:276-521 | any call over the arrays is the step of the specification |
| `RegionHeaps.HostedHeap.Create` | crates/codegen-x86_64/src/region.rs:7-108 | the hosted creation over its arrays, with both ways to a slot and the failing mapping |
| `RegionHeaps.HostedHeap.Destroy` | crates/codegen-x86_64/src/region.rs:208-258 | the hosted destruction, with the failing unmapping |
| `RegionHeaps.HostedHeap.Call` | crates/codegen-x86_64/src/region.rs:7-258 | any hosted call over the arrays is the step of its specification |
| `RegionHeaps.SlotTable.FindFree` | crates/codegen-x86_64/src/region.rs:25-50 | the scan finds the first free slot |
| `RegionHeaps.SlotTable.Alloc` | crates/codegen-x86_64/src/region.rs:110-175 | the allocation over the arrays |
| `RegionHeaps.SlotTable.Reset` | crates/codegen-x86_64/src/region.rs:177-206 | the reset over the arrays |
| `StackTheorems.FoldIsExact` | crates/ir/src/contract.rs:231-290 | where nothing wraps, the fold of compose and branch_max is the net change and the height that is counted, which of a loop is that of its body |
| `StackTheorems.WordBound` | crates/semantics/src/typecheck/irgen/control.rs:29-306 | the bound of a word is its net change and the greatest height of any way through it, if and only if no condition of a loop rises above what is counted |
| `StackTheorems.CheckedWordBound` | crates/ir/src/lib.rs:1399-1410 | in words that keep to the 64 slots of the verifier the fold wraps nowhere |
| `StackTheorems.ComposeExactly` | crates/ir/src/contract.rs:231-236 | one composition is exact if and only if the net change fits 16 bits, the shifted peak 32 bits, and nothing rises above what came before after a net change of -32768 |
| `StackTheorems.BoundOfPushes` | crates/ir/src/contract.rs:231-236 | of n pushes the bound has the right peak if and only if n is at most 32768; past that it stays at 32768 |
| `StackTheorems.PeakIsBounded` | crates/ir/src/contract.rs:206-241 | no run, however often its loops go round, rises above the height, and one that ends changes the depth by the net |
| `StackTheorems.StraightLineIsExact` | crates/ir/src/contract.rs:206-241 | without branches and loops every run to the end reaches it |
| `StackTheorems.GuardsCatchExactly` | crates/codegen-x86_64/src/ophelpers.rs:32-125 | the build with guards overflows if and only if the run needs more slots than there are, and otherwise does exactly what the build without them does |
| `StackTheorems.ElisionIsSound` | crates/tyu/src/verify.rs:520-566 | when the bound is known, fits the reserved slots, and no condition of a loop rises above what it counts, dropping the guards changes no run |
| `StackTheorems.ElisionOfLoop` | crates/semantics/src/typecheck/irgen/control.rs:126-219 | for a loop over straight code the builds with and without guards agree if and only if the slots also hold the condition, which the fold drops |
| `StackTheorems.LoopConditionIsDropped` | crates/semantics/src/typecheck/irgen/control.rs:126-219 | a loop with a bound of 0 slots whose build with guards overflows and whose build without them ends |
| `StackTheorems.HighRecordsThePeak` | crates/codegen-x86_64/src/ophelpers.rs:18-30 | the recorded high-water mark stands for the true peak of the run |
| `StackTheorems.RecordedFromStart` | crates/codegen-x86_64/src/ophelpers.rs:18-30 | from an empty stack it is the peak, and without branches the bound |
| `StackLayout.LaidHeight` | crates/semantics/src/typecheck/irgen/control.rs:29-306 | laid out in blocks as the compiler does it, no point of a verified word is deeper than the height of its code |
| `StackLayout.LaidGrowthHolds` | crates/semantics/src/typecheck/irgen/mod.rs:440-505 | the growth the compiler declares for a word, calls included, holds where no condition of a loop rises above what is counted |
| `StackLayout.LaidFits` | crates/ir/src/lib.rs:1399-1410 | in a verified word of that layout the fold wraps nowhere |
| `StackLayout.LaidGrowthExactly` | crates/semantics/src/typecheck/irgen/control.rs:29-306 | of a verified word without calls the declared growth holds if and only if no condition of a loop rises above what is counted |
| `StackLayout.IdleGrowthFails` | crates/semantics/src/typecheck/irgen/control.rs:126-219 | a verified word of that layout whose declared growth does not hold |
| `NativeStack.DataStack.PushWord` | crates/codegen-x86_64/src/ophelpers.rs:32-89 | the guarded push over memory, stack pointer and limit |
| `NativeStack.DataStack.Combine` | crates/codegen-x86_64/src/ophelpers.rs:138-164 | the binary operations over memory, with what they leave in place of their operands |
| `NativeStack.PerformLeaves` | crates/codegen-x86_64/src/ophelpers.rs:138-164 | what an operation on two operands leaves in their place: the sum, difference or product modulo 2^64, or 1 or 0 as the condition after the comparison says, or as the operands have a bit in common or at all |
| `NativeMeaning.PerformMeans` | crates/codegen-x86_64/src/ophelpers.rs:100-186 | the native code of an operation does to words and locals what the stack machine does |
| `LayoutMeaning.LaidWordMeans` | crates/semantics/src/typecheck/irgen/control.rs:29-306 | structured code does to the native stack what the stack machine does in the blocks laid out for it: the same words, or the same trap |
| `LayoutMeaning.NativeAndWasmAgree` | crates/codegen-wasm/src/lib.rs:538-1123 | on such a word the compiled WebAssembly function returns the words the native code leaves, or traps with the same number |
| `NativeStack.DataStack.Copy` | crates/codegen-x86_64/src/ophelpers.rs:115-125 | the duplication over memory |
| `NativeStack.DataStack.Exchange` | crates/codegen-x86_64/src/ophelpers.rs:131-136 | the swap over memory |
| `NativeStack.DataStack.LoadLocal` | crates/codegen-x86_64/src/ophelpers.rs:174-186 | the load of a local over memory |
| `NativeStack.DataStack.StoreLocal` | crates/codegen-x86_64/src/ophelpers.rs:166-172 | the store to a local |
| `NativeStack.DataStack.UpdateHigh` | crates/codegen-x86_64/src/ophelpers.rs:20-30 | the high-water update |
| `Leb.UlebInverts` | crates/codegen-wasm/src/spans.rs:118-134 | the decoder inverts the unsigned encoding of every 64-bit number, wherever it stands |
| `Leb.PaddedInverts` | crates/codegen-wasm/src/encoder.rs:46-56 | a padded operand takes exactly its width and decodes to its number if and only if the number fits |
| `Leb.SlebInverts` | crates/codegen-wasm/src/encoder.rs:26-37 | the signed decoder of section 5.2.2 of the WebAssembly Core Specification inverts the signed encoding |
| `Leb.SlebLength` | crates/codegen-wasm/src/encoder.rs:26-37 | a signed 64-bit number takes at most ten bytes |
| `Leb.EmitUleb` | crates/codegen-wasm/src/encoder.rs:13-23 | the loop pushes the unsigned encoding |
| `Leb.EmitSleb` | crates/codegen-wasm/src/encoder.rs:26-37 | the loop pushes the signed encoding |
| `Leb.EmitPadded` | crates/codegen-wasm/src/encoder.rs:46-56 | the loop pushes the padded encoding |
| `Leb.DecodeUleb` | crates/codegen-wasm/src/spans.rs:118-134 | the loop decodes what the recursive reading says and stops behind it |
| `Leb.UlebDecodesExactly` | crates/codegen-wasm/src/spans.rs:118-134 | decoding succeeds if and only if at most ten bytes stand there, all continued but the last, and gives the sum of their groups modulo 2^64 |
| `Spans.RoundTrip` | crates/codegen-wasm/src/spans.rs:61-116 | decoding the encoded table gives the records back |
| `Spans.DecodedExactly` | crates/codegen-wasm/src/spans.rs:84-116 | bytes decode to a table if and only if they are, to the last one, the version, the number of records and the three numbers of each, all of 32 bits |
| `Spans.PrefixFree` | crates/codegen-wasm/src/spans.rs:84-116 | of two decodable tables neither is a proper beginning of the other |
| `Spans.TruncatedAndPaddedAreRejected` | crates/codegen-wasm/src/spans.rs:84-116 | every proper prefix and every extension of an encoding is rejected |
| `Spans.OtherVersionsAreRejected` | crates/codegen-wasm/src/spans.rs:84-91 | every other version is rejected, whatever follows |
| `Spans.EncodeTable` | crates/codegen-wasm/src/spans.rs:61-69 | the loop over the records |
| `Spans.DecodeTable` | crates/codegen-wasm/src/spans.rs:84-116 | the loop over the bytes, with every way it fails |
| `Patching.CallsResolve` | crates/codegen-wasm/src/lib.rs:1758-1833 | every recorded call is patched to the position of its callee in the function index space, whatever is used, if and only if a module that calls barriers also calls peripherals |
| `Patching.ScanMarksBoth` | crates/codegen-wasm/src/lib.rs:1560-1590 | which the scan of the words ensures |
| `Patching.WordFound` | crates/codegen-wasm/src/lib.rs:1782-1785 | a word name resolves to its own position when names are distinct |
| `Patching.HelperAt` | crates/codegen-wasm/src/lib.rs:1786-1809 | a used helper stands at its rank among the used ones |
| `Patching.Patch` | crates/codegen-wasm/src/lib.rs:1811-1841 | after patching every operand decodes, in five bytes, to the index of its callee, and no byte outside the operands has changed |
| `Descriptors.Validate` | crates/codegen-core/src/compiled_desc.rs:615-667 | the passes that sort in place and compare neighbours give exactly the verdict on the descriptor, with the first error in order |
| `Descriptors.AcceptedExactly` | crates/codegen-core/src/compiled_desc.rs:615-667 | a descriptor is accepted if and only if its ids are a permutation of 0..n, all sizes are positive, no two based apertures share an address unless one of them begins at the last address, every device names a declared aperture, and instances are distinct |
| `Descriptors.AcceptedBelowTop` | crates/codegen-core/src/compiled_desc.rs:615-667 | where every aperture ends below 2^64: if and only if, among the rest, the based apertures are pairwise disjoint |
| `Descriptors.CollideSharesAnAddress` | crates/codegen-core/src/compiled_desc.rs:637-642 | two apertures collide if and only if some address is in both |
| `Descriptors.OverlapReported` | crates/codegen-core/src/compiled_desc.rs:635-648 | the overlap error is reported if and only if ids and sizes are right and two apertures share an address, neither of which begins at the last one |
| `Descriptors.ErrorsReported` | crates/codegen-core/src/compiled_desc.rs:615-667 | each other error is reported if and only if what is looked at before it is right and what it names is not |
| `Descriptors.Sort` | crates/codegen-core/src/compiled_desc.rs:695-723 | the insertion sort leaves a sorted permutation |
| `Descriptors.DenseWhenSorted` | crates/codegen-core/src/compiled_desc.rs:616-627 | sorted ids are 0, 1, ... exactly if the ids are a permutation of them |
| `Descriptors.NeighboursSuffice` | crates/codegen-core/src/compiled_desc.rs:635-648 | sorted ranges are pairwise apart exactly if neighbours are |
| `Descriptors.DuplicatesAreNeighbours` | crates/codegen-core/src/compiled_desc.rs:650-664 | sorted names are pairwise different exactly if neighbours are |
| `Descriptors.PairwisePermutes` | crates/codegen-core/src/compiled_desc.rs:635-664 | what holds between any two does not depend on the order |
| `Descriptors.ApartMeansDisjoint` | crates/codegen-core/src/compiled_desc.rs:637-642 | the saturated ranges are apart exactly if the apertures share no address or one begins at the last one |
| `Descriptors.LastByteIsShared` | crates/codegen-core/src/compiled_desc.rs:637-642 | a descriptor of two overlapping apertures that is accepted |
| `DescriptorCodec.RoundTripExactly` | crates/codegen-core/src/compiled_desc.rs:294-610 | a descriptor within the caps comes back from its encoding, every byte used, if and only if no aperture has the base 0 |
| `DescriptorCodec.DecodesTo` | crates/codegen-core/src/compiled_desc.rs:386-610 | what comes back in any case |
| `DescriptorCodec.FieldsRead` | crates/codegen-core/src/compiled_desc.rs:386-610 | a record is read back field by field |
| `DescriptorWire.EncodingsAreWhole` | crates/codegen-core/src/compiled_desc.rs:386-610 | every proper beginning of an encoding is rejected, and every extension with the error for trailing bytes |
| `DescriptorWire.ExtensionIsRejected` | crates/codegen-core/src/compiled_desc.rs:596-601 | the same of any bytes that decode |
| `DescriptorWire.PrefixIsRejected` | crates/codegen-core/src/compiled_desc.rs:386-601 | no proper beginning of bytes that decode decodes: it is too short, breaks off a name, or is read past its end |
| `DescriptorWire.DescriptorLayout` | crates/codegen-core/src/compiled_desc.rs:294-382 | the fields of the whole in their order |
| `DescriptorWire.ApertureLayout` | crates/codegen-core/src/compiled_desc.rs:307-324 | the fields of an aperture in their order |
| `DescriptorWire.DeviceLayout` | crates/codegen-core/src/compiled_desc.rs:327-343 | the fields of a device in their order |
| `DescriptorWire.RegisterLayout` | crates/codegen-core/src/compiled_desc.rs:344-373 | the fields of a register in their order |
| `DescriptorWire.LowestFirst` | crates/codegen-core/src/compiled_desc.rs:302-381 | numbers are written lowest byte first |
| `DescriptorCodec.EncodeDescriptor` | crates/codegen-core/src/compiled_desc.rs:294-382 | into a buffer of any length: refused with the buffer unchanged, out of bounds, or exactly the encoding, each under its exact condition |
| `DescriptorCodec.SerializedLen` | crates/codegen-core/src/compiled_desc.rs:669-693 | the counting loops give the first refusal or the counted length |
| `DescriptorCodec.CountedIsShort` | crates/codegen-core/src/compiled_desc.rs:669-693 | the encoding is four bytes longer than counted for each register |
| `DescriptorCodec.LengthCheckExactly` | crates/codegen-core/src/compiled_desc.rs:298-301 | the length check keeps every write inside the buffer, whatever its length, if and only if there are no registers |
| `DescriptorCodec.DecodeDescriptor` | crates/codegen-core/src/compiled_desc.rs:386-610 | the cursor over the bytes, with every error and every unchecked read |
| `DescriptorCodec.DecodeAperture` | crates/codegen-core/src/compiled_desc.rs:412-463 | the reads of an aperture, whose last two numbers are checked for at once, give the reading field by field |
| `DescriptorCodec.DecodeRegister` | crates/codegen-core/src/compiled_desc.rs:512-585 | the reads of a register, checked for in groups, with the barrier unchecked |
| `DescriptorCodec.DecodeDevice` | crates/codegen-core/src/compiled_desc.rs:474-595 | the reads of a device and its registers |
| `LexerTheorems.TokensCoverTheText` | crates/frontend/src/lex.rs:30-138 | the tokens of a text are in order, apart, not empty until the one for its end, with only blanks and comments between them |
| `LexerTheorems.NothingIsLost` | crates/frontend/src/lex.rs:30-138 | every character is in a token, or in the gap before one, where it is a blank or in a comment that begins in that gap |
| `LexerKinds.TokensAreClassified` | crates/frontend/src/lex.rs:30-213 | every token is what stands there: the longest punctuation mark by a table of spellings, or else a literal, a number, a word, which is a keyword if it is spelled like one, or one unknown character; numbers and words are made of their characters and end before the first other one |
| `LexerKinds.ClassifiedOnce` | crates/frontend/src/lex.rs:30-213 | the characters leave no choice of another token |
| `LexerKinds.LiteralRoundTrip` | crates/codegen-core/src/strings.rs:27-65 | any text of at most 256 characters, written with escapes between quotes, is one token and decodes to the text |
| `LexerTheorems.SkipsAGap` | crates/frontend/src/lex.rs:215-235 | what is skipped is blanks and comments, and all there is of them |
| `LexerTheorems.ClosedExactly` | crates/frontend/src/lex.rs:140-154 | a string token is closed if and only if some unescaped quote closes it, which is then its last character; otherwise it runs to the end |
| `LexerTheorems.LexerAndDecoderAgree` | crates/codegen-core/src/strings.rs:27-65 | on every string token the decoder succeeds exactly if the token was closed and its content decodes to at most 256 bytes, and gives that content |
| `Lexer.Scanner.Next` | crates/frontend/src/lex.rs:30-138 | the lexer over its position gives the next token |
| `Lexer.Scanner.LexString` | crates/frontend/src/lex.rs:140-154 | the loop over a string literal |
| `Lexer.Scanner.SkipBlanksAndComments` | crates/frontend/src/lex.rs:215-235 | the loops over blanks and comments |
| `Lexer.DecodeStringBytes` | crates/codegen-core/src/strings.rs:27-65 | the decoder's loop, with its three failures |

## Left out

- Scheduler: machine registers, saved stacks and the trampoline of a new task; a pending operation stands for what they hold.
- Scheduler: boxing and canonicalising of channel payloads, which go through raw mappings and copies; payloads are words here.
- Scheduler: sleeping, which is a system call, and fairness between the local and the global ring, since local work always wins.
- Scheduler: the branch of the yield code for a caller that is still running when nobody is ready. A running caller has just queued itself, so it is never taken.
- Rings.RingBank: the counters are arrays of a bank of rings with one capacity; that the assembly text addresses them as it does is not modelled.
- IrMachine: what memory and devices hold. A load takes a word from outside, and so do casts, string literals, addresses and reads of device registers; masks, shifts and barriers of register accesses play no part in the verifier.
- FrameTheorem.CalledWordsAreFramed: type ids are private to a word, so the values a call hands over change their tags to the callee's; that the names of the types agree is not part of what the verifier checks.
- WasmEmit and WasmBytes: operations whose code does not follow the scheme of slots, that is, typed loads and stores, scoped slices, casts, indexed pointers, strings, addresses, device registers, and calls of imports and region helpers.
- Wasm: the sections around the function bodies, the declaration of their locals, validation of the binary module, and stack exhaustion of the engine.
- RegionHeaps: the contents of memory, and the word that marks a slot alive, which is written and never read.
- RegionTheorems.HostedKeeps: that system mappings do not overlap is a matter of the system; disjointness is proved for the arena.
- StackBounds.IsNative: casts, typed loads and stores, string literals, addresses, scope entries, spawns, interrupt control, device registers and channels; the bound of each is a constant of the same kind.
- StackTheorems.FoldIsExact: recursion, whose bound is a fixed point over the words of a module. A `loop` is a `while` whose condition pushes true.
- StackBounds: IR locals of a word read 0 before they are set; the native frame holds whatever was there.
- DescriptorCodec.EncodeDescriptor: what a buffer holds after a write past its end has ended the program.
- Lexer: moving the position by hand, and the keyword tokens as separate kinds.
- The ARM and RISC-V back ends, the interval engine, symbol tables, diagnostics, the hash functions and the command-line tools.
