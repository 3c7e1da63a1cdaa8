# KernelStrider: verified models

KernelStrider instruments the binary code of kernel modules, watches what they do at run time, and
ships the events compressed. This project models its hard parts in Dafny and proves what they are for.
`dafny verify dfyconfig.toml` checks everything.

| files | part of the system |
|---|---|
| `LzoFormat`, `LzoBuffer`, `LzoCompress`, `LzoDecoder`, `LzoDecompress`, `LzoRoundTrip`, `LzoTrailing` | the LZO1X codec: a token view between printer and parser, the compressor and decompressor over arrays, the round trip and the size bound, input that is too long or cut off |
| `Adler32` | the checksum with deferred modulo |
| `Blocks` | splitting a function into code blocks |
| `Machine`, `ReleaseBase`, `Phase1` | an abstract x86-64 machine, freeing the base register, and the simulation of the original function over whole runs |
| `SharedCall` | indirect calls and jumps of several threads that share the information of one call instruction |
| `RecordAccess`, `StringOps`, `RecordedNodes` | the code that records accesses, for every kind of operation |
| `FlatCode`, `BlockEnd`, `BlockLayout`, `BlockPaths`, `SplitBlocks` | common blocks as lists of nodes with resolved jumps: jumps out, the end of a block, all ways through it, from block creation to the report |
| `BlockWalks`, `SplitWalks` | whole runs of a split function, block after block, and all that is reported on the way |
| `BlockRecord` | the contract between the traversals that count, describe, instrument and report memory operations |
| `JumpRelax`, `Deploy` | jump relaxation, displacements and jump tables, relocation and placement of the code |
| `ThreadSpec`, `ThreadTable`, `ThreadRuns`, `ThreadFailure` | the thread table: what updates do to it, all interleavings of threads and collections, what happens when memory runs out |
| `Rcu`, `ThreadMemory`, `ThreadRefinement` | its memory: who may touch a bucket when, the updates of tid.c as steps on memory among readers and RCU callbacks, and that they refine the interleavings |
| `Session`, `HandlerIndex` | sessions, references on providers and plugins, registration, the sorted handler table |
| `Basics` | shared types |
| `FuncBounds`, `Sampling` | function boundaries, and which executions of a block are reported |

## How to read the results

- A loop or an update in place of the original is a method over arrays or a class, proved against a
  specification function; the results are then lemmas about that specification. Concurrent behaviour
  is a system of steps, and the results hold in every state of every run.
- An instruction of the original function is any state transformer that respects its register mask.
  An addressing expression is any function of the registers in its mask, at most two of them.
  Wrappers and thunks behave as the comments above them say: all registers but `%rax` and the flags
  are kept.
- Inside a function, direct jumps use no register that a callee must preserve.
- In the list of nodes of a function, a jump knows the reference node of its destination and whether
  it goes past its last node; where it leads is what `JumpRelax` resolves. Every node has an address
  of its own, and the block hypotheses of `BlockPaths` are shown of every kind of operation in
  `RecordedNodes` and of every common block of a split function in `SplitBlocks`.
- `Phase1` is about one thread; what the others do to shared call information is in `SharedCall`.
- A bucket of the thread table is one piece of memory with one address. Readers and callbacks may do
  anything they are allowed to between any two steps of an update; updates exclude each other.
- Addresses in `Deploy` are integers; those of kernel code are negative, as the processor extends them.
- A thread looks itself up in a bucket that may be stale by the time it decides.
- In the decoder, `OverRead` is the status of an input that ends too early.
- Memory for the thread table is a number of further successful allocations; which modules
  `try_module_get` refuses, which allocations and instrumentations succeed are parameters.
- `sort()` of the kernel is not part of this model: where its result is used it is any sorted
  permutation, and for function boundaries there is only one.

## Where the code does less than its documentation says

- A conditional jump that leaves the function breaks the correspondence of registers when it is not
  taken: `%rax` and the base register are not put back. `ReleaseBase.DirectJump` gives the exact
  condition for one jump, `Phase1.ConditionalExitFails` a case. `Phase1.SimulatesIffHarmless` says it
  for runs: original and instrumented function agree all along if and only if the run passes no such
  jump by, whatever other jumps the function has.
- Input close to the end of the address space is not compressed: the look-ahead bound of a chunk wraps
  around and the chunk is written as literals. `LzoCompress.ZerosAt` has the exact place for one input,
  `LzoCompress.Compress` the effect on all inputs of equal bytes.
- When memory runs out at the wrong moment, the thread table and the events reported disagree, and a
  later collection reports the same end again. `ThreadFailure` gives the exact conditions.
- The last block of a function gets no block information. `Blocks.AllCountedIff` says for which
  functions events are lost, `Blocks.EndsInTransfer` that they are not in those that end in a control
  transfer. A function that ends in a locked update or an I/O memory operation (only a warning is
  printed for it, sources/core/ir.c:2078) is a BUG_ON later: `Blocks.InfoMissingIff`.
- A failed session start leaves the session broken for good, and the target keeps its module when it
  is unloaded: its next load is a BUG_ON. `Session.Core.OnLoad` says when a session breaks,
  `Session.Core.Reload` that this and only this leads there.
- `kedr_unregister_event_handlers` restores the defaults even when it refuses to, also if the handlers
  are another module's, which during a session is a BUG_ON.
- The call information of an indirect call belongs to the instruction, not to the thread. Two threads in
  the same call can reach each other's target: `SharedCall.ReachesOwnIff`, `SharedCall.OtherTargetCalled`.
- `rcu_barrier` is called before the timer of the collector is stopped, so callbacks may be pending after
  the stop: `ThreadMemory.Updater.Stop`.
- `destroy_handler_table` leaves its pointer, and a session without handlers does not replace it, so
  that after a session with handlers it frees the same table again: `HandlerIndex.TablePointer.RunSessions`.
- Without memory for the handler table no function has handlers, although plugins list them.

## Model

| member | source | states |
|---|---|---|
| `LzoRoundTrip.CompressThenDecompress` | sources/lzo/minilzo.c:3451-3518 | For every byte string: compressed length at most n + n/16 + 4; decompression into any capacity of at least n returns Ok and exactly the bytes; any smaller capacity is refused |
| `LzoRoundTrip.AcceptedIffRoom` | sources/lzo/minilzo.c:4564-4567 | The decoder accepts the code of a stream if and only if the buffer has room for its expansion |
| `LzoTrailing.TrailingBytes` | sources/lzo/minilzo.c:4551-4567 | For every input that is accepted and anything after it: the same text, but the status says that the input was not used up |
| `LzoTrailing.NoPartAccepted` | sources/lzo/minilzo.c:4145-4574 | No part of a code from its start is accepted, with any buffer |
| `LzoCompress.Compress` | sources/lzo/minilzo.c:3451-3518 | The output is the code of a valid token stream whose expansion is the input; length bound; every store, including the 16-byte and 4-byte stores past the end, stays inside n + n/16 + 67 bytes; n equal bytes take at most n/255 + 64 (n/49152 + 1) bytes and those that lie too close to the end of the address space to be searched, which take at least a byte each |
| `LzoCompress.ZerosAt` | sources/lzo/minilzo.c:3460-3471 | A thousand zero bytes take at most 67 bytes if and only if the look-ahead bound does not wrap around; otherwise at least a thousand |
| `LzoCompress.AllSearched` | sources/lzo/minilzo.c:3460-3471 | Equal bytes are all searched unless they are in the last 1600 bytes of the address space |
| `LzoCompress.CompressChunks` | sources/lzo/minilzo.c:3460-3477 | The loop over the chunks: what is written stands for all but the pending bytes; of equal bytes each chunk leaves one short run and one long match |
| `LzoCompress.CompressChunk` | sources/lzo/minilzo.c:3166-3449 | From pending literals of earlier chunks to pending literals of this one, what is written always stands for the input consumed so far; it is the result of all looks at the chunk, from the first place to the end, each of them followed by the next as a turn says, with the dictionary each of them finds |
| `LzoCompress.SearchChunk` | sources/lzo/minilzo.c:3188-3445 | The same for the loop alone |
| `LzoCompress.ChunkTurn` | sources/lzo/minilzo.c:3190-3449 | One turn at label `next`: if the four bytes at the position that the dictionary suggests are the same, exactly the pending literals and one match from there are added, as long as the bytes repeat or until the search is given up at the limit; otherwise nothing is written and the search goes on; keeps the stream invariant and the dictionary inside the chunk |
| `LzoCompress.Probe` | sources/lzo/minilzo.c:3230-3241 | The dictionary cell of the hash is read and replaced by the position, nothing else; a hit means four repeated bytes |
| `LzoCompress.DIndex` | sources/lzo/minilzo.c:2791-2797 | The hash of a 32-bit word is an index of the dictionary |
| `LzoCompress.MatchLength` | sources/lzo/minilzo.c:3311-3383 | The match found is a real repeat of at least four bytes: the next byte differs, or it ends at the first multiple of eight after the first four that is not before the search limit |
| `LzoCompress.EqualBytes` | sources/lzo/minilzo.c:3311-3383 | The number of equal leading bytes of a word comparison: all of them equal, the next one different |
| `LzoCompress.EmitLiterals` | sources/lzo/minilzo.c:3242-3310 | The pending bytes are written as state bits of the last match, or as a run, and the stream is closed at the current position |
| `LzoCompress.EmitRun` | sources/lzo/minilzo.c:3260-3309 | The literals of a run appear unchanged although they are copied in blocks that run past the end |
| `LzoCompress.EmitFew` | sources/lzo/minilzo.c:3247-3257 | Up to three literals by one 4-byte store that runs past them |
| `LzoCompress.EmitRunHeader` | sources/lzo/minilzo.c:3261-3294 | The header of a literal run is written for every length of at least four |
| `LzoCompress.PatchState` | sources/lzo/minilzo.c:3247-3249 | `op[-2] or= t` turns the code of the last match into the code of the same match followed by t literals |
| `LzoCompress.PatchedMatch` | sources/lzo/minilzo.c:3247-3249 | The second last byte of every match code is the one that holds its state bits, for all three match forms |
| `LzoCompress.EmitMatch` | sources/lzo/minilzo.c:3383-3443 | The bytes written are the code of the match, for the M2, M3 and M4 forms and any length |
| `LzoCompress.EmitItem` | sources/lzo/minilzo.c:3242-3443 | Literals and then the match: the stream stands for the input up to the end of the match |
| `LzoCompress.EmitAlone` | sources/lzo/minilzo.c:3481-3510 | The last literals when nothing else was written, with the one-byte header up to 238 |
| `LzoCompress.EmitRest` | sources/lzo/minilzo.c:3481-3510 | The last literals after some match, by patch or run |
| `LzoCompress.EmitLast` | sources/lzo/minilzo.c:3481-3516 | All remaining literals are written so that with the end marker the code is complete |
| `LzoCompress.ItemCost` | sources/lzo/minilzo.c:3242-3443 | A match of four or more pays for the headers around it |
| `LzoCompress.ClosedCost` | sources/lzo/minilzo.c:3166-3449 | Code that stands for p input bytes is at most p + p/16 + 1 bytes long |
| `LzoCompress.EncodeCost` | sources/lzo/minilzo.c:3481-3516 | Amortised bound n + n/16 + 4 for every stream with matches of at least four |
| `LzoDecoder.DecompressEncode` | sources/lzo/minilzo.c:4145-4574 | Decoding the code of any valid token stream gives status Ok and exactly its expansion |
| `LzoDecoder.MatchDecodes` | sources/lzo/minilzo.c:4300-4476 | Every match code is decoded to its own offset and length, and leaves its state bits two bytes back |
| `LzoDecoder.EofDecodes` | sources/lzo/minilzo.c:4551-4556 | The end marker ends decoding with Ok |
| `LzoDecoder.FarDecodes` | sources/lzo/minilzo.c:4355-4441 | M3 and M4 codes: an M4 match is never taken for the end marker |
| `LzoDecoder.LiteralsDecode` | sources/lzo/minilzo.c:4525-4550 | Short literals announced by state bits and long literal runs are both copied whole |
| `LzoDecoder.FirstDecodes` | sources/lzo/minilzo.c:4194-4203 | The first literal run, in either coding, is decoded to its bytes |
| `LzoDecoder.ReadCountCount` | sources/lzo/minilzo.c:4210-4220 | A base-255 length is read back as the number that was written |
| `LzoDecompress.DecompressSafe` | sources/lzo/minilzo.c:4145-4574 | The in-place decoder computes exactly the specified status and output, for every input |
| `LzoDecompress.CopyMatchInPlace` | sources/lzo/minilzo.c:4477-4524 | Copying in blocks of 8, 4 and 1 bytes equals the overlapping byte-by-byte copy whenever the distance is at least 8 |
| `LzoDecompress.CopyMatchBlock` | sources/lzo/minilzo.c:4477-4500 | A block no longer than the distance is a plain copy |
| `LzoDecompress.CopyLiterals` | sources/lzo/minilzo.c:4221-4239 | The literal copy in blocks of 8, 4 and 1 bytes |
| `LzoDecompress.ReadNumber` | sources/lzo/minilzo.c:4210-4220 | The loop over zero bytes reads the base-255 number or finds the input exhausted |
| `LzoFormat.KnownRuns` | sources/lzo/minilzo.c:3261-3294 | The bytes of literal run headers at the borders between the forms |
| `LzoFormat.KnownNear` | sources/lzo/minilzo.c:3383-3420 | The bytes of M2 and M3 matches at the borders between the forms |
| `LzoFormat.KnownFar` | sources/lzo/minilzo.c:3383-3443 | The bytes of M4 matches at the borders |
| `LzoFormat.CopyMatchIsRepeat` | sources/lzo/minilzo.c:3311-3383 | A repeat in the input is exactly what the overlapping copy of a match reproduces |
| `LzoFormat.CopyMatchAt` | sources/lzo/minilzo.c:4518-4524 | Byte k of a match copy is the byte one distance before it |
| `Adler32.LzoAdler32` | sources/lzo/minilzo.c:2401-2430 | For every starting value and buffer: the per-byte checksum of section 2.2 of RFC 1950; 1 without a buffer; unchanged for an empty one |
| `Adler32.AddChunk` | sources/lzo/minilzo.c:2410-2425 | A chunk summed 16 bytes at a time and then singly gives the unreduced sums, every partial sum below 2^32 |
| `Adler32.DeferredModulo` | sources/lzo/minilzo.c:2426-2427 | Reducing once at the end of a chunk equals reducing after every byte |
| `Adler32.NoOverflow` | sources/lzo/minilzo.c:2392-2393 | No chunk of up to 5552 bytes, from any 16-bit sums, needs more than 32 bits |
| `Adler32.LongerOverflows` | sources/lzo/minilzo.c:2392-2393 | 5553 bytes can: 5552 is the largest safe chunk |
| `Adler32.KnownChecksum` | sources/lzo/minilzo.c:2401-2430 | The checksum of 257 bytes whose sums pass the modulus |
| `Adler32.Chaining` | sources/lzo/minilzo.c:2401-2430 | Checksums of consecutive pieces chain to the checksum of the whole |
| `JumpRelax.RelaxJumps` | sources/core/ir.c:2857-2866 | The loop ends; offsets are positions; each jump it shortened is in reach, each near jump left is not |
| `JumpRelax.Turn` | sources/core/ir.c:2860-2863 | One turn keeps all that and, if an offset changed, makes the code strictly shorter |
| `JumpRelax.UpdateOffsets` | sources/core/ir.c:2620-2633 | Offsets become positions, nothing else changes; the result tells whether any offset changed |
| `JumpRelax.SetInnerJumpLength` | sources/core/ir.c:2665-2716 | Exactly the near jumps that fit by the stale offsets become short |
| `JumpRelax.DistancesShrink` | sources/core/ir.c:2665-2716 | Shortening never lengthens the distance between two nodes |
| `JumpRelax.FitsIffByteHolds` | sources/core/ir.c:2665-2716 | In reach means that one signed byte holds the displacement |
| `JumpRelax.FitsForGood` | sources/core/ir.c:2680-2688 | A jump that is in reach stays in reach however the others are shortened |
| `JumpRelax.NoScheduleIsShorter` | sources/core/ir.c:2857-2866 | No order of shortening jumps one at a time gives shorter code than the passes with stale offsets |
| `JumpRelax.ResolveDest` | sources/core/ir.c:2637-2658 | Destinations become first nodes or the node after the last; the BUG_ON is met exactly if that node does not exist |
| `JumpRelax.SetInnerJumpDisp` | sources/core/ir.c:2726-2750 | Displacements of all inner transfers; the BUG_ON is met exactly if a short jump is out of reach |
| `JumpRelax.TransferLands` | sources/core/ir.c:2726-2750 | With the stored, sign-extended displacement each inner transfer lands on its destination node |
| `JumpRelax.FinishCode` | sources/core/ir.c:2857-2866 | Relaxation and displacements together: no BUG_ON if the jumps short from the start fit then, and every transfer lands |
| `JumpRelax.FillJumpTable` | sources/core/ir.c:2755-2772 | Each table entry becomes the position of its node's first replacement |
| `ThreadRuns.AllRuns` | sources/core/tid.c:366-705 | Every interleaving of thread entries, exits, task reuse and collections: start/end alternate per ID, the table holds exactly the open IDs once each, ends are reported only of ended threads, whoever entered stays known while alive |
| `ThreadRuns.EveryState` | sources/core/tid.c:366-705 | The same spelled out: alternation, one item per ID exactly while its last event is a start, every living thread that entered is in the table |
| `ThreadRuns.StepKeepsInv` | sources/core/tid.c:366-705 | Each step keeps the invariant |
| `ThreadRuns.StepTruthful` | sources/core/tid.c:324-327 | Each step reports an end only of a thread that no longer exists, a start only of one that does |
| `ThreadTable.IsNew` | sources/core/tid.c:674-702 | The lock-free look-up in the bucket of its ID says "new" exactly if this thread, by ID and start time, is nowhere in the table |
| `ThreadTable.SameThreadExact` | sources/core/tid.c:205-216 | A marked item is recognised by its own task and by no other |
| `ThreadSpec.MarkRoundTrip` | sources/core/tid.c:181-202 | Clearing and setting the top bit restores an ID if and only if the bit was set |
| `ThreadSpec.AddConsistent` | sources/core/tid.c:292-409 | Adding a thread keeps events alternating and the table in agreement with them |
| `ThreadSpec.SweepConsistent` | sources/core/tid.c:462-551 | So does a collection |
| `ThreadSpec.BucketSweep` | sources/core/tid.c:462-485 | The ends of one bucket close exactly the threads that were removed |
| `ThreadSpec.OneEnd` | sources/core/tid.c:324-327 | At most one end is reported when a thread is added, exactly if its ID was there |
| `ThreadSpec.Survivors` | sources/core/tid.c:462-485 | The survivors are the items with a live task of the same ID and start time |
| `ThreadFailure.AddFailureExact` | sources/core/tid.c:303-342 | When memory runs out while adding: table and events still agree if and only if it did not run out between the old item of the same ID and the end of the bucket |
| `ThreadFailure.GcFailureExact` | sources/core/tid.c:526-551 | When memory runs out in a collection: they agree if and only if it ran out in the copy or not at all |
| `ThreadFailure.EndReportedTwice` | sources/core/tid.c:538-543 | A collection short of one record, then another: the same end twice |
| `ThreadFailure.OutcomesWellPlaced` | sources/core/tid.c:292-562 | Even then items stay in their buckets, once each |
| `ThreadMemory.Updater.RunUpdates` | sources/core/tid.c:366-562 | Any updates, each with any memory, in any interleaving with readers and RCU callbacks: every step is one the memory allows, table and events are what the updates make of them one after the other, nothing is left under construction or unretired, and readers are safe in every state |
| `ThreadMemory.Updater.AddThreadInfo` | sources/core/tid.c:366-409 | Adding a thread step by step on memory, all failure exits included: table and events as specified, error exactly if memory is short, no bucket and no record left over |
| `ThreadMemory.Updater.CreateNewBucket` | sources/core/tid.c:292-342 | The new bucket, the ends reported and the allocations used; when memory runs out the partial bucket is deleted and the memory is as before |
| `ThreadMemory.Updater.SwapIn` | sources/core/tid.c:400-405 | Publishing a bucket and giving the old one to call_rcu changes one bucket of the table and leaves nothing unretired |
| `ThreadMemory.Updater.CopyThreadTable` | sources/core/tid.c:426-455 | Every item copied into the shadow table and marked dead, the table untouched; fails exactly if memory is short |
| `ThreadMemory.Updater.VisitTask` | sources/core/tid.c:509-521 | Exactly the item with the same ID and start time is marked live, in the shadow table only |
| `ThreadMemory.Updater.RemoveDeadItems` | sources/core/tid.c:462-485 | What is left of the shadow bucket is the old bucket, in order, without the items that have no live task; one end for each of those; an empty bucket is gone |
| `ThreadMemory.Updater.SweepBucket` | sources/core/tid.c:530-550 | One bucket: deleted from the shadow table if nothing changed, otherwise published and the old one retired; without memory for the record it stays in the shadow table |
| `ThreadMemory.Updater.Sweep` | sources/core/tid.c:526-551 | How many buckets are published and which ends are reported with the memory there is |
| `ThreadMemory.Updater.ClearShadow` | sources/core/tid.c:412-420 | Every shadow bucket is deleted: nothing of the collection is left, on every exit |
| `ThreadMemory.Updater.CollectGarbage` | sources/core/tid.c:490-562 | The whole collection on memory against its specification, for any tasks, memory and interleaving |
| `ThreadMemory.Updater.NoLeak` | sources/core/tid.c:366-562 | Between updates every bucket in memory is in the table or waiting for its grace period |
| `ThreadMemory.SnapshotIsTable` | sources/core/tid.c:675-690 | What a reader finds, however late in its critical section, is what the table held when it dereferenced it |
| `ThreadMemory.Updater.Stop` | sources/core/tid.c:585-595 | After the stop callbacks are pending if and only if one of the collections, however many, that ran between rcu_barrier and del_timer_sync replaced a bucket of the table the earlier ones left, which needs memory for all copies and one record, and something to remove; all other memory is freed |
| `ThreadMemory.Updater.CollectAll` | sources/core/tid.c:490-562 | Any number of collections one after the other: table and events as specified, and whether some bucket waits for a grace period |
| `ThreadMemory.StopTooEarly` | sources/core/tid.c:585-595 | One ended thread and a timer that fires then: a callback is pending after the stop |
| `ThreadRefinement.UpdateIsStep` | sources/core/tid.c:366-562 | An update with enough memory makes of table and events exactly what one step of the interleavings of threads and collections does |
| `ThreadRefinement.RunIsUpdates` | sources/core/tid.c:366-562 | So the updates of a whole interleaving, one after the other, give its table and events |
| `ThreadRefinement.UpdatesOf` | sources/core/tid.c:366-562 | Every interleaving has such updates |
| `ThreadRefinement.RunOnMemory` | sources/core/tid.c:366-562 | Any interleaving of threads and collections, carried out on memory among readers and RCU callbacks: the memory denotes its table at the end, the events are its events, its invariant holds, and readers are safe in every state |
| `Rcu.ReadersAreSafe` | sources/core/tid.c:350-357 | In every run no reader sees a bucket freed or changed before it leaves its critical section; every bucket in memory is accounted for |
| `Rcu.StaleSnapshot` | sources/core/tid.c:675-690 | A bucket dereferenced in a critical section stays as it was found until the section ends |
| `Rcu.StepKeepsInv` | sources/core/tid.c:391-409 | Each read, publication, retirement and reclaim step keeps this |
| `BlockRecord.WholeBlock` | sources/core/handlers.c:428-465 | Count, fill, instrument, execute and report compose: the report is exactly the events of the run, in order, and the storage is clear afterwards |
| `BlockRecord.OperationReported` | sources/core/ir.c:2341-2417 | Event j of the k-th operation stands at its number, with its pc; its address and size are those of the access, 0 and the static size if it was skipped; it is a read, a write or an update by the class of the instruction and its operand, for exchanges by the run-time bit |
| `BlockRecord.BlockInfo.Fill` | sources/core/ir.c:1663-1722 | Masks, pcs and sizes describe the block's events and nothing else; as many as were counted |
| `BlockRecord.BlockInfo.FillOp` | sources/core/ir.c:1486-1662 | The bits and entries of one instruction, in the order of the tests of fill_block_info |
| `BlockRecord.Advance` | sources/core/ir.c:2341-2417 | The different order of tests in the instrumentation advances both counters as they were counted |
| `BlockRecord.Instrument` | sources/core/ir.c:2421-2486 | No BUG_ON is met and each operation gets its own number and slots |
| `BlockRecord.LocalStorage.RecordOp` | sources/core/transform.c:1436-1478 | What an operation did is added to the slots recorded so far and to nothing else |
| `BlockRecord.RecordedHolds` | sources/core/transform.c:1436-1478 | The slots that an operation writes extend what was recorded by exactly its own access |
| `BlockRecord.ReportSlots` | sources/core/handlers.c:428-465 | The walk by string_mask reads back each event from its own slots |
| `BlockRecord.LocalStorage.BlockEnd` | sources/core/handlers.c:503-524 | Report unless sampled out, then values, write mask and destination all zero |
| `Blocks.Function.CreateBlocks` | sources/core/ir.c:1727-1802 | Separate instructions alone, targets of backward jumps and jump tables start blocks, jumps in common blocks forward, slots at most 32, counts right, no needless cut; the type of every block by its instruction, clause by clause |
| `Blocks.Function.SetBlockStarts` | sources/core/ir.c:1233-1340 | Which nodes one instruction makes block starts, and the type it gives |
| `Blocks.TypeIs` | sources/core/ir.c:1233-1340 | The type of each node by its instruction: one clause for each type on the kind of instruction, whether it leaves the function and whether its destination lies before it |
| `Blocks.Function.FirstPass` | sources/core/ir.c:1741-1746 | The marks after all instructions were seen |
| `Blocks.Function.SecondPass` | sources/core/ir.c:1748-1780 | Long blocks are cut, types adjusted, block information created for all but the last block |
| `Blocks.Function.CreateBlockInfo` | sources/core/ir.c:1367-1408 | No BUG_ON is met for decoded code |
| `Blocks.Function.MarkJumpsOut` | sources/core/ir.c:1452-1484 | Last node and jumps out of a common block |
| `Blocks.Function.ThirdPass` | sources/core/ir.c:1789-1800 | All common blocks with events have their jumps out marked, nothing else changes |
| `Blocks.AllCountedIff` | sources/core/ir.c:1781-1787 | Every event is counted if and only if there are none from the last node on that starts a block whatever the slots: the first node, a jump table entry, or one that the first pass marks |
| `Blocks.LoneAccessIsLost` | sources/core/ir.c:1781-1787 | A function that consists of one read: its event is not counted |
| `Blocks.CutIsTracked` | sources/core/ir.c:1748-1780 | A block that was started because the one before it was full starts with a tracked operation |
| `Blocks.InfoMissingIff` | sources/core/ir.c:2490-2524 | The instrumentation meets a block without its information (BUG_ON) if and only if the function ends in a locked update or an I/O memory operation |
| `Blocks.LoneLockedFails` | sources/core/ir.c:2490-2504 | A function that consists of one locked update meets that BUG_ON |
| `Blocks.EndsInTransfer` | sources/core/ir.c:1781-1787 | A function that ends in a control transfer meets that condition |
| `Blocks.BlocksInOrder` | sources/core/ir.c:1727-1802 | Blocks do not overlap |
| `Phase1.Phase1Simulates` | sources/core/ir.c:2544-2581 | After any number of steps in which no conditional jump out of the function was executed and not taken (except with the address of the storage in both registers it spoils), the instrumented function is where the original is, in corresponding states, and never touches a storage that is not there |
| `Phase1.SimulatesIffHarmless` | sources/core/ir.c:2544-2581 | This is exact: a run passes no such jump by if and only if original and instrumented function agree after each of its steps |
| `Phase1.HarmfulRunDiffers` | sources/core/transform.c:618-653 | A run that does has a number of steps after which they disagree |
| `Phase1.StepSimulates` | sources/core/ir.c:2551-2581 | One instruction of any kind: the instrumented code does the same if and only if it is not a conditional jump out that is not taken while `%rax` and the base register of the original hold anything but the address of the storage |
| `Phase1.InstrumentPhase1` | sources/core/ir.c:2551-2581 | The pass, by the types of the nodes, succeeds on all decoded code of a split function: each instruction meets the handler that is made for it, and a work register is always found |
| `Phase1.TypesAreRight` | sources/core/ir.c:1235-1341 | Block creation gives indirect calls, the two kinds of indirect jumps, and direct calls and jumps out the types by which phase 1 finds their handlers, and no other instruction |
| `Phase1.SplitAndRelease` | sources/core/ir.c:2551-2581 | Block creation and phase 1 together |
| `Phase1.UsageIs` | sources/core/ir.c:2253-2300 | The usage that is compared is the number of instructions that use the register |
| `Phase1.EntryArguments` | sources/core/transform.c:210-237 | When the entry handler is called, %rax points to the function information and the six argument registers, in this order |
| `Phase1.ChooseBase` | sources/core/ir.c:2253-2300 | The least used register among those a callee must preserve; error exactly if an instruction uses all registers |
| `Phase1.ChooseRegister` | sources/core/util.c:84-103 | The lowest register to choose from that is not used, none exactly if there is none |
| `Phase1.EntryEstablishes` | sources/core/transform.c:191-276 | With a storage, the correspondence holds at the first instruction |
| `Phase1.EntryFallback` | sources/core/transform.c:191-276 | Without one, the fallback starts in the original registers |
| `Phase1.ConditionalExitFails` | sources/core/transform.c:618-653 | A concrete conditional jump out, not taken, after which the correspondence does not hold |
| `ReleaseBase.GeneralCase` | sources/core/transform.c:785-827 | An instruction that uses the base register runs in the original registers and leaves the correspondence |
| `ReleaseBase.Untouched` | sources/core/transform.c:785-794 | An instruction that does not use it may stay as it is |
| `ReleaseBase.SimpleExit` | sources/core/transform.c:297-327 | The exit runs in the original registers, after the storage was released and never used again |
| `ReleaseBase.DirectCall` | sources/core/transform.c:559-597 | The callee gets the caller's registers and the correspondence holds after it |
| `ReleaseBase.IndirectCall` | sources/core/transform.c:370-437 | The same with the target that the original expression denotes, if no other thread writes the call information meanwhile |
| `ReleaseBase.IndirectJump` | sources/core/transform.c:526-546 | A jump out by expression goes to the original target in the original registers, if no other thread writes the call information meanwhile |
| `SharedCall.CallAmong` | sources/core/transform.c:370-437 | With any accesses of other threads to the call information between any two instructions: which function is called, everything else as in the original |
| `SharedCall.JumpAmong` | sources/core/transform.c:526-546 | The same for jumps: where control goes |
| `SharedCall.ReachedInSchedule` | sources/core/handlers.c:309-321 | What one thread meets in the code is what the accesses of all threads together make of the call information |
| `SharedCall.CalledIs` | sources/core/handlers.c:309-321 | The thunk goes where the store leads that was the last one before the last fill's thread read the target |
| `SharedCall.ReachesOwnIff` | sources/core/handlers.c:309-321 | In every schedule in which each thread stores, reads, fills and jumps in this order, each jump has a last fill before it, that fill a last read and that read a last store; the call reaches its own target if and only if that store stored the same target |
| `SharedCall.ReachesOwn` | sources/core/handlers.c:309-321 | So it does if no thread stores a different target from its own store on, and none fills with what it read before |
| `SharedCall.OtherTargetCalled` | sources/core/handlers.c:309-321 | Two threads in the same call instruction: one calls the target of the other |
| `SharedCall.OldTargetCalled` | sources/core/handlers.c:309-321 | And so even if the other one stored its target first |
| `ReleaseBase.DirectJump` | sources/core/transform.c:618-653 | A jump out keeps the correspondence if and only if it is unconditional or taken, or the clobbered registers held the storage address anyway |
| `ReleaseBase.TableJump` | sources/core/transform.c:461-514 | A jump by table that uses the base register goes to the same node |
| `ReleaseBase.RunEvalAddr` | sources/core/transform.c:82-122 | The word at the expression is what the original would load; only the work register changes |
| `RecordAccess.RecordsAddress` | sources/core/transform.c:1315-1356 | The address the original would compute is recorded, whether or not the base register is in it |
| `RecordAccess.RecordsIfCondition` | sources/core/transform.c:1368-1407 | For SETcc and CMOVcc exactly if the condition holds |
| `RecordAccess.NotesWrite` | sources/core/transform.c:1436-1478 | The write bit is set exactly if the exchange took place; flags kept |
| `RecordAccess.RecordsXlat` | sources/core/transform.c:1548-1580 | The address of the byte that XLAT reads, also when the base register is %rbx |
| `RecordAccess.RecordsOffset` | sources/core/transform.c:1596-1632 | The absolute address of an offset MOV |
| `StringOps.RecordsRange` | sources/core/transform.c:1691-1778 | X and Y: start and length recorded are exactly the bytes touched, either direction; a zero count records nothing; registers and flags restored |
| `StringOps.RecordsBoth` | sources/core/transform.c:1846-1934 | XY: the same for both ranges |
| `StringOps.RangeIsTouched` | sources/core/transform.c:1645-1682 | A byte is in the recorded range if and only if it belongs to one of the elements |
| `BlockEnd.RunEnd` | sources/core/transform.c:982-1043 | The code at the block end: flags, registers and stack restored, destination kept in `temp` |
| `BlockEnd.EndWithoutJumps` | sources/core/transform.c:924-941 | The shorter end of a block without jumps out |
| `FlatCode.RunFlat` | sources/core/ir.c:2637-2658 | Running the nodes of generated code, its jumps resolved past the last node of what they skip, is running the code, with the same calls of handlers |
| `BlockLayout.JumpOutNodes` | sources/core/transform.c:1215-1275 | In the resolved list the inverted jump leads past the jump out, the MOV refers to the first node of the destination, the jump leads past the last node of the block |
| `BlockLayout.RunJumpOut` | sources/core/transform.c:1215-1275 | A jump out of a block: to the code of the block end with the destination stored if taken, on to the next instruction if not |
| `BlockLayout.RunInnerJump` | sources/core/ir.c:2637-2658 | A jump within a block goes to the first node of its destination |
| `BlockLayout.RunInsn` | sources/core/ir.c:2453-2468 | The nodes of an instruction are its recording code, the instruction and what follows it |
| `BlockLayout.RunTail` | sources/core/transform.c:982-1043 | The nodes after the last one of a block, with their own jump over POPF and indirect jump: the handler is called once, control leaves for the stored destination or the next block |
| `BlockLayout.RunHandler` | sources/core/transform.c:924-941 | The nodes after a block without jumps out call the handler once and lead to the next block |
| `BlockPaths.BlockRuns` | sources/core/ir.c:2420-2481 | Every way through the laid-out nodes of a common block, from any instruction: exactly one call of the handler, with exactly the accesses of the original's run recorded; control leaves for the node of the instruction the original continues with, everything restored, the storage clear |
| `BlockPaths.WholeBlock` | sources/core/ir.c:2420-2481 | The same from the first instruction of the block |
| `BlockPaths.HandlerReports` | sources/core/handlers.c:428-465 | A handler called on the way reports the events of the original's accesses, in order |
| `SplitBlocks.SplitIsGood` | sources/core/ir.c:2420-2481 | A common block of a split function with its instructions recorded and its jumps redirected by the marks is such a block, and its information counts its events |
| `SplitBlocks.SplitBlockReports` | sources/core/ir.c:2420-2481 | From block creation through the recorded and laid-out nodes to the report: exactly the events of what the original accesses |
| `BlockWalks.MarchFollows` | sources/core/ir.c:2583-2613 | After any number of passages through common blocks, entered anywhere, instructions to which nothing is added and jumps back: control is at the node of the instruction the original is at, the states correspond, the storage is clear, and the handler was called once for each passage with exactly its accesses |
| `BlockWalks.BlockFrom` | sources/core/ir.c:2420-2481 | A common block entered at any of its instructions with a clear storage: what was skipped is recorded as skipped |
| `BlockWalks.FreeRuns` | sources/core/ir.c:2583-2613 | An instruction of a block without events, or a jump back, calls no handler and leads where the original goes |
| `BlockWalks.ReportWalk` | sources/core/handlers.c:428-465 | The handlers called on the way report the events of the accesses, passage by passage |
| `SplitWalks.SplitFollows` | sources/core/ir.c:2583-2613 | The same from the marks of block creation: every run of a split function through its common blocks, blocks without events and jumps back |
| `SplitWalks.SplitFunctionReports` | sources/core/ir.c:2583-2613 | From block creation to the reports of a whole run: together they are the events of what the original accesses, in the order of the blocks it passes through |
| `SplitWalks.PartsAreGood` | sources/core/ir.c:2583-2613 | The blocks of a split function, instrumented by their types, are the stretches of such runs |
| `SplitBlocks.MovRefersAhead` | sources/core/i13n.c:404-412 | However the nodes are encoded, the MOV of a jump out refers strictly past the next instruction, so that its stored offset is not 0 (BUG_ON) in code below 4 GB |
| `SplitBlocks.AddressesDiffer` | sources/core/i13n.c:463-483 | Nodes placed one after the other have addresses of their own, none of them 0 |
| `RecordedNodes.OnlySpills` | sources/core/transform.c:785-827 | Freeing the base register around a straight-line instruction uses spill slots only |
| `RecordedNodes.Untracked` | sources/core/transform.c:785-827 | An instruction that is not tracked does what the original does in its place in a block |
| `RecordedNodes.TypeEM` | sources/core/transform.c:1494-1518 | So do PUSH, POP, MOVBE and operations with an addressing expression, and their slot holds the address the original computes |
| `RecordedNodes.Conditional` | sources/core/transform.c:1368-1415 | SETcc and CMOVcc: recorded exactly if the condition holds |
| `RecordedNodes.Exchanges` | sources/core/transform.c:1436-1478 | CMPXCHG*: address before, write bit after, set exactly if the exchange took place |
| `RecordedNodes.TypeXlat` | sources/core/transform.c:1548-1590 | XLAT |
| `RecordedNodes.TypeOffset` | sources/core/transform.c:1596-1620 | MOV with an absolute offset |
| `RecordedNodes.TypeXOrY` | sources/core/transform.c:1691-1778 | String operations of type X and Y over any number of elements in either direction |
| `RecordedNodes.TypeXY` | sources/core/transform.c:1846-1935 | MOVS and CMPS: both ranges |
| `Deploy.RelocateFallback` | sources/core/i13n.c:203-276 | In the whole copy, a transfer to a place strictly inside the function goes to the same place in the copy, other transfers and RIP-relative operands still mean the same address if and only if 32 bits can express it, nothing else changes |
| `Deploy.RelocateInsn` | sources/core/i13n.c:208-264 | The same for one instruction |
| `Deploy.FixupFallbackTable` | sources/core/i13n.c:487-508 | Jump tables of the fallback copy point to the same places in it |
| `Deploy.DeployFunction` | sources/core/i13n.c:441-459 | No BUG_ON exactly if no offset to become an address is 0; then every relocated instruction and table entry denotes its target; no other instruction changes |
| `Deploy.Relocate` | sources/core/i13n.c:371-421 | One relocation of either kind; an instruction that is neither a transfer nor RIP-relative is left alone; the exact BUG_ON condition |
| `Deploy.FixupTable` | sources/core/i13n.c:349-367 | Offsets in jump tables become addresses |
| `Deploy.HoldsIffInReach` | sources/core/i13n.c:371-421 | 32 bits hold a displacement if and only if it is within 2 GB |
| `Deploy.BufferSize` | sources/core/i13n.c:326-342 | The size allocated for the detour buffer |
| `Deploy.PlaceImages` | sources/core/i13n.c:463-483 | Images are aligned, inside the buffer, one after the other |
| `Deploy.ImagesDisjoint` | sources/core/i13n.c:463-483 | No two images share a byte |
| `Session.Core.RunCalls` | sources/core/module.c:496-1204 | After any sequence of loads, unloads and registration calls, through failed session starts: a BUG_ON is met only when handlers are unregistered during a session or at a load in a broken one; otherwise num_loaded counts the loaded targets, exactly one reference for each role and plugin is held while it is positive, none and no per-target data otherwise; every loaded target is instrumented and has data of its own exactly as the call says that loaded it |
| `Session.Core.OnLoad` | sources/core/module.c:896-948 | Who becomes a target; BUG_ON exactly if it still has a module; the session breaks exactly at a first load with a provider or plugin that is going away; otherwise the module is listed, instrumented if that succeeds, and has data of its own exactly if it is instrumented, there is a plugin and there is memory |
| `Session.Core.Join` | sources/core/fh_impl.c:352-388 | The same for a target that comes to a session that is not broken |
| `Session.Core.Reload` | sources/core/module.c:496-993 | Load, unload and load again: a BUG_ON if and only if the first load broke the session |
| `Session.ReloadFails` | sources/core/module.c:496-993 | Handlers whose module is going away: the second load of the target meets the BUG_ON |
| `Session.Core.OnUnload` | sources/core/module.c:955-993 | In a broken session nothing changes and the target keeps its module; otherwise exactly this target and its data are gone; the last one puts exactly the references, and no per-target data is left |
| `Session.HeldCount` | sources/core/module.c:606-631 | A session holds a module once for each role it provides and once for each plugin it owns |
| `Session.Core.ProvidersGet` | sources/core/module.c:606-631 | All references or none |
| `Session.Core.ProvidersPut` | sources/core/module.c:634-640 | Exactly the providers' references are put |
| `Session.Core.PluginsGet` | sources/core/fh_impl.c:132-159 | All references or none |
| `Session.Core.PluginsPut` | sources/core/fh_impl.c:162-170 | Exactly the owners' references are put |
| `Session.Core.SessionStart` | sources/core/module.c:771-790 | Fails exactly if a provider or a plugin owner is going away; all references or none |
| `Session.Core.SessionEnd` | sources/core/module.c:792-802 | No reference is left |
| `Session.Core.DestroyData` | sources/core/fh_impl.c:473-504 | The data of one module goes, all other data stays |
| `Session.Core.SetProvider` | sources/core/module.c:688-725 | Refused exactly during a session or when another one is set |
| `Session.Core.ResetProvider` | sources/core/module.c:1081-1110 | Refused exactly during a session |
| `Session.Core.UnregisterHandlers` | sources/core/module.c:725-758 | The default handlers are restored whosever handlers are registered; a BUG_ON exactly during a session, when the provider stays; tells handlers that are not the registered ones |
| `Session.Core.RegisterPlugin` | sources/core/module.c:1157-1183 | Refused exactly during a session or if the plugin cannot be kept apart |
| `Session.Core.UnregisterPlugin` | sources/core/module.c:1186-1210 | Refused exactly during a session |
| `Session.BooksAfterLoad` | sources/core/module.c:896-948 | A load keeps the books: count, references, per-target data |
| `Session.BooksAfterUnload` | sources/core/module.c:958-993 | So does an unload |
| `HandlerIndex.LookupAgreesWithScan` | sources/core/fh_impl.c:561-582 | Look-up finds handlers if and only if there was memory for the table and some plugin lists the function; they are that plugin's, and no other plugin lists it |
| `HandlerIndex.Lookup` | sources/core/fh_impl.c:561-582 | The binary search finds an entry for the function exactly if there is one |
| `HandlerIndex.Register` | sources/core/fh_impl.c:78-111 | Accepted exactly if the owner is known and plugin and functions are new; keeps plugins apart |
| `HandlerIndex.Unregister` | sources/core/fh_impl.c:113-130 | Exactly this plugin goes |
| `HandlerIndex.FunctionSetBad` | sources/core/fh_impl.c:57-76 | True exactly if some function is already handled |
| `HandlerIndex.HandlesFunction` | sources/core/fh_impl.c:41-55 | True exactly if the plugin lists the function |
| `HandlerIndex.TablePointer.RunSessions` | sources/core/fh_impl.c:223-288 | Over any sessions: the handler table is freed a second time if and only if a session with a table is followed by one without handlers, and first at the end of that one |
| `HandlerIndex.TablePointer.Prepare` | sources/core/fh_impl.c:223-250 | Without handlers the pointer stays as it is; without memory it is NULL; otherwise it points to memory of its own |
| `HandlerIndex.TablePointer.Destroy` | sources/core/fh_impl.c:282-288 | Frees what the pointer points to and leaves the pointer; right exactly if it is NULL or still allocated |
| `HandlerIndex.TableFreedTwice` | sources/core/fh_impl.c:239-288 | A session with one handler, then one with none: the second one frees the table again |
| `HandlerIndex.CountHandlers` | sources/core/fh_impl.c:230-238 | The number of all handlers of all plugins |
| `HandlerIndex.CollectHandlers` | sources/core/fh_impl.c:217-280 | As many entries as were counted, all handlers of all plugins; none without memory |
| `FuncBounds.ComputeSizes` | sources/core/ifunc.c:581-585 | Sizes by neighbour subtraction, none negative, the last one 0 |
| `FuncBounds.SortIsUnique` | sources/core/ifunc.c:353-376 | The order by address and index leaves only one sorted result, whatever sort() does |
| `FuncBounds.TotalOrder` | sources/core/ifunc.c:353-376 | The comparison is a strict total order on items with different indices |
| `FuncBounds.Disjoint` | sources/core/ifunc.c:557-585 | No address belongs to two items |
| `FuncBounds.Covered` | sources/core/ifunc.c:557-585 | Every address of the span belongs to one |
| `FuncBounds.Telescopes` | sources/core/ifunc.c:581-585 | The sizes add up to the span |
| `FuncBounds.StopsAtAreaEnd` | sources/core/ifunc.c:291-335 | No function reaches past the end of its area |
| `FuncBounds.OneOfTheAliases` | sources/core/ifunc.c:400-434 | Of several symbols at one address only the last can have a size |
| `FuncBounds.MarkersFirst` | sources/core/ifunc.c:552-571 | An area end sorts before functions at the same address and takes nothing from them |
| `FuncBounds.RemoveSmall` | sources/core/ifunc.c:421-434 | The functions kept are exactly those of at least 5 bytes, all at different addresses |
| `Sampling.NextReported` | sources/core/handlers.c:471-501 | After reported execution e the next reported one is e + (((e - 1) mod 2^32) >> (32 - r)) + 1, for every e and every rate from 1 to 31 |
| `Sampling.GapIs` | sources/core/handlers.c:496-499 | The gap is one more than the number of whole 2^(32-r) below the position of the execution |
| `Sampling.GapBound` | sources/core/handlers.c:496-499 | A gap is at most 2^r, so its 32-bit signed counter counts it down exactly |
| `Sampling.AfterReport` | sources/core/handlers.c:494-499 | After a report the counter has run ahead to the next one |
| `Sampling.Sampler.ShouldReport` | sources/core/handlers.c:471-501 | One execution: totals, and the counters in their 32-bit fields |
| `Sampling.Sampler.Executions` | sources/core/handlers.c:471-501 | Over any number of executions total = reported + skipped |

## Left out

- The x86 decoder, register masks and instruction attributes: taken as given by abstract decoded instructions.
- The byte encodings of the instruction generator (sources/core/insn_gen.c): each generated instruction is a constructor with its effect.
- The assembly of thunks and wrappers: their documented contract is used.
- The x86-32 variants (PUSHAD, POPAD, and `%esi`/`%edi` as base register), interrupts inside instrumented sequences, and memory ordering beyond publication and grace periods.
- J*CXZ and LOOP*: their expansion, and their combination with block handlers.
- Handlers that replace a called function: the fill sets the replacement to the target.
- Overlaps of several jump tables (sources/core/ir.c:657-685).
- Pseudo threads for interrupts and swapper threads: their single start event is guarded by one flag each.
- Locked updates and I/O operations: their pre and post handlers; the recording and reporting of their one event is that of any block.
- Filtering of stack and user-space addresses before events are passed on.
- Trimming of padding at function ends (`skip_trailing_zeros`, `do_adjust_size`).
- Copying the generated bytes into the temporary buffer and the relocation list made on the way.
- debugfs, kallsyms, module memory, page attributes, mutexes that are interrupted, annotations and hooks.
- LzoDecompress.DecompressSafe: for an input that ends too early it only says `OverRead`; what the original reads there is not modelled.
- Phase1.Phase1Simulates: not for runs that pass a conditional jump out of the function by with other register values, on all of which it is false (`Phase1.SimulatesIffHarmless`).
- Phase1.Phase1Simulates: for one thread at a time; another thread in the same indirect call can change its target, `SharedCall` says when.
- SplitBlocks.SplitIsGood: not for blocks with a direct call to a later place of the same function, which the source redirects like a jump.
- SplitBlocks.SplitBlockReports: likewise.
- SplitWalks.SplitFollows: a run is followed up to the first locked update, I/O operation, barrier, call or exit, or a block with such a call inside.
- SplitWalks.SplitFunctionReports: likewise.
- ReleaseBase.IndirectCall: for a thread that is alone with the call information; `SharedCall.CallAmong` is the general case.
- ReleaseBase.IndirectJump: likewise; `SharedCall.JumpAmong` is the general case.
- RecordedNodes.TypeXOrY: for operations that do not wrap around the address space.
- RecordedNodes.TypeXY: likewise.
- ThreadMemory.Updater.RunUpdates: the items of a bucket have no addresses of their own; a bucket is allocated with its first item, grows with the others and is freed as a whole.
- ThreadMemory.Updater.Stop: no readers and no callbacks of this kind run while the stop does.
