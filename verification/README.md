# Verified models of five header cores

This project models the executable parts of five C headers and proves what they promise:

- **The object stack** (`includes/obstack.h`). A region allocator: one growing object and a stack of finished
  ones, carved out of a chain of chunks. `ObstackSpec.dfy` gives each operation as a function on states with
  byte-addressed memory; `Obstack.dfy` is the control record with its two library functions, and
  `GnuMacros.dfy` and `PortableMacros.dfy` are the two families of macros, statement by statement, each proved to
  do exactly those steps. `ObstackSteps.dfy` proves the heap invariant and the refinement to a plain stack of byte
  strings, `ObstackRuns.dfy` what holds over whole runs, `ObstackHistory.dfy` what the requests for chunks and the
  empty-object flag say about a run so far, `ObstackPacked.dfy` where objects lie and how they are
  aligned, `ObstackClients.dfy` that the two families cannot be told apart, and
  `ObstackLengths.dfy` for which lengths that is so in C. `Bits.dfy`, `Align.dfy` and `Heap.dfy`
  hold the bit operators, the alignment macros and the memory.
- **Cancellation clean-up** (`includes/pthread.h`). Three expansions of push and pop over straight-line programs
  with nested blocks, cancellation points, `pthread_exit`, type changes and `break`. `Cleanup.dfy` has the
  meaning and the theorems, `CleanupExpansions.dfy` the three expansions as methods on frames, buffers and a thread.
- **argz iteration** (`includes/argz.h`), `Argz.dfy`.
- **The compatibility node mask** (`includes/numa.h`), `NodeMask.dfy`.
- **Fence accumulation** (`includes/libsync.h`), `Sync.dfy`, over a descriptor table and a script of kernel replies.

Check with `dafny verify dfyconfig.toml`.

## Modelling decisions

- The bodies of `_obstack_newchunk` and of the function behind `obstack_free` are not in the header. Theirs here
  follow what the header says of them: copy the partial object to the first position of a new chunk, release the
  old chunk when the growing object was all there was in it and the empty-object flag is clear, and release chunks
  down to the one that holds the address given. `Suitable` says what the allocator must return: a block apart
  from all chunks in use, no smaller than the preferred size, and big enough for any position of the first object.
  Any such block may be returned, so the proofs cover every sizing rule. `NewChunkHoldsMore` gives the sense in which
  the chunk is larger. Returning to an older chunk sets the flag; `ClearedFlagWouldDangle` shows why it must.
- The state also records the live finished objects and the calls made to the two library functions. Neither is
  read by any operation; the record of calls makes "the same slow paths are taken" part of the families' agreement.
- `includes/obstack.h:132-134` aligns relative to address 0 or to the base, depending on the platform. Both are
  modelled; `Platform` carries the sizes that decide.
- Spelling out `& ~A` bit by bit, the alignment macro is right for every address exactly when `A + 1` is a power
  of two, so that comment of the header is a precise condition.
- The header asks for push and pop at the same nesting level of braces, which does not exclude a `break` in the
  body. There the expansions differ: in the first two it leaves the only loop there is, skips the pop and runs the
  handler regardless of `execute`; in the third it leaves an inner loop and reaches the pop.
  `AgreeExactlyWhenBreaksSafe` gives the exact condition under which all make the same handler calls. Skipping the
  pop also skips restoring the cancellation type, even where the handler calls agree: `TypeRestored` and
  `SameTypeExactly` give the exact conditions for the type, and `BreakLeavesDeferred` the smallest failure.
- `includes/argz.h:138-151` calls the two loops equivalent styles. With a non-null pointer to a vector of length 0
  the second visits one bogus entry; `BothStyles` states exactly when they agree.
- `sync_accumulate` returns 0 even when `dup` fails, and then holds nothing. So a call that reported success may have
  been dropped; `Accumulate` states that the held descriptor stands for all successful calls exactly when `dup` does
  not fail for the first open descriptor passed, and `DupFailureGoesUnreported` shows the smallest loss.
- The specification of the object stack takes lengths of any size. The macros convert them, GNU C to `int`, the
  portable family to the pointer-difference type of `temp` and then, as an argument, to `int`; the methods of
  both families do so too, and require exactly that the conversions keep what is meant. `int` has 32 bits, and the
  pointer-difference type at least as many. `ObstackLengths.dfy` has the exact conditions for all lengths.

## Model

| member | source | states |
|---|---|---|
| `Align.AlignsExactlyForPowersOfTwo` | includes/obstack.h:119-123 | the bit trick gives the least address at or above P that differs from B by a multiple of A + 1, for all B and P, exactly when A + 1 is a power of two |
| `Bits.PowersOfTwo` | includes/obstack.h:121-121 | the powers of two meant there are exactly the numbers 2^k |
| `Align.BaseFormsAgree` | includes/obstack.h:125-134 | at every address from the base on, aligning relative to the base and relative to 0 agree exactly when the base is aligned |
| `Align.PtrAlignBySizes` | includes/obstack.h:125-134 | the macro gives the one multiple of A + 1 among P, ..., P + A, counted from 0 where the pointer-difference type is at least as large as a pointer and from the base where it is smaller |
| `ObstackSteps.BeginKeeps` | includes/obstack.h:228-246 | a new obstack satisfies the heap invariant and holds nothing |
| `ObstackSteps.AloneMeansNoObject` | includes/obstack.h:173-176 | when the growing object is at the first position of the current chunk and the flag is clear, no live object, empty or not, lies in that chunk |
| `ObstackSteps.NewChunkKeeps` | includes/obstack.h:78-81 | one new chunk gives the room asked for, carries the growing bytes over, and leaves every live object inside a chunk in use with its bytes, whether or not the old chunk is released |
| `ObstackSteps.AppendKeeps` | includes/obstack.h:300-303 | with room, appending writes only allocated addresses, extends the growing bytes by exactly those given and changes no finished byte |
| `ObstackSteps.FinishKeeps` | includes/obstack.h:388-401 | finishing pushes the growing bytes as one more object, starts an empty one, through alignment and clamp, and sets the flag exactly when those bytes are none |
| `ObstackSteps.FreeKeeps` | includes/obstack.h:403-409 | freeing a live object leaves exactly those finished before it, and exactly the chunks up to the one it lies in |
| `Obstacks.SharedAddress` | includes/obstack.h:403-409 | live objects sharing an address are empty, but for the last, and lie in one chunk; a free by that address leaves the same obstack whichever is meant, up to those empty objects |
| `ObstackSteps.StepKeeps` | includes/obstack.h:280-409 | every operation keeps the invariant (positions ordered within the chunk, chunks apart, exactly the contents of the chunks in use allocated, live objects ordered inside them) and acts as its counterpart on a plain stack of byte strings |
| `ObstackRuns.RunFromStartRefines` | includes/obstack.h:87-97 | every run from a new obstack keeps the invariant and is a run of the plain stack |
| `ObstackRuns.FinishedNeverMove` | includes/obstack.h:27-32 | over any run that does not free below them, finished objects keep address, bytes and chunk |
| `ObstackRuns.LiveObjectsDisjoint` | includes/obstack.h:71-76 | any two live objects, and any live object and the growing one, share no byte |
| `ObstackRuns.FreeRestoresCheckpoint` | includes/obstack.h:96-97 | freeing the first object finished after a checkpoint restores the plain stack, however many chunks were added |
| `ObstackRuns.CheckpointExact` | includes/obstack.h:296-409 | chunk chain, base, next free byte and limit come back exactly if and only if everything up to the finish of the first object after the checkpoint found its room in the current chunk, however that object was built |
| `ObstackRuns.NewChunkHoldsMore` | includes/obstack.h:78-81 | a new chunk can hold more of the growing object than the old one could from its base on |
| `ObstackRuns.GrowsByNeed` | includes/obstack.h:296-366 | growing adds exactly the length asked for, one more for a terminator, and stays within the limit |
| `ObstackRuns.ClearedFlagWouldDangle` | includes/obstack.h:173-176 | with an empty object live at the start of the chunk the flag is set, and were it not, the next new chunk would leave that object in no chunk |
| `ObstackHistory.RequestsExactly` | includes/obstack.h:280-409 | each operation requests a chunk exactly when the bytes it adds do not fit, and for exactly their number, terminator included; finishing calls nothing; freeing calls the library exactly when the address is not strictly inside the current chunk |
| `ObstackHistory.LegalMeansRecorded` | includes/obstack.h:184-184 | the allocator is told nothing but the recorded length: the blocks an operation may be given are exactly those suitable for it |
| `ObstackHistory.RecordedIsEnough` | includes/obstack.h:296-366 | any block suitable for the recorded length leaves room for the bytes then written |
| `ObstackHistory.MakeRoomMakesRoom` | includes/obstack.h:280-286 | making room leaves at least the room asked for, and every object as it was |
| `ObstackHistory.IntendedIsDone` | includes/obstack.h:296-315 | what the conversions of lengths are measured against is what the step does: its request, the bytes copied and the advance |
| `ObstackHistory.StepFlag` | includes/obstack.h:173-176 | an operation leaves the flag set exactly when it finished an empty object or released a chunk, or when the flag was set before and it took no chunk |
| `ObstackHistory.FlagHistory` | includes/obstack.h:173-176 | over every run from a new obstack, the flag is set exactly when since the current chunk was taken an empty object was finished, or a free released a chunk and came back to it |
| `ObstackHistory.ReplacesExactly` | includes/obstack.h:173-176 | over every run, an operation that takes a chunk replaces the current one exactly when the growing object is at its first position and neither has happened in it; otherwise it adds one |
| `ObstackPacked.StepPacked` | includes/obstack.h:388-401 | every operation keeps objects packed: each starts at the first aligned position after the one before it, or at the end of a full chunk |
| `ObstackPacked.RunPacked` | includes/obstack.h:280-409 | so does every run |
| `ObstackPacked.NonEmptyAligned` | includes/obstack.h:223-225 | every non-empty live object starts at an aligned place, despite the clamp |
| `ObstackPacked.AlignedMeansMultiple` | includes/obstack.h:125-134 | aligned means a multiple of the alignment, counted from 0 where the pointer-difference type is at least as large as a pointer and from the chunk where it is smaller |
| `ObstackPacked.AddressesAreMultiples` | includes/obstack.h:223-225 | after any run from a new obstack, every non-empty object's address, finished or growing, is such a multiple |
| `ObstackPacked.FirstPlace` | includes/obstack.h:146-151 | the first object of a chunk lies at the least such multiple after the two header pointers |
| `ObstackPacked.NextPlace` | includes/obstack.h:388-401 | every other lies at the least such multiple from the end of the one before it, or at the end of the chunk when that multiple is beyond it |
| `ObstackPacked.NonEmptyGrowingAligned` | includes/obstack.h:388-401 | so is a non-empty growing object |
| `ObstackPacked.EmptyPMeaning` | includes/obstack.h:288-294 | the emptiness test succeeds exactly when one chunk is in use and no byte is live |
| `Obstacks.Obstack.NewChunk` | includes/obstack.h:184-184 | in place, does the specified step and keeps the record valid |
| `Obstacks.Obstack.FreeSlowly` | includes/obstack.h:192-197 | the walk by addresses stops at the chunk the object was finished in, also for an empty object at a chunk's end |
| `Obstacks.OnlyHolder` | includes/obstack.h:403-409 | the address of a live object lies after the header and up to the end of its own chunk and of no other |
| `Obstacks.Obstack.ObjectSize` | includes/obstack.h:270-273 | the number of growing bytes, modulo 2^32 |
| `Obstacks.Obstack.Room` | includes/obstack.h:275-278 | the bytes left modulo 2^32, which is the largest length there is room for exactly when the room is below 2^32 |
| `Obstacks.RoomCanExceedUnsigned` | includes/obstack.h:275-278 | a valid state whose room the 32-bit result cannot hold |
| `Obstacks.Obstack.Empty` | includes/obstack.h:288-294 | in place, the emptiness test is true exactly when one chunk is in use and no byte is live |
| `Obstacks.FinishAlign` | includes/obstack.h:394-399 | aligning relative to the object base and clamping equals rounding up relative to the chunk and clamping |
| `GnuMacros.Grow0` | includes/obstack.h:306-315 | the GNU macro does the specified step; each write is inside the current chunk |
| `GnuMacros.Finish` | includes/obstack.h:388-401 | the GNU macro does the specified step, sets the flag exactly for an empty object, and returns the finished object's address |
| `GnuMacros.Free` | includes/obstack.h:403-409 | the GNU macro does the specified step, fast or slow |
| `PortableMacros.GrowPtr` | includes/obstack.h:456-467 | advance then write at index -1 does the same step as write then advance |
| `PortableMacros.Finish` | includes/obstack.h:487-499 | the portable macro does the same, through the temp field |
| `PortableMacros.Free` | includes/obstack.h:501-507 | the portable macro does the same step, comparing offsets instead of addresses |
| `ObstackClients.RunBoth` | includes/obstack.h:260-509 | from equal states any run of client calls whose lengths survive the conversions leaves both families with equal memory, chunks, positions, flag and library calls, as the plain stack says, and with equal returned addresses |
| `ObstackLengths.LengthsExact` | includes/obstack.h:296-315 | each family treats a length as the rest of the model does exactly when its conversion keeps the length and what it asks a new chunk for, terminator included, fits an int; this is the condition its methods require |
| `ObstackLengths.FamiliesAgreeOnLength` | includes/obstack.h:436-449 | the families do the same defined thing with a length exactly when int and temp convert it to the same value, except for the largest int with a terminator that has no room, where the argument overflows |
| `ObstackLengths.SameConversionExactly` | includes/obstack.h:160-164 | int and temp convert a length to the same value exactly below 2^31 and within 2^31 of the end of temp's unsigned range, so everywhere when temp has 32 bits |
| `ObstackLengths.NarrowTempAgrees` | includes/obstack.h:107-117 | where the pointer-difference type has 32 bits the families treat every length alike |
| `ObstackLengths.FirstDifference` | includes/obstack.h:296-304 | where it is wider, at length 2^31 one family requests no chunk and copies a negative length, the other requests a chunk for a negative length and copies all |
| `Cleanup.OpenOnlyAppends` | includes/pthread.h:664-691 | unwinding block by block makes the same calls as unwinding the whole chain at once |
| `Cleanup.ExactlyOnce` | includes/pthread.h:568-583 | the trace passes an independent monitor: a popped handler is called at its pop exactly when execute is non-zero; on cancellation exactly the handlers still open are called after that, once each, last pushed first |
| `Cleanup.RequestActedOn` | includes/pthread.h:568-583 | a request due after n points cancels a run exactly when the program passes more than n of them or always exits; the run is then that of the program with the point number n made an exit, and else the run without the request, with n less the points passed still to come |
| `Cleanup.OneBlock` | includes/pthread.h:551-571 | the trace, type and request after a block that is run through, and after setting the type |
| `Cleanup.OneBlockLeft` | includes/pthread.h:568-583 | the trace and type of a block left by exit or by a request at its first point: the handler is called and nothing after the point is run |
| `Cleanup.TypeRestored` | includes/pthread.h:586-600 | for every program and every expansion, all completed runs end with the type they started with exactly when the program always exits or its effect on the type, read off its text, is to keep it |
| `Cleanup.GuardedKeeps` | includes/pthread.h:586-600 | when all type changes lie inside deferring blocks, however nested, every completed run restores the type exactly when the program always exits, break reaches the pop, or no such block is left by break |
| `Cleanup.NoBreakSkipsNothing` | includes/pthread.h:586-600 | without break no restoring is ever skipped |
| `Cleanup.DeferringBlockRestores` | includes/pthread.h:563-565 | one deferring block gives the type back whatever its body does to it, exactly when its body always exits, does not end by break, or break reaches the pop |
| `Cleanup.BreakLeavesDeferred` | includes/pthread.h:589-600 | push_defer_np, break, pop_restore_np: where break skips the pop the thread is left in deferred mode |
| `Cleanup.SameTypeExactly` | includes/pthread.h:586-728 | the ways of expanding leave the same type after every completed run exactly when the program always exits or has the same effect on the type in both |
| `Cleanup.AgreeWithoutBreak` | includes/pthread.h:551-691 | without break the two ways of expanding give the same run in every respect |
| `Cleanup.AgreeExactlyWhenBreaksSafe` | includes/pthread.h:575-691 | the same handler calls in every run exactly when no reachable block with execute zero is left by break |
| `Cleanup.BreakDisagrees` | includes/pthread.h:630-691 | push, break, pop(0): one way calls the handler, the other does not |
| `CleanupExpansions.RunScopeObjects` | includes/pthread.h:551-601 | the scope-object expansion, with its frame fields and destructor, produces the specified run, and acts on a request exactly at the point it names |
| `CleanupExpansions.RunCleanupAttribute` | includes/pthread.h:603-654 | so does the cleanup-attribute expansion |
| `CleanupExpansions.RunRegistered` | includes/pthread.h:664-731 | the setjmp expansion, registering and unregistering buffers, produces the run in which break reaches the pop, acts on a request exactly at the point it names, and leaves the chain as it found it, or empty when cancelled |
| `CleanupExpansions.PThread.Unwind` | includes/pthread.h:669-676 | the chain of jumps calls every registered routine once, innermost first |
| `CleanupExpansions.RunAll` | includes/pthread.h:534-739 | the three expansions are cancelled by the same requests, which are those due within the points passed; they run alike without break, make the same handler calls when breaks are safe, and leave the same cancellation type when they complete and the effects on it are the same |
| `Argz.NextIsFollowingEntry` | includes/argz.h:159-171 | from any pointer inside the vector the result is the character after the next NUL, or null when that is the last character or the pointer is past the end; from null it is the first entry, or null for the empty vector |
| `Argz.RoundTrip` | includes/argz.h:138-151 | reading the layout of NUL-free strings gives those strings in order |
| `Argz.RoundTripBack` | includes/argz.h:158-171 | laying out the strings of any vector gives the vector back |
| `Argz.EntriesHoldStrings` | includes/argz.h:138-151 | the entries visited are where those strings are stored |
| `Argz.OneEntryPerNul` | includes/argz.h:162-170 | an iteration visits as many entries as there are NULs |
| `Argz.WhileStyle` | includes/argz.h:142-144 | the first loop style visits exactly the entries, in order |
| `Argz.ForStyle` | includes/argz.h:148-150 | the second visits the same, and one bogus entry for a non-null pointer to nothing |
| `Argz.BothStyles` | includes/argz.h:138-151 | the styles agree exactly when the vector is non-empty or its pointer null |
| `NodeMasks.NodeMask.Set` | includes/numa.h:84-88 | setting adds exactly that node to the mask as a set; by value, the word node / width gains 2^(node % width) unless that digit is 1 already, and no other word changes |
| `NodeMasks.NodeMask.Clear` | includes/numa.h:90-94 | clearing removes exactly that node; by value, the word loses that power of two if the digit is 1, and no other word changes |
| `NodeMasks.NodeMask.IsSet` | includes/numa.h:96-104 | for every int, including negative and too large ones, true exactly for the nodes in the set |
| `NodeMasks.NodeMask.Apply` | includes/numa.h:84-94 | any sequence of in-range calls on any mask is the sequence of set operations |
| `NodeMasks.LastCallDecides` | includes/numa.h:84-104 | a node is in at the end exactly when the last call about it set it, or none was about it and it was in at the start |
| `Sync.SyncMerge` | includes/libsync.h:86-102 | EINTR and EAGAIN are retried, and nothing else; it succeeds exactly when the first other reply is a success, or no reply is left to fail, and both descriptors are open, with a new descriptor for both fences, and otherwise changes nothing; the replies after that one are left |
| `Sync.SettledAfter` | includes/libsync.h:93-96 | the deciding reply is the first that is neither EINTR nor EAGAIN, for any replies |
| `Sync.SyncAccumulate` | includes/libsync.h:121-142 | the exact effect on the descriptor table, on *fd1 and on the kernel's coming replies in every case, including when dup fails |
| `Sync.Accumulate` | includes/libsync.h:104-119 | over any calls, of open descriptors or not, the calls and the kernel's replies decide which report success, when a descriptor is held and what it denotes; at most one is owned, the caller's stay as they were, and what is held at the end denotes the merge of all successful calls exactly when dup does not fail for the first open descriptor passed |
| `Sync.HeldIsMerged` | includes/libsync.h:121-142 | the same, of the scripts alone: nothing held is ever missing unless that first dup fails, and then it is missing for good |
| `Sync.DupFailureGoesUnreported` | includes/libsync.h:127-130 | one call whose dup fails reports success and leaves nothing held |

## Left out

- Machine limits: addresses are unbounded; of the casts those of object size, room, the node number and the lengths given to the macros are modelled, not the store of a pointer difference in `temp`.
- Chunk allocation callbacks and their failure: the allocator always returns a suitable block.
- `obstack_blank` with a negative length, and the `_fast` macros without the room they require.
- `obstack_free` with a null pointer, which releases all chunks: its effect is described only in the body that is not part of this model.
- Source bytes that lie inside the obstack itself: they are passed by value.
- The `prev` links: a chain of chunks is the sequence of its chunks, oldest first.
- The encoding of the datum of `obstack_ptr_grow` and `obstack_int_grow`: its bytes are given.
- Cancellation between the statements of a macro, in asynchronous mode or inside handlers; signals and real stack unwinding.
- Ways of leaving a block other than falling through, `break`, exit and cancellation.
- `sync_wait`, and the name field of a merge request.
- `nodemask_zero` and `nodemask_equal`, whose work is done by libnuma functions outside the header.
- `_obstack_memory_used` and the other functions the five headers only declare.
