# TécnicoFS: a verified model

TécnicoFS keeps a file system in memory: an inode table with a free map, one flat byte array
`fs_data` cut into blocks with a free map, a root directory stored as 44-byte entries inside
one of those blocks, and an open-file table with an offset per handle. All calls take one
library mutex. Beside it stands a bounded producer-consumer queue built from several mutexes
and two condition variables. This project models both and proves what holds in every run.

Verify everything with `dafny verify dfyconfig.toml` (Dafny 4.11).

## The file system

There are three layers.

* `FileSystem` is the code of `fs/state.c` and `fs/operations.c`: a class over arrays, with the
  source's loops, in-place updates, byte-by-byte copies and string comparisons, and the mutex
  taken and released on every path.
* `Disk` and `Operations` give the effect of each of those functions on the state as a value.
  The outcome `Crash` stands for a failed `ALWAYS_ASSERT` and for a copy outside the block
  memory, so that its absence is something to prove. Each method of the class is proved to
  have exactly the effect of its function.
* `FileModel` is what a client sees: a map from name to bytes, a map from handle to name and
  offset, and five numeric limits. It knows no inodes, blocks, slots or raw bytes.

`DiskInvariant.Shows` relates the second layer to the third. `Refinement.TraceRefinement` is
the main result; `Concurrency` extends it to any number of threads, whose calls are cut into
the steps between the mutex operations.

The code does not check whether a file is open before it unlinks or truncates it, nor whether
`to_write + of_offset` fits in a `size_t`. `FileModel.Allowed` is the discipline this leaves to
the client. It is not a precondition of the operations on values, nor of `Open` and `Unlink` of
the class: `Discipline.DisciplineExact` proves that a call neither crashes nor breaks the
invariant if and only if it is allowed, and the other lemmas of that module show what each
violation leads to. `Violations` gives one concrete run for all of them.

`CallMeaning` says what each call means to a client without the model's functions: with the
byte 47 in front of a name, with maps and byte strings, and with the numbers 39 and 44. It
fixes which paths are accepted, which file a path names, and every return value.
`ConcurrentCalls` ties the calls that threads make to the calls that are run and logged.

Modelling decisions: `size_t` is 64 bits with explicit wrap-around, `int` is 32 bits and stored
least significant byte first, and `sizeof(dir_entry_t)` is 44. The fresh memory of `malloc` is
arbitrary: the initial inode table, block bytes and open-file table are parameters of every
result. `ParamsOk` asks for at least one inode, one block and one byte per block, counts that fit
in an `int`, and a block memory that is one C object. The string functions follow
ISO/IEC 9899:2018, sections 7.24.2.4 (strncpy), 7.24.4.2 (strcmp) and 7.24.4.4 (strncmp).

## The queue

`QueueSteps` is a transition system: every thread is at a line of `pcq_enqueue` or
`pcq_dequeue`, and one step is one lock operation, one wait, one signal or one access to the
shared fields. Condition variables follow `pthread_cond_wait` and `pthread_cond_signal` of
IEEE Std 1003.1-2008: waiting releases the mutex and sleeps atomically, a signal wakes at least
one sleeper, wake-ups may be spurious, and a woken thread has to re-acquire the mutex.
`QueueCalls` follows one call at a time: what an enqueue puts is its own argument, once, and what
a dequeue takes goes to its own caller, once. `PcQueue` is the queue object with the code between the wait loop and the signal, updated in
place and proved to be the same steps.

The code and its header disagree. `producer-consumer/producer-consumer.h:45-48` says that an
enqueue on a full queue sleeps until there is space. The code sleeps while it keeps
`pcq_tail_lock`, which every dequeue needs, so there never will be:
`QueueProgress.ParkedForEver`. `QueueWorkload.AlwaysReturnsIff` says exactly which workloads
stay clear of this.

## Model

| member | source | states |
|---|---|---|
| Refinement.TraceRefinement | fs/operations.c:79-328 | From `tfs_init` on, whatever the parameters and the fresh memory, every run of allowed calls of any length crashes nowhere, returns exactly the replies and bytes of the client's model, and ends in a state that satisfies the representation invariant and shows the model's state |
| Refinement.CallSimulates | fs/operations.c:79-328 | One allowed call from any valid state: same reply as the model, no failed assertion, and the new state shows the model's new state |
| Refinement.InitShows | fs/operations.c:25-44 | `tfs_init` succeeds with the root at inode 0 and shows an empty file system, for every content of the fresh memory, although it writes only the inumbers of the directory entries |
| Refinement.HighWaterMark | fs/state.c:297-360 | In every reachable state the slots that ever held an entry are a prefix of the directory, and each of them is live or holds the empty name |
| Refinement.EverLiveIsPrefix | fs/state.c:349-356 | Over a run from any valid state, the slots already used together with those that become live are exactly the slots below the final mark |
| Discipline.DisciplineExact | fs/operations.c:79-328 | From a valid state a call neither crashes nor breaks the invariant if and only if it is allowed: no TRUNC of a non-empty file with a handle past its start, no unlink of an open file, no wrapping write length |
| Discipline.TruncationStrandsHandle | fs/operations.c:105-111 | After a TRUNC of a non-empty file every other handle past its start is left with an offset beyond `i_size` |
| Discipline.TruncatedBytesAreRead | fs/operations.c:263-277 | A read through such a handle wraps `i_size - of_offset` and returns the bytes that were truncated instead of end of file |
| Discipline.UnlinkingStrandsHandle | fs/operations.c:313-320 | After an unlink of an open file the handle stays open on a free inode |
| Discipline.StrandedHandleIsCaptured | fs/operations.c:118-151 | If that inode is the first free one, the next file created gets it and the old handle has become a handle of the new file |
| Discipline.WrappingWriteCrashes | fs/operations.c:204-229 | A length whose `size_t` sum with the offset wraps escapes the clamp, and the copy leaves the block memory |
| Violations.DisciplineIsNeeded | fs/operations.c:79-328 | A concrete run of four allowed calls from `tfs_init`, for all parameters with room for one file and two handles, after which a TRUNC leaves a handle that reads truncated bytes, an unlink leaves a handle on a free inode, and a huge write leaves the block memory |
| Discipline.UnlinkConclusion | fs/operations.c:286-328 | From every valid state `tfs_unlink` fails no assertion and compares only names terminated in their field; the result is sound exactly when the file is not open, and then it is what the model says |
| Discipline.OpenConclusion | fs/operations.c:79-161 | From every valid state `tfs_open` does not crash; the result is sound exactly when the call is allowed, and then handle, files and handles are what the model says |
| CallMeaning.NoPathIsRejected | fs/operations.c:53-55 | A path that is NULL, shorter than two bytes, or does not begin with the byte 47 makes `tfs_open`, in every mode, and `tfs_unlink` return -1 and change nothing |
| CallMeaning.OpenMeans | fs/operations.c:79-161 | With the path made of byte 47 and `name`: the file `name` itself is kept, truncated or created, creation needs at most 39 bytes of name, an inode and one of block size / 44 entries, and the return value is the lowest unused number, at offset 0 or at the end, or -1 |
| CallMeaning.UnlinkMeans | fs/operations.c:286-328 | With that path: returns 0 and takes exactly `name` out of the directory if and only if there is a file of that name, open or not; otherwise returns -1 and changes nothing |
| CallMeaning.UnlinkTakesFile | fs/operations.c:303-320 | When the file is not open, the client loses exactly the key `name` |
| CallMeaning.UnlinkReturns | fs/operations.c:286-328 | The return value for every path: 0 exactly when what follows the slash is the name of a file |
| CallMeaning.CloseMeans | fs/operations.c:177-183 | An open handle: returns 0, and exactly that handle goes |
| CallMeaning.WriteMeans | fs/operations.c:204-242 | Byte by byte: the bytes of the buffer from the offset on, the old bytes elsewhere, the new size, the new offset and the result; other files and handles are as before |
| CallMeaning.ReadMeans | fs/operations.c:263-283 | The bytes from the offset on, up to the length or the end, their number, and the new offset |
| CallMeaning.NoHandleIsRejected | fs/operations.c:168-175 | `tfs_close`, `tfs_write` and `tfs_read` of a number that is not an open handle return -1 and change nothing |
| NameSimulation.OpenSimulates | fs/operations.c:79-161 | Allowed `tfs_open`: lookup, truncation, creation, roll-back and table entry together act as one step of the model, with the lowest free handle |
| NameSimulation.UnlinkSimulates | fs/operations.c:286-328 | Allowed `tfs_unlink` removes exactly the named file, frees its inode and block, and fails only when there is no such file |
| TransferSimulation.WriteSimulates | fs/operations.c:186-243 | Allowed `tfs_write` splices the clamped prefix of the buffer into that file at the handle's offset, or fails for lack of a block, and changes nothing else a client sees |
| TransferSimulation.ReadSimulates | fs/operations.c:245-284 | `tfs_read` returns the file's bytes from the offset to the end or the length, and moves only that offset |
| Simulation.CloseShows | fs/operations.c:163-184 | `tfs_close` removes exactly that handle, or fails on one that is not open |
| Simulation.LookupShows | fs/operations.c:68-77 | The lookup in the raw bytes of the root block finds the inode of the named file, and -1 exactly when the client has no such file |
| DiskInvariant.ViewUnique | fs/state.c:95-128 | A valid state shows exactly one client view |
| FileProperties.NoLeak | fs/state.c:162-179 | In every valid state the three free maps count what the client sees: files plus the root, non-empty files plus the root's block, open handles |
| FileProperties.NamesAreInodes | fs/state.c:333-400 | The live directory entries map the client's names one-to-one onto the taken inodes other than 0, and the root inode and its block are in place |
| FileProperties.FreedBlockIsTaken | fs/state.c:252-267 | The block that a truncation or deletion frees is valid and taken, and no other inode owns it |
| FileProperties.CreateYieldsHandleIff | fs/operations.c:118-151 | Creating a new name yields a handle if and only if files < inode count - 1, files < directory entries, the name has at most 39 bytes, and open handles < maximum |
| FileProperties.WriteFailsIff | fs/operations.c:204-223 | A write through an open handle returns -1 if and only if its length is positive, the file is empty, and block count - 1 files are not |
| FileProperties.FailedCreateRollsBack | fs/operations.c:118-138 | A creation that fails for lack of an inode, a long name or a full directory leaves all bytes, free maps and taken inodes as they were |
| FileProperties.FailedOpenRollsBack | fs/operations.c:79-147 | A `tfs_open` that fails while the open-file table has room changes no byte, free map or inode in use |
| FileProperties.FullTableKeepsFile | fs/operations.c:149-160 | With the table full the call returns -1, and the created or truncated file persists |
| FileProperties.FailedWriteRollsBack | fs/operations.c:210-220 | A write that returns -1 leaves the state identical |
| FileProperties.WriteFrame | fs/operations.c:204-236 | A write of n bytes changes exactly the n bytes of the flat array at the handle's offset in the file's own block, stays inside that block, which is neither the directory's nor another file's, and leaves other handles and inodes alone |
| FileProperties.StreamRoundTrip | fs/operations.c:186-284 | Chunks written through one handle of an empty file and read back in any chunking: the write results add up to min(block size, total), and the bytes read are that prefix of the concatenation |
| FileProperties.SessionsRoundTrip | mbroker/mbroker.c:92-108 | The same for one open-append, write, close session per chunk |
| FileProperties.ReadReturnsWrittenBytes | fs/operations.c:245-284 | After any allowed run from `tfs_init`, every byte a read returns was stored at that position by an earlier write to the same file, and the file has held it in every state since, although blocks are never cleared |
| Provenance.NoStaleBytes | fs/operations.c:204-236 | The same for every byte of every file, read or not |
| ModelProperties.StreamWrites | fs/operations.c:204-242 | Any list of chunks appended through one handle stores the longest prefix that fits, and the results add up to what was stored |
| ModelProperties.StreamReads | fs/operations.c:263-283 | Any list of reads returns the bytes from the offset on, in order and without gaps |
| ModelProperties.SessionsAppend | fs/operations.c:113-117 | Repeated append sessions reuse one handle number, leave the handles as they were, and store the longest prefix that fits |
| Concurrency.Linearizable | fs/operations.c:79-328 | For any number of threads, in every state of every interleaving of their steps, the logged calls, which are the finished ones by `ConcurrentCalls.MadeIsLogged`, got the replies of a serial run in mutex order, that order respects real time, and the mutex is held by exactly the thread between lock and unlock |
| Concurrency.LinearizableToModel | fs/operations.c:79-328 | With the calls allowed in that order, the replies are the client model's, and the call inside the mutex can always take its next step |
| ConcurrentCalls.MadeIsLogged | fs/operations.c:79-328 | In every state of every interleaving the calls a thread made, in order and with the number of calls returned by then, are its calls in the log, in order, and then the one it is in: none is lost, run twice, changed, or run for another thread |
| ConcurrentCalls.LoggedWasMade | fs/operations.c:79-328 | Every entry of the log is a call that its thread made in an earlier step, when as many calls had returned as the entry says |
| ConcurrentCalls.StepLogs | fs/operations.c:79-328 | The log grows only when a call returns, by that call, and a call returns only so |
| ConcurrentCalls.AnyCallCanBeMade | fs/operations.c:79-328 | An idle thread can make any call |
| ConcurrentCalls.SomeCallGoesOn | fs/operations.c:79-328 | No deadlock: in every reachable state with allowed calls, some call can go on unless all have returned |
| ConcurrentCalls.CallsEnd | fs/operations.c:79-328 | Calls in progress are over after at most six steps for each thread |
| Concurrency.StepKeepsRest | fs/operations.c:79-328 | One step of a call does not change what the call returns and leaves behind when it runs to its end |
| Directory.FindIsLookup | fs/state.c:375-400 | For query strings of any length the 40-bounded comparison over raw 40-byte fields is lookup in the map from names to inumbers |
| Directory.AddIsUpdate | fs/state.c:333-360 | A new entry is added to the map, or the call fails, exactly when the name is empty, longer than 39 bytes, or all entries are in use |
| Directory.ClearHitsFoundSlot | fs/state.c:308-314 | The slot chosen by name alone, ignoring `d_inumber`, is the live slot that `find_in_dir` found, and no never-written name is compared |
| Directory.ClearIsRemove | fs/state.c:297-316 | Clearing a name that is in the directory succeeds and removes that entry of the map and no other |
| Directory.FreshIsEmpty | fs/state.c:226-232 | Whatever bytes the block held, writing the inumbers alone gives an empty directory |
| CString.NameFieldRoundTrip | fs/state.c:352-353 | A name of at most 39 bytes is decoded back from its fixed-width field |
| CString.NameFieldTruncates | fs/state.c:334-336 | A longer one is not: only its first 39 bytes would survive |
| CString.StrncmpDecides | fs/state.c:393 | On a terminated field the bounded comparison decides equality with a query of any length |
| CString.StrcmpDecides | fs/state.c:309 | So does the unbounded comparison |
| Disk.StartIs | fs/state.c:453 | Blocks that follow one another start at the product `block_number * BLOCK_SIZE` |
| Disk.BlocksApart | fs/state.c:448-454 | Two different blocks do not overlap in the flat array |
| Disk.PutBlockFrame | fs/state.c:448-454 | A store inside one block is that store in the block's bytes, and no other block changes |
| Bytes.IntRoundTrip | fs/state.c:351 | A 32-bit inumber survives its four bytes in the block |
| FileSystem.FileSystem.constructor | fs/operations.c:25-44 | Whatever the new arrays hold, the object is valid and shows an empty file system |
| FileSystem.FileSystem.Open | fs/operations.c:79-161 | Returns with the mutex free; -1 and no change for a path that is NULL, too short or without the leading slash; the invariant survives if and only if the call was allowed, and then return value and view are the model's |
| FileSystem.FileSystem.Close | fs/operations.c:163-184 | Keeps the invariant; 0 for an open handle, else -1; the view is the model's; mutex free |
| FileSystem.FileSystem.Write | fs/operations.c:186-243 | For a length that does not wrap: keeps the invariant; return value and view are the model's; mutex free |
| FileSystem.FileSystem.Read | fs/operations.c:245-284 | Keeps the invariant; bytes, return value and view are the model's; mutex free |
| FileSystem.FileSystem.Unlink | fs/operations.c:286-328 | Returns with the mutex free; 0 exactly when what follows the slash is the name of a file, else -1; the invariant survives if and only if the file was not open, and then return value and view are the model's |
| FileSystem.FileSystem.FindInDir | fs/state.c:375-400 | The scan over decoded inumbers and byte-by-byte comparisons returns what the lookup on the block's bytes returns |
| FileSystem.FileSystem.AddDirEntry | fs/state.c:333-360 | The scan and the three stores into the flat array have the effect of adding the entry to the block, and touch no other block |
| FileSystem.FileSystem.ClearDirEntry | fs/state.c:297-316 | The scan and the two stores have the effect of clearing the found slot |
| FileSystem.FileSystem.InodeCreate | fs/state.c:198-244 | Inode, size, block and directory entries of the new inode, and the roll-back when there is no block |
| FileSystem.FileSystem.InodeDelete | fs/state.c:252-267 | Frees the inode, and its block exactly when it has one |
| FileSystem.FileSystem.InodeAlloc | fs/state.c:162-179 | Takes the lowest free inode and changes nothing else; -1 when none is free |
| FileSystem.FileSystem.DataBlockAlloc | fs/state.c:410-423 | Takes the lowest free block and changes nothing else; -1 when none is free |
| FileSystem.FileSystem.DataBlockGet | fs/state.c:448-454 | The whole block lies inside the flat array |
| FileSystem.FileSystem.AddToOpenFileTable | fs/state.c:468-480 | Fills the lowest free entry and changes nothing else; -1 when none is free |
| FileSystem.FileSystem.StrncmpIsZero | fs/state.c:393 | The loop over 40 bytes decides the bounded comparison |
| FileSystem.FileSystem.StrcmpIsZero | fs/state.c:309 | The loop stays inside the block and decides the unbounded comparison |
| QueueCalls.DeliversArguments | producer-consumer/producer-consumer.c:48-100 | In every state of every interleaving the elements delivered are, in order, the first of the arguments of the enqueue calls that have counted their element in; each step delivers at most one, to the thread that takes the step |
| QueueCalls.PutIsArguments | producer-consumer/producer-consumer.c:60-65 | The elements counted in are exactly the arguments of the enqueue calls that have counted one in, in that order |
| QueueCalls.EnqueueCarriesArgument | producer-consumer/producer-consumer.c:48-76 | Until a call of `pcq_enqueue` returns, whatever element its thread carries is its argument, whatever other threads do |
| QueueCalls.EnqueueCountsIn | producer-consumer/producer-consumer.c:61-65 | The step in which that call counts an element in appends its argument |
| QueueCalls.EnqueuePutsArgument | producer-consumer/producer-consumer.c:48-76 | A call that has returned put its argument, once, took nothing and delivered nothing |
| QueueCalls.DequeueReturnsFront | producer-consumer/producer-consumer.c:79-100 | A call of `pcq_dequeue` that has returned took one element, the oldest one in the queue when it was counted out, and delivered that one, once, to its own caller |
| QueueCalls.RecordsGrow | producer-consumer/producer-consumer.c:48-100 | What was put, taken and delivered only grows, by at most one entry a step, and a delivery names the thread that takes the step |
| QueueProgress.AnyCallCanBegin | producer-consumer/producer-consumer.c:48-100 | An idle thread can make either call, with any argument |
| QueueProgress.AnyWakeUpCanHappen | producer-consumer/producer-consumer.c:68 | The signal may wake any sleeping dequeuers, as long as it wakes one when there is one |
| QueueProgress.AnyoneCanWakeUp | producer-consumer/producer-consumer.c:57-83 | A thread asleep on either condition variable may wake up spuriously, still carrying its argument |
| QueueProgress.FifoConservation | producer-consumer/producer-consumer.c:48-100 | In every state of every interleaving the elements returned so far, the one being returned and the ring contents are, in this order, the elements counted in, in commit order; with `pcq_tail_lock` free, tail = (head + size) mod capacity and size <= capacity |
| QueueProgress.NoLostWakeUp | producer-consumer/producer-consumer.c:65-91 | In every reachable state with `pcq_tail_lock` free and a dequeuer asleep, the size is at most the number of woken dequeuers still to re-acquire the lock |
| QueueProgress.QuiescentIff | producer-consumer/producer-consumer.c:48-100 | With some call unfinished, no thread can move if and only if all unfinished calls are dequeues asleep on an empty queue, or a producer is parked on a full one |
| QueueProgress.ParkedForEver | producer-consumer/producer-consumer.c:51-58 | Once a producer waits on a full queue it holds `pcq_tail_lock` and `pcq_current_size_lock` in every continuation, spurious wake-ups and new calls included, and buffer, head, tail, size and deliveries never change again |
| QueueProgress.ParkedBlocksAll | producer-consumer/producer-consumer.c:57 | While a producer is parked no thread can move |
| QueueProgress.DequeueSignalsNobody | producer-consumer/producer-consumer.c:94 | No producer is ever asleep when a dequeue signals `pcq_pusher_condvar` |
| QueueProgress.CanMoveIff | producer-consumer/producer-consumer.c:48-100 | A thread is enabled exactly when some step of it exists |
| QueueProgress.ProgressEnds | producer-consumer/producer-consumer.c:48-100 | Every run without spurious wake-ups and new calls is at most as long as a measure of its first state, for any number of threads |
| QueueProgress.InvAlways | producer-consumer/producer-consumer.c:48-100 | Lock ownership, ring contents and the wake-up bound hold in every state of every interleaving |
| QueueInvariant.NextKeepsInv | producer-consumer/producer-consumer.c:48-100 | Every step of every thread, spurious wake-ups included, keeps lock ownership, ring contents and the wake-up bound |
| QueueInvariant.CreatedOk | producer-consumer/producer-consumer.c:5-26 | A new queue satisfies that invariant whatever its buffer holds |
| QueueWorkload.BoundedWorkloadReturns | producer-consumer/producer-consumer.c:48-100 | With at most as many elements queued or on their way in as there is room for, and no more dequeues than that, every run is finite and ends with every call returned |
| QueueWorkload.AlwaysReturnsIff | producer-consumer/producer-consumer.c:48-100 | Of calls just made on a new queue, all return in every run without spurious wake-ups if and only if there are at most as many enqueues as the capacity and at most as many dequeues as enqueues |
| Ring.ContentsAppend | producer-consumer/producer-consumer.c:61-65 | A store at the tail leaves the counted elements alone and appends one once the size is counted up |
| Ring.ContentsDrop | producer-consumer/producer-consumer.c:87-91 | Moving the head on by one, modulo the capacity, drops exactly the oldest element |
| PcQueue.PcQueue.constructor | producer-consumer/producer-consumer.c:5-26 | An empty queue of the given capacity, the initial state of the transition system |
| PcQueue.PcQueue.Insert | producer-consumer/producer-consumer.c:60-65 | Appends the element to the queue, and is the three steps of the transition system between the test and the signal |
| PcQueue.PcQueue.Remove | producer-consumer/producer-consumer.c:86-91 | Returns and removes the oldest element, and is the three steps of the transition system between the test and the signal |

## Left out

- FileSystem.FileSystem.Write: requires that the length plus the offset fits in a `size_t`, because the C code has undefined behaviour otherwise; `Discipline.WrappingWriteCrashes` covers the rest.
- FileSystem.FileSystem.ClearDirEntry: models the call that `tfs_unlink` makes, with a name that is in the directory; for other names the code would compare names that were never written.
- PcQueue.PcQueue.Insert: starts after the wait loop and ends before the signal; locks, waiting and signals of the whole function are in `QueueSteps`.
- PcQueue.PcQueue.Remove: starts after the wait loop and ends before the signal; locks, waiting and signals of the whole function are in `QueueSteps`.
- Failure of `malloc`, error codes of mutex operations, logging, and the busy loops `insert_delay` and `touch_all_memory`.
- `tfs_default_params` and a NULL argument of `tfs_init`: the parameters are an argument. A second `tfs_init`, which overwrites the parameters before it fails.
- `tfs_destroy`, `state_destroy` and `pcq_destroy`, and any use that overlaps with creation or destruction.
- `tfs_sym_link`, `tfs_link` and `tfs_copy_from_external_fs`: declared in `fs/operations.h`, not implemented.
- `pcq_head_lock` and `pcq_popper_condvar_lock`: initialised, never locked.
- `pcq_create` with capacity 0.
- The processes `mbroker`, `manager`, `pub` and `sub`: pipes, signals and command lines.
- The message texts of `utils/lib.h`.
