# Verification of OpenLogReplicator

A Dafny model of the parts of OpenLogReplicator in which data moves between threads, buffers and
representations, with proofs about it. `dafny verify dfyconfig.toml` checks the whole project.

- **Memory.** `ChunkPool` is the chunk allocator with its reservations, as functions, as runs and as a
  class over the stack of free chunks, and `ChunkReserve` is about the reserve for un-swapping. `SwapProtocol` is the swapping of transaction memory as a state
  machine of two threads, one step for each critical section, allocator call or file operation;
  `SwapInvariant`, `SwapFrames`, `SwapParserMoves`, `SwapManagerMoves` and `SwapRefinement` prove that
  every step keeps the invariant and does to plain lists what it should; `SwapRuns` states the results
  over all runs, `SwapFiles` says what is in the swap files, `SwapConflicts` when a flush or a remove
  may start, `SwapProgress` and `SwapStarvation` when a parser that waits goes on, and `SwapSpace` has
  the critical sections and loops as methods on the shared fields.
- **Output queue.** `QueueLayout` says how messages lie in chunks, `QueueSteps` what each step of the
  builder does, `QueueRuns` what a reader receives in any interleaving, and `QueueLimits` when the
  builder reports an error; `QueueRelease` and
  `QueueRestart` are about chunks given back and about a reader that starts again, and `QueueCases`
  has a run for each promise of theirs that fails. `OutputQueue` has the builder and the writer's
  reading loop as classes over arrays. `D`, the data size of a chunk, and
  `H`, the size of a header, are any multiples of 8 with `0 < H < D`.
- **Values.** `NumberText` (NUMBER), `FloatOrder` (BINARY_FLOAT and BINARY_DOUBLE, read as exact
  reals), `CharacterSets` and `StringCarry` (character data in pieces), `DecimalText` (numbers and
  timestamps in JSON), `JsonEscape` (strings in JSON).
- **Records.** `FieldCursor` (fields of a redo record), `ScnCodec` (system change numbers),
  `ColumnImages` (the column pass over before and after images), `ColumnFragments` (values that
  arrive in pieces). `Arithmetic` holds facts about division, and `Basics` two shared types.

Threads run in atomic steps, and a wait on a condition variable is a step that is not enabled yet.
New memory has arbitrary contents, and addresses from the system allocator are arguments.

Where a promise does not hold of the code, the project keeps the code's behaviour and proves exactly
when the promise holds:

- the reservations are safe exactly when read minimum + write minimum <= minimum chunks, while the
  configuration compares them with the maximum (`ReservationSafety`);
- choosing a chunk to swap out and detaching it are two critical sections; a flush or a remove in
  between is safe exactly as `WhenFlushIsSafe` and `WhenRemoveIsSafe` say, and the runs of the other
  theorems have no unsafe one;
- a parser that waits for a swapped chunk is served by the manager alone exactly as `WhenWaitEnds`
  says; room for one chunk is not enough when an earlier decision uses it (`OneChunkIsNotEnough`);
- the reserve for un-swapping is there exactly when the three reservations fit in the minimum
  (`ReserveSafety`), and bringing back the only swapped chunk leaves its page in the file
  (`FilesAreTidy`);
- a chunk opened between two messages gets its `start` behind its first message, so that a reader
  that goes back there misses the message at the front exactly if `start` is not 0
  (`RestartDelivers`, `MessageIsMissed`), and a message that fills its last chunk to the last byte
  lets the chunk under the reader be released (`WhenReaderChunkIsReleased`, `ReaderChunkIsReleased`);
- a middle piece of a string that fits in the carry buffer is printed at once and carried over too
  (`MiddleCall`);
- with the flag for missing NOT NULL values an update from NULL may be pruned
  (`PruningKeepsMeaning`, `UpdateIsLost`), and of several middle pieces of a column value only the
  last one is kept (`MiddlesMerge`);
- nanoseconds of some negative timestamps (`NanosExact`), control bytes in JSON strings
  (`EscapeRoundTrip`), subnormal floating point numbers (`AgreesWithIeee`), numbers with a leading zero
  pair (`NumberGrammar`), some large system change numbers (`ScnRoundTrip`), fields beyond 16 bits
  (`CursorIsExact`), and columns completed by a delete (`DeleteThenRelease`, `DeleteLeavesColumn`).

## Model

| member | source | states |
|---|---|---|
| `ChunkPool.ReservationSafety` | src/common/Ctx.cpp:413-441 | over all runs of requests and frees, no request is ever served from an empty stack if and only if read minimum + write minimum <= minimum chunks |
| `ChunkPool.EveryRunIsSafe` | src/common/Ctx.cpp:413-547 | in every state of every run: allocated = free + sum over modules and no chunk has two owners, the min/max/free/write limits hold, the free chunks cover both unmet reservations, and a module below its minimum is served without waiting |
| `ChunkPool.UncheckedRequestsUnderflow` | src/common/Ctx.cpp:422-441 | when the two reservations exceed the free chunks, requests on the unchecked path alone underflow the stack |
| `ChunkPool.RunKeepsInvariant` | src/common/Ctx.cpp:413-547 | the invariant (conservation, limits, cover) holds after every sequence of permitted requests and frees |
| `ChunkPool.GetKeepsInvariant` | src/common/Ctx.cpp:413-485 | one request keeps the invariant, never underflows, and is granted when its module is below its minimum |
| `ChunkPool.FreeKeepsInvariant` | src/common/Ctx.cpp:527-547 | giving a held chunk back keeps the invariant, whether it is stacked or returned to the system |
| `ChunkPool.InitialKeepsInvariant` | src/common/Ctx.cpp:331-358 | the state after start-up satisfies the invariant |
| `ChunkReserve.WhenGranted` | src/common/Ctx.cpp:424-458 | exactly when a request is granted, over the counts of every module, the free chunks, the three reservations and the limits, and when it takes a chunk from the system |
| `ChunkReserve.ReserveSafety` | src/common/Ctx.cpp:430-443 | in every run without swap requests the free chunks cover both unmet reservations and the reserve for un-swapping, if and only if the three together fit in the minimum |
| `ChunkReserve.ReserveServes` | src/common/Ctx.cpp:436-443 | in every such run as many swap requests as the reserve has chunks are granted at once, also when no chunk may be allocated any more |
| `ChunkReserve.ServedBySlack` | src/common/Ctx.cpp:436-458 | of any number of swap requests for transactions exactly as many are granted at once as there are chunks beyond the unmet reservations |
| `ChunkPool.Allocator.constructor` | src/common/Ctx.cpp:331-358 | the loop that fills the stack leaves exactly the given chunks, in order, and nothing in use; the invariant holds if the reservations fit in the minimum |
| `ChunkPool.Allocator.GetMemoryChunk` | src/common/Ctx.cpp:413-485 | for every configuration the stack, counters, out-of-memory flag and result change as the request function says, or the stack underflows where that says so; from a state with the invariant it does not, the invariant stays, and below the minimum a chunk is always returned |
| `ChunkPool.Allocator.FreeMemoryChunk` | src/common/Ctx.cpp:527-547 | error 50001 exactly if no chunk is handed out; otherwise the chunk leaves its owner and is stacked, or handed back to the system exactly when the free stack is at the minimum |
| `SwapRuns.SwapRefinesLists` | src/common/MemoryManager.cpp:240-409 | from start-up, in every interleaving of the two threads' steps, nothing goes wrong and the contents of every transaction (resident, in flight or in the file) are those of a plain list under the operations performed; a grow adds a page with a cleared header |
| `SwapRuns.ManagerPerformsNothing` | src/common/MemoryManager.cpp:115-409 | no step of the memory manager, and no other use of the allocator, changes any list |
| `SwapRuns.SwapInterval` | src/common/MemoryManager.cpp:252-391 | in every reachable state the chunks from swappedMin to swappedMax are missing from memory, and any other missing one was passed by the flush that is going on; both bounds are -1 or they enclose indices of the list, starting at 0 unless the transaction is being flushed; the file holds its pages, and the last chunk is resident whenever its owner runs |
| `SwapRuns.ParserSeesTheList` | src/common/Ctx.cpp:631-734 | in every reachable state the address the parser writes through holds the last page of the list, and the address a flush gets holds the page of the list it asked for |
| `SwapRuns.ChunksAreConserved` | src/common/MemoryManager.cpp:241-407 | over every run with swapping no chunk is in two places, every chunk held for transactions is in one, and the allocator's counts, limits and cover hold |
| `SwapConflicts.WhenFlushIsSafe` | src/common/MemoryManager.cpp:324-343 | in every state with the invariant, whatever the manager has pending: no continuation of a flush that starts goes wrong if and only if the manager is not about to detach chunk 0 of that transaction |
| `SwapConflicts.WhenRemoveIsSafe` | src/common/Ctx.cpp:745-771 | in every state with the invariant: no continuation of a remove that starts goes wrong if and only if the manager has no decision about the transaction, to swap out or in, that it would still carry out |
| `SwapConflicts.FlushTooEarlyFails` | src/common/MemoryManager.cpp:324-343 | otherwise some continuation makes the manager detach a null chunk, also when it first brings back a chunk of another transaction |
| `SwapConflicts.RemoveBeforeDetachFails` | src/common/MemoryManager.cpp:324-343 | some continuation of a remove makes the manager take a chunk that was already freed, also when it first brings back a chunk of another transaction |
| `SwapConflicts.RemoveBeforeInstallFails` | src/common/MemoryManager.cpp:283-316 | a remove after a page of the transaction was read back makes the manager store the chunk out of bounds |
| `SwapConflicts.RemoveBeforeReadFails` | src/common/MemoryManager.cpp:240-316 | the same for a remove between the choice to bring a chunk back and the reading of its page, for which the remove itself leaves room |
| `SwapConflicts.TooEarlyIsReachable` | src/common/MemoryManager.cpp:68-73 | a state in which neither may start is reached from start-up |
| `SwapConflicts.ReadBackIsReachable` | src/common/MemoryManager.cpp:68-77 | a run from start-up to each of the two states in which the manager is bringing a chunk of the flushed transaction back and no remove may start |
| `SwapProgress.AwaitedIsChosen` | src/common/MemoryManager.cpp:197-222 | in every state with the invariant in which the parser waits, in a flush or in a shrink, the chunk the manager chooses to bring back is the one the parser waits for |
| `SwapProgress.WaitingIsHeard` | src/common/MemoryManager.cpp:197-222 | the same over every run from start-up |
| `SwapProgress.WhenWaitEnds` | src/common/MemoryManager.cpp:44-109 | some run of the manager alone ends the wait if and only if there is a chunk for it: one that can be obtained and is not used by an earlier un-swap, or one the manager is about to give back |
| `SwapProgress.RoomIsEnough` | src/common/MemoryManager.cpp:240-245 | room for two chunks ends every wait, and for one if no un-swap of another chunk comes first |
| `SwapStarvation.OneChunkIsNotEnough` | src/common/MemoryManager.cpp:212-222 | for every configuration with equal minimum and maximum a run after which the parser waits, a chunk can be obtained, and no run of the manager alone ends the wait |
| `SwapProgress.SwapCandidates` | src/common/MemoryManager.cpp:224-238 | a chunk may be swapped out exactly of those transactions, other than the flushed one, that have a chunk in memory besides the last one |
| `SwapProgress.RoundDecides` | src/common/MemoryManager.cpp:68-77 | one round takes both decisions, and the chunk to swap out is the first one of its transaction that is in memory |
| `SwapFiles.FilesAreTidy` | src/common/MemoryManager.cpp:115-149 | in every reachable state between two rounds of the manager there are files only of transactions, and the file of one that is not being flushed has exactly the swapped pages, or at most one page when nothing is swapped; a last chunk is remembered exactly for the transactions that have one |
| `SwapFiles.DropLeavesNothing` | src/common/MemoryManager.cpp:395-400 | a chunk written out in vain leaves no file behind when it was the only one |
| `SwapRuns.RunSound` | src/common/MemoryManager.cpp:44-109 | from any state with the invariant every run ends without a fault in a state with the invariant, and its lists are the list operations performed |
| `SwapRefinement.MoveSound` | src/common/MemoryManager.cpp:44-409 | every step of either thread keeps the invariant and changes the lists by exactly its list operation |
| `SwapParserMoves.GrowKeeps` | src/common/Ctx.cpp:671-694 | getting a chunk for a grow keeps the invariant |
| `SwapParserMoves.AppendKeeps` | src/common/Ctx.cpp:671-694 | appending the chunk keeps the invariant; the new last chunk is resident |
| `SwapParserMoves.PopKeeps` | src/common/Ctx.cpp:696-708 | taking the last chunk off keeps the invariant; that chunk was not swapped |
| `SwapParserMoves.LockKeeps` | src/common/Ctx.cpp:712-734 | the second half of a shrink keeps the invariant, whether it waits for the new last chunk or has it |
| `SwapParserMoves.WakeKeeps` | src/common/Ctx.cpp:719-734 | when the wait ends the new last chunk is in memory |
| `SwapParserMoves.FlushKeeps` | src/common/Ctx.cpp:736-743 | starting a flush keeps the invariant |
| `SwapParserMoves.FetchKeeps` | src/common/Ctx.cpp:631-653 | a get during a flush keeps the invariant and never returns a swapped chunk |
| `SwapParserMoves.ReleaseKeeps` | src/common/Ctx.cpp:655-670 | releasing a chunk during a flush keeps the invariant |
| `SwapParserMoves.RemoveKeeps` | src/common/Ctx.cpp:745-771 | starting a remove keeps the invariant |
| `SwapParserMoves.RemoveNextKeeps` | src/common/Ctx.cpp:745-771 | each chunk that a remove frees keeps the invariant |
| `SwapParserMoves.RemoveLastKeeps` | src/common/Ctx.cpp:745-771 | the end of a remove keeps the invariant |
| `SwapManagerMoves.ChooseKeeps` | src/common/MemoryManager.cpp:197-238 | the choices of chunks to swap in and out keep the invariant |
| `SwapManagerMoves.ReadKeeps` | src/common/MemoryManager.cpp:240-281 | reading a page back keeps the invariant; the file is long enough |
| `SwapManagerMoves.PlaceKeeps` | src/common/MemoryManager.cpp:283-316 | storing the chunk that was read keeps the invariant; the not-in-range error does not occur |
| `SwapManagerMoves.TakeKeeps` | src/common/MemoryManager.cpp:324-343 | detaching a chunk keeps the invariant |
| `SwapManagerMoves.StoreKeeps` | src/common/MemoryManager.cpp:345-375 | writing its page keeps the invariant |
| `SwapManagerMoves.FinishKeeps` | src/common/MemoryManager.cpp:377-398 | the second half of a swap-out keeps the invariant, also when the chunk is given back to a transaction that waits to shrink |
| `SwapManagerMoves.PurgeKeeps` | src/common/MemoryManager.cpp:115-149 | forgetting a removed transaction keeps the invariant |
| `SwapSpace.Space.GetChunkToSwap` | src/common/MemoryManager.cpp:224-238 | the loop returns a chunk that may be swapped, and none only if no transaction has one or nothing has to be swapped |
| `SwapSpace.Space.CleanOldTransactions` | src/common/MemoryManager.cpp:115-149 | the loop forgets exactly the removed transactions and their files |
| `SwapSpace.Space.SwapDetach` | src/common/MemoryManager.cpp:320-343 | the first critical section of a swap-out is the detach step, with what goes wrong in it; a chunk is returned exactly when the choice is still valid |
| `SwapSpace.Space.SwapFinish` | src/common/MemoryManager.cpp:377-398 | the second critical section is the finish step, with what goes wrong in it; the result says whether to delete the file, cut it or free the chunk |
| `SwapSpace.Space.UnswapInstall` | src/common/MemoryManager.cpp:283-316 | the critical section of a swap-in is the install step, with the not-in-range error and the store out of bounds |
| `SwapSpace.Space.ShrinkFirst` | src/common/Ctx.cpp:696-708 | the first critical section of a shrink removes and returns the last chunk, for every list |
| `SwapSpace.Space.ShrinkSecond` | src/common/Ctx.cpp:712-734 | the second waits exactly when the new last chunk is swapped, and otherwise returns it |
| `QueueRuns.ReaderReceivesMessages` | src/builder/Builder.h:185-351 | in every run, with any mix of message lengths, moves and spans and any interleaving of builder and reader, the reader has received a prefix of the finished messages byte for byte and in order, and gets the next one exactly when there is one |
| `QueueRuns.QueueShape` | src/builder/Builder.h:298-351 | in every state without an error: offset + position < D before each append, committed offsets are multiples of 8 and at most D, a message crosses chunks only from offset 0 with every earlier chunk full; every call the protocol allows is possible |
| `QueueRuns.MovesAtMostOnce` | src/builder/Builder.h:185-210 | in every run a message moves at most once between its beginning and its end, and not at all if it begins at the front of a chunk |
| `QueueRuns.AppendMoves` | src/builder/Builder.h:185-215 | one append opens a new chunk exactly when it fills the last one; the message then moves there, with start 0, if it does not begin at the front of its chunk, and otherwise goes on there |
| `QueueLimits.AppendFails` | src/builder/Builder.h:185-190 | one append reports error 10072 if and only if it fills a chunk when the chunks that the message filled before hold more than the write buffer may |
| `QueueLimits.AppendAllFails` | src/builder/Builder.h:185-190 | a string fails if and only if one of its bytes does |
| `QueueLimits.AppendAllFits` | src/builder/Builder.h:185-190 | no string fails that keeps the message within the limit |
| `QueueLimits.WhenRunFails` | src/builder/Builder.h:185-351 | in every run the builder has reported an error if and only if a message was committed empty or grew beyond the limit at the end of a chunk, by the messages alone |
| `QueueLimits.ModestRunsSucceed` | src/builder/Builder.h:185-351 | no run fails whose messages stay within the limit and are not committed empty, over any number of chunks |
| `QueueRuns.FastAppendIsAppend` | src/builder/Builder.h:365-393 | the single copy of appendArr leaves the queue as appending byte by byte does |
| `QueueRuns.AppendAllHolds` | src/builder/Builder.h:353-393 | a string appended to the unfinished message makes it longer by that string, across any number of chunks |
| `QueueRuns.BeginHolds` | src/builder/Builder.h:310-333 | beginning a message keeps what any reader has ahead of it; it begins right behind the last one if header and a byte fit there, and otherwise in a new chunk without a start |
| `QueueRuns.AppendHolds` | src/builder/Builder.h:297-304 | one byte, with a move, a new chunk or error 10072, keeps the finished messages and extends the unfinished one by that byte |
| `QueueRuns.CommitHolds` | src/builder/Builder.h:334-351 | a commit makes the message readable exactly as appended; an empty message is error 50058 and changes nothing readable |
| `QueueSteps.RelocateKeeps` | src/builder/Builder.h:199-204 | moving a message to a new chunk keeps its bytes and all finished messages |
| `QueueSteps.GoOnKeeps` | src/builder/Builder.h:205-210 | going on in a new chunk keeps them too; it happens only to a message at the front of its chunk |
| `QueueSteps.FinishStores` | src/builder/Builder.h:334-351 | after a commit the header gives size and chunk number, and the bytes lie behind it |
| `QueueRelease.ReleasedChunksAreDone` | src/builder/Builder.cpp:2392-2413 | in every run the chunks released after confirmations are behind everything still to be read or written; the reader is at most one chunk behind, at its very end |
| `QueueRelease.WhenReaderChunkIsReleased` | src/writer/Writer.cpp:130-163 | reading and confirming a message releases the chunk under the reader if and only if the message fills its last chunk to the last byte |
| `QueueRelease.ConfirmReleases` | src/writer/Writer.cpp:130-163 | reading and confirming a message releases exactly the chunks before the one in which the builder stood at its end |
| `QueueRestart.RestartDelivers` | src/writer/Writer.cpp:95-104 | in every run a reader that goes back to the start of a chunk receives the finished messages from some point on without gaps; it misses exactly those that begin in earlier chunks and, if the start is not 0, the one at the very front of the chunk |
| `QueueRestart.StartAfterCommit` | src/builder/Builder.h:345-347 | a commit in a chunk opened without a start sets it behind the message; a message of that chunk lies before it only at the very front, and none if the start is 0 |
| `QueueCases.MessageIsMissed` | src/builder/Builder.h:205-210 | for every chunk size a run of two messages after which a reader that goes back to the start of the second chunk does not receive the message at its front |
| `QueueCases.ReaderChunkIsReleased` | src/writer/Writer.cpp:130-163 | for every chunk size one message of D - H bytes, read and confirmed, releases the chunk under the reader |
| `OutputQueue.Builder.constructor` | src/builder/Builder.cpp:73-87 | one empty chunk whose start is 0 |
| `OutputQueue.Builder.Rotate` | src/builder/Builder.h:185-220 | the arrays change as the rotation function says, or error 10072 leaves them alone |
| `OutputQueue.Builder.Begin` | src/builder/Builder.h:310-333 | the arrays change as the begin function says |
| `OutputQueue.Builder.Append` | src/builder/Builder.h:353-363 | the arrays change as the append function says, with its error |
| `OutputQueue.Builder.AppendArr` | src/builder/Builder.h:365-375 | both paths leave the arrays as appending each byte in turn does, up to the byte that fails |
| `OutputQueue.Builder.Commit` | src/builder/Builder.h:334-351 | the arrays change as the commit function says, with its error |
| `OutputQueue.Writer.Merge` | src/writer/Writer.cpp:316-330 | the copy loop over several chunks returns the bytes in order and ends behind the padding |
| `OutputQueue.Writer.Fetch` | src/writer/Writer.cpp:287-330 | one part or many, the message and the position after it are the same |
| `OutputQueue.Writer.Poll` | src/writer/Writer.cpp:242-330 | one attempt returns the next finished message, or none, and leaves the writer where the next one is looked for |
| `NumberText.NumberExact` | src/builder/Builder.h:422-568 | for zero and every well-formed encoding of any length the text denotes exactly the base-100 number encoded |
| `NumberText.NumberGrammar` | src/builder/Builder.h:441-553 | the text matches the number grammar of section 6 of RFC 8259 if and only if there is at most one pair before the point or the first pair is not 0 |
| `NumberText.NumberMirror` | src/builder/Builder.h:490-553 | the complemented encoding, with or without the terminator 0x66, prints as '-' and the text of the positive encoding |
| `NumberText.NumberFails` | src/builder/Builder.h:554-566 | exactly which byte strings are errors, and which are zero |
| `NumberText.ParseNumber` | src/builder/Builder.h:422-568 | the loops print what the text function says for every byte string, and report error 50009 for the rest |
| `NumberText.PrintInteger` | src/builder/Builder.h:445-468 | the loop of the integer part prints its pairs, with zeros after the last digit |
| `NumberText.PrintFraction` | src/builder/Builder.h:471-488 | the loops of the fraction print the zeros and pairs, without a final zero |
| `CharacterSets.DecodeUtf8` | src/locales/CharacterSetAL32UTF8.cpp:26-77 | never a code above 0x10FFFF, one to four bytes used, none beyond the input |
| `CharacterSets.DecodeUtf16` | src/locales/CharacterSetAL16UTF16.cpp:26-62 | never a code above 0x10FFFF, one to four bytes used, none beyond the input |
| `CharacterSets.Utf8Unchanged` | src/locales/CharacterSetAL32UTF8.cpp:26-77 | decoding and encoding leaves a byte string unchanged if and only if it is UTF-8 by the byte ranges of section 4 of RFC 3629, with encoded surrogates allowed |
| `CharacterSets.WellFormedUnchanged` | src/locales/CharacterSetAL32UTF8.cpp:26-77 | UTF-8 exactly as in section 4 of RFC 3629 is unchanged |
| `CharacterSets.Utf16BecomesUtf8` | src/locales/CharacterSetAL16UTF16.cpp:26-62 | big-endian UTF-16 of any scalar values becomes the UTF-8 of the same scalar values |
| `CharacterSets.DecodesItsUtf8` | src/builder/Builder.h:1127-1154 | decoding the bytes written for a code point gives that code point back, whatever follows |
| `CharacterSets.DecodesItsUtf16` | src/locales/CharacterSetAL16UTF16.cpp:26-62 | decoding the UTF-16 form of a code point gives it back if and only if it is not a surrogate |
| `CharacterSets.TranscodeSize` | src/builder/Builder.h:1127-1154 | the output has at most three bytes for each input byte |
| `CharacterSets.CompleteForm` | src/locales/CharacterSetAL32UTF8.cpp:26-77 | bytes of the length that the first one announces give the code point of their bits, or the replacement character when there is none |
| `CharacterSets.BrokenForm` | src/locales/CharacterSetAL32UTF8.cpp:26-77 | bytes that break off give the replacement character for everything up to and with the byte that does not belong |
| `CharacterSets.Utf16Forms` | src/locales/CharacterSetAL16UTF16.cpp:26-62 | exactly the UTF-16 of scalar values is decoded; everything else gives the replacement character, for one code unit or for two |
| `StringCarry.SplitInsensitive` | src/builder/Builder.h:1086-1192 | any string, in any cut with a first piece that is not empty and middle pieces that are empty or have at least 16 bytes, prints as in one piece, in every format |
| `StringCarry.PiecesPrint` | src/builder/Builder.h:1086-1192 | what any such cut prints: the string transcoded, or its bytes when not mapped, or digits that read as either |
| `StringCarry.WellFormedPrintsUnchanged` | src/builder/Builder.h:1086-1192 | however well-formed UTF-8 is cut, also inside characters, it prints unchanged |
| `StringCarry.Utf16PrintsAsUtf8` | src/builder/Builder.h:1086-1192 | however UTF-16 is cut, also inside code units, it prints as the UTF-8 of the same characters |
| `StringCarry.EmitMapped` | src/builder/Builder.h:1127-1154 | mapped text is the string transcoded to UTF-8 |
| `StringCarry.EmitUnmapped` | src/builder/Builder.h:1181-1188 | unmapped text is the string itself |
| `StringCarry.EmitHex` | src/builder/Builder.h:1155-1188 | a reader of pairs of lower-case hexadecimal digits reads the plain text |
| `StringCarry.RestKeepsBack` | src/builder/Builder.h:1109-1123 | with more to come four to seven bytes are kept back, or all of a shorter piece |
| `StringCarry.MiddleCall` | src/builder/Builder.h:1101-1123 | a middle piece keeps the string intact if and only if it is empty or longer than the room in the carry buffer |
| `StringCarry.FirstCall` | src/builder/Builder.h:1092-1116 | a first piece keeps the string intact if and only if it is not empty or nothing is left over from an earlier string |
| `StringCarry.LastCall` | src/builder/Builder.h:1101-1123 | a last piece prints all that is left, whatever its length |
| `StringCarry.Window` | src/builder/Builder.h:1127-1128 | a decoder with four bytes in sight decides as with more |
| `StringCarry.StringParser.ParseString` | src/builder/Builder.h:1086-1192 | the call prints and carries over what the call function says, for every carry buffer and piece |
| `StringCarry.StringParser.Print` | src/builder/Builder.h:1109-1191 | the loop over the carry buffer and the data prints what is left, or keeps its tail |
| `FloatOrder.FloatsIncrease` | src/builder/Builder.cpp:617-645 | finite BINARY_FLOAT encodings decode to strictly increasing numbers in byte order, except the two zeros, through subnormal and normal numbers |
| `FloatOrder.DoublesIncrease` | src/builder/Builder.cpp:647-677 | the same for BINARY_DOUBLE |
| `FloatOrder.FloatNegated` | src/builder/Builder.cpp:617-645 | inverting all bytes negates the number, infinities included, if and only if neither encoding is the recognised NaN |
| `FloatOrder.DoubleNegated` | src/builder/Builder.cpp:647-677 | the same for BINARY_DOUBLE |
| `FloatOrder.AgreesWithIeee` | src/builder/Builder.cpp:617-645 | the decoded number is that of IEEE 754 if and only if it is not subnormal and not a NaN other than the recognised one |
| `FloatOrder.DiffersFromIeee` | src/builder/Builder.cpp:617-645 | otherwise a subnormal number is halved, and an unrecognised NaN becomes a number beyond the largest exponent |
| `FloatOrder.MagnitudeGrows` | src/builder/Builder.cpp:632-635 | a larger exponent, or an equal one and a larger significand, is a larger magnitude |
| `FloatOrder.KeysIncrease` | src/builder/Builder.cpp:617-677 | for any widths, encodings compare as their numbers do |
| `DecimalText.NanosExact` | src/builder/BuilderJson.cpp:113-128 | the one or two digit runs denote timestamp * 10^9 + fraction for every 64-bit timestamp if and only if it is not a negative multiple of 10^9 with a fraction and not -2^63 |
| `DecimalText.NanoText` | src/builder/BuilderJson.cpp:113-128 | the branch with its C division and 64-bit wrap prints what the function says, for every timestamp and fraction |
| `DecimalText.UnixRounds` | src/builder/BuilderJson.cpp:130-143 | the coarser formats print the instant rounded to nearest, half up, if and only if that is a 64-bit number other than -2^63 |
| `DecimalText.UnixNumber` | src/builder/BuilderJson.cpp:130-143 | the three branches, in unsigned 64-bit arithmetic, print what the function says |
| `DecimalText.IsoRounds` | src/builder/BuilderJson.cpp:194-231 | the carry of the ISO branches gives the same rounded instant with a fraction below one second |
| `DecimalText.AppendDec` | src/builder/BuilderJson.h:689-715 | the digit loops print the decimal text of every 64-bit number; 21 characters are enough |
| `DecimalText.AppendSDec` | src/builder/BuilderJson.h:717-749 | the same with a sign for every signed 64-bit number; for -2^63, whose negation wraps, a lone minus sign |
| `DecimalText.AppendDecN` | src/builder/BuilderJson.h:668-687 | the last n digits, with leading zeros |
| `DecimalText.SDecDenotes` | src/builder/BuilderJson.h:717-749 | the decimal text with a sign denotes the number |
| `DecimalText.SignedTextDenotes` | src/builder/BuilderJson.h:717-749 | what is printed denotes the number, except for -2^63 |
| `DecimalText.DecNDenotes` | src/builder/BuilderJson.h:668-687 | n digits denote the number when it has no more |
| `JsonEscape.EscapeRoundTrip` | src/builder/BuilderJson.h:762-835 | unescaping by section 7 of RFC 8259 gives the string back if and only if it has none of the bytes 11 and 14 to 31 |
| `JsonEscape.UnescapeEscape` | src/builder/BuilderJson.h:789-822 | what a JSON reader makes of any escaped string: decimal digits read as hexadecimal, byte 31 refused |
| `JsonEscape.EndsAtItsQuote` | src/builder/BuilderJson.h:823-828 | no quote of the escaped text ends the string; it ends at the quote written behind it, for every byte string |
| `JsonEscape.EscapeText` | src/builder/BuilderJson.h:772-834 | the loop writes the escape of every byte in order |
| `JsonEscape.EscapedBytes` | src/builder/BuilderJson.h:789-822 | exactly the bytes up to 30, the quote, the slash and the backslash are escaped |
| `JsonEscape.FastPathFits` | src/builder/BuilderJson.h:762-769 | the unchecked path, wherever its guard lets it in, stays inside the chunk if and only if the text has at most five bytes for each character |
| `JsonEscape.FastEscapeIsSlow` | src/builder/BuilderJson.h:762-769 | where the guard lets the unchecked path in and the text stays inside the chunk it leaves the queue as the checked path does; where the text fills the chunk to the last byte it does not |
| `JsonEscape.EscapeSize` | src/builder/BuilderJson.h:772-834 | the length of the escaped text from the numbers of short and long escapes |
| `ScnCodec.ScnRoundTrip` | src/common/Ctx.h:421-435 | reading what was written gives the number in both byte orders, over any buffer contents and across the switch at 2^47, if and only if it is below 2^63 and not of the all-ones form, or is the none value |
| `ScnCodec.WriteScnLittle` | src/common/Ctx.h:519-537 | the eight bytes after the write; the short form leaves two of them alone |
| `ScnCodec.WriteScnBig` | src/common/Ctx.h:539-557 | the same in the other byte order |
| `ScnCodec.ReadsLittle` | src/common/Ctx.h:421-427 | what the little-endian reader returns for every number written |
| `ScnCodec.ReadsBig` | src/common/Ctx.h:429-435 | what the big-endian reader returns for every number written |
| `FieldCursor.FieldsInsideRecord` | src/common/RedoLogRecord.h:212-273 | in a record of at most 65532 bytes, after any successful mix of calls, the position is the base plus the earlier sizes rounded up to 4 and the field lies inside the record |
| `FieldCursor.WhenCallsSucceed` | src/common/RedoLogRecord.h:212-273 | in such a record, after any successful mix of calls, each call succeeds if and only if the field it enters ends inside the record, and otherwise gives its own error; skipping passes exactly the empty fields |
| `FieldCursor.CursorIsExact` | src/common/RedoLogRecord.h:212-273 | with field sizes up to 65532, after any successful mix of calls, the position is the place of the field if and only if that fits in 16 bits |
| `FieldCursor.PaddedRoundsUp` | src/common/RedoLogRecord.h:220-221 | the 16-bit rounding is right if and only if the size is at most 65532 |
| `FieldCursor.LargeRecordWraps` | src/common/RedoLogRecord.h:220-221 | a record above 64 KB in which the position wraps |
| `FieldCursor.SkipThenNext` | src/common/RedoLogRecord.h:231-273 | skipEmptyFields and then nextField deliver the first later field that is not empty, or report it missing (50006) or outside the record (50007) |
| `FieldCursor.Fields.NextFieldOpt` | src/common/RedoLogRecord.h:212-229 | the cursor moves to the next field, stays at the last, or error 50005 is reported |
| `FieldCursor.Fields.NextField` | src/common/RedoLogRecord.h:231-251 | the cursor moves to the next field, or error 50006 or 50007 is reported |
| `FieldCursor.Fields.SkipEmptyFields` | src/common/RedoLogRecord.h:253-273 | the loop moves over the empty fields, or error 50008 is reported |
| `ColumnImages.PruningKeepsMeaning` | src/builder/Builder.cpp:1428-1545 | applied to any row that has the before images, the pruned and completed update gives column c the same value as the original one, in every format, if and only if column c is not one outside the key whose before image the NOT NULL correction replaced in a pruning format |
| `ColumnImages.UpdateIsLost` | src/builder/Builder.cpp:1449-1508 | with the NOT NULL flag, an update of a column from NULL to a value that is pruned, so that the row keeps NULL |
| `ColumnImages.NothingOverridden` | src/builder/Builder.cpp:1446-1465 | without the flag there is no such column |
| `ColumnImages.SurvivesIffChanged` | src/builder/Builder.cpp:1472-1508 | in the pruning formats a column outside the key with an image stays if and only if its images differ; key columns stay, and what stays has both images |
| `ColumnImages.UpdateLeaves` | src/builder/Builder.cpp:1428-1545 | exactly which columns an update leaves: all of an unknown table or in the full format, the key, those without an image, and those whose images differ |
| `ColumnImages.UpdateImages` | src/builder/Builder.cpp:1428-1545 | what it leaves of a column: both images with the meaning of the original ones, apart from the before image that the NOT NULL flag replaces; nothing of a column that is not left |
| `ColumnImages.InsertKeepsRow` | src/builder/Builder.cpp:1573-1626 | the printed insert denotes the same row when absent means NULL; the full formats print all columns of the table, and the key is always printed |
| `ColumnImages.DeleteKeepsRow` | src/builder/Builder.cpp:1655-1703 | the same for the row a delete removes |
| `ColumnImages.InsertPrints` | src/builder/Builder.cpp:1585-1626 | in the format for changes an insert prints exactly the key and those of the other collected columns that are not NULL, with their images as they were |
| `ColumnImages.DeletePrints` | src/builder/Builder.cpp:1667-1703 | the same for a delete |
| `ColumnImages.ReleaseClears` | src/builder/Builder.h:225-247 | releasing clears every value if and only if every set column is in a word that valuesMax reaches |
| `ColumnImages.InsertIsReached` | src/builder/Builder.cpp:1573-1626 | after an insert every set column is reached |
| `ColumnImages.DeleteIsReached` | src/builder/Builder.cpp:1655-1703 | after a delete every set column is reached if and only if every completed column already was |
| `ColumnImages.UpdateThenRelease` | src/builder/Builder.h:225-247 | an update and then a release leave no bit and no value behind |
| `ColumnImages.InsertThenRelease` | src/builder/Builder.h:225-247 | an insert and then a release leave no bit and no value behind |
| `ColumnImages.DeleteThenRelease` | src/builder/Builder.h:225-247 | a delete and then a release leave nothing behind if and only if valuesMax already reached every column that the delete completes |
| `ColumnImages.DeleteLeavesColumn` | src/builder/Builder.cpp:1655-1703 | for every table of more than 64 columns a full delete without collected values leaves column 64 behind after the release |
| `ColumnImages.SetValueKeeps` | src/builder/Builder.h:260-266 | collecting a value keeps what releasing needs |
| `ColumnImages.CollectedValues` | src/builder/Builder.h:249-273 | after any values of any kinds the columns hold the last one of each kind, and exactly the columns with a value are set |
| `ColumnImages.CollectedRow` | src/builder/Builder.h:249-273 | the row inserted is that of the after values collected, the row deleted that of the before values |
| `ColumnImages.RowValues.ValueSet` | src/builder/Builder.h:249-273 | the bit, the value and valuesMax after a value in one piece |
| `ColumnImages.RowValues.Walk` | src/builder/Builder.cpp:1428-1440 | the loop over the set bits treats every reached column once and no other, or reports the error of one of them |
| `ColumnImages.RowValues.ReleaseValues` | src/builder/Builder.h:225-247 | every reached column is cleared and valuesMax is 0 |
| `ColumnImages.RowValues.CompleteUpdate` | src/builder/Builder.cpp:1428-1545 | the update pass; error 50073 exactly if a reached column is not in the table |
| `ColumnImages.RowValues.CompleteInsert` | src/builder/Builder.cpp:1573-1626 | the insert pass: pruning and completing by format, unless a reached column is outside the table |
| `ColumnImages.RowValues.CompleteDelete` | src/builder/Builder.cpp:1655-1703 | the delete pass: pruning and completing by format, unless a reached column is outside the table |
| `ColumnFragments.MergeOutcome` | src/builder/Builder.cpp:1278-1321 | whatever pieces arrive in whatever order, the merge gives the last of each of the three pieces one behind the other, or the value in one piece, or error 50015; leftovers of earlier rows do not matter |
| `ColumnFragments.ThreePieces` | src/builder/Builder.cpp:1278-1321 | the three pieces of a value, in any order of arrival, become the value again |
| `ColumnFragments.MiddlesMerge` | src/builder/Builder.cpp:1278-1321 | a value in any number of pieces becomes the value again if and only if all middle pieces but the last are empty |
| `ColumnFragments.MergedIsClean` | src/builder/Builder.cpp:1278-1321 | after the merge and the release nothing with a byte in it is left for the next row |
| `ColumnFragments.ColumnSlots.ValueSet` | src/builder/Builder.h:267-294 | a piece goes to its own entry and marks the column for the merge |
| `ColumnFragments.ColumnSlots.MergeColumn` | src/builder/Builder.cpp:1278-1321 | the loop over the four kinds merges each of them, or reports error 50015 exactly for one that is already set |

## Left out

- Configuration parsing, start-up, logging, metrics, signals and thread management: input, output and wiring.
- Hard shutdown: every run of the model goes on; steps that a shutdown would cut short are not modelled.
- The high-water mark and the threshold that decides whether anything has to be swapped: the manager may or may not choose a chunk at any time.
- Which modules `wontSwap` wakes, and the wake-ups of waiting threads: a waiting step may try at any time.
- File system errors, open flags and the clean-up of old swap files: page write, page read, cutting and deleting always succeed.
- Failure of the system allocator (error 10016).
- The other fields of a message header, flush thresholds and the waking of the writer thread: only size, chunk number and data are kept.
- The confirmation queue of the writer, ordered by message number: a confirmation is taken to cover every message received so far.
- The Protobuf builder and the generated Protobuf code.
- XML and LOB decoding: only the pieces they feed to `parseString` are modelled.
- Calendar conversion (`Data::valuesToEpoch`, `epochToIso8601`): timestamps are numbers of seconds here.
- The 8-bit and 16-bit character sets with tables, and the error for an unknown one (50010); of the decoders, AL32UTF8 and AL16UTF16 are modelled.
- Interval printing, RowId and hexadecimal printing: each copies fields or digits through a fixed table, without a loop that carries state or a choice that depends on earlier data.
- ColumnImages.RowValues.ValueSet: takes values in one piece; values in pieces are in `ColumnFragments`, for one column, apart from the loop over the set columns.
- ColumnFragments.ColumnSlots.MergeColumn: says nothing about the entries after an error.
- The guard columns, trace output and the system-table branch of `processDml`.
- The growth of the value buffer in `Builder` (`valueBufferCheck`, `valueBufferPurge`): text is a sequence of any length.
- `readScnRLittle` and `readScnRBig`: nothing writes their form.
- NumberText.ParseNumber: reads no byte beyond the input, while the source reads one byte more before it finds out that the digits have ended and does not use it.
- DecimalText.AppendSDec: takes the negation of -2^63 to wrap to itself; the C++ standard leaves it, and the overflow of `timestamp * 1000000L`, undefined.
- FloatOrder.FloatsIncrease: is about the exact value before it is rounded to a machine number.
- ChunkPool.Allocator.GetMemoryChunk: says nothing of what the source does after it has read outside of the stack of free chunks.
- ChunkPool.Allocator.FreeMemoryChunk: requires, when chunks are handed out, that the chunk is one the module holds; the source does not check this.
- SwapSpace.Space.SwapDetach: stops where the source goes on with a null chunk or an index outside of the list; `fault` names these cases.
- ColumnImages.RowValues.CompleteInsert: stops at a reached column that the table does not have, where the source reads outside of the list of columns; the same holds for `CompleteDelete`.
