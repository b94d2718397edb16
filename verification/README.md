# A model of haclog in Dafny

haclog is an asynchronous logger. A thread that logs writes a binary record (header, fixed-size arguments,
strings, and a 128-byte interval) into a byte ring of its own and publishes it with one store. A single backend
thread decodes the records, formats them and hands the messages to handlers. This project models that path and
proves what it is for.

| part of the program | modules |
|---|---|
| byte ring, placement of chunks | `BytesBuffer` |
| record protocol, producer against consumer | `RingProtocol` (the machine), `RingInvariant`, `RingSteps`, `RingReader` (the proof), `RingTheorems`, `RingProgress`, `RingCall`, `RingWait`, `RingFifo`, `RingMeaning` (what it gives) |
| bytes of a record | `Bytes`, `PrintfSpec`, `Codec`, `StringTable`, `Header`, `RecordChunks` (the four chunks), `Received` (what a conversion gets, in the terms of C) |
| serializing and formatting as loops over the ring | `Serializer`, `Deserializer`, `Formatter`, `RingSerialize` (the machine's producer agrees with `Serializer`) |
| format strings | `CString`, `FormatParser` (one conversion), `FormatCuts` (a whole format), `FormatPasses` (the loops) |
| one call site, many threads | `CallSite` |
| thread contexts, backend loop, handlers | `Handlers`, `ThreadStatus`, `Lifecycle` (the machine), `LifecycleProof`, `LifecycleTheorems`, `LifecycleHistory`, `LifecycleProgress`, `ContextList` (the lists on heap nodes) |
| size-rotating file handler | `RotateHandler` |
| path normalisation | `NormPath` |

Concurrency is modelled by state machines whose steps interleave freely; an atomic load or store is one step, and
so is a store of one byte by the producer. In `RingProtocol` a position is a pair of lap and offset. The lap, like
`pubs`, `taken`, `upto`, `calls`, `past`, `gens` and `used`, is bookkeeping for the statements: no decision of the
program reads it. What the program does by changing things step by step is also given as methods over arrays and
objects (`Serializer`, `Deserializer`, `FormatPasses`, `ContextList`, `RotateHandler`, `NormPath`), each proved
against the functions the theorems are about.

`Lifecycle` sees a ring as a queue. That is what `RingFifo.RefinesFifo`, `RingTheorems.EmptyIffDrained` (the join
loop) and `RingTheorems.SnapshotReached` (the consume loop) give.

Sizes are those of LP64 with signed `char`; bytes are little-endian.

Where the code and what is written about it differ, the model follows the code:

- A conversion with an unsupported length, such as `%lf`, is not refused. The result of the type table is ignored
  and the conversion is kept with no type. `FormatPasses.UntypedIff` says exactly which.
- The limit on a single chunk does not make every record fit that respects it. `RingProgress.DrainedGrantsIff`
  gives the exact size for a drained ring at any position of a run (0, or a multiple of 8 from 128 on);
  `RingWait.RecordCanWait` is a run from an empty ring of the default capacity to a call that waits at its fourth
  fetch, and `RingWait.WaitNeverEnds` says that such a wait never ends.
- The bound check of `haclog_path_normpath` is `length < size`, which is one short for a path of nothing but
  "..", as the NUL behind a kept ".." is counted. `NormPath.Normpath` says exactly when, `NormPath.OverrunHappens` is
  the shortest case.
- With a backup count of 0 the rotating handler still keeps one backup; `RotateHandler.Kept` says so.
- README.md of haclog tells a thread to call `haclog_thread_context_init` for cleanup; the function that cleans up
  is `haclog_thread_context_cleanup`.

## Model

| member | source | states |
|---|---|---|
| `BytesBuffer.WFcGrant` | `haclog/haclog_bytes_buffer.c:53-114` | a granted chunk lies in the buffer, touches no unread byte, keeps the interval to a reader ahead, and can never make a full ring look empty, the exact-fit case included; the unread range grows by the chunk and the skipped tail only |
| `BytesBuffer.WFcRefusal` | `haclog/haclog_bytes_buffer.c:58-113` | -1 exactly above the per-chunk limit, -2 exactly when neither the writer's place nor offset 0 has the room |
| `BytesBuffer.BytesBuffer.WMove` | `haclog/haclog_bytes_buffer.c:116-130` | publishes a position, the capacity as 0; anything outside is refused and changes nothing |
| `BytesBuffer.BytesBuffer.RMove` | `haclog/haclog_bytes_buffer.c:132-146` | the same for the reader position |
| `BytesBuffer.New` | `haclog/haclog_bytes_buffer.c:11-36` | no ring below two intervals, otherwise an empty one of that capacity |
| `RingReader.RunInv` | `haclog/haclog_vsprintf.c:944-1147` | every state of every interleaving of producer and consumer steps, from an empty ring with any leftover reader position below the capacity, satisfies the invariant: stale reader, reader, published writer, private writer in this order within one lap, every unread record whole in memory, every decode on track |
| `RingTheorems.ReturnedIsPrefix` | `haclog/haclog_vsprintf.c:1240-1424` | over every run the consumer has returned exactly the messages of the first published records, in order, each once: time stamp, primitive, formatted text |
| `RingMeaning.ReturnedMeans` | `haclog/haclog_vsprintf.c:1240-1424` | every returned message has the time stamp and primitive of its call, and as text the format with each conversion replaced by what is printed for exactly the values that were passed, literal text in between; cut only when it does not fit |
| `RingTheorems.HistoryGrows` | `haclog/haclog_vsprintf.c:1131-1146` | published records stay published, returned messages stay returned |
| `RingTheorems.NoOverwrite` | `haclog/haclog_vsprintf.c:984-1146` | no producer step changes a byte of the four chunks of a published record that was not released |
| `RingTheorems.StoresInside` | `haclog/haclog_vsprintf.c:990-1144` | every store of the producer, also of a call that later gives up, is inside the buffer and inside a chunk granted to its record |
| `RingTheorems.RecordWhole` | `haclog/haclog_vsprintf.c:984-1133` | the four chunks of a record are inside the buffer and pairwise disjoint, and the record wraps at most once |
| `RingTheorems.OnlyPublishVisible` | `haclog/haclog_vsprintf.c:944-959` | every producer step but the last, a call that gives up included, leaves what the reader can see as it was |
| `RingTheorems.EmptyIffDrained` | `haclog/haclog_bytes_buffer.c:159-169` | the two offsets are equal exactly when every published record was released, so the join loop ends only on a drained ring |
| `RingTheorems.SnapshotReached` | `haclog/haclog_log.c:61-69` | between records the consumer meets the loaded writer position exactly when it has released the records counted then, and never passes it |
| `RingTheorems.HeaderAgreed` | `haclog/haclog_vsprintf.c:1254-1265` | the reader looks for the header where the writer put it, whatever reader position the writer used, and decodes the header that was written |
| `RingTheorems.ReaderLanding` | `haclog/haclog_vsprintf.c:1131-1133` | reader and writer positions are multiples of 8, and 0 or at least 128, in every state |
| `RingFifo.RefinesFifo` | `haclog/haclog_vsprintf.c:961-1147` | every step of the byte-level protocol is a step of a queue of messages: append, hand out the oldest, or nothing |
| `RingProgress.DrainedGrantsIff` | `haclog/haclog_bytes_buffer.c:58-113` | from a drained ring all four fetches of a record of aligned sizes succeed at 0 and at every multiple of 8 from 128 on, if and only if the sizes meet a condition that can be checked before the call |
| `RingProgress.TwiceIsEnough` | `haclog/haclog_vsprintf.c:984-1133` | twice the record and one interval, in a ring of at least 512 bytes, always suffice, at any offset and for any sizes |
| `RingProgress.ChunkLimitNotEnough` | `haclog/haclog_vsprintf.c:1114-1133` | each chunk within the limit is not enough: default capacity, drained at 524384, 524160 bytes of strings, and the interval is refused |
| `RingWait.RecordCanWait` | `haclog/haclog_vsprintf.c:1114-1133` | a run from an empty ring of the default capacity gets there: two calls with a string argument, then a third whose fourth fetch waits with the ring drained and the reader position up to date |
| `RingWait.WaitNeverEnds` | `haclog/haclog_vsprintf.c:944-959` | whenever a call waits like that, every continuation of the run leaves producer, reader, memory, everything published and everything released as they are |
| `RingProgress.ConsumerAdvances` | `haclog/haclog_log.c:65-83` | while a record is unread every consumer step lowers a measure or releases it |
| `RingProgress.NeverStuck` | `haclog/haclog_vsprintf.c:944-959` | in every reachable state the consumer can step, and a producer waiting in a fetch for a record of admissible size is served after the consumer has drained the ring, with one reload of the reader position |
| `RingCall.CallCompletes` | `haclog/haclog_vsprintf.c:961-1147` | every run with a call for a record of admissible size under way, at whatever step, goes on by steps of the consumer and of that producer to one in which the record is published |
| `Codec.SlotIsLeast` | `haclog/haclog_macro.h:83-84` | a string slot is the least multiple of 8 above the copied length |
| `Codec.DistanceIsParamSize` | `haclog/haclog_vsprintf.c:876-924` | the cursor moves by exactly the summed parameter size, or 8 bytes less for each unsupported type |
| `Codec.RoundTrip` | `haclog/haclog_vsprintf.c:1286-1371` | decoding the fixed-size and string chunks returns exactly the widths, precisions, numbers at their size and cut strings of any well-typed argument list, as the functions `Seen` and `CutString` give them |
| `Received.ReceivedAsPassed` | `haclog/haclog_vsprintf.c:1286-1371` | the same without those functions: for each conversion the dynamic width and precision as passed; the number that lies in the range of its C type (given as numbers for every type) and is congruent to the passed one, so the passed one if it is in range; a floating-point value whole; a string up to its precision, or the fixed text from the 129th on |
| `Codec.DecodePrecisionOk` | `haclog/haclog_vsprintf.c:1009-1014` | a dynamic precision stored in 8 bytes and read from the first 4 is the precision that was passed |
| `StringTable.StoredOffset` | `haclog/haclog_vsprintf.c:1017-1051` | for every string, those past 128 included, the stored offset is where its slot is, inside the chunk, holding the copied string |
| `StringTable.SlotsTile` | `haclog/haclog_vsprintf.c:1113-1129` | the slots tile the string chunk, each with its NUL inside |
| `Header.HeaderRoundTrip` | `haclog/haclog_vsprintf.h:90-97` | a header whose fields fit is read back whole |
| `Serializer.FetchW` | `haclog/haclog_vsprintf.c:944-959` | the loop answers as the recursive `Fetched` does for the remembered reader position and the positions it loads |
| `Serializer.FetchedIs` | `haclog/haclog_vsprintf.c:944-959` | that is the answer for the first position that does not make it wait, and only running out of loads ends with waiting |
| `Serializer.PutString` | `haclog/haclog_vsprintf.c:1017-1052` | one `%s`: offset stored, string cached up to the precision, the fixed text from the 129th on |
| `Serializer.SerializeConst` | `haclog/haclog_vsprintf.c:998-1111` | the loop over the specifications stores exactly the fixed-size chunk, counts the strings and sums the string chunk |
| `Serializer.SerializeStrings` | `haclog/haclog_vsprintf.c:1117-1129` | the two copy loops store exactly the string chunk |
| `Serializer.Serialize` | `haclog/haclog_vsprintf.c:961-1147` | the loaded reader positions determine how a call ends, how many chunks are granted and where; the granted argument, string and header chunks are stored there and no other byte changes, also when the call gives up; the writer moves, to the end of the fourth chunk, exactly when the call returns; -1 means that a chunk is above the limit; the call waits only when the last position it could load leaves no room for its next chunk, and is published at once when the remembered position leaves room for all four |
| `Serializer.PlacementInTurn` | `haclog/haclog_vsprintf.c:944-1147` | how a call ends, without the functions that compute it: the fetches are made in turn, each with the loads the one before left over, waiting at every position but its last; what the ring answers there is where the chunk is, or how the call ends; it waits only when every load is used up |
| `RingSerialize.CallIsSerialize` | `haclog/haclog_vsprintf.c:961-1147` | with a reader that stands still, the producer of the ring protocol brings every call to where that method leaves it, published, given up or waiting: same outcome, remembered reader position, chunk places and bytes |
| `RingSerialize.StillCallPublishes` | `haclog/haclog_vsprintf.c:961-1147` | if the ring has room for the four chunks, every call is published while the reader stands still, as the one new record |
| `Deserializer.GetArg` | `haclog/haclog_vsprintf.c:1286-1371` | the cursor steps over width, precision and value exactly as they were laid out |
| `Deserializer.FormatRecord` | `haclog/haclog_vsprintf.c:1262-1414` | the loop over specifications leaves exactly the specified text and a NUL in the buffer |
| `Deserializer.Format` | `haclog/haclog_vsprintf.c:1240-1424` | nothing to read at the snapshot; otherwise the record's text, its header fields, and the reader moved past it |
| `Formatter.FullInterleaves` | `haclog/haclog_vsprintf.c:1377-1414` | the full text is the literal stretches of the format and the printed conversions by turns, each printed with the width and precision of its own argument |
| `Formatter.FormatIsCut` | `haclog/haclog_vsprintf.c:1377-1414` | the output, exactly: the first bufsize - 1 characters of the full text, the last one NUL if it belongs to a conversion |
| `Formatter.FormatExactIff` | `haclog/haclog_vsprintf.c:1377-1414` | nothing is lost if and only if a byte is left to spare, or the last character is literal text |
| `FormatParser.ConversionSound` | `haclog/haclog_vsprintf.c:828-867` | whatever a pass accepts at a '%' is a conversion of the grammar, up to its end; the grammar lists its characters |
| `FormatParser.ConversionComplete` | `haclog/haclog_vsprintf.c:828-867` | every conversion of the grammar is accepted, with its own end and its own parts |
| `FormatParser.AcceptedIff` | `haclog/haclog_vsprintf.c:828-867` | accepted if and only if a conversion stands there |
| `FormatPasses.NumParams` | `haclog/haclog_vsprintf.c:811-874` | succeeds exactly on formats that are literal text between conversions of the grammar; counts the conversions, and as arguments one for each and one for every '*' |
| `FormatPasses.SpecFillup` | `haclog/haclog_vsprintf.c:399-485` | a format with as many conversions as the array has entries is filled without error: one entry a conversion, in order, saying where it stands and what it spells |
| `FormatPasses.FillConversion` | `haclog/haclog_vsprintf.c:418-478` | for any conversion that stands there: its flags, the width and precision it spells reduced to 16 signed bits or dynamic for '*', no precision as 0, its length and type characters, and an argument type with exactly the range of C for that type and length |
| `FormatPasses.PassesAgree` | `haclog/haclog_vsprintf.c:399-485` | after a successful count the filling pass succeeds and fills exactly as many; with room to spare it fails exactly where counting fails |
| `FormatCuts.SpecDescribes` | `haclog/haclog_vsprintf.c:149-475` | what is filled for an accepted conversion is what it spells: positions in 16 bits, flags, width, precision, length, type character, and the range or kind of the argument type for every type and length |
| `FormatCuts.CutsIff` | `haclog/haclog_vsprintf.c:811-874` | a format can be cut, from any place, into text without an unescaped '%' and conversions exactly when counting from there succeeds, and in one way only, the one that is counted |
| `FormatCuts.CutsFilled` | `haclog/haclog_vsprintf.c:399-485` | every format that is cut so is counted and filled as it is spelled, whatever its length |
| `FormatPasses.ArgsCountedIff` | `haclog/haclog_vsprintf.c:835-869` | arguments are one per conversion and per dynamic field, if and only if no static width or precision is 65535 modulo 65536 |
| `FormatPasses.MisreadHappens` | `haclog/haclog_vsprintf.c:446-453` | `%65535d` is such a format: one argument counted, one more asked for |
| `FormatPasses.UntypedIff` | `haclog/haclog_vsprintf.c:149-388` | every accepted conversion is filled, and with no type exactly when its length is not one its type is known with |
| `FormatPasses.LongDoubleFormatKept` | `haclog/haclog_vsprintf.c:379-388` | `%lf` is one of them: counted and filled without error, with no type |
| `FormatPasses.Generate` | `haclog/haclog_vsprintf.c:749-797` | a primitive exactly when the format can be cut into literal text and conversions, with one specification a conversion saying what it spells, and their summed size |
| `CallSite.GeneratedOnce` | `haclog/haclog_log.h:59-74` | for any number of threads at one call site: at most one inside the lock, at most one successful generation, every serialization uses that one, and none goes without a primitive unless a generation failed |
| `CallSite.OneGeneration` | `haclog/haclog_log.h:62-73` | if no generation fails there is at most one, and every serialization uses its result |
| `CallSite.EveryPassSerializes` | `haclog/haclog_log.h:59-74` | in every run each thread has serialized exactly as often as it has left the macro, and has entered it as often, or once more while inside; the passes are counted from the states of the run |
| `CallSite.LeavingSerializes` | `haclog/haclog_log.h:73-74` | a step leaves the macro exactly when it serializes, with the primitive of that moment |
| `CallSite.SomeoneAdvances` | `haclog/haclog_spinlock.c:3-14` | a spinning thread always has a holder that can move on |
| `Handlers.ContextLevelIsLeast` | `haclog/haclog_context.c:61-74` | the context's level is the least of the handlers' levels and FATAL |
| `Handlers.AdmittedTwice` | `haclog/haclog_log.h:87-98` | filtering log calls at the context's level first loses nothing a handler admits |
| `LifecycleProof.RunInv` | `haclog/haclog_log.c:113-131` | the invariant of every run: lock, lists, statuses, the record in flight, what each handler has got |
| `LifecycleHistory.CleanupDelivers` | `haclog/haclog_thread_context.c:52-71` | when a thread's cleanup has returned, every handler has got exactly the thread's log calls at or above its level whose serialization did not give up, in order, each once; the log calls are those of any history of the run |
| `LifecycleHistory.DeliveredIsPrefix` | `haclog/haclog_log.c:65-83` | at any moment every handler has got the first of those calls, all of them once the context is handed back |
| `LifecycleHistory.RunsHaveHistories` | `haclog/haclog_log.h:87-98` | every run has a history that labels its log calls, and only runs have |
| `LifecycleTheorems.BackendNeverDangles` | `haclog/haclog_log.c:27-86` | the backend's next step never touches a context that is freed or marked DONE |
| `LifecycleTheorems.ExactlyOneList` | `haclog/haclog_context.c:26-43` | every inserted context that was not handed back is in exactly one of the two lists, once; nothing else is, but for a node about to be unlinked |
| `LifecycleTheorems.NeverStuck` | `haclog/haclog_log.c:113-131` | the backend can change the state, or a thread inside the lock can |
| `LifecycleProgress.HandedBackSoon` | `haclog/haclog_context.c:45-59` | a waiting context is handed back after finitely many steps of the backend and of the thread inside the lock, if there is one |
| `LifecycleProgress.CleanupCompletes` | `haclog/haclog_thread_context.c:52-71` | every run in which a thread is inside its cleanup, at whatever step, goes on by steps of the backend, of that thread and of the thread inside the lock, if there is one, to one in which it has returned |
| `ContextList.Acyclic` | `haclog/haclog_context.c:38-40` | a list that ends at NULL repeats no node |
| `ContextList.Context.AddHandler` | `haclog/haclog_context.c:61-74` | up to eight handlers are appended, and the level stays that of the handlers |
| `ContextList.Context.Insert` | `haclog/haclog_context.c:26-43` | a fresh node for the context becomes the first of the add list |
| `ContextList.Context.HandleNew` | `haclog/haclog_log.c:9-25` | the add list becomes empty; its nodes, reversed, are in front of the backend's list |
| `ContextList.ReverseIs` | `haclog/haclog_log.c:13-22` | moving loses and doubles no node |
| `ContextList.Context.HandleRemove` | `haclog/haclog_log.c:27-50` | exactly the nodes of waiting contexts are unlinked and those contexts marked DONE; every other node, its order and its context are as before; both lists stay well-formed |
| `ContextList.StayingAt` | `haclog/haclog_log.c:31-49` | a node stays if and only if its context did not wait, behind exactly those that stay before it |
| `RotateHandler.RotateHandler.constructor` | `haclog/handler/haclog_file_rotate_handler.c:134-190` | appends to an existing file, and rotates at once if that is at the limit |
| `RotateHandler.RotateHandler.Rotate` | `haclog/handler/haclog_file_rotate_handler.c:7-54` | every kept file moves up one number, gaps included; the last is dropped; the current one is new and empty; no other file changes |
| `RotateHandler.RotateHandler.AfterWrite` | `haclog/handler/haclog_file_rotate_handler.c:65-88` | a newline, then a rotation exactly at the limit; the offset is the length of the current file |
| `RotateHandler.RotateHandler.HandlerWrite` | `haclog/handler/haclog_handler.c:39-62` | the current file gets the meta information, the message and a newline, and is moved to the first backup exactly when that reaches the limit; one message is one line fed to an unbounded archive of which the kept files are the newest part |
| `RotateHandler.ShelfOverRun` | `haclog/handler/haclog_file_rotate_handler.c:65-88` | so they are after any number of messages |
| `RotateHandler.HistoryKept` | `haclog/handler/haclog_file_rotate_handler.c:7-54` | the kept files read oldest first are a suffix of what they held plus every line written; what is missing is exactly the oldest files |
| `RotateHandler.WholeLines` | `haclog/handler/haclog_file_rotate_handler.c:90-121` | no message is split: every file is a run of whole lines behind what the first one held |
| `RotateHandler.Sizes` | `haclog/handler/haclog_file_rotate_handler.c:73-85` | between messages the current file is below the limit, and every closed file is not |
| `NormPath.LoopResolves` | `haclog/haclog_path.c:307-354` | the character loop with its back-scan comes to what a stack of segments comes to, for every path and both separators |
| `NormPath.ResolvedUpsFirst` | `haclog/haclog_path.c:315-324` | in a resolved path every ".." comes first |
| `NormPath.LeftLength` | `haclog/haclog_path.c:314-344` | the loop leaves at most one character more than it read, and that only for a path of nothing but ".." |
| `NormPath.BackScan` | `haclog/haclog_path.c:335-343` | stops behind the last separator, or at 0 |
| `NormPath.Normpath` | `haclog/haclog_path.c:289-367` | succeeds exactly when the segments resolve, with the flattened stack (or "./") and its NUL in the buffer; writes one character behind `size` exactly for a path of nothing but ".." with size one above its length, so never with two to spare |
| `NormPath.OverrunHappens` | `haclog/haclog_path.c:314-318` | ".." with size 3 passes the guard, resolves, and is such a call |

## Left out

- Memory ordering: every atomic access, and the access to a call site's primitive pointer, is one sequentially consistent step.
- `snprintf` is a parameter: it maps a conversion and its decoded values to a text of non-negative length. The choice between its argument lists by positive width and precision, and the cut of conversions of 128 characters and more, are not modelled; neither is what it prints for `%n` or an unsupported type (no text).
- `haclog_atomic_int` is a 32-bit `int`: capacity, parameter size and string bytes of one record are at most 2^31 - 1, and overflow of a width or precision while its digits are read is not modelled.
- FormatPasses.Generate: that the filled ranges suit the formatting loop is stated for formats below 64 KiB, because positions are kept in 16 bits and wrap above.
- RingProtocol: the consumer decodes the header in one step and each specification's arguments in one step; the producer does not write to them meanwhile (`RingTheorems.NoOverwrite`), so finer steps would read the same.
- RingProtocol: a leftover reader position at or above the capacity of the next, smaller buffer of the same thread, and several live rings used by one thread.
- Serializer.Serialize: gives the effect of one call for any sequence of loaded reader positions; which of these can occur is `RingProtocol`.
- RingSerialize.CallIsSerialize: compares the two models for a reader that stands still; a moving reader is only in `RingProtocol`.
- From the 129th string on no variadic argument is taken for a string, and none is ever taken for a conversion with an unsupported type; both shift the arguments behind them. Arguments are given per specification here; what is modelled of the two is the string table and the cursor.
- Lifecycle: a log call whose serialization gives up is not counted among the thread's calls; its effect on the ring is `RingTheorems.OnlyPublishVisible`.
- Lifecycle: contexts are named by thread and count, so a freed address is never reused; the handlers and their levels are fixed before the threads and the backend run.
- LifecycleProgress.CleanupCompletes: says that a cleanup can always be finished, by a schedule it gives; that it is finished also needs a fair scheduler.
- ContextList: its methods are sequential; the statuses change only between them. The interleaving, and the spinlock around the add list, are in `Lifecycle`.
- CallSite: what generation and serialization do inside is not repeated there.
- Failure of allocation, and the cleanup of a context that was never inserted.
- Thread-local error codes, `haclog_debug_break`, sleeping and yielding.
- RotateHandler: file names are the path with a number; failures of the file system, short writes, and backup counts above 2^31 - 1 are not modelled.
- NormPath: `ret` is an array one longer than `size`, so that the exact bound can be stated; NULL arguments are not modelled.
- Console, plain file and time-rotating handlers, the default meta line, the other path functions, operating-system, thread, stack-trace and time wrappers, Windows branches, and the debug printers: foreign calls or easy members.
