# Persistence, requests, transactions and event loops: a verified model

This project models the Redis 4.0.11 functions quoted in `redis/redisDB.md` and
`redis/Cli-Server.md`, and three classes of the `mudou` network library, and proves what
they promise over whole runs. `dafny verify dfyconfig.toml` checks all of it.

Where the original changes state step by step there are two members: a class whose
methods follow the code branch by branch, on fields, sequences and arrays, and a function
of the state that the methods are proved to compute. The theorems are about the function.
A long C function is split into several methods, named after its parts.

## Files

- `Bytes.dfy`, `Resp.dfy`: decimal numbers as they are printed and read (`string2ll`,
  `strtol`, `atoi`), and the RESP encoding of commands (Redis serialization protocol,
  sections "Arrays" and "Bulk strings").
- `QueryParser.dfy`, `RequestLoop.dfy`, `RequestTheorems.dfy`, `QueryClient.dfy`: the
  resumable request parser, the request loop with the read clamp and the replication
  offsets, what they do on every stream however it is cut, and the client that works in
  place. `BigArguments.dfy`, `PausedClients.dfy`, `ReplicationStream.dfy`: the uncopied
  path, pauses of the server between reads, and what sub-slaves get to see.
- `BadRequests.dfy`: rejected headers, freed and closed clients, and clients whose bytes
  are only stored.
- `ReplyQueue.dfy`, `ReplyClient.dfy`: the two output buffers with their one cursor.
- `Keyspace.dfy`: the dataset and the replay of commands, MULTI included.
- `AofFeed.dfy`, `AofRewrite.dfy`, `AofLoader.dfy`, `AofLog.dfy`, `AofRuns.dfy`: the
  append only file: feeding it, compacting it, loading it after a crash, flushing it and
  handing over from the rewriting child, and all of them together in one state machine.
- `AofReloads.dfy`: what reloading that log gives, against the server's own dataset.
- `CorruptLogs.dfy`: loading any file, and records that are refused.
- `AofSkips.dfy`: what a rewrite loses, exactly.
- `AofServer.dfy`, `AofReader.dfy`, `AofRewriter.dfy`: the same operations as methods on
  the server's fields, on a stdio file and on a `rio` stream.
- `TwoDecoders.dfy`: the network parser and the log loader decode alike.
- `Transactions.dfy`, `TransactionServer.dfy`, `Propagation.dfy`: WATCH, UNWATCH, MULTI,
  EXEC, DISCARD, and what the executed commands send to the log.
- `Epoll.dfy`, `EPollPoller.dfy`: the poller's three records.
- `CountDownLatch.dfy`: the latch as a state machine over its threads' steps.
- `RoundRobin.dfy`, `EventLoopThreadPool.dfy`: the loop pool.

## What the proofs found

- A client whose big argument arrives during a pause of the server asks `read` for 0 bytes
  once the argument is complete, takes the answer 0 for a closed connection and is freed
  (`PausedClients.PausedBigArgumentIsDropped`). `PausedClients.ZeroReadIff` says exactly
  when a client asks for 0 bytes; on streams of commands without pauses every read asks
  for 1 to 16384 (`RequestTheorems.ReadStaysRoomy`).
- Loading a log that ends inside MULTI cuts it behind the last complete command, so the
  MULTI stays. Commands logged afterwards are queued behind it by the next load
  (`AofLoader.OpenTransactionSwallows`). `AofLoader.AppendAfterLoad` and
  `AofLoader.PlainAfterLoad` say exactly what the next load makes of later commands.
- The loader drops the queue of such a log, so the dataset it leaves behind lacks the
  transaction that the server was executing (`AofReloads.OpenTransactionIsDropped`).
- The child skips keys that are expired by its own clock. A key whose deadline the parent
  extends after the fork is then missing from the new log (`AofSkips.RevivedKeyIsLost`),
  and a command that appends to such a key builds another value in the log
  (`AofSkips.AppendedKeyDiffers`). A log that ends outside of MULTI reloads to the
  server's dataset less the keys left out; one that ends inside does once its open
  transaction is executed (`AofReloads.ReloadGivesDataset`). The difference shows exactly
  as long as one of those keys is not expired or that transaction changes something
  (`AofReloads.ReloadAgreesIff`).
- The comment at redis/redisDB.md:1043-1046 says that SIGUSR1 does not count as an error.
  The branch is reached only when `bysignal` is 0, so the test there always succeeds and
  both branches record an error; the model follows the code.
- redis/redisDB.md:1098 describes WATCH as noticing changes by other clients. The steps of
  `touchWatchedKey` flag every watching client, the writer included
  (`Transactions.OwnWriteSpoils`).
- A client to be closed after its reply stays when the fair share of an event ends in front
  of an empty block, although everything was sent (`ReplyQueue.EmptyBlockDelaysClose`).
- `updateChannel` marks a channel as added before it asks the kernel. When the kernel
  refuses, no later `updateChannel` succeeds for that channel until it is removed
  (`Epoll.StuckUntilRemoved`).

## What is assumed of code that is not shown

- `string2ll`, `strtol`, `atoi`, `strchr`, `fgets`, `fread` are the C library's and
  Redis's usual functions; `strchr` stops at a NUL byte.
- `processInlineBuffer` and `processCommand` are parameters: the first consumes at least
  one byte when it returns an argument list, an error of the second leaves the client
  freed or closing. `setProtocolError` trims the buffer to its position argument and sets
  the client to close.
- A pause of the server sets and clears a flag of the client between its reads; when a
  pause ends, the buffer is parsed at the next read, since no code that resumes a client
  is shown.
- `catAppendOnlyGenericCommand` is the RESP encoding, `catAppendOnlyExpireAtCommand` takes
  the absolute deadline from the clock at which the command ran. Deadlines fit 64 bits.
- SET takes `NX`, `XX`, `EX seconds`, `PX milliseconds`, and not both of the last two. The
  effect of commands other than the ones the feed translates, DEL and SELECT is a
  parameter.
- `rewriteListObject` and its siblings write commands that rebuild the value
  without using the clock (`AofRewrite.DumpsValues`, `AofRewrite.DumpsTimeFree`) and
  without MULTI or EXEC (`AofRewrite.DumpsPlain`, for `AofReloads.ReloadAgreesIff` only).
  `getExpire` answers -1 for no deadline, so a deadline of -1 is excluded
  (`AofRewrite.WellTimed`).
- `aof_selected_db` is -1 when the child is forked.
- `unwatchAllKeys` removes the client from the lists of its keys and deletes empty lists;
  `unwatchCommand` and `discardTransaction` also clear the flags. In MULTI, commands other
  than WATCH, MULTI, EXEC and DISCARD are queued. A command signals every key it changes
  (`Transactions.Signals`).
- `epoll_ctl` with DEL fails only for a descriptor that is not registered; `epoll_wait`
  reports registered channels, each at most once per call.

## Model

| member | source | states |
|---|---|---|
| Bytes.String2llExact | redis/Cli-Server.md:451 | The strict number reader accepts exactly the canonical decimal notation of the 64-bit integers: it yields v iff the text is the printed form of v |
| Bytes.StrTolReads | redis/redisDB.md:674 | Reading a printed number with anything but a digit behind it gives the number back, for every 64-bit length |
| Bytes.CutNumeral | redis/redisDB.md:652-674 | A printed positive number that was cut short still reads as a positive number, and never as a larger one |
| Resp.EncodeAllConcat | redis/redisDB.md:354-361 | The encoding of a list of commands is the concatenation of the encodings of its parts |
| Resp.CompleteIsMaximal | redis/redisDB.md:710 | The number of commands that are complete in the first n bytes of a stream is characterised from both sides: their bytes fit in n, one more command does not |
| QueryParser.ReadBulkHeaderFollows | redis/Cli-Server.md:474-522 | On a prefix of an encoded command the header of the next argument is read with its exact length or found incomplete, never rejected, and the parser still accounts for every byte |
| QueryParser.TakeArgInside | redis/Cli-Server.md:524-550 | Both ways to take an argument, the uncopied buffer and the copy, yield the next argument of the command and the same residual stream |
| QueryParser.ReadArgsFollows | redis/Cli-Server.md:471-560 | The argument loop on any prefix of an encoded command either completes exactly that command and leaves exactly the bytes behind it, or stops inside it starved of bytes; it never rejects |
| QueryClient.Client.ReadCount | redis/Cli-Server.md:430-469 | The code reading the argument count in place, with its cursor, takes the branch and leaves the state that the parser function describes |
| QueryClient.Client.ReadHeader | redis/Cli-Server.md:473-522 | One argument header in place: cursor, early trim for a big argument and the four rejections, equal to the parser function |
| QueryClient.Client.TakeArgument | redis/Cli-Server.md:524-550 | One argument in place, zero-copy or copied: argv, counters, buffer and cursor as the parser function has them |
| QueryClient.Client.ReadNext | redis/Cli-Server.md:472-550 | One turn of the argument loop leads the parser function to the same result, stops where it stops, or is rejected as it is |
| QueryClient.Client.ReadArguments | redis/Cli-Server.md:472-560 | The whole argument loop with its final trim refines the recursive parser function |
| QueryClient.Client.ProcessMultibulkBuffer | redis/Cli-Server.md:424-561 | The method refines ReadCommand for every client state and buffer, C_OK iff the function says Ready |
| QueryClient.Client.ProcessRequest | redis/Cli-Server.md:383-400 | Executing or skipping the parsed request, advancing reploff outside of MULTI only, and resetting unless a module blocks the client |
| QueryClient.Client.ProcessNext | redis/Cli-Server.md:366-404 | One turn of the request loop refines the step function; it either shrinks the query buffer or ends the loop |
| QueryClient.Client.ProcessInputBuffer | redis/Cli-Server.md:349-408 | The request loop terminates and refines the recursive function, with all four reasons to stop |
| QueryClient.Client.ReadQueryFromClient | redis/Cli-Server.md:259-338 | One readable event: the clamped read length, the three failed outcomes, the size limit, the loop and the forwarding to sub-slaves refine the function Read |
| QueryClient.Client.ProcessBytes | redis/Cli-Server.md:297-337 | The part after a read that brought bytes: store, limit, process, forward what was applied |
| RequestLoop.Process | redis/Cli-Server.md:349-408 | Whatever processCommand and processInlineBuffer do, the loop ends, keeps the client well formed and its replication offset between the applied and the received one |
| RequestLoop.Read | redis/Cli-Server.md:259-338 | Every read event keeps the parser state well formed and the pending replication bytes aligned with the two offsets |
| RequestTheorems.ReplicationForwarding | redis/Cli-Server.md:297-337 | For a master link, after any reads of any bytes, the bytes forwarded are the stream up to reploff, the pending ones the stream from reploff to read_reploff, and reploff never decreases |
| ReplicationStream.SlavesSeeWholeTransactions | redis/Cli-Server.md:326-392 | On a stream of commands from the master, cut in any way, the bytes forwarded are always exactly the executed commands up to the last one that left no MULTI open: sub-slaves see no part of a command and no part of a transaction |
| RequestTheorems.ResumeInvariant | redis/Cli-Server.md:464-560 | Between calls argc + multibulklen is the declared count, and what was consumed of the command, the query buffer and the bytes to come concatenate to the encoding of the commands not yet executed |
| RequestTheorems.ProcessOneFollows | redis/Cli-Server.md:352-406 | One turn of the loop on a stream of commands executes the next command or waits for bytes; no protocol error is raised |
| RequestTheorems.ReadStaysRoomy | redis/Cli-Server.md:266-284 | A waiting client asks for 1 to 16384 bytes, and whatever it gets keeps every unread header within the 64k limit and the buffer within the query buffer limit |
| RequestTheorems.WaitingIsCaughtUp | redis/Cli-Server.md:471-560 | A client that waits for bytes has executed exactly the commands that have completely arrived |
| RequestTheorems.ChunkIndependence | redis/Cli-Server.md:259-561 | For every list of commands within the limits and every cutting of any prefix of its bytes into permitted reads, exactly the commands that arrived completely are executed, in order; never an error; nothing is left over when the stream ends with a command |
| RequestTheorems.StreamCanArrive | redis/Cli-Server.md:266-284 | A waiting client never asks for nothing, so every stream can be delivered within the clamped read lengths, byte by byte at worst |
| RequestTheorems.BigArgumentIsExact | redis/Cli-Server.md:266-279 | While a big argument is awaited no read passes its CRLF, and the last one leaves exactly argument and CRLF in the buffer; taking it yields the right argument and an empty buffer |
| BigArguments.BigArgumentsAreNeverCopied | redis/Cli-Server.md:266-279 | Over every run on a stream of commands, cut in any way: whenever the parser takes an argument of at least PROTO_MBULK_BIG_ARG bytes, the buffer holds exactly it and its CRLF, so no big argument is ever copied |
| BigArguments.TightProcess | redis/Cli-Server.md:505-547 | From any buffer with too little behind the next item to complete a big argument, for any bytes, the request loop takes big arguments only from buffers that hold nothing else |
| PausedClients.ZeroReadIff | redis/Cli-Server.md:266-296 | Over every run of reads and of pauses of the server, of any bytes and with any commands: a connected client never asks for a negative length, and asks for 0 bytes iff at some read the last byte of a big argument reached it while it was stopped |
| PausedClients.PausedBigArgumentIsDropped | redis/Cli-Server.md:273-296 | The run: headers, pause, argument byte by byte, empty read; the open connection is dropped with its command unexecuted, while the same bytes without the pause execute it |
| PausedClients.ProcessStarves | redis/Cli-Server.md:349-408 | For any bytes, the request loop never stops in front of a big argument that is all there |
| TwoDecoders.DecodersAgree | redis/Cli-Server.md:424-561 | For every stream, every prefix and every cutting: the network parser has executed exactly the commands the log loader executes from a file with the same bytes |
| BadRequests.CountIsChecked | redis/Cli-Server.md:451-462 | A count line is rejected, with the buffer left alone, iff it is not the canonical form of a 64-bit number up to 1048576; one that is not positive is an empty request and read to its end |
| BadRequests.EndlessCount | redis/Cli-Server.md:434-442 | Without the end of a count line the parser waits, and rejects beyond 65536 bytes |
| BadRequests.LengthIsChecked | redis/Cli-Server.md:487-505 | A length line is rejected iff it does not start with a dollar or is no canonical number from 0 to the bulk limit; otherwise that number is the length and the rest of the buffer follows |
| BadRequests.EndlessLength | redis/Cli-Server.md:474-485 | Without the end of a length line the parser waits, and rejects when the whole buffer exceeds 65536 bytes |
| BadRequests.RejectionCloses | redis/Cli-Server.md:349-402 | A rejected request is not executed and its client is closed after the reply |
| BadRequests.BadCountCloses | redis/Cli-Server.md:451-456 | The same from the bytes: a bad count line executes nothing and marks the client |
| BadRequests.BadLengthCloses | redis/Cli-Server.md:490-505 | The same for a bad length line inside of a request |
| BadRequests.RequestIsReset | redis/Cli-Server.md:384-402 | An executed request is forgotten, unless a module has blocked the client; a failed one leaves a client that is freed or closing |
| BadRequests.ReadIs | redis/Cli-Server.md:284-318 | EAGAIN changes nothing, an error and the end of the stream free the client, so does a buffer beyond the limit without executing anything; the bytes of a blocked, closing or paused client are only stored |
| BadRequests.FreedByReadIff | redis/Cli-Server.md:284-318 | Unless a command frees its own client, a read frees it iff it failed, met the end of the stream, or brought the buffer over the limit |
| ReplyQueue.AddReplyAppends | redis/Cli-Server.md:582-589 | Appending to the static buffer or to the list, glued to the last block or not, appends to the bytes still to be sent, in order |
| ReplyQueue.ReplyGoesTo | redis/Cli-Server.md:582-589 | A reply goes into the static buffer iff no block waits and 16384 bytes suffice; otherwise to the list, as a new block or glued to the last, and is counted |
| ReplyQueue.AdvanceKeeps | redis/Cli-Server.md:643-679 | Moving the shared cursor by n moves the first n unsent bytes to the end of the sent ones, in the buffer and in the list, and keeps reply_bytes the total of the list |
| ReplyQueue.DrainKeepsOrder | redis/Cli-Server.md:642-696 | Over any sequence of short, blocked and failed writes nothing is lost, repeated or reordered, and the counted total is what was sent |
| ReplyQueue.DrainBudget | redis/Cli-Server.md:692-695 | A client without the slave or memory exemption gets at most NET_MAX_WRITES_PER_EVENT bytes plus one buffer or block per call |
| ReplyQueue.WriteToClientKeepsOrder | redis/Cli-Server.md:637-726 | One call keeps the order and the budget; without a write error the client is freed only when it is to close after the reply and nothing is unsent |
| ReplyQueue.FreedIff | redis/Cli-Server.md:697-724 | A live client is freed iff a write that was attempted is broken, or the call leaves neither bytes nor blocks and the client is to close after the reply |
| ReplyQueue.DrainStops | redis/Cli-Server.md:642-696 | The loop ends with nothing left, after more than 65536 bytes for a client that is not exempt, or for want of a write that takes something |
| ReplyQueue.WillingSocketDrains | redis/Cli-Server.md:637-724 | Progress: if every write takes something and there are enough of them, everything is sent and a client to be closed is freed, or more than 65536 bytes were sent and the client is not exempt |
| ReplyQueue.EmptyBlockDelaysClose | redis/Cli-Server.md:656-661 | The corner case: an empty block behind the fair share of an event keeps a client alive although everything was sent |
| ReplyQueue.RepliesArriveInOrder | redis/Cli-Server.md:593-726 | Over any run of appends and writeToClient calls, bytes sent followed by bytes unsent are the bytes queued |
| ReplyClient.Client.PrepareClientToWrite | redis/Cli-Server.md:593-629 | Lua and module clients are always accepted; of the others exactly those that are not told to be silent, not fake, and no master unless forced; and when an accepted client is put on the list of pending writes |
| ReplyClient.Client.AddReplyToBuffer | redis/Cli-Server.md:586-589 | Appends to the array if the list is empty and the bytes fit, otherwise changes nothing and says so |
| ReplyClient.Client.AddReplyStringToList | redis/Cli-Server.md:586-589 | Appends a block to the list or glues it to the last one, and counts it in reply_bytes |
| ReplyClient.Client.AddReply | redis/Cli-Server.md:586-590 | Queueing a reply on the in-place client refines the append function, and is silent for clients that must not be written to |
| ReplyClient.Client.SendOnce | redis/Cli-Server.md:643-679 | One write from the array or from the first list node refines the cursor step, including the node deletion |
| ReplyClient.Client.SendReplies | redis/Cli-Server.md:642-696 | The write loop terminates and refines the drain function, with its byte budget |
| ReplyClient.Client.WriteToClient | redis/Cli-Server.md:637-726 | The whole call on the in-place client refines the function, and returns C_OK iff the client lives on |
| Keyspace.SettledAll | redis/redisDB.md:697-715 | MULTI and EXEC in a log change when its commands run, not what the log amounts to once a transaction that is open at its end is executed |
| Keyspace.OpenIff | redis/redisDB.md:710-715 | The loading client is inside of MULTI at the end of a log iff the last MULTI of the log has no EXEC after it |
| Keyspace.ReplayRunsClosedPart | redis/redisDB.md:697-757 | Replaying a log executes exactly its commands up to the MULTI that is open at its end, and drops the rest with the fake client |
| Keyspace.OpenPartSettles | redis/redisDB.md:697-757 | What the loading client dropped, executed after the replay, gives what the whole log amounts to |
| Keyspace.ReplayAllTimeFree | redis/redisDB.md:697-711 | A log without relative times replays alike at any two times, transactions included |
| AofFeed.ScanFindsTtl | redis/redisDB.md:337-343 | The scan for EX and PX, which looks at option values too, never reads past the last argument and finds exactly the expiry the SET options mean |
| AofFeed.TranslationRuns | redis/redisDB.md:322-355 | Replaying the translation of a command, at any later time, has the effect the command had when it was executed, with the same absolute deadline |
| AofFeed.FeedRuns | redis/redisDB.md:313-355 | With the SELECT emitted or elided, the log client is in the right database for every command |
| AofFeed.FeedPreservesMeaning | redis/redisDB.md:307-371 | Replaying what was fed for any sequence of commands in any databases, at any later time, does to every database what the original run did |
| AofFeed.FeedIsTimeFree | redis/redisDB.md:322-355 | Nothing that is fed is relative to the clock |
| AofFeed.ExpireIsFed | redis/redisDB.md:322-325 | In numbers: EXPIRE key v is fed as PEXPIREAT key now + 1000 v, PEXPIRE as now + v, EXPIREAT as 1000 v, and the server gives an existing key the same deadline and no other key one |
| AofFeed.SetexIsFed | redis/redisDB.md:326-334 | SETEX and PSETEX are fed as SET and PEXPIREAT with now + 1000 v and now + v, the deadline the server stores |
| AofFeed.SetTtlIsFed | redis/redisDB.md:335-350 | SET with EX v or PX v, in either case and anywhere among NX and XX, is fed as the plain SET and PEXPIREAT with now + 1000 v or now + v, the deadline the server stores |
| AofFeed.AbsoluteIsFed | redis/redisDB.md:335-355 | PEXPIREAT and SET without options are fed as they are, and store that deadline or none |
| AofServer.LogServer.FeedSet | redis/redisDB.md:334-349 | The loop over the SET options emits the encoding of the translated commands |
| AofServer.LogServer.FeedCommand | redis/redisDB.md:322-355 | Each branch appends the encoding of the translation of the command |
| AofServer.LogServer.FeedSelect | redis/redisDB.md:313-320 | The printed SELECT is the encoding of that command, and comes iff the database changed |
| AofServer.LogServer.FeedAppendOnlyFile | redis/redisDB.md:307-371 | The method appends the encoding of the fed commands to the log buffer iff the log is on, and to the rewrite buffer iff a child runs, and nothing else changes |
| AofLog.AppendConserves | redis/redisDB.md:357-361 | Feeding extends file followed by buffer by the fed bytes iff the log is on |
| AofLog.MidFlushIsPrefix | redis/redisDB.md:433 | In the middle of a flush, after any short write, the file is a prefix of what was fed and the rest is what the write left over |
| AofLog.FlushConserves | redis/redisDB.md:395-555 | For every result of write and ftruncate: file followed by buffer is unchanged, the recorded size is the file's length, every content the file had in between is a prefix of what was fed; only the always policy exits |
| AofLog.FlushWaitsIff | redis/redisDB.md:398-430 | A non-empty buffer is left without a write iff the policy is everysec, the call is not forced, an fsync is pending, and no postponement runs or it is younger than two seconds; otherwise a write that takes everything empties the buffer into the file |
| AofLog.FailedFlush | redis/redisDB.md:455-516 | A failed write and a short one that is undone leave file and buffer alone, one that cannot be undone moves its bytes from the buffer to the file; the always policy exits, the others note the error |
| AofLog.FlushBookkeeping | redis/redisDB.md:516-555 | A full write notes success, whether it was late, and an fsync as its policy asks, unless a child is busy and that is to be respected |
| AofLog.BoundedPostponement | redis/redisDB.md:400-425 | Over every run from the start whose clock is positive and never goes back: two non-forced flushes that both leave bytes waiting, with no write attempt in between, are less than two seconds apart, whatever else happens; and a write attempt clears the postponement |
| AofLog.PostponementLasts | redis/redisDB.md:449-450 | Nothing but an attempt to write ends a postponement |
| AofLog.PostponedInThePast | redis/redisDB.md:410-418 | A postponement never starts after the current time |
| AofServer.LogServer.PostponeFlush | redis/redisDB.md:402-425 | Whether the write is put off, when the wait starts, and when it is given up and counted |
| AofServer.LogServer.HandleWriteError | redis/redisDB.md:452-514 | The failed or short write: undone by ftruncate, or accounted for in size and buffer, or fatal under the always policy |
| AofServer.LogServer.HandleWritten | redis/redisDB.md:515-554 | The full write: status restored, size advanced, buffer emptied, last fsync time advanced by policy |
| AofServer.LogServer.FlushAppendOnlyFile | redis/redisDB.md:395-555 | The method, for every outcome of its system calls, refines the function that FlushConserves is about |
| AofLog.StepChildHandsOver | redis/redisDB.md:788-804 | In every interleaving of parent and child over the pipes, the diff the child has read, the pipe and the parent's rewrite buffer concatenate to what was fed since the fork |
| AofLog.ChildCanFinish | redis/redisDB.md:788-804 | No rewrite gets stuck: from any state of a rewriting child the two processes can finish, with everything fed until then behind the dump |
| AofLog.AppendHandsOver | redis/redisDB.md:363-368 | Feeding during a rewrite keeps that concatenation equal to what was fed since the fork |
| AofLog.FailedRewriteTouchesNothing | redis/redisDB.md:920-1065 | When the child failed, or opening, writing the residual diff or renaming fails, the old log file, its buffer and its recorded sizes are untouched, the status is bad iff it was or the child failed, and a new rewrite is scheduled iff the log waits for one |
| AofLog.SuccessfulRewriteHoldsEverything | redis/redisDB.md:929-1035 | The renamed file holds the child's dump followed by exactly the bytes fed since the fork, so dropping the log buffer loses nothing; the next feed re-issues SELECT, both recorded sizes are the new file's, the status is good, and a log that waited is on |
| AofLog.SwapConserves | redis/redisDB.md:1008-1035 | After the swap file followed by buffer is again everything that the new log stands for |
| AofServer.LogServer.SwitchFile | redis/redisDB.md:1008-1035 | Taking the renamed file over, with the log on and with the log off |
| AofServer.LogServer.BackgroundRewriteDoneHandler | redis/redisDB.md:919-1066 | The handler refines the function the three preceding lemmas are about, on success and on every path to cleanup |
| AofRewrite.RewriteEntryRuns | redis/redisDB.md:836-868 | Replaying what is written for one key recreates its value and its deadline, and nothing for a key already expired |
| AofRewrite.KeptIff | redis/redisDB.md:836-839 | The keys that the compact log keeps are exactly those without a deadline or with one that is not before the clock |
| AofRewrite.RewriteDbRuns | redis/redisDB.md:826-874 | Replaying one database, for any iteration order, adds exactly its live entries |
| AofRewrite.RewritePreservesMeaning | redis/redisDB.md:815-868 | Replaying the compact log from empty databases, at any later time and for every iteration order, gives the dataset less the keys that were expired when the child looked |
| AofRewrite.RewriteIsTimeFree | redis/redisDB.md:815-868 | Nothing in the compact log is relative to the clock |
| AofSkips.EventLags | redis/redisDB.md:838-839 | The log stays the dataset less the keys left out and not stored or deleted since, whatever command runs, as long as a command not spelled out does not build on such a key |
| AofSkips.SparesIff | redis/redisDB.md:838-839 | That condition is exact: it holds iff after the command the log is again the dataset less some of the keys left out before, so deleting, overwriting or extending such keys is allowed |
| AofRewriter.Rio.WriteBulk | redis/redisDB.md:847-848 | Header, bytes and CRLF in three writes are the bulk string, or what fitted of it when a write failed halfway |
| AofRewriter.WriteEntry | redis/redisDB.md:828-868 | One key written through the stream is the encoding of the commands for it, or the part of it that fitted, and then failure |
| AofRewriter.WriteDb | redis/redisDB.md:820-876 | The loop over a database writes the encoding of its commands in iteration order, or the part that fitted |
| AofRewriter.WriteSelect | redis/redisDB.md:816-824 | The literal header and the printed index are the encoding of a SELECT command, or the part that fitted |
| AofRewriter.RewriteAppendOnlyFileRio | redis/redisDB.md:808-883 | The two loops write exactly the encoding of the compact log and return C_OK iff all of it fits what the stream accepts; otherwise exactly the prefix that fits; an empty database gets no SELECT |
| AofSkips.KeyAgrees | redis/redisDB.md:838-839 | For one key and any time: log and server agree on it iff it was not left out by the child, or was stored or deleted since, or its latest deadline has passed |
| AofSkips.RewriteLosesRevivedKeys | redis/redisDB.md:838-839 | What replaying the rewritten log gives is what the server holds, as seen at any time, iff every key that the child left out as expired was stored or deleted since or has its latest deadline behind it |
| AofSkips.RevivalNeedsDeadline | redis/redisDB.md:838-839 | From the child's clock on, a left out key is alive only if some later command moved its deadline while it was left out |
| AofSkips.RevivedKeyIsLost | redis/redisDB.md:838-839 | A concrete race: forked before a deadline, looked at by the child after it, extended by the parent in between; the key is alive in the server and missing from the log |
| AofSkips.AppendedKeyDiffers | redis/redisDB.md:838-839 | Why other commands must not build on left out keys: an appending command extends the old value in the server and starts a new one in the log |
| AofLoader.ReadOneWhole | redis/redisDB.md:652-688 | From the bytes of a command followed by anything the loader reads exactly that command and leaves the rest, binary arguments included |
| AofLoader.ReadOneCut | redis/redisDB.md:652-688 | From any proper non-empty prefix of a command the loader reports a short read, never a format error and never a command |
| AofLoader.LoadLoopRecovers | redis/redisDB.md:638-715 | The load loop executes exactly the complete commands of any prefix of a log and ends at the offset after the last of them |
| AofLoader.CrashRecovery | redis/redisDB.md:586-766 | Whatever prefix of a written log reached the file, loading with aof-load-truncated executes exactly the commands complete in it and leaves the file equal to their encoding; without the setting it succeeds iff the file ends with a command outside of MULTI |
| AofLoader.LoadedFile | redis/redisDB.md:586-766 | A load of any prefix of a log executes its complete commands, and if it succeeds, for whatever settings, the file is their encoding |
| CorruptLogs.AnyLoad | redis/redisDB.md:586-766 | Any file without an RDB preamble: the commands before the first record that is none are executed; if that record runs into the end of the file, or there is none and MULTI is open, the settings decide whether the rest is cut; anything else exits with the file untouched |
| CorruptLogs.ShortensIff | redis/redisDB.md:733-760 | A load shortens a file iff the settings allow it and the first record that is no command runs into the end of the file |
| CorruptLogs.CorruptIsNoCommand | redis/redisDB.md:652-688 | A record without a star, with a count that is no number or below 1 or missing behind a NUL, or with an argument line without a dollar, is neither a command nor a short read |
| CorruptLogs.CorruptLogIsRefused | redis/redisDB.md:658-697 | Behind any known commands such a record, or a command the table does not have, makes the load exit, with exactly those commands executed and the file unchanged, whatever the settings and whatever follows |
| AofLoader.AppendAfterLoad | redis/redisDB.md:710-757 | A file is loaded, any further commands are executed and appended, the file is loaded again, at any times: both loads succeed, and the second goes on from the first with the transaction open at the end of the kept log followed by the new commands, up to where that is inside of MULTI again; if neither part is open, exactly what the server had |
| AofLoader.PlainAfterLoad | redis/redisDB.md:710-757 | If the further commands hold no MULTI or EXEC, the second load gives what the server had iff the kept log does not end inside of MULTI, or the commands changed nothing |
| AofLoader.OpenTransactionSwallows | redis/redisDB.md:710-756 | The two loads of the failing input: a log of a lone MULTI loads, a SET is executed and appended, and after the next load its key is missing |
| AofReader.File.Fgets | redis/redisDB.md:652 | fgets on the in-memory file: a line of at most 127 bytes with its newline, or the rest at end of file |
| AofReader.File.Fread | redis/redisDB.md:676 | fread of one item of n bytes: all or nothing, consuming the rest when short |
| AofReader.Loader.ReadArguments | redis/redisDB.md:667-688 | The argument loop refines the reader function, with its two kinds of error |
| AofReader.Loader.ReadCommand | redis/redisDB.md:652-688 | Reading one command from the stream refines the reader function, the clean end of file included |
| AofReader.Loader.TruncateTail | redis/redisDB.md:733-761 | The unexpected end of file: truncate and go on, or exit, for every outcome of truncate and lseek |
| AofReader.Loader.LoadAppendOnlyFile | redis/redisDB.md:586-766 | The method refines the load function that CrashRecovery is about, for every file content |
| AofRuns.StepsKeepInv | redis/redisDB.md:307-1066 | Over every run of writes, flushes, forks, pipe steps, finished rewrites, crashes and restarts, with any failure, the log stands for the dataset it should and the three hand-over places for what was fed since the fork |
| AofRuns.StepsStayFaithful | redis/redisDB.md:836-839 | Over every such run, the log and the log under construction both give the server's own dataset less exactly the keys the child left out that were not stored or deleted since |
| AofRuns.RestartFaithfulIff | redis/redisDB.md:586-757 | After a restart from any content of the file, the log gives the dataset of the new process iff the transaction open at the end of what was loaded, if any, would change nothing |
| AofRuns.RunsRecover | redis/redisDB.md:307-1066 | End to end, over runs with any number of crashes and restarts: loading any content the file has had executes exactly the complete commands of the log and cuts the file to them |
| AofReloads.ReloadGivesImage | redis/redisDB.md:586-1066 | With an empty buffer, the dataset that loading the file leaves behind is what the log amounts to up to the MULTI open at its end; executing that transaction gives the dataset the log stands for, and outside of MULTI the reload gives it itself |
| AofReloads.ReloadGivesDataset | redis/redisDB.md:307-1066 | After any such run and with an empty buffer, a log that ends outside of MULTI reloads to exactly the server's dataset less the keys left out by the last rewrite and not stored or deleted since; one that ends inside does once its transaction is executed |
| AofReloads.StepsKeepUnseen | redis/redisDB.md:307-1066 | Over every such run, no key left out is in the dataset that the log gives without its open transaction either |
| AofReloads.CompletedAgreesIff | redis/redisDB.md:836-839 | As seen at any time, what the whole log amounts to, which outside of MULTI is the reloaded dataset, is the server's iff every key still left out is expired by then |
| AofReloads.ReloadAgreesIff | redis/redisDB.md:717-757 | For every log: as seen at any time, the dataset that the loader leaves behind is the server's iff every key still left out is expired by then and the transaction open at the end of the log changes nothing seen at that time |
| AofReloads.ReloadIsTheServer | redis/redisDB.md:307-1066 | If no command moved the deadline of a key a rewrite had passed over, a log that ends outside of MULTI reloads to the server's dataset, as seen at any time not before the clocks of the rewrites; one that ends inside does once its transaction is executed |
| AofReloads.OpenTransactionIsDropped | redis/redisDB.md:717-757 | The failing input: MULTI and a SET are fed and flushed, the EXEC is not; the server has the key and no key is left out, but the reloaded dataset is empty |
| Transactions.RunsAgree | redis/redisDB.md:1127-1145 | After any run of requests by any clients, each client's list of watched keys and the databases' index name the same pairs, without duplicates or empty lists |
| Transactions.TrackedNext | redis/redisDB.md:1127-1145 | What one more event of a run does to a client's watch list and flag |
| Transactions.WatchedIff | redis/redisDB.md:1128-1136 | A client's list holds a key iff some WATCH of the run named it and the client has not given its keys up since |
| Transactions.DirtyIff | redis/redisDB.md:1138-1144 | The dirty flag is set iff some key was modified, by anyone, between a WATCH of it that is still in force and now |
| Transactions.OptimisticLock | redis/redisDB.md:1120-1145 | If EXEC runs its queue, every key its client watches has had the same value at every moment since its WATCH |
| Transactions.StepChanges | redis/redisDB.md:1138-1139 | A request changes only keys that it signals as modified |
| Transactions.QueueSinceMulti | redis/redisDB.md:1113-1124 | EXEC finds exactly the requests its client sent since the MULTI it is in, in order, and the flag for a rejected command iff one was rejected since then |
| Transactions.ExecIsSerial | redis/redisDB.md:1123-1125 | EXEC leaves the server as the queued requests would, sent one after the other with no one in between; its writes reach the log behind one MULTI, put before the first of them |
| Propagation.CallSends | redis/redisDB.md:1124 | One executed command appends itself with its database to the feed iff its outcome is a write, behind a MULTI if that is due |
| Propagation.ExecSends | redis/redisDB.md:1123-1125 | An EXEC that runs appends exactly the queued calls whose outcome is a write, in order, each with its database, behind one MULTI; nothing if there is none |
| Propagation.RunSends | redis/redisDB.md:1121-1125 | Over any run the feed is the writes that were executed outside of MULTI and those of the EXECs that ran, in order |
| Propagation.ExecSendsTheSame | redis/redisDB.md:1123-1125 | These are also the writes that the same requests append when sent one by one |
| Transactions.RefusalChangesNothing | redis/redisDB.md:1121-1122 | DISCARD and an EXEC that refuses change no key, log nothing, end the transaction and drop the watched keys |
| Transactions.OwnWriteSpoils | redis/redisDB.md:1140-1144 | The flag does not ask who wrote: a client that writes a key after watching it makes its own EXEC refuse |
| Transactions.UnwatchKeeps | redis/redisDB.md:1123 | Unwatching takes the client off exactly its own lists and leaves every other client where it was |
| Transactions.WatchAllKeeps | redis/redisDB.md:1128-1136 | WATCH adds exactly the named keys of the selected database to both indexes |
| TransactionServer.Client.IsWatching | redis/redisDB.md:1133 | The scan of the client's own list finds a key iff it is there |
| TransactionServer.RemoveClient | redis/redisDB.md:1123 | Deleting a client's node from a list leaves the others in order |
| TransactionServer.Server.WatchForKey | redis/redisDB.md:1132-1136 | Watching one key updates both indexes as the step function does, once |
| TransactionServer.Server.WatchCommand | redis/redisDB.md:1128-1131 | WATCH is refused inside MULTI and otherwise refines the step function |
| TransactionServer.Server.UnwatchAllKeys | redis/redisDB.md:1123 | The loop over the watched keys refines the release function, deleting empty lists |
| TransactionServer.Server.TouchWatchedKey | redis/redisDB.md:1140-1143 | The loop over the key's clients flags exactly those |
| TransactionServer.Server.CallCommand | redis/redisDB.md:1124-1139 | Executing a command signals every key it touched and propagates a write, as the step function has it |
| TransactionServer.Server.DiscardCommand | redis/redisDB.md:1114-1117 | DISCARD outside of MULTI is refused, inside it refines the step function |
| TransactionServer.Server.FlagTransaction | redis/redisDB.md:1115 | A rejected command marks the transaction it came in, and nothing outside of one |
| TransactionServer.Server.ExecCommand | redis/redisDB.md:1120-1125 | EXEC refines the step function: refused outside of MULTI, aborted when a flag is set, otherwise unwatch, run the queue, leave the transaction |
| Epoll.RunsAgree | mudou/net/EpollPoller.cpp:106-203 | After any run of updates, removals, refusals by the kernel and closed descriptors: every map entry is keyed by its channel's descriptor with index kAdded or kDeleted, every other channel is kNew, and the kernel knows kAdded channels only |
| Epoll.UpdateSucceedsIff | mudou/net/EpollPoller.cpp:106-174 | updateChannel returns true iff: the channel is new, its descriptor is not in the map and the kernel accepts it; or it is deleted and the kernel accepts it; or it is added, the kernel knows it, and it wants no events or the kernel accepts the change |
| Epoll.UpdateTakesEffect | mudou/net/EpollPoller.cpp:106-174 | After true the kernel watches the channel for exactly the wanted events, or not at all when an added one wants none; no other channel or descriptor is affected |
| Epoll.RemoveForgets | mudou/net/EpollPoller.cpp:176-203 | After removal the map and the kernel have forgotten the descriptor, the channel is new again, and nothing else changed |
| Epoll.RefusedAddSticks | mudou/net/EpollPoller.cpp:143-145 | A refused ADD leaves the index at kAdded although the kernel has no registration |
| Epoll.StuckNext | mudou/net/EpollPoller.cpp:106-203 | For such a channel, exactly a removal of it that takes effect ends this, whatever the kernel answers and whatever else happens |
| Epoll.StuckUntilRemoved | mudou/net/EpollPoller.cpp:143-173 | From then on updateChannel returns false for that channel and changes nothing, whatever else happens, until a removeChannel of it takes effect; one refused because the channel still wants events does not help |
| Epoll.CooperativeRunsAreExact | mudou/net/EpollPoller.cpp:106-203 | If the kernel refuses nothing and no descriptor is closed under the poller, the kernel's set is exactly the set of kAdded channels |
| Epoll.EveryEventIsActive | mudou/net/EpollPoller.cpp:91-104 | Every event that epoll_wait hands out yields its channel, in order: the early return of fillActiveChannels never fires |
| EPollPoller.Poller.HasChannel | mudou/net/EpollPoller.cpp:46-51 | True iff the map has this very channel for its descriptor |
| EPollPoller.Poller.UpdateKernel | mudou/net/EpollPoller.cpp:205-227 | One epoll_ctl call changes the kernel's set and answers as the operation, the descriptor and the kernel decide |
| EPollPoller.Poller.UpdateChannel | mudou/net/EpollPoller.cpp:106-174 | The method refines the function, on all of its refusals too |
| EPollPoller.Poller.RemoveChannel | mudou/net/EpollPoller.cpp:176-203 | The method refines the function |
| EPollPoller.Poller.FillActiveChannels | mudou/net/EpollPoller.cpp:91-104 | For any entries: the channels up to the first one that the map does not have, in order, each with the events of its last entry; other channels are untouched |
| EPollPoller.Poller.DeliverEvents | mudou/net/EpollPoller.cpp:91-104 | Events of registered channels all reach them, each with its own events |
| EPollPoller.Poller.Poll | mudou/net/EpollPoller.cpp:58-89 | One epoll_wait delivers all its events in order and doubles the event list iff it was full; map, indexes and kernel set are untouched |
| CountDownLatch.RunKeepsWakeups | mudou/base/CountDownLatch.cpp:8-25 | No step of a thread leaves another one asleep on a finished count without a notification on its way |
| CountDownLatch.LatchIsSafe | mudou/base/CountDownLatch.cpp:8-31 | In every interleaving, spurious wakeups included: mutual exclusion, no lost wakeup, a wait returns only after at least the initial count of countDowns, and getCount is exact when it returns |
| CountDownLatch.WaitPassesIff | mudou/base/CountDownLatch.cpp:11-14 | A thread that tests the latch passes iff there have been at least as many countDowns as the initial count |
| CountDownLatch.CallsAreServedOnce | mudou/base/CountDownLatch.cpp:8-31 | In any interleaving every call of a thread has returned except the one it is in, and every countDown has decremented the count once, except one that has not got there |
| CountDownLatch.CountIsCalls | mudou/base/CountDownLatch.cpp:17-31 | From a fresh latch the count is always the initial one less the calls of countDown that have got to their decrement |
| CountDownLatch.QuiescentMeansDone | mudou/base/CountDownLatch.cpp:8-31 | No deadlock: when no thread can go on, each is outside or sleeps before the end of the count |
| CountDownLatch.FinishedLatchLetsAllThrough | mudou/base/CountDownLatch.cpp:8-25 | Once the count is finished every schedule without new calls, spurious wakeups included, is finite, and where it ends every wait has returned |
| RoundRobin.PicksAreFair | mudou/net/EventLoopThreadPool.cpp:79-88 | m picks hit each of n loops floor(m/n) or ceil(m/n) times |
| RoundRobin.EveryRoundHitsEachOnce | mudou/net/EventLoopThreadPool.cpp:79-88 | Any n consecutive picks hit each loop exactly once |
| EventLoopThreadPool.Pool.Start | mudou/net/EventLoopThreadPool.cpp:32-60 | The first start with a base loop makes numThreads distinct fresh loops, one per thread, and calls the callback only for none; any other call does nothing |
| EventLoopThreadPool.Pool.GetNextLoop | mudou/net/EventLoopThreadPool.cpp:70-90 | NULL before the start, the base loop for an empty pool, otherwise the next pick of the round robin since the start |
| EventLoopThreadPool.Pool.GetLoopForHash | mudou/net/EventLoopThreadPool.cpp:92-102 | The loop is the one the hash code belongs to, counting whole rounds off, or the base loop when there is no other |
| EventLoopThreadPool.Pool.SameLoopIff | mudou/net/EventLoopThreadPool.cpp:92-102 | Two hash codes get the same loop iff they differ by a multiple of the number of loops |
| EventLoopThreadPool.Pool.GetAllLoops | mudou/net/EventLoopThreadPool.cpp:104-115 | All loops, or the base loop alone; never none |
| EventLoopThreadPool.Pool.LoadIsFair | mudou/net/EventLoopThreadPool.cpp:70-90 | However many loops a pool has handed out, each got floor or ceil of its share |
| EventLoopThreadPool.Pool.EachRoundUsesAll | mudou/net/EventLoopThreadPool.cpp:70-90 | Any stretch of as many calls as there are loops gave each loop once |

## Left out

- AofRuns.RunsRecover: at every restart the log holds storable commands (fewer than 2^31 arguments, lengths within 64 bits) that the command table knows; the log is never switched on or off.
- AofRuns.StepsStayFaithful: commands not spelled out in the model do not build on left out keys, and no restart drops an open transaction that would change something; `AofSkips.AppendedKeyDiffers` and `AofRuns.RestartFaithfulIff` show that both are needed.
- AofReloads.ReloadGivesDataset: the same.
- AofReloads.CompletedAgreesIff: the same.
- AofReloads.ReloadAgreesIff: the same, and module types are assumed to dump their values without MULTI and EXEC.
- AofReloads.ReloadIsTheServer: the same as for ReloadGivesDataset.
- RequestTheorems.ChunkIndependence: for clients that are never paused, blocked or closed; `PausedClients.PausedBigArgumentIsDropped` shows why. The commands are non-empty, within `proto-max-bulk-len` and 1024*1024 arguments, and the query buffer limit exceeds the bulk limit.
- BigArguments.BigArgumentsAreNeverCopied: for streams of commands; on other bytes a header line may fill the buffer before it is rejected.
- AofLoader.CrashRecovery: for prefixes of a log that a server wrote, `CorruptLogs.AnyLoad` is about any other file; a read error of the disk is not modelled.
- CorruptLogs.CorruptLogIsRefused: counts outside of 32 bits are narrowed by `atoi` before they are checked, so the lemma takes counts below 1 within 32 bits; `CorruptLogs.AnyLoad` covers all others.
- BadRequests.FreedByReadIff: for commands that do not free their own client.
- AofSkips.EventLags: a command not spelled out in the model may delete, overwrite or extend left out keys, or leave them alone, but not build on them, which `AofSkips.SparesIff` shows to be exact.
- AofSkips.RewriteLosesRevivedKeys: the same.
- AofSkips.KeyAgrees: the same.
- AofReader.Loader.LoadAppendOnlyFile: an RDB preamble is an outcome of its own, the RDB loader behind it is not modelled; serving clients while loading is not modelled.
- Transactions.ExecIsSerial: the EXEC record that ends a propagated transaction is not described by the source and not part of the log here; monitors and replies are left out.
- Transactions.RunsAgree: a client that disconnects is not modelled.
- ReplyQueue.DrainBudget: whether the memory limit or the slave flag lifts the budget is one input for the whole call.
- EPollPoller.Poller.Poll: the returned timestamp is left out.
- CountDownLatch.LatchIsSafe: the counter is unbounded, so a wrap-around of `int` is not modelled; a waiter is not guaranteed the mutex by fairness, only that every schedule ends.
- The latch and the rewriting child are state machines on values rather than classes, because their threads and processes interleave inside of methods.
- EventLoopThreadPool.Pool.Start: the thread's own start-up handshake and the thread names are left out; the callback is a flag.
- fsync, latency monitoring, logging, statistics such as `querybuf_peak`, and time stamps of the last interaction change none of the modelled state.
- Memory management: sds capacity, reference counts, freeing of clients and objects.
- The incremental reads of the parent's diff inside `rewriteAppendOnlyFileRio` are steps of the protocol in `AofLog`, not of the method.
- Aborting on a failed `serverAssert` and `assertInLoopThread` is not modelled; the conditions of the former are preconditions that the callers are proved to meet.
- `stop` and `info` of the thread pool, the other pollers, `EventLoop`, `TcpConnection`, timers, addresses and buffers.
- The data structures that the Markdown files describe only in prose: dict rehashing, skip lists, ziplists, intsets, HyperLogLog.
