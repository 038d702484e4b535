# A verified model of pglite4j

pglite4j runs PostgreSQL, compiled to WebAssembly, inside a Java process and offers it through a JDBC driver. This
project models the places where octet streams and shared state cross a boundary, and proves what they promise.

* **The connection bridge** (`Bridge.dfy`, `BridgeSafety.dfy`, `BridgeTheorems.dfy`, `BridgeProgress.dfy`,
  `BridgeService.dfy`). Connection handlers, the backup
  timer and the closing thread share one single-session backend under `pgLock`. They are one transition system with a
  program counter per thread; a backend call is two steps, and every read, write, call and file operation may fail.
  The theorems are about every state of every run, for any number of connections: what the threads keep, why they end,
  and what they can always do.
* **The wire between host and guest** (`Transport.dfy`, `RecvBuffer.dfy`). Requests and replies pass through the
  contiguous memory area; a reply that does not fit moves to a file in the middle of a write. Host and guest compute
  the reply's address from two counters kept apart. The unseen guest code is an arbitrary script of ticks: any puts and
  flushes, any transport, any number of octets left unread, any trap.
* **Signal masks** (`SignalMask.dfy`, `SignalRuns.dfy`). `sigprocmask` over the eight signals that `sigset_t` holds,
  with the intended behaviour of the System Interfaces volume of POSIX (IEEE Std 1003.1).
* **The file-emulated socket** (`FileSocket.dfy`), **snapshots** (`Archive.dfy`), **the message codec** of the
  PostgreSQL version 3 protocol (`WireCodec.dfy`) and **the growable dictionary** (`Dictionary.dfy`). `Bytes.dfy` holds
  octet strings and their concatenation.

Code that changes state step by step is a class or a method with loops, proved against a function of the old state;
the lemmas are about those functions and about runs of them.

Where the code does less than one might expect, the model follows the code:

* A close during the first startup exchange publishes the responses recorded so far, possibly none, as the startup
  cache (`CloseCanPublishIncompleteCache`); it happens exactly when the handler's loop test finds the instance closing
  (`IncompleteExactlyWhenClosing`).
* `endsWithReadyForQuery` looks at six octets, so a last frame whose body ends like a ReadyForQuery frame passes it
  (`EndsWithReadyForQueryMeaning`, `EndsWithReadyForQueryIsNotExact`).
* Host and guest agree on the reply's address only if the tick starts with the receive buffer drained, or the send
  buffer happens to be there (`StartMsgRead`). Otherwise the host returns octets of the request in place of the reply
  (`Turn`, `UndrainedReplyIsMissed`); `ResultIsCollected` says, from the state before the call, exactly when the result
  is still right.
* A call that throws can leave request octets unread, and the next message is then not read as sent (`ReadAfterCall`,
  `ThrowLeavesOctets`); the driver drops the exception and goes on with the same guest
  (jdbc/src/main/java/io/roastedroot/pglite4j/jdbc/PgLiteDriver.java:234).
* A restore throws when a file of the snapshot is where the installation has a directory that is not empty, or the
  other way round (`RestoreArchive`, `ClashEndsRestore`).
* `sigprocmask` reaches `abort()` when the `signal()` call that restores a handler fails (`SigProcMask`).
* `sdk_connect` on a socket in use drops what waits in the lock file (`Connect`).
* A query file longer than its packet is over-read to the end of a buffer when the packet exceeds the buffer
  (`DeliveredIsPacket`).
* `sigaddset` reports success for signal numbers from 8 on, but the one-octet set cannot hold them (`SigAddSet`).
* A send between two pieces of a receive is forgotten by `fd_queue` when the receive completes, so that flushing does
  not publish it until something else is sent (`SendInsideReceive`, `ForgottenWaits`); `QueueCounts` is the exact law.

Octets are integers from 0 to 255, texts in messages are octet strings, and integers are unbounded except where the
code's 32-bit or 8-bit width matters (length words, `sigset_t`).

## Model

| member | source | states |
|---|---|---|
| `BridgeTheorems.SerialHistory` | jdbc/src/main/java/io/roastedroot/pglite4j/jdbc/PgLiteDriver.java:210-278 | In every state of every run of any number of connections, startup exchanges, backups and a close, backend calls form one serial history, and that history only grows. |
| `BridgeTheorems.OwnResponsesInOrder` | jdbc/src/main/java/io/roastedroot/pglite4j/jdbc/PgLiteDriver.java:210-236 | Once its exchange has begun or its replay is complete, a connection's output is what it got from the cache followed by the in-order responses to its own messages, lacking at most part of the last one; its messages reached the backend in order, lacking at most the last; its n-th call passed its n-th message and returned its n-th response. |
| `BridgeTheorems.CacheWrittenOnce` | jdbc/src/main/java/io/roastedroot/pglite4j/jdbc/PgLiteDriver.java:246-278 | Once the startup cache holds a list it holds that list, from the same exchange, in every later state of the run. |
| `BridgeTheorems.CacheRecordsOneExchange` | jdbc/src/main/java/io/roastedroot/pglite4j/jdbc/PgLiteDriver.java:253-277 | The cached list is what one connection got from the backend in one uninterrupted stretch of the history, and it ends with ReadyForQuery unless the instance is closing. |
| `BridgeTheorems.ReplayIsFaithful` | jdbc/src/main/java/io/roastedroot/pglite4j/jdbc/PgLiteDriver.java:280-293 | A connection that has been given the last cached response has been given exactly the cached exchange's output, has done one read per cached response, and none of its startup octets reached the backend. |
| `BridgeTheorems.IncompleteExactlyWhenClosing` | jdbc/src/main/java/io/roastedroot/pglite4j/jdbc/PgLiteDriver.java:259-276 | In every state of every run, the cached list lacks a final ReadyForQuery if and only if the connection that filled it was at the test of its exchange loop in some earlier state in which the instance was closing. |
| `BridgeTheorems.CloseCanPublishIncompleteCache` | jdbc/src/main/java/io/roastedroot/pglite4j/jdbc/PgLiteDriver.java:259-276 | There is a run in which a close during the exchange publishes an empty list as the startup cache. |
| `BridgeTheorems.SnapshotIsConsistent` | jdbc/src/main/java/io/roastedroot/pglite4j/jdbc/PgLiteDriver.java:178-186 | In every reachable state, so also after a crash or I/O failure in the middle of a dump, the snapshot file is the one present at boot or a complete image of the data directory at a call boundary of the history, right after the two maintenance queries of one dumper. |
| `BridgeTheorems.SnapshotsMoveForward` | jdbc/src/main/java/io/roastedroot/pglite4j/jdbc/PgLiteDriver.java:325-336 | Between any two states of a run the snapshot either stays or moves to a point of the history that is not earlier than the whole history before. |
| `BridgeTheorems.RestoreGivesHistoricTree` | core/src/main/java/io/roastedroot/pglite4j/core/PGLite.java:328-343 | Restoring the snapshot of any reachable state over a fresh installation succeeds if and only if no kept file of one tree lies above or below a path of the other, and then gives the data directory as it was at that call boundary, with the defaults at every other path. |
| `BridgeTheorems.RunKeepsInv` | jdbc/src/main/java/io/roastedroot/pglite4j/jdbc/PgLiteDriver.java:210-336 | Every state of every run satisfies the joint invariant of lock, calls, octet flow, cache, snapshot and message alignment. |
| `BridgeProgress.DoneBecause` | jdbc/src/main/java/io/roastedroot/pglite4j/jdbc/PgLiteDriver.java:219-241 | In every run, a handler that has ended failed on the client's stream or in a backend call, or stood at the test of its request loop while the instance was closing. |
| `BridgeProgress.ReadBecause` | jdbc/src/main/java/io/roastedroot/pglite4j/jdbc/PgLiteDriver.java:219-220 | In every run, a handler that reads a request, or a message of its startup exchange, stood at the test of that loop while the instance was running. |
| `BridgeProgress.RenamePublishes` | core/src/main/java/io/roastedroot/pglite4j/core/PGLite.java:207-216 | In every run, for the timer and for the closing thread: a dumper that has written its archive makes it the snapshot in its next step unless that fails; the snapshot is then at the end of the history. |
| `BridgeProgress.CleanDumpAdvances` | core/src/main/java/io/roastedroot/pglite4j/core/PGLite.java:179-217 | In every run, a dump that meets no error moves the snapshot past its own maintenance queries: when it has freed the lock, the snapshot file is a complete archive of the data directory at the end of the history. |
| `BridgeProgress.DumperStopsBecause` | jdbc/src/main/java/io/roastedroot/pglite4j/jdbc/PgLiteDriver.java:178-186 | In every run of a persistent instance the timer stops only by an exception that is not an I/O error, and the closing thread only by publishing its final dump or by an error. |
| `BridgeService.CanServe` | jdbc/src/main/java/io/roastedroot/pglite4j/jdbc/PgLiteDriver.java:219-233 | From any state with the lock free, while the instance runs, a connection in its request loop can have any message answered with any response: one call in the history, the response in its own output, the lock free again. |
| `BridgeService.CanReplay` | jdbc/src/main/java/io/roastedroot/pglite4j/jdbc/PgLiteDriver.java:246-252 | With a filled cache a new connection can be started up whatever it sends, without the lock and without a call: one read per cached response, exactly the cached output, and then the request loop. |
| `BridgeService.CanExchange` | jdbc/src/main/java/io/roastedroot/pglite4j/jdbc/PgLiteDriver.java:253-277 | With an empty cache a new connection can be started up by an exchange of any length that the last response and no other ends: every message in a call, every response to the client, the list of responses in the cache. |
| `BridgeService.CanDump` | core/src/main/java/io/roastedroot/pglite4j/core/PGLite.java:179-217 | With the lock free a waiting dumper can run its two queries, archive each kept file once in any order, replace the snapshot by that archive and free the lock. |
| `BridgeService.CanBeginDump` | jdbc/src/main/java/io/roastedroot/pglite4j/jdbc/PgLiteDriver.java:162-176 | The timer can begin its next round, and closing a persistent instance sets the final dump going. |
| `BridgeService.MaintenanceOctets` | core/src/main/java/io/roastedroot/pglite4j/core/PGLite.java:184-185 | The octets of the two maintenance queries, as simple Query messages. |
| `BridgeSafety.StepKeepsLock` | jdbc/src/main/java/io/roastedroot/pglite4j/jdbc/PgLiteDriver.java:226-228 | Every step of every thread keeps mutual exclusion and the serial log: only the holder of the lock calls the backend, and at most one call is open. |
| `BridgeSafety.StepKeepsFlow` | jdbc/src/main/java/io/roastedroot/pglite4j/jdbc/PgLiteDriver.java:219-233 | Every step keeps each connection's octets accounted for: output against responses in the log, messages in the log against what was read. |
| `BridgeSafety.StepKeepsCache` | jdbc/src/main/java/io/roastedroot/pglite4j/jdbc/PgLiteDriver.java:246-278 | Every step keeps the cache equal to one exchange's responses and every exchange in progress alone in its stretch of the log. |
| `BridgeSafety.StepKeepsStoredCache` | jdbc/src/main/java/io/roastedroot/pglite4j/jdbc/PgLiteDriver.java:253-276 | A step never changes a cache that holds a list. |
| `BridgeSafety.StepKeepsSnap` | core/src/main/java/io/roastedroot/pglite4j/core/PGLite.java:179-217 | Every step keeps the progress of both dumpers (which queries ran, what the temporary file holds) and the snapshot file consistent with the history. |
| `BridgeSafety.StepAdvancesSnapshot` | core/src/main/java/io/roastedroot/pglite4j/core/PGLite.java:207-216 | A step keeps the snapshot file or replaces it by an image taken after the whole history so far. |
| `BridgeSafety.StepKeepsAlign` | jdbc/src/main/java/io/roastedroot/pglite4j/jdbc/PgLiteDriver.java:226-231 | Every step keeps the n-th response of every connection the answer of its n-th call to its n-th message. |
| `BridgeSafety.DumpMoveKeepsDumpOk` | core/src/main/java/io/roastedroot/pglite4j/core/PGLite.java:179-217 | The dump's own steps: after the walk has reached every regular file that is not a socket file, the temporary file is a complete archive of the data directory as it is after both maintenance queries. |
| `Transport.Guest.PutBytes` | wasm-build/patches/postgresql-pglite/src-backend-libpq-pqcomm.c.diff:149-188 | Whatever the lengths, the reply grows by exactly the octets put and SOCKET_DATA by their number, also when one put straddles the end of the buffer; file mode starts exactly when the total exceeds the buffer; nothing outside the send buffer changes. |
| `Transport.Guest.CopyIn` | wasm-build/patches/postgresql-pglite/src-backend-libpq-pqcomm.c.diff:176-180 | Copying into the free part of the send buffer appends to the reply and leaves the request and everything behind the CMA alone. |
| `Transport.Guest.Redirect` | wasm-build/patches/postgresql-pglite/src-backend-libpq-pqcomm.c.diff:165-175 | Moving a full buffer to the file in the middle of a write keeps the reply. |
| `Transport.Guest.AppendToFile` | wasm-build/patches/postgresql-pglite/src-backend-libpq-pqcomm.c.diff:183-186 | In file mode the reply grows by the rest of the write. |
| `Transport.Guest.InternalFlush` | wasm-build/patches/postgresql-pglite/src-backend-libpq-pqcomm.c.diff:191-199 | A flush loses nothing in either mode. |
| `Transport.Guest.RunOps` | wasm-build/patches/postgresql-pglite/src-backend-libpq-pqcomm.c.diff:149-199 | After any sequence of puts and flushes the reply has grown by all octets put, in order; it is the memory prefix in memory mode and the file contents in file mode; file mode holds if and only if the total exceeds the buffer. |
| `Transport.Guest.StartMsgRead` | wasm-build/patches/postgresql-pglite/src-backend-libpq-pqcomm.c.diff:111-140 | In memory mode the send buffer ends up at the address the host will read if and only if the receive buffer was drained or it already was there; a drained read starts at the announced request and covers all of it. |
| `Transport.Guest.BeginRead` | wasm-build/patches/postgresql-pglite/src-backend-libpq-pqcomm.c.diff:119-134 | From any state: the first read sees what was left unread, or else exactly the announced request; in memory mode the reply will be built behind the announced request if the buffer was drained and behind the old one if not. |
| `Transport.Guest.ReadRequest` | wasm-build/patches/postgresql-pglite/src-backend-libpq-pqcomm.c.diff:119-134 | The same for a tick between replies, with the number of octets that it leaves unread. |
| `Transport.Guest.Answer` | wasm-build/patches/postgresql-pglite/src-backend-libpq-pqcomm.c.diff:149-188 | The reply of a tick, including one begun before a trap, is offered once and completely: where it was built inside the CMA, or as the reply file exactly when it started there or does not fit; nothing before it in memory changes. |
| `Transport.Guest.InteractiveOne` | wasm-build/patches/postgresql-pglite/src-backend-libpq-pqcomm.c.diff:119-188 | A whole tick, from any state between ticks, drained or not: what it reads first, where it builds its reply, that it offers exactly what it put, and what it leaves unread. |
| `Transport.Guest.Drain` | wasm-build/patches/pglite-wasm/interactive_one.c.diff:6-11 | The drain loop terminates with an empty receive buffer. |
| `Transport.Guest.ResumeOnError` | wasm-build/patches/pglite-wasm/interactive_one.c.diff:6-11 | The recovery tick leaves the receive buffer drained and offers the reply begun before the trap followed by what recovery puts. |
| `Transport.Guest.PglCheckError` | wasm-build/patches/postgresql-pglite/src-backend-utils-error-elog.c.diff:7-24 | Returns whether an error was flagged and clears the flag. |
| `Transport.PgLite.WireSendCma` | core/src/main/java/io/roastedroot/pglite4j/core/PGLite.java:247-252 | The message is in the CMA at the buffer address, and host and guest count the same request. |
| `Transport.PgLite.WireRecvCma` | core/src/main/java/io/roastedroot/pglite4j/core/PGLite.java:254-263 | Reads the announced number of octets just behind the request as the host counts it, and zeroes both counters; does nothing when there is no reply. |
| `Transport.PgLite.WireRecvFile` | core/src/main/java/io/roastedroot/pglite4j/core/PGLite.java:265-279 | Takes the reply file, if there is one, deletes it and zeroes both counters. |
| `Transport.PgLite.CollectReply` | core/src/main/java/io/roastedroot/pglite4j/core/PGLite.java:281-299 | Takes the offered reply exactly once and leaves none waiting: the file, or as many octets as the reply has from where the host looks; zeroes both counters if there was one. |
| `Transport.PgLite.Recover` | core/src/main/java/io/roastedroot/pglite4j/core/PGLite.java:138-154 | A flagged error is recovered: flag clear, receive buffer drained, the reply begun before the trap and finished after it collected once; any other trap is thrown, and the flag is then set exactly when the recovery tick itself trapped on an error. |
| `Transport.PgLite.TryTick` | core/src/main/java/io/roastedroot/pglite4j/core/PGLite.java:137-140 | The collection before a tick finds nothing, and the tick runs. |
| `Transport.PgLite.TickAndCollect` | core/src/main/java/io/roastedroot/pglite4j/core/PGLite.java:137-158 | One turn decides by the rule (quiet, again, recovered, thrown), takes one piece of the reply's length if there is a reply, from where the host looks, and leaves none waiting. |
| `Transport.PgLite.Turn` | core/src/main/java/io/roastedroot/pglite4j/core/PGLite.java:137-158 | What the host takes for the reply, drained or not: the reply if it went to the file, and otherwise as many octets from behind the announced request, in memory with the reply written where the guest built it. |
| `Transport.PgLite.LoopTurn` | core/src/main/java/io/roastedroot/pglite4j/core/PGLite.java:136-159 | Every turn keeps the list of replies equal to what the host takes in the turns so far, empty ones left out, whatever the guest leaves unread. |
| `Transport.PgLite.TickLoop` | core/src/main/java/io/roastedroot/pglite4j/core/PGLite.java:136-159 | The loop takes exactly the number of turns the rule gives, at most 256; its list holds exactly one piece for every turn that produced a reply, in order. |
| `Transport.PgLite.ExecProtocolRaw` | core/src/main/java/io/roastedroot/pglite4j/core/PGLite.java:130-162 | For every guest behaviour and from any state between calls, drained or not: it goes on exactly as long as ticks finish and send something, for 256 ticks at most; it throws exactly if the first other tick traps, unless an error was flagged and the next tick finishes; if every reply is where the host looks it returns all that these ticks put, and otherwise exactly what the host takes, given from the script, the link and memory before the call; no reply waits; the error flag is clear unless the recovery tick trapped on an error; the number of octets left unread is exact; a call that starts drained reads exactly the message first. |
| `Transport.PgLite.Session` | core/src/main/java/io/roastedroot/pglite4j/core/PGLite.java:138-154 | Over any list of calls up to one that throws: as long as every call before left nothing unread, as every recovered one does, a call's first read is its own message, and its result is what its own script puts if its replies are where the host looks. |
| `Transport.PgLite.NextRead` | wasm-build/patches/postgresql-pglite/src-backend-libpq-pqcomm.c.diff:119-134 | What the guest reads first of a new message after anything, thrown calls included: the message if drained, and otherwise a window of the old request overwritten by the message; for a message that is not as long as what is unread, it sees the message if and only if drained. |
| `Transport.PgLite.ReadAfterCall` | core/src/main/java/io/roastedroot/pglite4j/core/PGLite.java:130-162 | After a call that returned or threw, the next message is read as sent if the call left nothing unread, and only then unless it is just as long as what was left. |
| `Transport.ThrowLeavesOctets` | core/src/main/java/io/roastedroot/pglite4j/core/PGLite.java:153 | A call that throws and leaves an octet unread. |
| `Transport.ResultIsCollected` | core/src/main/java/io/roastedroot/pglite4j/core/PGLite.java:254-263 | A call that returns returns everything the guest put if and only if in every turn what the host takes is the reply; the script, the link and memory after the announcement decide it, drained or not. |
| `Transport.MatchedCall` | core/src/main/java/io/roastedroot/pglite4j/core/PGLite.java:254-263 | In particular it does if every reply is in the file, comes from a tick that started drained, or is built where the host looks. |
| `Transport.ReadersMatch` | core/src/main/java/io/roastedroot/pglite4j/core/PGLite.java:254-263 | A guest that reads all it is given, drained from the start on, has every reply where the host looks. |
| `Transport.OutputMeaning` | wasm-build/patches/postgresql-pglite/src-backend-libpq-pqcomm.c.diff:149-199 | Puts give their octets one after the other and flushes give nothing. |
| `Transport.PgLite.Announce` | core/src/main/java/io/roastedroot/pglite4j/core/PGLite.java:131-133 | An empty message is not sent; any other is written over memory at the buffer address, and nothing else changes there. |
| `Transport.UndrainedReplyIsMissed` | wasm-build/patches/postgresql-pglite/src-backend-libpq-pqcomm.c.diff:119-134 | On the request 81, 82 and a script whose two ticks put 1 and 7 and leave one octet unread, the host takes 1, 82. |
| `RecvBuffer.RefilledIsPrefix` | wasm-build/patches/postgresql-pglite/src-backend-libpq-pqcomm.c.diff:30-47 | The refills deliver a prefix of the file made of whole buffers, cut at the end of the file. |
| `RecvBuffer.DeliveredIsPacket` | wasm-build/patches/postgresql-pglite/src-backend-libpq-pqcomm.c.diff:84-105 | A consumer reads the packet and nothing else if and only if the packet fits the buffer, or ends where the file ends, or is a multiple of the buffer size. |
| `RecvBuffer.Receiver.Fill` | wasm-build/patches/postgresql-pglite/src-backend-libpq-pqcomm.c.diff:84-105 | After the fill, buffer and later refills together hold exactly what is to be delivered of the packet. |
| `RecvBuffer.Receiver.Recvbuf` | wasm-build/patches/postgresql-pglite/src-backend-libpq-pqcomm.c.diff:30-47 | A refill of a used-up buffer neither loses nor repeats an octet, reports EOF if and only if none is left, and otherwise decreases querylen. |
| `RecvBuffer.Receiver.Refill` | wasm-build/patches/postgresql-pglite/src-backend-libpq-pqcomm.c.diff:36-42 | Reading on from the query file keeps what is pending and gets nothing exactly when nothing is left. |
| `RecvBuffer.Receiver.GetByte` | wasm-build/patches/postgresql-pglite/src-backend-libpq-pqcomm.c.diff:30-47 | The consumer gets the next pending octet, or EOF if and only if none is pending. |
| `RecvBuffer.Receiver.ReadToEof` | wasm-build/patches/postgresql-pglite/src-backend-libpq-pqcomm.c.diff:30-47 | Reading to EOF terminates and returns everything pending, in order. |
| `RecvBuffer.Receiver.ReceivePacket` | wasm-build/patches/postgresql-pglite/src-backend-libpq-pqcomm.c.diff:84-105 | A query file holding exactly one packet, of any length against the buffer, is read exactly and then EOF. |
| `SignalBits.BitsAreSets` | wasm-build/wasm-build/sdk_port.h:49 | The C operators on the eight-bit sigset_t are union, difference and singleton of the signals that fit. |
| `SignalBits.MembersInjective` | wasm-build/wasm-build/sdk_port.h:49 | Two octets that hold the same set are equal. |
| `SignalBits.SigAddSet` | wasm-build/wasm-build/sdk_port-wasi/sdk_port-wasi.c:124-141 | Succeeds for every valid signal number below 32, but the signal becomes a member only if it fits the octet. |
| `SignalBits.SigDelSet` | wasm-build/wasm-build/sdk_port-wasi/sdk_port-wasi.c:143-160 | After success the signal is not a member; all others are kept. |
| `SignalMask.SignalTable.constructor` | wasm-build/wasm-build/sdk_port-wasi/sdk_port-wasi.c:95-103 | The globals start with nothing blocked and satisfy the invariant. |
| `SignalMask.SignalTable.BlockedHandler` | wasm-build/wasm-build/sdk_port-wasi/sdk_port-wasi.c:162-174 | The blocking handler is installed, also if the host had reset it, and the signal is pending. |
| `SignalMask.SignalTable.Raise` | wasm-build/wasm-build/sdk_port-wasi/sdk_port-wasi.c:162-174 | A raised signal is delivered, or only marked pending if it is blocked, on a one-shot host too. |
| `SignalMask.SignalTable.BlockOne` | wasm-build/wasm-build/sdk_port-wasi/sdk_port-wasi.c:210-215 | Saves the handler, installs the blocking one and clears the pending flag; the mask grows only if signal() succeeded. |
| `SignalMask.SignalTable.BlockAll` | wasm-build/wasm-build/sdk_port-wasi/sdk_port-wasi.c:205-216 | The first loop as one simultaneous update. |
| `SignalMask.SignalTable.RestoreOne` | wasm-build/wasm-build/sdk_port-wasi/sdk_port-wasi.c:224-234 | Restores the saved handler; reaches abort() exactly when the signal() call fails. |
| `SignalMask.SignalTable.RestoreAll` | wasm-build/wasm-build/sdk_port-wasi/sdk_port-wasi.c:218-236 | The second loop as one simultaneous update, with the pending signals noted; aborts exactly when signal() fails for a signal to unblock. |
| `SignalMask.SignalTable.RaiseAll` | wasm-build/wasm-build/sdk_port-wasi/sdk_port-wasi.c:238-240 | The third loop delivers exactly the noted signals, in order, to the restored handlers, under the new mask. |
| `SignalMask.SignalTable.SigProcMask` | wasm-build/wasm-build/sdk_port-wasi/sdk_port-wasi.c:176-244 | Returns the old mask; refuses an operation other than 0, 1, 2 without a change; for 0, 1, 2 leaves the union, the difference or the given set, minus newly blocked signals whose signal() call failed; aborts if and only if a restoring signal() call fails; refines the simultaneous change of mask followed by the deferred deliveries; keeps the invariant. |
| `SignalMask.MaskedInSteps` | wasm-build/wasm-build/sdk_port-wasi/sdk_port-wasi.c:202-241 | The three loops together equal the simultaneous update of mask, handlers, saved handlers, pending flags and deliveries. |
| `SignalMask.MaskedKeepsInv` | wasm-build/wasm-build/sdk_port-wasi/sdk_port-wasi.c:202-241 | A change of mask keeps the invariant: exactly the blocked signals carry blocked_handler, their own handler is the saved one, only blocked signals are pending. |
| `SignalRuns.RunKeepsInv` | wasm-build/wasm-build/sdk_port-wasi/sdk_port-wasi.c:162-244 | The invariant holds after every run of mask calls, each with its own failing signals, raised signals and handler installations on signals that are not blocked. |
| `SignalRuns.CallSetsRequestedMask` | wasm-build/wasm-build/sdk_port-wasi/sdk_port-wasi.c:187-216 | A valid call leaves the requested mask minus the signals whose signal() call failed; without failures that is the union, the difference or the given set for operations 0, 1 and 2. |
| `SignalRuns.RaiseDelivers` | wasm-build/wasm-build/sdk_port-wasi/sdk_port-wasi.c:162-174 | A raised signal is delivered at once to the application's handler, or if it is blocked becomes pending and nothing else. |
| `SignalRuns.InstallSets` | wasm-build/wasm-build/sdk_port-wasi/sdk_port-wasi.c:100-103 | Installing a handler changes the one of that signal and nothing else. |
| `SignalRuns.DeliveriesAscend` | wasm-build/wasm-build/sdk_port-wasi/sdk_port-wasi.c:238-240 | A change of mask delivers in ascending order of the signals, under the new mask. |
| `SignalRuns.RunKeepsEffectiveHandler` | wasm-build/wasm-build/sdk_port-wasi/sdk_port-wasi.c:162-244 | Over every run, the handler the application has for a signal (in the table or saved) changes only by the application's own installations. |
| `SignalRuns.MaskedDeliversOnce` | wasm-build/wasm-build/sdk_port-wasi/sdk_port-wasi.c:218-241 | A change of mask delivers a signal once if it was pending and is unblocked, and not at all otherwise. |
| `SignalRuns.DeferredDelivery` | wasm-build/wasm-build/sdk_port-wasi/sdk_port-wasi.c:162-241 | Through any run in which a signal stays blocked its handler does not run; the unblocking call runs the application's handler exactly once if the signal was pending or raised, any number of times, and not otherwise, with the new mask already in force. |
| `SignalRuns.SavedMaskRestoresTable` | wasm-build/wasm-build/sdk_port-wasi/sdk_port-wasi.c:176-244 | Blocking a set, then any run without handler installations, nested mask calls included, then setting the saved mask restores the mask and the whole handler table, if and only if signal() succeeds for the signals to block again. |
| `FileSocket.Socket.constructor` | wasm-build/sdk/hotfix/sdk_socket.c:140-159 | The globals before the first connect. |
| `FileSocket.Socket.Connect` | wasm-build/sdk/hotfix/sdk_socket.c:140-159 | Truncates the lock file and its count, so that what waited there is lost and a flush right after publishes nothing, and keeps cursors, watchdog, reply file and everything published. |
| `FileSocket.Socket.SockFlush` | wasm-build/sdk/hotfix/sdk_socket.c:163-197 | Publishes the lock file if something is queued; otherwise counts an idle flush and exits the process past the limit; what was sent stays accounted for. |
| `FileSocket.Socket.SendTo` | wasm-build/sdk/hotfix/sdk_socket.c:257-266 | Everything sent so far grows by exactly the data; the octets are counted and the watchdog is reset. |
| `FileSocket.Socket.RecvFrom` | wasm-build/sdk/hotfix/sdk_socket.c:199-253 | Returns the next piece of the reply file or an error, with the cursors moved or reset as specified. |
| `FileSocket.ReceiveOne` | wasm-build/sdk/hotfix/sdk_socket.c:206-246 | One call returns the next piece, whether the file was there or appears during the call's own flush; file and cursors survive if and only if the end was not reached. |
| `FileSocket.ReceiveIsLossless` | wasm-build/sdk/hotfix/sdk_socket.c:199-253 | For every file, also one that the peer leaves during the first call, and every sequence of positive buffer lengths: after every call what has been received is exactly the file as far as the lengths reach; the file is removed and both cursors reset exactly when the end is reached. |
| `FileSocket.RequestResponse` | wasm-build/sdk/hotfix/sdk_socket.c:163-253 | A send and the receives after it: the first receive publishes all that waits, and the program gets the reply that the peer left during the yield. |
| `FileSocket.MissingFileKeepsCursors` | wasm-build/sdk/hotfix/sdk_socket.c:247-251 | Over any number of receives while no reply file appears, each returns an error and both cursors stay as they are. |
| `FileSocket.SendConservation` | wasm-build/sdk/hotfix/sdk_socket.c:163-266 | In every interleaving of send, flush, receive and peer writes, the published files in order followed by the lock file are all octets sent. |
| `FileSocket.QueueCounts` | wasm-build/sdk/hotfix/sdk_socket.c:163-266 | In every interleaving the lock file holds exactly what fd_queue counts and what it has forgotten: nothing after a publishing flush, all that waits after a receive that completes, and as much as before otherwise. So the count is right if and only if nothing has been forgotten. |
| `FileSocket.OrderlyRunsCount` | wasm-build/sdk/hotfix/sdk_socket.c:206-246 | If no send falls inside a partial receive, nothing is ever forgotten and fd_queue is the length of the lock file in every state. |
| `FileSocket.ForgottenWaits` | wasm-build/sdk/hotfix/sdk_socket.c:163-197 | Forgotten octets are not published by a flush, and are published with the next octets sent. |
| `FileSocket.SendInsideReceive` | wasm-build/sdk/hotfix/sdk_socket.c:230-246 | A send inside a partial receive that then completes leaves fd_queue wrong if and only if it sent something, and a flush then does not publish it. |
| `FileSocket.IdleFlushLimit` | wasm-build/sdk/hotfix/sdk_socket.c:190-246 | In every interleaving of sends, flushes, receives and peer writes the watchdog is the number of idle flushes, called for themselves or by a receive, since the last reset; at most 33 return, and the process exits if and only if there is one more. |
| `Archive.DumpDataDir` | core/src/main/java/io/roastedroot/pglite4j/core/PGLite.java:186-205 | An entry with a file's octets and relative path is in the archive if and only if the last component of that path does not start with .s.PGSQL. and every entry is one of these; no file comes twice. |
| `Archive.RestoreDataDir` | core/src/main/java/io/roastedroot/pglite4j/core/PGLite.java:328-343 | Extracting creates directories and replaces, entry by entry, whatever file or empty directory is at the entry's path; directory entries are skipped; an entry below a file or at a directory that is not empty ends the restore. |
| `Archive.ExtractEntry` | core/src/main/java/io/roastedroot/pglite4j/core/PGLite.java:336-340 | One entry: create the directories, delete what is there, copy; fails exactly on the two clashes. |
| `Archive.ResolveEntryName` | core/src/main/java/io/roastedroot/pglite4j/core/PGLite.java:196-197 | Resolving the entry name of a relative path gives the path back. |
| `Archive.EntryNameMeaning` | core/src/main/java/io/roastedroot/pglite4j/core/PGLite.java:196-197 | An entry name lists the components of the path with slashes between them. |
| `Archive.RestoreArchive` | core/src/main/java/io/roastedroot/pglite4j/core/PGLite.java:328-343 | Restoring an archive of F over D succeeds if and only if no kept file of F lies below a file of D or above a path of D; it then gives F's octets at every path of F that is not a socket file, and D's octets elsewhere. |
| `Archive.RestoreMeaning` | core/src/main/java/io/roastedroot/pglite4j/core/PGLite.java:328-343 | The same path by path: the restore succeeds if and only if for every file of F whose name does not start with .s.PGSQL. no file of D is above or below its path and no directory of D below it; then each such path has F's octets and every other path what D has there. |
| `Archive.DirectoriesSkipped` | core/src/main/java/io/roastedroot/pglite4j/core/PGLite.java:333-335 | An entry whose name ends in a slash changes nothing. |
| `Archive.RestoreExact` | core/src/main/java/io/roastedroot/pglite4j/core/PGLite.java:328-343 | The restore succeeds with the files of F without socket files if and only if F and D do not clash and every file of D is such a file of F. |
| `Archive.OrderIrrelevant` | core/src/main/java/io/roastedroot/pglite4j/core/PGLite.java:186-205 | Any two archives of the same tree restore to the same tree or both fail, whatever the order of their entries. |
| `Archive.ClashEndsRestore` | core/src/main/java/io/roastedroot/pglite4j/core/PGLite.java:336-340 | A dump that holds the file a/b cannot be restored over a tree with the file a. |
| `WireCodec.FramesInvertEncodeAll` | core/src/test/java/io/roastedroot/pglite4j/core/PgWireCodec.java:130-148 | Scanning the encoding of a list of frames yields exactly that list. |
| `WireCodec.EncodeAllInvertsFrames` | core/src/test/java/io/roastedroot/pglite4j/core/PgWireCodec.java:130-148 | A stream that scans to its last octet is the encoding of the frames found. |
| `WireCodec.Int32RoundTrip` | core/src/test/java/io/roastedroot/pglite4j/core/PgWireCodec.java:258-276 | The four octets of a signed 32-bit integer read back as that integer. |
| `WireCodec.Int32Injective` | core/src/test/java/io/roastedroot/pglite4j/core/PgWireCodec.java:151-186 | Writing the integer read from four octets gives those octets. |
| `WireCodec.HasReadyForQuery` | core/src/test/java/io/roastedroot/pglite4j/core/PgWireCodec.java:130-148 | On a well-formed stream, true if and only if some frame is tagged 90. |
| `WireCodec.ParseAuth` | core/src/test/java/io/roastedroot/pglite4j/core/PgWireCodec.java:95-127 | Returns the code, and for MD5 the salt, of the first authentication request among the frames, or the default. |
| `WireCodec.AuthMeaning` | core/src/test/java/io/roastedroot/pglite4j/core/PgWireCodec.java:95-127 | Over encodings: the code of the first frame tagged 82 whose body holds one, with the four octets behind it as the salt if the code is 5, and a code of -1 without such a frame. |
| `WireCodec.ParseDataRows` | core/src/test/java/io/roastedroot/pglite4j/core/PgWireCodec.java:151-186 | Returns the comma-joined non-null, non-empty column values of all DataRow messages in order, whatever other messages are mixed in. |
| `WireCodec.ParseRow` | core/src/test/java/io/roastedroot/pglite4j/core/PgWireCodec.java:164-182 | The inner loop appends exactly the shown values of one row. |
| `WireCodec.ShownMeaning` | core/src/test/java/io/roastedroot/pglite4j/core/PgWireCodec.java:151-186 | Rows and columns show their texts one after the other; null and empty texts and other messages show nothing. |
| `WireCodec.JoinedMeaning` | core/src/test/java/io/roastedroot/pglite4j/core/PgWireCodec.java:174-179 | Texts are joined by the octet 44. |
| `WireCodec.RowMeaning` | core/src/test/java/io/roastedroot/pglite4j/core/PgWireCodec.java:164-172 | How a row is encoded: tag 68, two octets for the number of columns, per column four octets of length, -1 for null, and the text. |
| `WireCodec.BuildSimpleQuery` | core/src/main/java/io/roastedroot/pglite4j/core/PGLite.java:301-312 | Builds the encoding of the simple Query frame. |
| `WireCodec.QueryMessage` | core/src/test/java/io/roastedroot/pglite4j/core/PgWireCodec.java:47-58 | Builds the same octets as buildSimpleQuery. |
| `WireCodec.ParseMessage` | core/src/test/java/io/roastedroot/pglite4j/core/PgWireCodec.java:191-210 | Builds the encoding of the Parse frame. |
| `WireCodec.BindMessage` | core/src/test/java/io/roastedroot/pglite4j/core/PgWireCodec.java:213-239 | Builds the encoding of the Bind frame. |
| `WireCodec.DescribeMessage` | core/src/test/java/io/roastedroot/pglite4j/core/PgWireCodec.java:242-255 | Builds the encoding of the Describe frame. |
| `WireCodec.ExecuteMessage` | core/src/test/java/io/roastedroot/pglite4j/core/PgWireCodec.java:258-276 | Builds the encoding of the Execute frame. |
| `WireCodec.ExtendedQueryBatch` | core/src/test/java/io/roastedroot/pglite4j/core/PgWireCodec.java:284-308 | Scanning the batch yields exactly the frames Parse, Bind, Describe, Execute, Sync, given octet by octet, ending at the last octet. |
| `WireCodec.FieldsRecoverable` | core/src/test/java/io/roastedroot/pglite4j/core/PgWireCodec.java:191-276 | The tags of all built messages, and for NUL-free texts every field of each of them can be read back from its body. |
| `WireCodec.EndsWithReadyForQueryMeaning` | jdbc/src/main/java/io/roastedroot/pglite4j/jdbc/PgLiteDriver.java:295-306 | On a well-formed stream the test passes if and only if the last frame is a one-octet frame tagged Z or its body ends in the octets 90, 0, 0, 0, 5 and one more. |
| `WireCodec.EndsWithReadyForQueryIsNotExact` | jdbc/src/main/java/io/roastedroot/pglite4j/jdbc/PgLiteDriver.java:295-306 | A stream without any frame tagged Z that passes the test. |
| `Bytes.Concat` | core/src/main/java/io/roastedroot/pglite4j/core/PGLite.java:314-326 | The result is all parts, in order, back to back. |
| `Dictionary.Dict.constructor` | wasm-build/wasm-build/sdk_port-wasi/sdk_port-wasi-dlfcn.c:51-57 | A new dictionary is empty with room for ten entries. |
| `Dictionary.Dict.FindIndex` | wasm-build/wasm-build/sdk_port-wasi/sdk_port-wasi-dlfcn.c:19-27 | Returns the index of the key, or -1 if and only if it is absent. |
| `Dictionary.Dict.Find` | wasm-build/wasm-build/sdk_port-wasi/sdk_port-wasi-dlfcn.c:29-33 | Returns the map's value for the key, or the default. |
| `Dictionary.Dict.Add` | wasm-build/wasm-build/sdk_port-wasi/sdk_port-wasi-dlfcn.c:35-49 | Updates the map at the key only; keys stay distinct and len within cap; the table doubles exactly when a new key meets a full table. |
| `Dictionary.Dict.Overwrite` | wasm-build/wasm-build/sdk_port-wasi/sdk_port-wasi-dlfcn.c:38-41 | Overwriting the value at an index is a map update at its key. |
| `Dictionary.Dict.Append` | wasm-build/wasm-build/sdk_port-wasi/sdk_port-wasi-dlfcn.c:46-48 | Appending a new key is a map update. |
| `Dictionary.Dict.Grow` | wasm-build/wasm-build/sdk_port-wasi/sdk_port-wasi-dlfcn.c:42-45 | Doubling keeps every entry at its index. |
| `Dictionary.AddAll` | wasm-build/wasm-build/sdk_port-wasi/sdk_port-wasi-dlfcn.c:35-57 | After any list of additions the dictionary stands for the map they build. |
| `Dictionary.LastAddWins` | wasm-build/wasm-build/sdk_port-wasi/sdk_port-wasi-dlfcn.c:29-49 | That map holds for each key the last value added, and exactly the keys added. |

## Left out

- PostgreSQL, the WebAssembly runtime, WASI and the virtual file system: the guest is an arbitrary script of ticks and
  the data directory an arbitrary function of the history of calls.
- The body of interactive_one.c is not part of this model. Assumed of it: at the end of a tick a non-empty reply
  becomes visible as a length or as the reply file with a negative channel; `interactive_write` sets `cma_rsize` and
  clears the reply length; the buffer address is 1; the send pointer starts at 0 when the send buffer is placed and
  after a reply; the copy in `internal_putbytes` copies and advances by the computed amount; linear memory is at least
  twice the size of the CMA.
- Transport.PgLite.ExecProtocolRaw: messages that do not fit the CMA are excluded. Host and guest counters agree after
  an error only if the failed batch gets an answer; the next non-empty message sets both anyway.
- Transport.PgLite.NextRead: after a call that threw, only the first read of the next one is described; what the unseen
  guest code does with a reply begun before the throw is not known.
- Transport.Guest.InteractiveOne: in file mode the request is not read through the CMA, so nothing is said about what
  the tick reads; the refill from a query file is in `RecvBuffer.dfy`.
- RecvBuffer.Receiver.Recvbuf: a refill while octets are unread is not modelled; the consumers refill a used-up buffer.
- RecvBuffer.Receiver.Fill: a packet that fits the buffer must be in the file, since `fread` of one short element
  leaves the buffer undefined.
- `PGLite.close()` and what follows the final dump in `ManagedInstance.close()`: it runs outside the lock.
- The fallback to a move that is not atomic (core/src/main/java/io/roastedroot/pglite4j/core/PGLite.java:214-216).
- The accept loop, real sockets, the set of open sockets, thread start-up, driver registration and JDBC properties.
- Liveness: nothing is said about when a waiting thread gets the lock.
- SignalMask.SignalTable.Raise: handlers do not call `sigprocmask` themselves, and what a one-shot host does to the
  application's own handlers is left to the application.
- SignalBits.SigAddSet: a shift by 32 or more has no meaning in C and is excluded; the `SIGABRT_COMPAT` alias is not
  modelled.
- SignalBits.SigDelSet: the same.
- `sigfillset`, `sigaction` and the other stubs: constants.
- FileSocket.Socket.SendTo: short and failed writes are not modelled.
- FileSocket.Socket.SockFlush: the abort when no lock file is open is not modelled, since a connect has opened it.
- FileSocket.Socket.Connect: an error opening the lock file, which aborts, is not modelled.
- WireCodec.ParseDataRows: malformed streams and streams of 2^31 octets or more are outside the contract, because the
  code gives them no defined result; so for the other scanners.
- Character encodings, MD5 passwords, the startup and password message builders, and zip compression.
- Dictionary.Dict.Add: overflow of the 32-bit capacity and failing allocation are not modelled.
- `dlopen` and `dlsym`: constant dispatch around the dictionary.
- Archive.RestoreDataDir: entries whose names have an empty component or one that is "." or "..", and so may leave the
  data directory, are excluded by `Restorable`; the archives that the dump writes never hold one.
