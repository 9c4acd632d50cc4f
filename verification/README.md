# Verified model of the tramp-rpc transport, process I/O, copy, caches and searches

tramp-rpc lets Emacs work on remote files through a server that it starts over SSH. Client and server
exchange length-prefixed frames over one byte stream; the server answers requests concurrently, and
the client sorts out the replies. This project models the parts of that system in which order,
interleaving or in-place update decide correctness, and proves in Dafny what the code and its
comments promise for them. `dafny verify dfyconfig.toml` checks everything.

## How the model is laid out

- `Framing`: the frame format. `Connection`: the client's process filter, whose callbacks may
  re-enter it, and its calls. `ServerLoop`: the server's request loop. `RpcSystem`: all of the
  transport as a step system, from the client's calls through the server's tasks, the shared writer and
  the byte pipe back to the dispatcher.
- `WriteQueue` and `ProcessInput`: strings written to a remote process, as the client's queues and as
  a step system with the server's concurrent tasks. `ReadLoop` and `ProcessOutput`: the same for
  what a remote process prints. `ProcessTable`: the server's process map.
- `FileTree` and `Copy`: file system trees, overlay, and the recursive copy that works in place.
- `Cache`, `GitKeys`, `Debounce`: the time-limited caches, the keys of prefetched git results, and
  the watcher's debounce task behind its bounded channel.
- `Ancestors` and `StopFilter`: searches in ancestor directories on the server, and the client's
  check of their answers. `Batch`: pipelined and batch calls.

A step system has a state, events, and a function `Step` that yields the next state or nothing; a
theorem about every reachable state is a theorem about every interleaving. Fields marked as history
only record what happened. Notifications and replies are told apart as sections 4.1 and 5 of the
JSON-RPC 2.0 Specification do: a notification has a method and no id.

## What the results assume

- One connection, payloads below 2^32 bytes (`Framing.ReadFrame` shows that the bound is exact), and
  writes on the byte stream succeed. A reply to a well-formed request carries the request's id.
- Write queues are keyed by the remote pid alone. Exit handling drops the queue;
  `ProcessInput.ForgettingIsSafeIffNoneInFlight` says exactly when that is harmless, and the other
  results about writes are for runs in which it happens only then.
- The drain before closing may end at its deadline. `ProcessInput.CloseIsLosslessIffAllStarted` says
  exactly when closing then loses nothing.
- A callback may end by a quit, which also leaves the filter around it. `RpcSystem` has this as an event;
  the contracts of `Connection` are about calls that return.
- Timers fire in the order in which they were set. `process.read` may report the exit of a process
  while its pipes still hold output.
- Copying: source and destination do not contain each other, and inside the destination no link stands
  where the source has a directory (or, without overwrite, a regular file), because the system calls
  would follow it. The two paths themselves may lead through links: how the system resolves them is a
  parameter.
- What exists in the file system is a function while a search runs. Handlers are functions of their
  parameters when batch and pipelined calls are compared.

## Where code and documentation differ

- `tramp-rpc--invalidate-cache-for-path` says that it also invalidates the parent directory. It drops
  what `file-name-directory` returns: the parent under its name with a trailing slash, never without;
  and for a name that itself ends in a slash, nothing but that name. `Cache.ParentIsInvalidatedIffSlashed`
  gives the exact condition for both forms, and `Cache.EveryNameSplits` that there is no third.
- The cache size is called a maximum. Below 4 it is not one, because a quarter of fewer than four
  entries is none (`Cache.LimitHoldsIffAtLeastFour`).
- The watcher promises one notification for all events of a window. When the channel closes inside a
  window, or the write fails, its paths are not sent; `Debounce.StopKeepsWindowIff` says exactly when
  stopping loses a window.
- Events are said to be dropped on overflow. They are also dropped, with the channel empty, once a
  failed write has ended the debounce task (`Debounce.DropsIffFullOrStopped`).
- A process with a buffer for its errors is meant to get them apart from its output. Whether they are is
  decided at every delivery: once the error relay has died, errors join the output
  (`ProcessOutput.RelayKeepsOrder`, `ProcessOutput.ErrorsCanJoinOutput`).
- Writes are queued and each reply releases the next. A write request above 100 MiB gets no reply, since
  the server skips it, and the queue of its process stands still for good
  (`ProcessInput.QueueMovesOnIff`).
- The keys of prefetched git results are said to be normalized by stripping flags. Among those are
  `-C` and `-c`, which change what git does, so that a hit can be the answer to another call
  (`GitKeys.HitIsRightIffNoSettings`).
- The read loop is meant to end with the exit of its process. SIGKILL takes the process out of the
  server's map, so that the exit is never reported; the client goes on reading for ever and the relay
  gets no EOF (`ProcessOutput.EofCanComeIffInMap`).

## Model

| member | source | states |
|---|---|---|
| `Framing.DecodeEncodeLength` | lisp/tramp-rpc-protocol.el:35-38 | The four length bytes read back as the length, up to the wrap at 2^32 that the server's cast to u32 causes. |
| `Framing.EncodeDecodeLength` | lisp/tramp-rpc-protocol.el:113-119 | Every four bytes are the encoding of the length they decode to. |
| `Framing.LengthIsBigEndian` | lisp/tramp-rpc-protocol.el:113-119 | The most significant byte of the length comes first. |
| `Framing.FrameLayout` | lisp/tramp-rpc-protocol.el:35-38 | A frame is four bytes that read as the payload's length, and then the payload. |
| `Framing.ReadsWhatWasFramed` | lisp/tramp-rpc-protocol.el:121-131 | A payload is read exactly when its own whole frame is at the front of the buffer. |
| `Framing.ReadFrame` | lisp/tramp-rpc-protocol.el:35-38 | A frame is read back as its own payload, leaving what follows, exactly when its length fits the prefix. |
| `Framing.FrameOfRead` | lisp/tramp-rpc-protocol.el:121-131 | Front frame and rest together are the buffer again. |
| `Framing.MessagesOfStream` | lisp/tramp-rpc-protocol.el:121-131 | Parsing a stream of frames with an incomplete one behind it yields exactly the framed payloads and that remainder. |
| `Framing.StreamOfMessages` | lisp/tramp-rpc.el:1286-1303 | On any bytes, framing what was parsed and appending the remainder gives the bytes back. |
| `Framing.StreamPrefix` | lisp/tramp-rpc.el:1301-1303 | The format is uniquely decodable: whole frames that are a byte prefix of a stream are a prefix of its frames. |
| `Framing.ChunkIndependence` | lisp/tramp-rpc.el:1292-1303 | However bytes are split into chunks, the same messages come out in the same order. |
| `Connection.RouteOf` | lisp/tramp-rpc.el:1305-1321 | Notifications go to the handler, a reply to the callback registered under its id, and to the pending table only if there is none. |
| `Connection.RouteByKeys` | lisp/tramp-rpc-protocol.el:65-69 | A method without an id makes a notification; any other payload is routed by its id alone. |
| `Connection.Connection.constructor` | lisp/tramp-rpc.el:425-435 | A new connection has received and dispatched nothing and satisfies the invariant. |
| `Connection.Connection.TryReadMessage` | lisp/tramp-rpc-protocol.el:113-131 | Returns the complete front payload if there is one and moves the mark right behind its frame, and otherwise leaves it. |
| `Connection.Connection.Filter` | lisp/tramp-rpc.el:1286-1321 | However callbacks re-enter it, on return all complete frames received so far have been dispatched, each once and in stream order, and no byte is lost. |
| `Connection.Connection.Route` | lisp/tramp-rpc.el:1305-1321 | One payload changes exactly the table its route names; a callback that is due has left the table before it runs. |
| `Connection.Connection.Dispatch` | lisp/tramp-rpc.el:1305-1321 | The frame has left the buffer before its callback runs; the payload is recorded next in order with the route it must take. |
| `Connection.Connection.RunCallback` | lisp/tramp-rpc-process.el:833-839 | Any callback, including one that waits for replies itself, keeps the invariant, the history and the bytes. |
| `Connection.Connection.AcceptOutput` | lisp/tramp-rpc.el:1411-1423 | Waiting for output passes the next chunk through the filter and keeps the invariant. |
| `Connection.Connection.NextId` | lisp/tramp-rpc-protocol.el:28-33 | Ids count up from 1 and are never reused. |
| `Connection.Connection.CallAsync` | lisp/tramp-rpc.el:1323-1337 | The callback is registered under an id that was never registered before. |
| `Connection.Connection.FindResponse` | lisp/tramp-rpc.el:1350-1357 | Takes the reply with that id out of the table, so that it is returned once; it came from a dispatched frame with that id. |
| `Connection.Connection.CallWithTimeout` | lisp/tramp-rpc.el:1366-1423 | The reply returned belongs to the fresh id of this call and is gone from the table; the deadline may pass at any moment. |
| `Connection.Connection.DispatchedInStreamOrder` | lisp/tramp-rpc.el:1301-1321 | At every moment, also inside callbacks, the dispatches are the front part of the frames received. |
| `Connection.Connection.EachWentItsWay` | lisp/tramp-rpc.el:1305-1321 | At every moment, each dispatched payload has gone where its two keys send it, and no callback has fired twice or is still registered after firing. |
| `ServerLoop.TryReadAt` | server/src/main.rs:43-70 | Reading the prefix and the payload at a position is reading the front frame of the bytes from there on. |
| `ServerLoop.ToSpawnAt` | server/src/main.rs:43-75 | What is left to spawn at a position: nothing if the frame is cut off, otherwise its payload unless too large, then what follows its end. |
| `ServerLoop.Stdin.ReadExact` | server/src/main.rs:46-48 | Reads exactly the bytes asked for, or fails at the end of the input after using it up. |
| `ServerLoop.Stdin.Discard` | server/src/main.rs:51-64 | The drain loop terminates and consumes exactly the declared length, or everything if the input ends first. |
| `ServerLoop.Stdin.Serve` | server/src/main.rs:43-91 | Tasks are spawned for exactly the complete payloads of at most 100 MiB, in order, and oversized frames leave the loop aligned. |
| `ServerLoop.AcceptedMembers` | server/src/main.rs:51-64 | Each acceptable payload is spawned as often as it was framed, and an oversized one never. |
| `ServerLoop.AcceptedInOrder` | server/src/main.rs:43-91 | Payloads framed earlier are spawned earlier. |
| `ServerLoop.ServesWhatWasFramed` | server/src/main.rs:43-91 | From the client's framed requests, with any incomplete frame at the end, the server gets exactly the acceptable ones. |
| `RpcSystem.LinkStep` | server/src/main.rs:80-88 | Every step of the byte link keeps each byte of each started frame in exactly one place and in order. |
| `RpcSystem.LinkTakesLock` | server/src/watcher.rs:229-234 | Taking the writer lock, for a reply or a notification, starts a frame behind all frames before it. |
| `RpcSystem.LinkDeliversPrefix` | server/src/main.rs:77-90 | Dispatched payloads are a prefix of those that took the lock; with no byte on its way they are all of them if and only if no whole frame waits in the buffer. |
| `RpcSystem.StepKeepsInv` | lisp/tramp-rpc.el:1286-1357 | Every event keeps the invariant of link, server tasks and call tables. |
| `RpcSystem.StepOfDispatch` | lisp/tramp-rpc.el:1305-1321 | Routing one frame keeps callbacks and pending table consistent with what has been answered. |
| `RpcSystem.DispatchesFollowLockOrder` | server/src/main.rs:77-90 | For all interleavings of tasks and watcher, all chunkings, all nestings of the filter and all quits: the dispatched messages are a prefix of the frames in lock order, none lost, doubled, merged or torn; with no byte on its way, all of them if and only if no whole frame waits in the buffer. |
| `RpcSystem.NothingWaitsWithoutQuit` | lisp/tramp-rpc.el:1301-1321 | If no callback is left by a quit, no whole frame waits once no filter is active. |
| `RpcSystem.QuitLeavesFrameWaiting` | lisp/tramp-rpc.el:1417-1428 | A run in which a quit leaves a whole frame undispatched. |
| `RpcSystem.CallbacksGetTheirOwnAnswer` | lisp/tramp-rpc.el:1312-1318 | A callback fires at most once, with the answer the server computed for its own request. |
| `RpcSystem.CallersGetTheirOwnAnswer` | lisp/tramp-rpc.el:1350-1357 | A synchronous call returns only its own answer, and one that timed out returns none. |
| `RpcSystem.LateAnswerStaysUnclaimed` | lisp/tramp-rpc.el:1426-1437 | Over every further run, the late answer to a timed-out call is never given to any call and stays under its id. |
| `RpcSystem.NextDispatchIsNew` | lisp/tramp-rpc.el:1312-1321 | A frame about to be dispatched answers no request that has been answered before. |
| `RpcSystem.QuietMeansDelivered` | server/src/main.rs:76-90 | Once nothing is under way and no whole frame waits, every computed answer has reached its callback or caller, or waits for it in the pending table. |
| `RpcSystem.ReadRequestIsAnswered` | server/src/main.rs:76-90 | A request that has been read gets a task, which can answer it with any payload that fits. |
| `RpcSystem.AnswerReachesCaller` | server/src/main.rs:72-90 | From every reachable state, a request the server accepts can be answered with any payload that fits, and that answer fires its own callback or is returned by its own caller. |
| `RpcSystem.NewCallGetsAnswer` | lisp/tramp-rpc.el:1323-1337 | In every reachable state a new call can be made under a new id, and can get any answer that fits. |
| `RpcSystem.CallCanEndIff` | server/src/main.rs:49-64 | A call that has not been given up can still get its answer if and only if its request has at most 100 MiB. |
| `RpcSystem.LateAnswerCanCome` | lisp/tramp-rpc.el:1385-1437 | From every reachable state, a waiting caller can give up, and its answer can come later and lie in the pending table. |
| `RpcSystem.CanComeToRest` | server/src/main.rs:77-90 | From every reachable state, the transport can come to rest with everything dispatched. |
| `RpcSystem.RouteIsDispatch` | lisp/tramp-rpc.el:1305-1321 | Routing a frame in the filter changes the tables as the event of the step system does, and fires the same callback. |
| `RpcSystem.FindIsTake` | lisp/tramp-rpc.el:1350-1357 | A waiting caller finds its reply if and only if the event of the step system is possible, with the same result and tables. |
| `RpcSystem.CallIsIssue` | lisp/tramp-rpc.el:1323-1337 | Starting a call changes id counter and callbacks as the event of the step system does; giving up changes no table. |
| `WriteQueue.EnqueueKeepsOrder` | lisp/tramp-rpc-process.el:113-128 | A new string goes behind the others, and is sent at once exactly when the queue was idle. |
| `WriteQueue.AcknowledgeKeepsOrder` | lisp/tramp-rpc-process.el:150-158 | A reply releases the next pending string, if any, and the queue is writing again exactly if it did. |
| `WriteQueue.WriteQueues.constructor` | lisp/tramp-rpc-process.el:81-83 | Initially no process has a queue and nothing was sent. |
| `WriteQueue.WriteQueues.WriteRemoteProcess` | lisp/tramp-rpc-process.el:113-128 | Only the queue of this process changes, as a queue of strings with one write in flight must. |
| `WriteQueue.WriteQueues.ProcessWriteQueue` | lisp/tramp-rpc-process.el:130-158 | The first pending string is sent and the queue is marked as writing; without one nothing happens. |
| `WriteQueue.WriteQueues.WriteAnswered` | lisp/tramp-rpc-process.el:150-158 | The reply, also an error, ends the write and sends the next string. |
| `WriteQueue.WriteQueues.ForgetQueue` | lisp/tramp-rpc-process.el:355-357 | Exit handling removes this queue and no other. |
| `WriteQueue.WriteQueues.EventLoopTurn` | lisp/tramp-rpc-process.el:171-172 | While waiting, replies, writes and exits of any process may be handled; queues stay consistent and sends are only added. |
| `WriteQueue.WriteQueues.DrainWriteQueue` | lisp/tramp-rpc-process.el:160-172 | The drain ends, and then the queue is idle or gone, or the deadline has passed. |
| `ProcessInput.StepKeepsInv` | lisp/tramp-rpc-process.el:113-186 | Every event keeps writes serial, the child's input in order, and the drain's guarantee. |
| `ProcessInput.ContributionsInOrder` | server/src/handlers/process.rs:217-226 | If nothing follows the first incomplete request, the pipe holds whole strings and part of one. |
| `ProcessInput.ChildReadsStringsInOrder` | lisp/tramp-rpc-process.el:113-158 | Over every run at most one write is in flight, and the child's input is an initial segment of the strings followed by part of the next. |
| `ProcessInput.DrainedCloseIsLossless` | lisp/tramp-rpc-process.el:174-186 | After a drain that found the queue idle, every string written before is in the child's input when close_stdin is sent. |
| `ProcessInput.IdleCloseIsComplete` | lisp/tramp-rpc-process.el:160-186 | The drain ends by itself if and only if all strings have been sent and acknowledged; then the child's input is all of them, and close_stdin counts them all. |
| `ProcessInput.EarlyCloseLosesUnstarted` | server/src/handlers/process.rs:362-371 | If close_stdin gets the lock as early as it can, the strings not begun by then are missing from the child's input, byte for byte. |
| `ProcessInput.CloseIsLosslessIffAllStarted` | lisp/tramp-rpc-process.el:174-186 | Sending close_stdin loses nothing under any schedule if and only if the server has begun all non-empty strings, which an idle queue implies. |
| `ProcessInput.DeadlineLosesWrite` | server/src/handlers/process.rs:217-230 | A run in which closing without a finished drain overtakes a write, whose reply reports success. |
| `ProcessInput.ForgettingIsSafeIffNoneInFlight` | lisp/tramp-rpc-process.el:353-357 | Dropping the queue keeps writes serial in all further runs if and only if no write was in flight. |
| `ProcessInput.DroppedBlocksQueue` | server/src/main.rs:51-64 | After a write request too large for the server, in all further runs no string of the process is sent, the child gets no byte, and no drain finds the queue idle. |
| `ProcessInput.QueueMovesOnIff` | lisp/tramp-rpc-process.el:140-158 | Further strings can be sent if and only if no request of the process was too large. |
| `ProcessInput.LargeWriteIsDropped` | server/src/main.rs:51-64 | Every string above 100 MiB has a run in which its request is skipped, and no smaller payload ever is. |
| `ReadLoop.LocalProcess.constructor` | lisp/tramp-rpc-process.el:198-216 | A started process is tracked, alive, and has one read outstanding. |
| `ReadLoop.LocalProcess.StartAsyncRead` | lisp/tramp-rpc-process.el:198-216 | Sends a read only for a live, tracked process. |
| `ReadLoop.LocalProcess.DeliverProcessOutput` | lisp/tramp-rpc-process.el:218-246 | Output goes to the relay of a live process; errors go to their own relay if the process has one and it runs at this moment, and behind the output otherwise. |
| `ReadLoop.LocalProcess.HandleAsyncReadResponse` | lisp/tramp-rpc-process.el:288-339 | Without exit, delivery and next read are deferred in this order; with exit, delivery and exit handling happen at once; undecodable output ends the loop. |
| `ReadLoop.LocalProcess.HandleProcessExit` | lisp/tramp-rpc-process.el:341-379 | The exit code is stored and EOF is sent before the process stops counting as live. |
| `ReadLoop.LocalProcess.RunNextTimer` | lisp/tramp-rpc-process.el:319-339 | The oldest deferred action is executed and removed. |
| `ProcessOutput.StepKeepsInv` | lisp/tramp-rpc-process.el:288-379 | Every event keeps the loop single, the chunks in order, EOF last, and the bytes accounted for. |
| `ProcessOutput.EventsAreTheClientsActions` | lisp/tramp-rpc-process.el:319-339 | The step system acts as the client does, and each read the client sends is one task on the server. |
| `ProcessOutput.OneReadOutstanding` | lisp/tramp-rpc-process.el:198-216 | At most one read is outstanding, and none while output waits in a timer. |
| `ProcessOutput.RelayKeepsOrder` | lisp/tramp-rpc-process.el:218-246 | Chunks arrive in order and without repetition; each stream by itself while the error relay runs, mixed afterwards; the main relay holds output alone if and only if no errors came after that relay had gone. |
| `ProcessOutput.MixedChunk` | lisp/tramp-rpc-process.el:228-246 | In a mixed chunk the errors come behind the output. |
| `ProcessOutput.ErrorsCanJoinOutput` | lisp/tramp-rpc-process.el:235-246 | A run in which errors end up behind the output of a process that was started with a relay for them. |
| `ProcessOutput.EofComesLast` | lisp/tramp-rpc-process.el:312-335 | When the relay has its EOF, everything read has been delivered and the exit code is the child's. |
| `ProcessOutput.CaptureIsCompleteIff` | server/src/handlers/process.rs:262-279 | At the EOF the output is complete if and only if the last read left nothing in the pipe and nothing was written after it. |
| `ProcessOutput.EofCanComeIffInMap` | server/src/handlers/process.rs:376-416 | The read loop can still end if and only if the process is in the server's map, from which SIGKILL removes it. |
| `ProcessOutput.KillLeavesLoopRunning` | server/src/handlers/process.rs:413-416 | A run in which the loop goes on without its process in the map. |
| `ProcessOutput.KilledLoopReadsForEver` | server/src/handlers/process.rs:251-255 | Without its process in the map, a loop can send any number of further reads. |
| `ProcessOutput.UndecodableOutputEndsLoop` | lisp/tramp-rpc-process.el:336-339 | Output that does not decode ends the loop with exit code -1 and without delivery. |
| `ProcessOutput.RunKeepsAbandoned` | lisp/tramp-rpc-process.el:198-216 | In all runs, a dead relay gets nothing more, and once the relay is dead or forgotten no read is sent and no EOF comes. |
| `ProcessOutput.NothingAfterEof` | lisp/tramp-rpc-process.el:341-379 | After EOF nothing more reaches the relay in any run. |
| `ProcessOutput.EverythingReadIsDelivered` | lisp/tramp-rpc-process.el:312-335 | Unless the relay dies, is forgotten, or output does not decode, every chunk any read returned is delivered before EOF. |
| `ProcessOutput.ExitCanBeReportedEarly` | server/src/handlers/process.rs:262-274 | A run whose last read reports the exit with output still in the pipe, which is then never delivered. |
| `ProcessTable.ProcessTable.constructor` | server/src/handlers/process.rs:28-38 | The table starts empty, and pids at 1. |
| `ProcessTable.ProcessTable.Start` | server/src/handlers/process.rs:138-194 | The new process gets a pid that was never used before, and no other entry changes; a command that cannot be started uses up no pid. |
| `ProcessTable.ProcessTable.Write` | server/src/handlers/process.rs:197-231 | All the data goes to an open stdin, or a front part of it and the reply is an error; an unknown pid is an error, a closed stdin reports success and changes nothing. |
| `ProcessTable.ProcessTable.CloseStdin` | server/src/handlers/process.rs:346-374 | Closes the stdin of this process only. |
| `ProcessTable.ProcessTable.TryRead` | server/src/handlers/process.rs:320-343 | Returns a front part of the pipe within the limit, possibly nothing, and leaves the rest. |
| `ProcessTable.ProcessTable.Read` | server/src/handlers/process.rs:234-300 | What is returned leaves the two pipes at the front, up to the limit each, with the exit status. |
| `ProcessTable.WriteIsRun` | server/src/handlers/process.rs:217-226 | A reply to a write is possible if and only if the steps lock, pipe, and finish or fail end in it, with the same bytes in the pipe. |
| `ProcessTable.CloseIsStep` | server/src/handlers/process.rs:366-371 | Closing an open stdin is the step that takes the handle, and of a closed one no step. |
| `ProcessTable.ReadIsRun` | server/src/handlers/process.rs:250-300 | A reading is possible if and only if the steps find, fetch and check end in that reply, with the same bytes left in the pipes. |
| `FileTree.OverlayOnNothing` | server/src/handlers/io.rs:240-304 | Where nothing was, the overlay is an exact copy, and no conflict is possible. |
| `FileTree.OverlayTwice` | server/src/handlers/io.rs:240-304 | Copying the same source again changes nothing and, with overwrite, cannot fail. |
| `FileTree.SourceWins` | server/src/handlers/io.rs:274-286 | Every file and link of the source is found at its path in the overlay. |
| `FileTree.DestOnlyStays` | server/src/handlers/io.rs:260-301 | What lies behind a name the source directory lacks stays as it was. |
| `FileTree.PartwayPlaces` | server/src/handlers/io.rs:246-301 | After a failed copy every place holds what it held before or what the overlay has there, or is a directory on the way to it. |
| `FileTree.ConflictIffClashSomewhere` | server/src/handlers/io.rs:265-286 | A copy conflicts exactly if at some path a directory meets something else or, without overwrite, a link meets anything or a file meets a directory. |
| `FileTree.SizeOfSplit` | server/src/handlers/io.rs:257-286 | The total does not depend on the order in which entries are added up. |
| `FileTree.MkdirsChild` | server/src/handlers/io.rs:246-247 | In an existing directory, making a child directory fails exactly over something that is no directory. |
| `FileTree.AfterMkdirs` | server/src/handlers/io.rs:246-247 | Making a directory and its ancestors keeps its entries, and changes nothing that a later write to it would not. |
| `Copy.FileSystem.constructor` | server/src/handlers/io.rs:173-192 | The file system starts with the given tree. |
| `Copy.FileSystem.CreateDirAll` | server/src/handlers/io.rs:246-247 | On a path free of links: creates what is missing, or fails over an obstacle without changing anything. |
| `Copy.FileSystem.RemovePathForOverwrite` | server/src/handlers/io.rs:307-314 | Removes exactly the entry, with all below it if it is a directory. |
| `Copy.FileSystem.Symlink` | server/src/handlers/io.rs:274-280 | Creates the link, or fails over anything that exists. |
| `Copy.FileSystem.CopyFile` | server/src/handlers/io.rs:281-286 | On paths free of links: writes the source's content anew or over a file and returns its size, or fails over a directory. |
| `Copy.FileSystem.CopyEntry` | server/src/handlers/io.rs:260-286 | One entry of any kind becomes the overlay on what was there, or fails exactly on a conflict, part of the way to it. |
| `Copy.FileSystem.CopyDirRecursive` | server/src/handlers/io.rs:240-304 | In any order of enumeration: succeeds exactly without conflict, leaves the overlay, returns the size of the source's files, and changes neither the source nor anything else; a failed copy has come part of the way, entry by entry. |
| `Copy.FileSystem.Copy` | server/src/handlers/io.rs:173-237 | The handler, with links on both paths followed: into an existing directory it copies under the source's name; a missing source is an error; a single file replaces a file, or what a link points to, and fails over a directory or without a parent. |
| `Copy.PlacedByName` | server/src/handlers/io.rs:193-198 | Into an existing directory the copy goes under the last component of the source's path, and otherwise to the path given. |
| `Copy.PlacedThroughLink` | server/src/handlers/io.rs:206-216 | Over a link that leads to no directory, a file is written where opening the link leads, and a directory where the link points. |
| `Copy.DirectIffNothingInTheWay` | server/src/handlers/io.rs:246-286 | The assumption on links inside the destination, path by path: none where the source has a directory or, without overwrite, a file. |
| `Copy.LinkFreeIffNoLinkOnTheWay` | server/src/handlers/io.rs:246-247 | A path is free of links if and only if none of its front parts names one. |
| `Cache.Cache.constructor` | lisp/tramp-rpc-magit.el:53-65 | The cache starts empty, with a time to live of 300 s and a limit of 10000 entries unless given. |
| `Cache.Cache.Get` | lisp/tramp-rpc-magit.el:67-77 | A hit is the value stored last under the key, still fresh and not invalidated since; only an evicted or expired entry is missed. |
| `Cache.Cache.Put` | lisp/tramp-rpc-magit.el:79-85 | The entry goes in after a full cache has lost its oldest quarter, and the plain map records it. |
| `Cache.Cache.Collect` | lisp/tramp-rpc-magit.el:89-93 | Lists every key once with its time, in an unspecified order. |
| `Cache.Cache.RemoveFirst` | lisp/tramp-rpc-magit.el:96-101 | Removes exactly as many entries as asked, those listed first. |
| `Cache.Cache.Evict` | lisp/tramp-rpc-magit.el:87-101 | Removes exactly a quarter, rounded down, and keeps no entry older than a removed one. |
| `Cache.Cache.Remove` | lisp/tramp-rpc-magit.el:103-112 | Removes one key from cache and plain map. |
| `Cache.Cache.InvalidatePath` | lisp/tramp-rpc-magit.el:103-112 | Drops the entries of the name and of its directory part, and no others. |
| `Cache.DirectoryPart` | lisp/tramp-rpc-magit.el:109-112 | The name up to and including its last slash, if it has one. |
| `Cache.ParentIsInvalidatedIffSlashed` | lisp/tramp-rpc-magit.el:103-112 | The parent directory's entry is dropped if and only if it is stored with a slash at its end and the invalidated name has none at its own; so is the entry of the name without that slash. |
| `Cache.EveryNameSplits` | lisp/tramp-rpc-magit.el:106-110 | Every name with a slash in it has the form for which that is stated. |
| `Cache.SortSorts` | lisp/tramp-rpc-magit.el:94-95 | Sorting by time puts the oldest first and keeps exactly the entries. |
| `Cache.FrontQuarterIsOldest` | lisp/tramp-rpc-magit.el:94-101 | Dropping the front quarter of the sorted list is evicting the oldest quarter. |
| `Cache.LimitHoldsIffAtLeastFour` | lisp/tramp-rpc-magit.el:79-101 | The number of entries stays within the limit over every run if and only if the limit is at least 4. |
| `Cache.RunIsBounded` | lisp/tramp-rpc-magit.el:79-101 | In every run, the number of entries never exceeds the larger of the limit and 4. |
| `GitKeys.SplitOfJoin` | lisp/tramp-rpc-magit.el:302-305 | Cutting a key at separators gives the pieces of the arguments in order. |
| `GitKeys.JoinOfSplit` | lisp/tramp-rpc-magit.el:302-305 | Joining the pieces of a string gives the string back. |
| `GitKeys.SameKeyIffSamePieces` | lisp/tramp-rpc-magit.el:302-305 | Two commands share a key if and only if their arguments, cut at separators, give the same pieces. |
| `GitKeys.PlainKeysAreInjective` | lisp/tramp-rpc-magit.el:302-305 | Without separators in the arguments, the key determines the command. |
| `GitKeys.SeparatorsCollide` | lisp/tramp-rpc-magit.el:302-305 | With a separator in an argument, two different commands share a key. |
| `GitKeys.StripGitPrefixArgs` | lisp/tramp-rpc-magit.el:423-446 | Terminates with a suffix of the arguments that does not begin with a flag. |
| `GitKeys.StripNormalizes` | lisp/tramp-rpc-magit.el:423-446 | Whatever complete flags come before a core command, that command is left. |
| `GitKeys.StripByWord` | lisp/tramp-rpc-magit.el:427-437 | A flag that begins with one of the four words is taken alone. |
| `GitKeys.StripSetting` | lisp/tramp-rpc-magit.el:438-445 | -c and -C are taken with the argument behind them, if there is one. |
| `GitKeys.StripNothingElse` | lisp/tramp-rpc-magit.el:427-446 | Any other argument ends the stripping. |
| `GitKeys.StripTakesOnlyFlags` | lisp/tramp-rpc-magit.el:423-446 | Only flags and their values are taken, and stripping again takes nothing. |
| `GitKeys.BuildCache` | lisp/tramp-rpc-magit.el:493-514 | Results are stored under their keys, later ones over earlier ones, state files apart. |
| `GitKeys.OnlyGitIsServed` | lisp/tramp-rpc-magit.el:453-456 | Programs named git, or whose path ends in /git, are served alike, and no others. |
| `GitKeys.HitIsSameCommand` | lisp/tramp-rpc-magit.el:448-465 | Whatever flags precede it, a lookup gives the latest stored result of the command made of the pieces of its arguments, which for separator-free arguments is the same core command; nothing for other programs. |
| `GitKeys.HitIsRightIffNoSettings` | lisp/tramp-rpc-magit.el:423-465 | The hit for a prefetched command is git's answer to the whole call, whatever that is, if and only if none of the stripped flags takes a value. |
| `Debounce.StepKeepsInv` | server/src/watcher.rs:168-208 | Every event keeps windows apart, their paths complete, and the events accounted for. |
| `Debounce.EachEventInOneWindow` | server/src/watcher.rs:168-208 | Every accepted event is in exactly one window or still in the channel, in order, or was queued when a failed write ended the task. |
| `Debounce.WindowsNotifyTheirPaths` | server/src/watcher.rs:176-206 | A window that is over was answered by one notification with exactly its events' paths, or by none if there were none; windows begin at least 200 ms apart. |
| `Debounce.DropsIffFullOrStopped` | server/src/watcher.rs:64-83 | A mutation is dropped if and only if 10,000 events are queued or a failed write has ended the task; other events are ignored. |
| `Debounce.NothingAcceptedIsForgotten` | server/src/watcher.rs:168-208 | An accepted event is notified, in the last window, or queued; or it was queued when the task stopped. |
| `Debounce.AllCanBeNotified` | server/src/watcher.rs:168-208 | As long as the task runs, it can come to a state in which every accepted event is in a window that has been answered as it should. |
| `Debounce.StopNeedsCause` | server/src/watcher.rs:171-206 | The task stops only after a failed write or because the channel was closed. |
| `Debounce.StoppedStaysStopped` | server/src/watcher.rs:202-208 | Once the task has stopped, no window is answered and no event accepted any more. |
| `Debounce.StopKeepsWindowIff` | server/src/watcher.rs:197-206 | When the task stops, its last window has the answer it should have, in all further runs, if and only if it was over or had no paths. |
| `Debounce.ClosingLosesTheWindow` | server/src/watcher.rs:197-199 | A run in which the channel closes inside a window and its paths are never sent. |
| `Debounce.FailedWriteLosesTheWindow` | server/src/watcher.rs:202-206 | A run in which a failed write loses its window, and then every event with the channel empty. |
| `Debounce.InsertAll` | server/src/watcher.rs:176-179 | Adds exactly the event's paths to the set. |
| `Debounce.PathsAreNamed` | server/src/watcher.rs:176-179 | The paths of events are exactly those that some event names. |
| `Debounce.DebounceLoop` | server/src/watcher.rs:168-208 | The nested loops send one notification per finished window that has paths, in order, until a write fails. |
| `Debounce.WindowCollects` | server/src/watcher.rs:181-201 | A window collects the paths of all events up to its deadline, and leaves the later ones. |
| `Debounce.NotificationsCoverAllEvents` | server/src/watcher.rs:168-208 | If no write fails, the notifications together name exactly the paths of all events when the last window is over. |
| `Debounce.RunsFollowTheLoop` | server/src/watcher.rs:168-208 | In every run of the step system, exactly those notifications are sent that the loop sends for the same waits and writes. |
| `Ancestors.Present` | server/src/handlers/commands.rs:239-243 | The markers that exist in the directory, and only those. |
| `Ancestors.DominatingIsUnique` | server/src/handlers/commands.rs:232-263 | The specification of the walk has exactly one outcome. |
| `Ancestors.DominatingMeans` | server/src/handlers/commands.rs:232-263 | Found: the markers are exactly those present, and no directory below has any. Too deep: exactly if more than 100 levels are below the root and the first 101 directories have none. Not found: exactly if none up to the root has any. |
| `Ancestors.FindDominatingDir` | server/src/handlers/commands.rs:232-263 | Finds the nearest ancestor-or-self with a marker and exactly its markers; an error exactly if the first 101 directories hold none and a parent remains; nothing exactly if the root is reached before. |
| `Ancestors.AncestorsScan` | server/src/handlers/commands.rs:133-204 | For every marker the nearest directory within the depth that holds it, or none, despite ending early; an error exactly for a missing directory. |
| `Ancestors.NearestHitMeans` | server/src/handlers/commands.rs:166-190 | The hit is the directory d levels up if and only if d is within the depth, the marker is there, and in no directory below. |
| `Ancestors.CheckMarkers` | server/src/handlers/commands.rs:166-175 | One directory's round extends every marker's nearest hit by one level. |
| `Ancestors.SearchesAgree` | server/src/handlers/commands.rs:133-263 | On one marker and within both limits, walk and scan find the same directory. |
| `Ancestors.FindExistingStart` | server/src/handlers/commands.rs:210-220 | The nearest ancestor-or-self that exists, or none exactly if none does. |
| `Ancestors.StartsInDirectory` | server/src/handlers/commands.rs:210-228 | The search starts in the nearest existing ancestor-or-self if that is a directory, and else in its parent. |
| `Ancestors.MarkerPathsMean` | server/src/handlers/commands.rs:317-349 | The answer is an error exactly if the search was too deep, and otherwise one path for each marker found. |
| `Ancestors.LocateDominatingFileMulti` | server/src/handlers/commands.rs:317-349 | Marker paths of the nearest marked ancestor of the file's existing part, none without a start, an error only from the depth limit. |
| `Ancestors.RemapToLexicalAncestor` | server/src/handlers/commands.rs:265-277 | The nearest lexical ancestor that is the same directory as the one found, never above it; the one found itself only if no ancestor is. |
| `StopFilter.BeforeStop` | lisp/tramp-rpc.el:1883-1916 | Accepts exactly if the target is an ancestor-or-self of the search directory and no directory on the way, the target excluded, matches; always without a pattern. |
| `StopFilter.AcceptanceComposes` | lisp/tramp-rpc.el:1901-1916 | The way to a target is free exactly if the ways to and from any directory between are. |
| `Batch.BatchEqualsPipelinedIff` | server/src/handlers/mod.rs:202-256 | Batch and pipelined calls give the same results and error codes and messages if and only if no request is itself a batch. |
| `Batch.EachRequestGetsItsAnswer` | server/src/handlers/mod.rs:260-337 | Element i of both lists is fixed by the handler of request i on its own parameters: the value, the code and message of its error, or that the method is unknown. |
| `Batch.BatchIsNoMethodOfItself` | server/src/handlers/mod.rs:323-324 | A batch inside a batch is an unknown method. |
| `Batch.ReceiveResponses` | lisp/tramp-rpc.el:1573-1625 | Replies come out in the order of the ids under any order of arrival, absent exactly if they did not arrive in time. |
| `Batch.SendRequests` | lisp/tramp-rpc.el:1555-1571 | Requests get consecutive ids in their order. |
| `Batch.CallPipelined` | lisp/tramp-rpc.el:1627-1646 | Result i is the outcome of request i, under any order of arrival and with foreign replies in between. |

## Left out

- MessagePack, zlib and UTF-8: payloads are byte strings, and an arbitrary function unpacks them. That output may fail to decode is an event.
- SSH, deployment, sudo and passwords; PTYs, terminals and window sizes; stat, chown, times and permissions; direnv, ACL and advice glue.
- Requests that do not parse get an error reply without an id; in `RpcSystem` all requests are well formed.
- RpcSystem.AnswerReachesCaller: is about what can happen, not about what must: that tasks are scheduled and bytes flow is the system's affair.
- Several Emacs threads: process locking and the non-essential early exits of the wait loops.
- Time-outs by the wall clock: deadlines are events that may happen at any moment.
- Cache.Cache.Get: does not model `expand-file-name`; keys are already expanded names.
- ProcessTable.ProcessTable.Start: does not model the wrap of the pid counter after 2^32 starts. Listing and status are left out, and killing is an event of `ProcessOutput`.
- Copy.FileSystem.Copy: does not model permissions, times, special files, or a total above 2^64.
- Copy.FileSystem.CreateDirAll: takes a path whose links have been resolved.
- Copy.FileSystem.CopyFile: takes paths whose links have been resolved; in the recursion none may stand at the destination.
- Copy.FileSystem.CopyDirRecursive: does not say which entries a failed copy has reached, because that depends on the order of enumeration.
- Ancestors.LocateDominatingFileMulti: paths are lists of components, so that relative and empty paths are not told apart from absolute ones.
- Debounce.DropsIffFullOrStopped: one watcher thread; capacity counts queued events.
- `watch.add`, `watch.remove` and the watched-path table; `highlevel.dir_locals_find_file_cache_update` beyond the remapping of its directory; `commands.run_parallel`: maps and single calls that would only add easy members.
