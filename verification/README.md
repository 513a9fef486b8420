# A model of the two-process RPC library

Two processes talk through a pair of pipes. A client numbers a call, registers a callback, prints the
call into a length-prefixed frame and writes it; a server instance reads one frame at a time, runs the
function named in it and writes a reply frame; the client finds the callback by the number in the
reply. This project models that path in Dafny, from the bytes of a value to every interleaving of the
threads, and proves what the library relies on.

The modules, bottom up:

- `Wire`, `Values`, `Messages`, `MessageObjects`, `Frames`: little-endian words, tagged values, the two
  messages, the objects that print and parse them in place at any offset, and the outer frame. A
  position-based parser is the reference; printers and parsers are proved to be inverse to each other in
  both directions, with the exact condition where a length field is too narrow.
- `WireFormat`: the bytes of values, messages and frames, spelled out.
- `AsyncOps`, `Waitables`, `FifoSocket`: the re-armable operation (with callbacks that arm it again from
  inside), the index table of a wait for several objects, and the chunked transfer through a FIFO.
- `Dispatch`, `FrameReader`: what a dispatch can answer and what a client makes of the answer; the
  header read and the body read that take turns on one operation and one buffer.
- `WinServer`, `WinServerInstance`, `WinClient`, `WinClientInstance`: the Windows workers, once as
  functions on states and once as objects whose methods are proved to take exactly those steps.
- `WinPipeline`, `WinPipelineSafety`, `WinPipelineRuns`, `WinDelivery`, `WinProgress`: any number of calling threads, with
  and without callbacks, the client worker, both pipes and the server worker at every interleaving; the
  inductive invariant; the theorems about all reachable states; the refinement of a one-at-a-time RPC;
  what each caller gets for what it asked; progress while the connection is up.
- `MacServer`, `MacServerInstance`, `MacShutdown`: the macOS server instance with two workers, two
  semaphores and a queue; its whole life including destruction, with the exact condition under which
  both workers end.
- `MacSystem`, `MacClientInstance`, `MacSystemSafety`, `MacSystemRuns`, `MacProgress`, `MacDeadlock`, `MacJam`:
  any number of macOS client threads that share a semaphore and a buffer, together with the server;
  mutual exclusion, own results, exactly-once dispatch, and freedom from deadlock by a ranking; and the
  one way to a deadlock there is.

Three places where the code does not do what one would expect, all modelled as the code has them:

- The read loop of `socket_osx::read` ends with a body only if the framed length L is below 8192 or L mod
  8192 is neither 0 nor 8184. Otherwise it goes on to take what is written next, and stores it behind the
  end of its buffer (`FifoSocket.ReadBody`). Between a client and its server nothing is written next, so a
  call comes to its end only if the frames of the call and of the reply both have such a length:
  `MacDeadlock.EachOnce` shows that every finished call has them, `MacDeadlock.CallEnds` that no other call
  stops, and `MacJam.Deadlocks` runs into a call that does. When something else is written, another
  client's frame or the byte of the destructor, the call behind is swallowed whole and its own frame is
  never parsed; `MacShutdown.WritesExact` says which calls are parsed, which are swallowed, and exactly
  when bytes land behind the buffer; `MacJam.Overruns` reaches such a state. From there on the language
  promises nothing, and the model goes on as if those bytes hit nothing.
- The destructor of the macOS server instance wakes its workers only for some positions of the token.
  `MacShutdown.ShutdownExact` gives the condition, `MacShutdown.Stranded` a reachable state outside it.
- `wait_any` reports the wrong index, and calls the wrong object's callback or none, when a null pointer
  stands in front of the object that woke it (`Waitables.ReportedIndex`, `Waitables.WrongIndex`). The
  server's array never has one there (`Waitables.ReadWritePair`).

Conventions:

- A 64-bit little-endian machine: `size_t` has eight bytes and its differences wrap (`Wire.Sub64`);
  `unsigned` fields wrap at 2^32. Floats are their raw bits. A value means its tag and active payload; the
  objects also keep the inactive members, with the bytes the code leaves in them.
- `abort()`, a thrown exception and an access outside a buffer are three different outcomes
  (`Wire.Outcome`). A class object is the C++ object; buffers are arrays; a vector that is resized becomes
  a new array.
- Lengths of strings, blobs and frame bodies and counts of lists stay below 2^32 where whole pipelines are
  concerned (`Frames.Sendable`); the codec laws say what happens without that. Fewer than 2^64 calls.
- A write puts its bytes into the pipe in one step. On Windows a read completes with the number of bytes
  it asked for.
- On macOS one read of the system takes bytes of the oldest write only. A frame above 8192 bytes is several
  writes, so this excludes reads that an ordinary large call can meet: with more than one of its pieces in
  the pipe, a system read of the body's length would return several at once, and the sizes that decide
  when the loop ends would differ. `MacServer` and `MacSystem` treat all pieces of a write call as one
  element of the pipe; `FifoSocket.EndOfFrame` and `FifoSocket.EndOfCall` show that the loop over the
  pieces ends or goes on at the same points.
- Handlers end, and return values whose reply fits a frame; callbacks do not call the client again.
- In the state machines the step from one semaphore, pipe, queue or registry operation to the next is
  atomic. Histories (`written`, `handled`, `fired`, `holder` and others) never influence a step.

## Model

| member | source | states |
|---|---|---|
| Values.Value.Size | source/ipc-value.cpp:67-99 | the size is the length of what the value's meaning is printed as |
| Values.Value.Serialize | source/ipc-value.cpp:101-160 | puts the print of the value's meaning at any offset, touches no other byte and returns its length; without room it fails and leaves the buffer alone |
| Values.Value.Emit | source/ipc-value.cpp:108-160 | behind the room check the buffer differs only in the printed range, whatever the tag |
| Values.Value.Deserialize | source/ipc-value.cpp:162-235 | accepts, aborts and advances as the reference parser does; the object then means what was parsed, in bounds, and inactive members are as they were |
| Values.AssignMeaning | source/ipc-value.cpp:168-232 | a parse makes the object mean the parsed value, whatever the object held before |
| Values.ParseEncode | source/ipc-value.cpp:101-235 | print then parse gives the value and its size back at every position, exactly when the payload's length fits its field |
| Values.EncodeParse | source/ipc-value.cpp:101-235 | parse then print gives back exactly the consumed bytes, unknown tags included |
| Values.ParsesExactly | source/ipc-value.cpp:162-235 | inside the buffer a parse accepts exactly the bytes that some value prints |
| Values.ParsesBeyond | source/ipc-value.cpp:164-168 | beyond the end of the buffer the room check wraps, and all but three positions are read from outside |
| Values.PrefixFree | source/ipc-value.cpp:67-160 | no encoding of a value is a proper prefix of another one |
| Messages.ParseEncodeAll | source/ipc.cpp:184-187 | a list of values is parsed back from its concatenated encodings and its count |
| Messages.EncodeParseAll | source/ipc.cpp:184-187 | what a list parse consumed is what the list prints as |
| Messages.UniqueDecoding | source/ipc.cpp:156-158 | two lists of one length with equal concatenations, whatever follows, are equal |
| Messages.ParseEncodeMsg | source/ipc.cpp:138-190 | print then parse of a message gives the message and size() back, with any bytes around it, exactly when every length and the count fit their fields |
| Messages.EncodeParseContent | source/ipc.cpp:163-190 | behind the size field, parse then print gives back the consumed bytes |
| Messages.EncodeParseMsg | source/ipc.cpp:227-251 | the whole message is printed back as consumed exactly when the declared size is the number of bytes consumed |
| Messages.ParsesExactly | source/ipc.cpp:163-190 | a message is accepted exactly if it has a size field, what it declares is there, and the content of some message follows; it is refused as too small exactly without these |
| Messages.CountUnchecked | source/ipc.cpp:182-183 | the count of the list is read without a check: the buffer is left exactly if fewer than four bytes follow the leading values |
| MessageObjects.SizeAll | source/ipc.cpp:131-133 | the accumulated sizes are the length of the concatenated encodings |
| MessageObjects.SerializeAll | source/ipc.cpp:156-158 | the loop appends the concatenated encodings and changes nothing else |
| MessageObjects.DeserializeAll | source/ipc.cpp:185-187 | the loop parses the list in place as the reference parser does, or ends where that ends |
| MessageObjects.Resize | source/ipc.cpp:184 | resizing keeps the first elements and fills up with fresh values |
| MessageObjects.FunctionCall.Size | source/ipc.cpp:127-136 | the size of a call is the length of its encoding |
| MessageObjects.FunctionCall.Serialize | source/ipc.cpp:138-161 | a call overwrites exactly the next size() bytes with its encoding, or throws and writes nothing |
| MessageObjects.FunctionCall.Deserialize | source/ipc.cpp:163-190 | a call is parsed, or aborts, or leaves the buffer, as the reference parser says; the members and arguments then mean what was parsed |
| MessageObjects.FunctionReply.Size | source/ipc.cpp:192-202 | the size of a reply is the length of its encoding |
| MessageObjects.FunctionReply.Serialize | source/ipc.cpp:204-225 | a reply overwrites exactly the next size() bytes with its encoding, or throws and writes nothing |
| MessageObjects.FunctionReply.Deserialize | source/ipc.cpp:227-251 | a reply is parsed, or throws, or aborts, as the reference parser says; with a fresh object the fields hold what was parsed |
| Frames.MakeSendable | include/ipc.hpp:64-67 | overwrites the four bytes of the announced length and nothing else |
| Frames.HeaderOfWrap | include/ipc.hpp:69-72 | a frame splits into header and body, and the header announces the body's length exactly when that is below 2^32 |
| Frames.FrameCall | source/windows/ipc-client-win.cpp:82-96 | sized, printed at offset 8 and announced, the buffer is the frame of the call |
| Frames.FrameReply | source/apple/ipc-server-instance-osx.cpp:104-106 | the same for a reply |
| Frames.ReadsOfFrames | source/windows/ipc-client-win.cpp:230-248 | alternating header and body reads over concatenated frames start each header read on a frame boundary and return the bodies in order |
| Frames.StreamRoundTrip | source/windows/ipc-client-win.cpp:230-264 | a stream of frames is decoded to the sequence of messages it was built from |
| WireFormat.Number32 | source/ipc-value.cpp:109-119 | 32-bit numbers have their low byte first |
| WireFormat.Number64 | source/ipc-value.cpp:124-131 | so have 64-bit numbers |
| WireFormat.MeaningFormat | source/ipc-value.cpp:111-158 | which type number has which active member and how many of its bytes |
| WireFormat.ValueFormat | source/ipc-value.cpp:101-160 | a value is its type in four bytes, for types 7 and 8 its length in four bytes, and its payload |
| WireFormat.ListFormat | source/ipc.cpp:156-158 | values are written one behind the other, in order |
| WireFormat.FrameFormat | include/ipc.hpp:64-67 | a frame is four zero bytes, the length of the body in four bytes, and the body |
| WireFormat.CallFormat | source/ipc.cpp:138-161 | a call is its size, the number as type 6, class and function as type 7, the argument count and the arguments, in this order |
| WireFormat.ReplyFormat | source/ipc.cpp:204-225 | the reply to a call that ran is its size, the call's number, an empty text, the value count and the values |
| WireFormat.RefusalFormat | source/windows/ipc-server-instance-win.cpp:171-176 | the reply to a refused call has the text and no values |
| AsyncOps.CallBackSound | source/windows/async_request.cpp:114-126 | a call of the callbacks, with any nested use of the same operation, keeps every arming at one call |
| AsyncOps.AtMostOnce | source/windows/async_request.cpp:83-126 | over every program of accepts, reads, writes, revocations, cancellations, completions at any time and waits, nested ones included, each arming calls its user callback at most once and the object its system callback at most once |
| AsyncOps.RearmedInside | source/windows/async_request.cpp:121-125 | a callback that arms its own operation again leaves a valid arming that counts as not called |
| AsyncOps.WaitFires | source/windows/async_request.cpp:121-125 | a wait that finds the event calls the callback of an arming that was not called, and any other wait calls nothing |
| AsyncOps.AcceptFires | source/windows/ipc-socket-win.cpp:271-280 | an accept that ends at once calls the user callback, and the system callback only the first time |
| AsyncOps.RejectedFires | source/windows/ipc-socket-win.cpp:304-306 | a rejected transfer calls its callback at once and stays invalid |
| AsyncOps.RejectedCancels | source/windows/ipc-socket-win.cpp:304-306 | the cancel() behind the callback of a rejected transfer hits the arming that callback made |
| AsyncOps.ArmedSilent | source/windows/ipc-socket-win.cpp:290-308 | a transfer or accept in flight has called nothing, and none can be issued on top of it |
| AsyncOps.AsyncRequest.SetCallback | source/async_op.cpp:21-30 | throws exactly on a valid incomplete operation and then changes nothing |
| AsyncOps.AsyncRequest.SetHandle | source/windows/async_request.cpp:28-33 | makes the operation invalid and uncalled, nothing else |
| AsyncOps.AsyncRequest.SetValid | source/windows/async_request.cpp:35-39 | sets validity and marks the arming uncalled, nothing else |
| AsyncOps.AsyncRequest.Invalidate | source/windows/async_request.cpp:68-72 | makes the operation invalid and called, nothing else |
| AsyncOps.AsyncRequest.CallCallback | source/windows/async_request.cpp:114-126 | which of the two callbacks run, each only if it is set and not called, with the flag set before the call |
| AsyncOps.AsyncRequest.Cancel | source/windows/async_request.cpp:83-93 | asks the system only about a valid incomplete operation, and changes no flag |
| AsyncOps.AsyncRequest.Wait | source/windows/async_request.cpp:95-126 | a successful wait runs the system callback if it is due, names the user callback to run only if this arming was not called, and marks both before the call |
| AsyncOps.StartTransfer | source/windows/ipc-socket-win.cpp:284-311 | a read or write makes or re-arms the caller's operation; when the system rejects it the callback is called at once on an invalid operation; disconnected or in flight it is untouched |
| Waitables.BuildTables | source/windows/waitable.cpp:69-80 | the handles are those of the non-null items in order; the table is indexed by the caller's index |
| Waitables.WaitAny | source/windows/waitable.cpp:61-111 | throws on a null or too long array; a handle that fired is reported at its true index exactly when no item up to it is null; the callbacks run are those of the item at the reported index, if that is an operation |
| Waitables.ReportedIndex | source/windows/waitable.cpp:91-92 | the reported index is the caller's index of the handle at compacted position k exactly when the first k+1 items are non-null |
| Waitables.WrongIndex | source/windows/waitable.cpp:73-80 | with a null pointer in front of the only object, its wake-up is reported at the null pointer's index |
| Waitables.ReadWritePair | source/windows/ipc-server-instance-win.cpp:90-101 | for the server's array, whose read operation is never null, the index is always right |
| Waitables.WaitPair | source/windows/ipc-server-instance-win.cpp:90-101 | for the server's two operations the one whose handle fired is reported and has its callbacks run |
| FifoSocket.Write | source/apple/ipc-socket-osx.cpp:117-158 | writes the chunks of the buffer in order and succeeds exactly if the pipe opens and every write is accepted |
| FifoSocket.ChunksConcat | source/apple/ipc-socket-osx.cpp:132-149 | the chunks concatenate to the frame |
| FifoSocket.ChunkSizes | source/apple/ipc-socket-osx.cpp:140-142 | all chunks but the last have 8192 bytes; their number and the size of the last |
| FifoSocket.RestSizes | source/apple/ipc-socket-osx.cpp:85-100 | behind the header every chunk but the last keeps the read loop going, and the last one does exactly when the framed length is not finishable |
| FifoSocket.ReadOn | source/apple/ipc-socket-osx.cpp:90-99 | the inner loop takes the writes in order, whoever wrote them, and stops only behind one that asks for no more |
| FifoSocket.ReadLoop | source/apple/ipc-socket-osx.cpp:85-100 | over any writes that single reads can return the loops end exactly if one of them asks for no more and enough reads find data; buffer and overrun then hold all that was taken |
| FifoSocket.EndOfFrame | source/apple/ipc-socket-osx.cpp:85-100 | the loop that begins with the rest of a frame ends behind it exactly if the framed length is finishable, and otherwise where a loop over the later writes would |
| FifoSocket.EndOfCall | source/apple/ipc-socket-osx.cpp:90-99 | a later write call is taken whole and ends the loop unless its last piece has 8184 or 8192 bytes |
| FifoSocket.ReadBody | source/apple/ipc-socket-osx.cpp:85-104 | if the body read ends, the buffer is the body, and bytes were stored behind its end exactly if the framed length is not finishable; they are then the later writes up to the first that asks for no more; a finishable body needs as many reads as it has chunks |
| Dispatch.Server.GetFunction | source/ipc-class.cpp:41-48 | finds the function whose name is the text in front of the first zero byte |
| Dispatch.Server.ClientCallFunction | source/ipc-server.cpp:263-289 | succeeds exactly if the function is registered in the class, then with the handler's values on these arguments; else no values and the text that names what is missing |
| Dispatch.UidRoundTrip | source/windows/ipc-client-win.cpp:268 | the uid a client looks up is the number the call was given |
| Dispatch.ViewOfVerdict | source/windows/ipc-client-win.cpp:274-282 | the reply's error is non-empty exactly when the dispatch refused; then and only then the callback sees one Null value with that text, else exactly the handler's values |
| Dispatch.ErrorView | source/windows/ipc-client-win.cpp:274-279 | a reply with a text is shown as one Null value with it, any other as its values |
| Dispatch.FrameAsks | source/windows/ipc-client-win.cpp:76-96 | a server that parses the frame of a call finds the caller's number, class, function and arguments in the call's fields |
| Dispatch.DueVerdict | source/ipc-server.cpp:266-288 | the verdict on a request shows its caller the named function's values on the caller's arguments, or the Null value with the notice |
| FrameReader.FillAligned | source/windows/ipc-server-instance-win.cpp:55-58 | filling the buffer of a header or body read keeps reader and stream on the frame boundaries |
| FrameReader.HeaderAligned | source/windows/ipc-server-instance-win.cpp:113-133 | a delivered header arms the read of exactly the announced body |
| FrameReader.BodyAligned | source/windows/ipc-server-instance-win.cpp:122-123 | the buffer of a delivered body is the next pending body |
| FrameReader.WrittenAligned | source/windows/ipc-client-win.cpp:96-97 | a frame written at the end disturbs no read in progress |
| WinServerInstance.MakeReply | source/windows/ipc-server-instance-win.cpp:171-176 | the reply object has the uid of the call, and values or text as the dispatch ended |
| WinServerInstance.Execute | source/windows/ipc-server-instance-win.cpp:158-176 | the parsed call's function is run on the parsed arguments, and the reply carries what it returned |
| WinServerInstance.Process | source/windows/ipc-server-instance-win.cpp:156-188 | parse, dispatch and print give the reply to the parsed call, with its own function's values on its own arguments |
| WinServerInstance.ServerInstanceWin.Issue | source/windows/ipc-server-instance-win.cpp:54-88 | one loop iteration up to the waits is the step of the state machine |
| WinServer.IssueEnds | source/windows/ipc-server-instance-win.cpp:54-81 | an iteration leaves the loop exactly if the server was stopped, the connection is gone, or a read or write that is due finds it gone |
| WinServer.IssueWrites | source/windows/ipc-server-instance-win.cpp:67-87 | a due reply leaves the queue at its front, is armed for writing, and tells the watchdog |
| WinServer.IssueReads | source/windows/ipc-server-instance-win.cpp:55-66 | otherwise an iteration arms at most the eight-byte header read |
| WinServer.FailedReads | source/windows/ipc-server-instance-win.cpp:117-154 | a failed header read only gives the operation up; a failed body read throws with the watchdog told |
| WinServerInstance.ServerInstanceWin.ReadCallbackInit | source/windows/ipc-server-instance-win.cpp:113-133 | gives up the header read and arms the body read on the same operation, unless the read failed, the size is zero or the pipe is gone |
| WinServerInstance.ServerInstanceWin.ReadCallbackMsg | source/windows/ipc-server-instance-win.cpp:135-189 | stamps the watchdog, runs the call and queues its reply, leaving the read operation valid; throws on a failed read and on a reply no vector can hold |
| WinServerInstance.ServerInstanceWin.ReadCallbackMsgWrite | source/windows/ipc-server-instance-win.cpp:191-198 | queues a non-empty buffer; an empty one gives up the read operation instead |
| WinServerInstance.ServerInstanceWin.WriteCallback | source/windows/ipc-server-instance-win.cpp:200-204 | gives up both operations |
| WinServerInstance.ServerInstanceWin.WaitRead | source/windows/ipc-server-instance-win.cpp:92-99 | a finished read, with or without an error, runs the callback of its arming, as the state machine says |
| WinServerInstance.ServerInstanceWin.WaitWrite | source/windows/ipc-server-instance-win.cpp:92-99 | the same for a finished write |
| WinClientInstance.ClientWin.Call | source/windows/ipc-client-win.cpp:58-116 | without a socket nothing; otherwise one new number, a frame whose fields a server reads as this number, class, function and arguments, and the callback registered; a failing call cancels its own number, or without a callback whatever number its caller holds |
| WinClientInstance.ClientWin.Cancel | source/windows/ipc-client-win.cpp:288-292 | the entry is gone, the others stay, and the result tells whether there was one |
| WinClientInstance.ClientWin.Issue | source/windows/ipc-client-win.cpp:181-192 | one loop iteration up to the wait is the step of the state machine |
| WinClientInstance.ClientWin.ReadCallbackInit | source/windows/ipc-client-win.cpp:230-250 | gives up the header read and arms the body read on the same operation, unless the read failed, the size is zero or the pipe is gone |
| WinClientInstance.ClientWin.ReadCallbackMsg | source/windows/ipc-client-win.cpp:252-286 | a reply to a pending number runs its callback once with the reply's view and forgets it; one to any other number changes nothing |
| WinClientInstance.ClientWin.WaitRead | source/windows/ipc-client-win.cpp:194-198 | a finished read, with or without an error, runs the callback of its arming, as the state machine says |
| WinClientInstance.ClientWin.Drain | source/windows/ipc-client-win.cpp:209-221 | calls every pending callback once with the loss text and empties the map |
| WinClientInstance.Decode | source/windows/ipc-client-win.cpp:257-279 | uid and values of a parsed reply are what the reference view says |
| WinClient.ReplyFires | source/windows/ipc-client-win.cpp:266-285 | a delivered reply to a pending call adds exactly one firing, with its number, its registered callback and the reply's view, and removes exactly that entry |
| WinClient.RegisterAdds | source/windows/ipc-client-win.cpp:90-94 | a registration adds exactly its entry |
| WinClient.CancelRemoves | source/windows/ipc-client-win.cpp:288-292 | a cancellation removes exactly its entry |
| WinClient.FailedReads | source/windows/ipc-client-win.cpp:230-264 | a failed header read is given up; a failed body read is handled as a successful one |
| WinClient.IssueEnds | source/windows/ipc-client-win.cpp:181-192 | an iteration leaves the loop exactly if a header read is due and the connection is gone; a due read is armed for eight bytes |
| WinClient.AnswerKeepsLedger | source/windows/ipc-client-win.cpp:266-285 | a reply moves at most one uid from pending to fired |
| WinClient.DrainKeepsLedger | source/windows/ipc-client-win.cpp:209-221 | the drain fires exactly the pending uids, each once with one Null loss value, and leaves none |
| WinPipelineSafety.CallParses | source/windows/ipc-server-instance-win.cpp:158-164 | the body delivered to the server parses to the oldest request not yet taken |
| WinPipelineSafety.ReplyParses | source/windows/ipc-client-win.cpp:259-264 | the body delivered to the client parses to the oldest reply not yet delivered |
| WinPipelineRuns.StepKeepsInv | source/windows/ipc-server-instance-win.cpp:49-204 | every step of every thread keeps the pipeline's invariant, calls without a callback and cancellations of any number included |
| WinPipelineRuns.OrderedExactlyOnce | source/windows/ipc-server-instance-win.cpp:49-204 | in every reachable state the dispatches are the first written requests in order, each once; deliveries are the first replies in order; nobody aborts or throws |
| WinPipelineRuns.BytesConserved | source/windows/ipc-server-instance-win.cpp:54-133 | the frames written and not yet taken are, byte for byte, what reader and pipe hold, in both directions |
| WinPipelineRuns.OneThingAtATime | source/windows/ipc-server-instance-win.cpp:54-110 | of header read, body read, handler, queued reply and reply write at most one is live; the queue has at most one element; write_callback never discards a read in flight |
| WinPipelineRuns.WatchdogOnlyOverdue | source/windows/ipc-server-instance-win.cpp:35-47 | the watchdog throws exactly on a request that arrived, has no issued reply, and is older than the timeout |
| WinPipelineRuns.CallbacksExact | source/windows/ipc-client-win.cpp:209-292 | registered uids are the disjoint union of pending, fired and cancelled; no callback fires twice; one fired by a reply shows the verdict on the call that registered it |
| WinPipelineRuns.StepRefines | source/windows/ipc-server-instance-win.cpp:49-204 | every step of the pipeline is one step of a one-at-a-time RPC, or none |
| WinPipelineRuns.RunRefines | source/windows/ipc-server-instance-win.cpp:49-204 | every run of the pipeline maps to a run of the one-at-a-time RPC |
| WinDelivery.OwnVerdict | source/windows/ipc-client-win.cpp:266-285 | a callback fired by a reply got what its caller is due: the values of the function the caller named on the caller's arguments, or the notice that it is not registered; and that request was dispatched |
| WinDelivery.ThreadEffects | source/windows/ipc-client-win.cpp:70-113 | a calling thread gets a number of its own for what it asks, registers exactly its callback, writes exactly its frame, and on failure the number it cancels is gone |
| WinDelivery.DeliveredFires | source/windows/ipc-client-win.cpp:266-285 | once the reply to a call is delivered, the callback registered for it is not pending: this very reply fired it, unless it was cancelled |
| WinProgress.StepWorks | source/windows/ipc-server-instance-win.cpp:49-204 | while the connection is up, every step of a worker or the system that does some work lowers the work left over reader phases, queue, write and streams, and only another request raises it |
| WinProgress.Progress | source/windows/ipc-server-instance-win.cpp:54-110 | while the connection is up and a written request has no delivered reply, some step is possible that lowers the rank, unless a reply fits no frame |
| MacServerInstance.Receive | source/apple/ipc-server-instance-osx.cpp:65-66 | a read into a resized buffer overwrites what it reaches and leaves the rest |
| MacServer.HeadAndRest | source/apple/ipc-socket-osx.cpp:86 | a read takes the first bytes of the oldest call, at most as many as asked for, and leaves the rest |
| MacServerInstance.ParseCall | source/apple/ipc-server-instance-osx.cpp:134-141 | the queued call is the one the reference parser finds |
| MacServerInstance.ServerInstanceOsx.WorkerReq | source/apple/ipc-server-instance-osx.cpp:60-69 | each step of the request worker is the step of the state machine |
| MacServerInstance.ServerInstanceOsx.ReadCallbackInit | source/apple/ipc-server-instance-osx.cpp:116-130 | a size above one leads to the body read, any other to the post of the writer semaphore |
| MacServerInstance.ServerInstanceOsx.ReadBody | source/apple/ipc-server-instance-osx.cpp:123-124 | the body read fills the buffer with the rest of the oldest write call, and ends there or goes on |
| MacServerInstance.ServerInstanceOsx.ReadMore | source/apple/ipc-socket-osx.cpp:90-99 | a loop that goes on takes the next write call, behind the end of the buffer |
| MacServerInstance.ServerInstanceOsx.ReadCallbackMsg | source/apple/ipc-server-instance-osx.cpp:132-149 | the body is parsed, the buffer cleared and the call handed to the push |
| MacServerInstance.ServerInstanceOsx.WorkerRep | source/apple/ipc-server-instance-osx.cpp:71-114 | each step of the reply worker is the step of the state machine under an allowed verdict; it throws exactly on a reply no vector can hold |
| MacServerInstance.ServerInstanceOsx.Execute | source/apple/ipc-server-instance-osx.cpp:92-106 | the frame of the reply to this call, with its own function's values on its own arguments |
| MacServer.BodyRead | source/apple/ipc-server-instance-osx.cpp:122-124 | the body read of a frame fills the buffer with exactly its body |
| MacServer.BodyParses | source/apple/ipc-server-instance-osx.cpp:134-141 | a body parses to the call it was printed from |
| MacServer.ReqKeeps | source/apple/ipc-server-instance-osx.cpp:60-69 | the request worker keeps the one token, its message and the framing of the pipe, dummy and swallowed calls included |
| MacServer.RepKeeps | source/apple/ipc-server-instance-osx.cpp:71-114 | the reply worker keeps them too; it pops only what was pushed |
| MacShutdown.OneToken | source/apple/ipc-server-instance-osx.cpp:28-149 | over all runs, destruction included: semaphores and token holders never exceed one, front() never meets an empty queue, and a token without a call means that the server was stopped |
| MacShutdown.WritesExact | source/apple/ipc-socket-osx.cpp:85-100 | over all runs, the write calls taken off the pipe are those read as frames, parsed in order, the dummy, and those swallowed behind a body; the overrun is the concatenation of the swallowed ones, and non-empty exactly if some call but the last one taken has an unfinishable length |
| MacShutdown.OverrunExact | source/apple/ipc-socket-osx.cpp:90-99 | of any sequence of write calls some are swallowed exactly if one before the last has an unfinishable length |
| MacShutdown.ShutdownExact | source/apple/ipc-server-instance-osx.cpp:28-43 | from every reachable stopped state and under every schedule workers and destructor make at most 17 moves and one more for each write call in the pipe or written before the dummy; when they can make no more, both workers have ended exactly if the token's position was safe; a request worker that holds the token is safe |
| MacShutdown.QuietExited | source/apple/ipc-server-instance-osx.cpp:39-43 | a stopped server in which nothing can move has ended exactly if it is safe |
| MacShutdown.Stranded | source/apple/ipc-server-instance-osx.cpp:71-78 | a reachable state outside the condition, from which no run ends both workers |
| MacClientInstance.ClientOsx.Enter | source/apple/ipc-client-osx.cpp:58-84 | a new number and a frame whose fields a server reads as this number, class, function and arguments |
| MacClientInstance.ClientOsx.Move | source/apple/ipc-client-osx.cpp:78-147 | each step of a thread inside call and its helper is the step of the state machine; the helper returns what its slot was filled with |
| MacClientInstance.ClientOsx.ReadMore | source/apple/ipc-socket-osx.cpp:90-99 | a loop that goes on takes the next write call, behind the end of the shared buffer |
| MacClientInstance.ClientOsx.ReadCallbackMsg | source/apple/ipc-client-osx.cpp:163-195 | fills the slot of the reply's callback and forgets it, or posts the writer semaphore when there is none |
| MacClientInstance.ClientOsx.AwaitReply | source/apple/ipc-client-osx.cpp:136-145 | a helper that was not called back cancels and returns; otherwise it goes on to the post |
| MacSystemRuns.StepKeeps | source/apple/ipc-client-osx.cpp:78-195 | every step of every client thread and server worker keeps the system's invariant |
| MacSystemRuns.OneHolder | source/apple/ipc-client-osx.cpp:86-145 | the writer semaphore and the threads between its wait and its post always make one; the shared buffer has one user; no reply fails to parse |
| MacSystemRuns.OneMessage | source/apple/ipc-client-osx.cpp:86-145 | at most one message exists in request pipe, server (its buffer, queue, handler and write), reply pipe and client buffer, and only while a thread holds the token; dispatches follow the order of the calls |
| MacSystemRuns.OwnResults | source/apple/ipc-client-osx.cpp:103-147 | every helper returned what its caller is due: the values of the function it named on its own arguments, or the notice that it is not registered; and that request was dispatched |
| MacProgress.MoveGoes | source/apple/ipc-client-osx.cpp:86-145 | no thread returns early, gives up, throws or posts twice: each goes the one way through its call |
| MacDeadlock.EachOnce | source/apple/ipc-client-osx.cpp:86-145 | no call is dispatched twice, and only calls whose two frames can be read are finished |
| MacDeadlock.StepRank | source/apple/ipc-client-osx.cpp:86-146 | each step of the call in progress lowers a rank over pipe, queue, token and program counters, and no other step raises it |
| MacDeadlock.SomebodyMoves | source/apple/ipc-server-instance-osx.cpp:60-149 | while a call holds the token, its thread or the server can move, unless a body read cannot finish or no frame can carry the reply |
| MacDeadlock.CallEnds | source/apple/ipc-client-osx.cpp:86-146 | under every schedule the call that holds the token takes at most 25 steps and is never stuck, unless one of its frames has an unfinishable length or its reply fits no frame |
| MacDeadlock.SomebodyStarts | source/apple/ipc-client-osx.cpp:78-86 | while nobody holds the token, every thread inside a call can move |
| MacJam.UnfinishableCall | source/apple/ipc-socket-osx.cpp:90 | a call that a client may send has a frame of 8192 bytes |
| MacJam.Deadlocks | source/apple/ipc-client-osx.cpp:86-99 | with any number of threads a state is reachable in which such a call holds the token and from which its thread and the server never move again |
| MacJam.Overruns | source/apple/ipc-server-instance-osx.cpp:33-37 | a state of the server is reachable in which the destructor's byte lies behind the buffer of a body read |

## Left out

- Win32 and POSIX calls, handle validation, process lookup and error translation: a pipe is a sequence of
  bytes or of writes, a semaphore a number, `is_connected()` a flag that does not come back up.
- Errors of outstanding Windows transfers, transfers the system rejects, and short Windows reads, inside the
  pipeline: only the loss of the connection is modelled there. `AsyncOps` covers rejected and cancelled
  transfers and accepts, the instance modules completions with an error.
- `socket_win::accept` as an object method: it is a step of the operation's history in `AsyncOps` only.
- The Windows `call_synchronous_helper`: a semaphore around `call` whose timing and freeze callbacks are
  not modelled. What its callback receives is stated by `WinDelivery.OwnVerdict`.
- Wall-clock time, freeze callbacks, sleeps and retry loops; time is an arbitrary number for the watchdog.
- A write by macOS that fails and is retried, failing or empty pipe reads outside `FifoSocket`, macOS
  `stop()`, `m_shutting_down`, and bare `call` with a callback on macOS: these do not give the writer
  token back one for one.
- A macOS system read that takes bytes of several writes at once, see the conventions; and bytes stored
  beyond the one-byte vector by `make_sendable` in the destructor: only the byte that is written to the
  pipe is modelled.
- The macOS branch that would queue a reply instead of writing it: its operation is never created.
- The watcher loop, accepting clients, spawning and killing processes, logging and hex dumps: threads and
  processes are started and joined there, and no bytes of a call pass through.
- Class and function registration and `make_unique_id`: a registry is a map from names to functions here,
  and the same one for a whole run.
- Lifetime of the buffer of a write in flight: the bytes are copied when the write is issued. Queued calls
  and queued replies are values.
- Function pointers and their data are numbers (`cookie`) or thread indices.
- The order in which the drain visits the map: any order is allowed.
- The destructor's `open` of the request pipe for writing, which blocks while nobody has the pipe open for
  reading (a body read closes both read descriptors at its end): the model writes the dummy at once.
- `int` overflow in the macOS write loop: frames written there are shorter than 2^31 bytes.
- AsyncOps.StartTransfer: ends where the callback of a rejected transfer is entered; the `cancel()` behind
  it is `AsyncOps.AsyncRequest.Cancel`, and `AsyncOps.AtMostOnce` covers both in their order.
- MacServerInstance.ServerInstanceOsx.WorkerReq: no failed read, and `is_connected()` stays true.
- Dispatch.Server.ClientCallFunction: a handler is a function of its arguments; the pre- and post-call
  callbacks, which get constant references and return nothing, are not modelled.
- WinServerInstance.ServerInstanceWin.Issue: no rejected read or write, whose error the code throws.
- WinServerInstance.ServerInstanceWin.ReadCallbackInit: no rejected body read, whose error the code throws.
- WinClientInstance.ClientWin.Issue: no rejected read, whose error the code throws.
- WinClientInstance.ClientWin.ReadCallbackInit: no rejected body read, whose error the code throws.
- MacServerInstance.ServerInstanceOsx.ReadCallbackInit: no failed header read, which would lose the token.
- MacClientInstance.ClientOsx.Move: no failed write, no shutting-down return, no failed read.
- MacDeadlock.CallEnds: bounds the steps of one call; that the scheduler lets an enabled step happen is not part of the model.
- WinProgress.Progress: a step that helps is possible; that the scheduler lets it happen is not part of the model.
