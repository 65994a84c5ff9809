# Wind Breaker, modelled and verified in Dafny

Wind Breaker is a small multi-threaded HTTP server in C. One listener thread polls the sockets; four pools of
worker threads parse, load, build and send. They meet in one session cache: seven parallel pointer arrays of
preallocated rows, an eight-bit status word per row, one mutex and four condition variables. This project models
that server and proves what holds of every run of it, whatever the interleaving.

The files fall into four groups.

- **The session cache.** `StatusWord.dfy` has the status bits and the stage machine they encode. `SessionTable.dfy`
  has the value of the cache and what each critical section does to it, `SessionCache.dfy` the seven arrays
  themselves, as a class whose methods are proved to do just that, and `MarkedDescriptors.dfy` the mark counters.
- **The protocol.** `Protocol.dfy` is the step system: each section under the mutex, and each thing a thread does
  between two of them, is one atomic step of the listener or of a worker. `ProtocolInvariant.dfy` proves one
  invariant of all steps, `ProtocolRuns.dfy` the theorems about runs that follow from it, and `ParkedSessions.dfy` what
  becomes of a session whose send was told to wait. `Sender.dfy` is one round of the sender, `Workers.dfy` the thread
  table.
- **The listener.** `PollArrays.dfy` is the array of polled descriptors, `Listener.dfy` one scan over it, and
  `ReadHandler.dfy` the handler it calls for a client with input.
  `ListenerSteps.dfy` has the steps of the protocol that one visit of the scan is, `ScanRuns.dfy` a whole scan among
  the steps of the workers, and `InFlightEvents.dfy` a run that ends where one event more fails an assertion.
- **Text.** `Buffers.dfy` is the growable buffer. `Replacing.dfy` has `str_replace` on texts and
  `InPlaceReplacing.dfy` in the buffer, `Templates.dfy`, `IndexLists.dfy` and `Loader.dfy` the pages that are filled
  with it, and `ShippedPages.dfy` those the server ships. `Messages.dfy` and `Response.dfy` have the response and its
  serialisation, `ResponseHeaders.dfy` what a client reads in it under each name, `Tokenizer.dfy`, `Request.dfy` and
  `RequestLaws.dfy` the request and its parser, `HttpTypes.dfy` the records that travel with a session.

How the C is rendered. The arrays, the poll array, the marks and the buffers are classes with the fields of the
original, changed in place by the same loops; each method is tied to a function on values, and the theorems are
about those functions. A pointer into the pool of preallocated objects is the number of the object. A `char[]` field
is the string in it; bounds on its length are stated where they matter. C assertions are preconditions, or, in the
step system, the predicate `Safe`, which is proved and not assumed: a run may go anywhere after an unsafe step, and
it is shown that there are none. Widths are explicit where they matter: the status word is a `bv8`, capacities are
64-bit, and results of type `int` are cut down to 32 bits.

What a worker writes into the session it holds appears in the step system at its push. Until then the pointers are
its own: the ownership part of the invariant is that no other step writes there.

The step system relies on what the following sections of the source assume without checking it:

- No socket event arrives for a session that is in the pipeline. `ProtocolRuns.InFlightEventBreaksOwnership`
  shows exactly when handling one is safe.
- The poll array has a free slot when a connection is accepted. That the session cache then has a free row too, so
  that nobody is evicted, is proved.
- `accept` returns a descriptor that is not open. `stop` is not raised inside a critical section, and the thread
  that raises it does not come back to listening (it ends in `exit`).
- The transport takes a prefix of what it is offered, or answers 0 or -1; what `recv` completes is a request.

What happens where C defines nothing is not guessed. The parser has an outcome `Undefined`, and `str_replace` and the
loaders return `ok`, which is false from the moment a read or a write leaves its array; when that is so is stated
exactly.

Findings, each stated and proved below, with its exact condition:

- The cursor of `str_replace` skips occurrences from the third on (`ReplacementIsRightIff`, `ThriceIsNot`).
- For a word that occurs twice, at h1 and h2 of a text, its third search starts behind the terminator unless
  h1 + h2 + |word| + |replacement| is at most the length of the text (`TwiceIsInsideIff`). On the post page it does for
  every title, on the project page for every title of more than 114 characters (`PostPageAlwaysStrays`,
  `ProjectPageStraysIff`). The outcome is defined if and only if the first such search is `Quiet`: it starts in the
  allocation, and from there finds a terminator before the word (`StrReplace`). In clean memory, as it is behind a
  file that was read into a buffer of zeroes (`ReadStaticFile`), that is so exactly when it starts in the allocation
  (`QuietIff`, `LoadPost`, `LoadProject`).
- An If-None-Match of 65 to 255 characters is copied into a field of 65, and a method of 8 to 12 letters into an array
  of 8 (`HeaderIsDefinedIff`, `ControlIsDefinedIff`, `LongTagIsUndefined`, `LongMethodIsUndefined`).
- A request is read up to its first NUL. Among requests without one the order of the headers is irrelevant
  (`HeaderOrderIsIrrelevant`). A header with a NUL in its value is the last that counts (`NulHeaderIsTheLast`), so its
  place before or behind another is irrelevant if and only if that other changes nothing (`NulOrderIsIrrelevantIff`,
  `NulMakesOrderMatter`).
- A deletion breaks the ring of the cache exactly when it has wrapped, and a broken ring evicts the wrong row
  (`DeletionBreaksWrappedRing`, `RingStep`, `ShrunkRingEvictsTheNewest`).
- A session whose send was told to wait is never sent to again: nothing takes SEND_FAILED back, and what its client
  sends next is put behind the rest of the response (`ParkedForever`).
- The pop by descriptor hands out a parked session again while it is held (`HandedOutAgainIff`).
- Below capacity a poll array that has been full once may take a new descriptor out of turn (`ComesLastIff`).
- A full poll array gives up a descriptor it was not asked for exactly when a later one looks idle
  (`OverflowEvictsOnlyOne`, `OverflowLosesAnother`).
- The mark counters are twice as many as the rows of the cache; descriptors up to 16383 are let through, which is more
  for every cache of less than 8192 rows (`CountersSufficeIff`).
- The Content-Encoding of an earlier response can stay in the row (`EncodingIsRightIff`, `StaleEncodingIsSent`).
- The blank line of a response without a body loses its line feed when what was reserved is filled exactly, which takes
  a Content-Encoding of 106 characters (`ToString`, `OnlyLongEncodingsAreCut`, `LongEncodingIsCut`). A
  Content-Encoding of 108 to 127 may not fit its own reservation (`EncodingFits`, `LongerEncodingDoesNotFit`). The
  server sends neither.
- A line of a front-page list that does not fit the room it finds, at least 256 bytes, is cut and ends the list
  (`ListIsWholeIff`, `LongTitleIsCut`). The count of the list buffer is then the length of the lines uncut; as many
  bytes are cleared afterwards, which stays in the buffer if and only if the last line of the last list is no longer
  than the room it finds (`CountIsWithinIff`, `LoadIndex`).
- A result of 0 from `parse_http_request` says nothing about the request line as soon as there is a header
  (`ZeroMeans`, `ZeroWithoutRequestLine`).
- `ensure_capacity_` does not return for more than half of the address space (`LoopEndsUpToHalf`).
- Handling an event for a session in the pipeline fails an assertion or takes the session from its worker
  (`InFlightEventBreaksOwnership`); so it is after a client connects and sends two requests
  (`EventOnQueuedSessionFailsTheAssertion`).

Format: HTTP/1.1, RFC 9112 (sections 2.1, 3, 4, 5, 6.2, 6.3) and RFC 9110 (section 5.3).

## Model

| member | source | states |
|---|---|---|
| StatusWord.PushRefines | src/data_structures/session.c:411-440 | On a held word, a push that the stage machine allows releases the word, keeps its stage bits a downward-closed chain, and moves the machine as it should |
| StatusWord.PopRefines | src/data_structures/session.c:530-531 | A pop sets PROCESSING and leaves the stage as it was |
| StatusWord.PoppableIsIdleOrParked | src/data_structures/session.c:563-571 | The listener gets a session exactly when it is idle and free, or parked after a failed send |
| StatusWord.WakesWhoAsks | src/data_structures/session.c:420-431 | A push broadcasts to the pool that asks pop_request for just that status, and to no other |
| StatusWord.SmallWordIsNotEligible | src/data_structures/session.c:481-482 | The comparison of the whole word with the wanted status never skips an eligible row, whatever the signedness of char and of the enumeration |
| StatusWord.RowMatches | src/data_structures/session.c:477-499 | The bit loop accepts a row exactly when it is free and its highest stage bit is the wanted one, for either signedness |
| SessionTable.AddIsValid | src/data_structures/session.c:332-352 | Adding a descriptor that is not there keeps every row consistent and gives it a row in reset state but for its identifiers, also when that row is taken from another |
| SessionTable.DeletePrefix | src/data_structures/session.c:354-393 | Deletion leaves the old live prefix without that row, in order; the row comes right behind it; no slot is lost or doubled |
| SessionTable.DeleteIsValid | src/data_structures/session.c:364-392 | After it both indices are in range, rows from the count on are reset, live descriptors are distinct, and that descriptor is gone |
| SessionTable.DeleteSessions | src/data_structures/session.c:354-393 | Every other live session keeps its slot and all its contents |
| SessionTable.PushRejectedRemovesOnlyThatFd | src/data_structures/session.c:406-454 | REJECTED removes exactly the session of that descriptor, and nothing when there is none |
| SessionTable.PushFoundSessions | src/data_structures/session.c:408-443 | Every other push that finds its row rewrites that row alone, in place |
| SessionTable.PushFoundFields | src/data_structures/session.c:411-440 | Field by field: SENT leaves the session with an empty buffer and a zeroed request but for the TLS flag; every other such push changes only the word; identifiers and response stay |
| SessionTable.PushInitialSessions | src/data_structures/session.c:456-458 | Below capacity a new plain connection gets a slot that no session has, with its identifiers, its BIO bound to its socket, and nothing read, and nothing else changes |
| SessionTable.PushInitialSslSessions | src/data_structures/session.c:459-472 | So does a TLS connection; when its handshake fails the whole cache is as it was |
| SessionTable.PushKeepsValid | src/data_structures/session.c:395-475 | Every push whose assertions hold keeps the cache consistent, including 0 <= last <= count, last < max_size, at capacity or not |
| SessionTable.TakeSessions | src/data_structures/session.c:530-541 | A pop changes the status of one session and nothing else |
| SessionTable.RingStep | src/data_structures/session.c:332-352 | An arrival is appended to the others, read in order from session_last_index with wrap-around, and the oldest dropped when full, if and only if a cache that is not full has that index at 0 |
| SessionTable.RingKeepsTheLast | src/data_structures/session.c:332-349 | After any run of arrivals the cache holds the last of them, and reads them in order from session_last_index |
| SessionTable.RingFromEmpty | test/unit_tests/data_structures/session_test.c:136-166 | From the empty cache these are exactly the last min(n, max_size) |
| SessionTable.DeletionBreaksWrappedRing | src/data_structures/session.c:388-392 | A deletion from an intact ring leaves it intact if and only if it has not wrapped |
| SessionTable.ShrunkRingEvictsTheNewest | src/data_structures/session.c:388-392 | A run of pushes and a pop from the empty cache of two after which the newest connection is the next to go |
| SessionCache.Cache.constructor | src/data_structures/session.c:48-121 | All seven arrays start as the same numbering of objects in reset state |
| SessionCache.Cache.ResetRow | src/data_structures/session.c:226-267 | Resets every object of one row and no other |
| SessionCache.Cache.ResetRequest | src/data_structures/session.c:269-284 | Clears the buffer and the request of one row but for its TLS flag |
| SessionCache.Cache.AddToSession | src/data_structures/session.c:332-352 | Does to the arrays what Table.Add does to their value, and returns the row used |
| SessionCache.Cache.RotateRows | src/data_structures/session.c:366-386 | The loop applies one and the same rotation to all seven arrays |
| SessionCache.Cache.DelFromSession | src/data_structures/session.c:354-393 | Does to the arrays what Table.Delete does to their value; all columns stay aligned |
| SessionCache.Cache.PushFound | src/data_structures/session.c:409-453 | At the matching row does the push, marks on REJECTED, names the pool it broadcasts to, and leaves no later row that matches |
| SessionCache.Cache.ScanRows | src/data_structures/session.c:405-455 | The scan that deletes under itself treats exactly one row |
| SessionCache.Cache.PushRequest | src/data_structures/session.c:395-475 | Does to the arrays what Table.Push does to their value, rewrites a row it finds field by field as PushedInto says, marks exactly when that does, and broadcasts exactly to the pool of the new stage |
| SessionCache.Cache.PeekNext | src/data_structures/session.c:477-499 | Returns the last row eligible for the stage, or -1 if there is none |
| SessionCache.Cache.PopRequest | src/data_structures/session.c:501-545 | Hands out session, buffer, request, response, BIO and, with TLS, SSL pointer of one slot, that of the last eligible row, through which one reads that row; marks it PROCESSING; or nothing, when none is eligible |
| SessionCache.Cache.PopRequestByFd | src/data_structures/session.c:547-587 | The same for a descriptor, refused exactly when its session is in the pipeline or held |
| SessionCache.HandedOutAgainIff | src/data_structures/session.c:481-571 | Until a push, what was handed out is not handed out again by either pop, except a parked session by its descriptor |
| SessionCache.OnlyRow | src/data_structures/session.c:406-455 | The first match of the scan is the only one, before and after what is done to it |
| MarkedDescriptors.MarkedFds.Mark | src/data_structures/marked_fds.c:23 | Marks that descriptor and no other |
| MarkedDescriptors.MarkedFds.Unmark | src/data_structures/marked_fds.c:25 | Takes the mark off, however often it was set |
| MarkedDescriptors.CountersSufficeIff | src/data_structures/marked_fds.c:11-12 | Every descriptor that passes the assertions has a counter if and only if the cache has at least 8192 rows |
| MarkedDescriptors.MarkedFds.IsMarked | src/data_structures/marked_fds.c:27 | Tells whether it is marked |
| Sender.FinishSend | src/handlers/sender.c:33-68 | Leaves the unsent bytes, and no others, in the buffer and chooses the next status as NextStatus says |
| Sender.RoundConservesBytes | src/handlers/sender.c:30-71 | What the transport took followed by what is left is what was in the buffer, for every answer of the transport |
| Sender.StatusMeansFinished | src/handlers/sender.c:33-68 | Each status if and only if: SENT when the last byte went and the connection stays; REJECTED when it went and the connection closes, or the transport failed (TLS with neither want, plain -1 without retry); SEND_FAILED when it asks to wait (TLS want-read, plain retry); READY_TO_SEND when some bytes remain after some went, or none went and it may go on |
| Sender.PartialSendShrinks | src/handlers/sender.c:53-58 | A partial send that takes bytes leaves fewer |
| ProtocolInvariant.InitInv | src/worker.c:21-44 | The initial state, with any number of workers a pool, meets the invariant |
| ProtocolInvariant.AcceptKeeps | src/listener.c:212-223 | Accepting finds no row, evicts nobody and keeps the invariant |
| ProtocolInvariant.AcceptTlsKeeps | src/listener.c:224-228 | So does a TLS accept, with or without a handshake |
| ProtocolInvariant.PurgeKeeps | src/listener.c:163-167 | Closing a marked descriptor keeps it |
| ProtocolInvariant.StaleKeeps | src/listener.c:231-237 | An event whose session has gone in the meantime passes the assertions and keeps it |
| ProtocolInvariant.PopKeeps | src/listener.c:21-27 | The listener takes an idle or parked session |
| ProtocolInvariant.ReadKeeps | src/listener.c:30-68 | And gives it back read, unread or rejected: the assertions hold and the pointers are good |
| ProtocolInvariant.CheckTakesKeeps | src/data_structures/session.c:508-544 | A worker that finds an eligible session takes it |
| ProtocolInvariant.CheckFindsNothingKeeps | src/data_structures/session.c:510-529 | One that finds none may decide to sleep, because there is none |
| ProtocolInvariant.PushKeeps | src/handlers/sender.c:70-71 | A worker of any pool writes through its pointers and pushes: the assertions hold, the pointers are good, the invariant is kept |
| ProtocolInvariant.BroadcastKeeps | src/data_structures/session.c:210-224 | After the broadcast nobody is asleep |
| ProtocolInvariant.StepKeeps | src/data_structures/session.c:395-587 | Every step of every thread is safe and keeps the invariant |
| ProtocolRuns.EveryRunIsSafe | src/data_structures/session.c:395-587 | In every run every step is safe and every state meets the invariant |
| ProtocolRuns.HeldByExactlyOne | src/data_structures/session.c:408-412 | In every run PROCESSING is set exactly on the sessions that somebody holds, and each is held by one |
| ProtocolRuns.HandedPointersStayGood | src/data_structures/session.c:354-393 | Over any stretch of a run, until its holder pushes, the slot handed out stays live with the same descriptor, buffer, request and response |
| ProtocolRuns.PollIsSessionsAndMarks | src/listener.c:159-240 | Between steps of the listener the polled descriptors are the disjoint union of those with a session and the marked ones; a closed one has neither |
| ProtocolRuns.AcceptNeverEvicts | src/data_structures/session.c:333 | In every run an accepted connection takes the add branch and a free row |
| ProtocolRuns.AcceptTlsNeverEvicts | src/data_structures/session.c:459-472 | So does one accepted over TLS; when its handshake fails the cache is as it was and the descriptor is marked |
| ProtocolRuns.ListenerLeavesPipelineAlone | src/data_structures/session.c:563-570 | No listener step changes anything of a session in the pipeline |
| ProtocolRuns.SentIsDelivered | src/handlers/sender.c:63-71 | SENT and the closing REJECTED are pushed only with the whole response on the wire |
| ProtocolRuns.IdleIsBlank | src/data_structures/session.c:435-440 | In every run a session that waits for input has an empty buffer and a request that is zeroed but for the TLS flag |
| ProtocolRuns.ReadQueuesTheData | src/listener.c:21-67 | In every run a complete read of an idle session queues exactly the data read for the parser, one of a parked session appends it, one to be retried changes only the word, and a failed one alone ends and marks |
| ProtocolRuns.WorkReachesTheSession | src/handlers/parser.c:28-48 | In every run what a handler wrote is in the session it gives back: the parser's request and response, the loader's page, the builder's message; and it is eligible for the next pool |
| ProtocolRuns.RefusedSendKeepsTheSession | src/handlers/sender.c:36-71 | In every run a send ends the session, and marks it, if and only if the response went out and the connection closes or the transport failed; a send refused for now keeps the whole response, a partial one the rest, a finished one nothing |
| ParkedSessions.ParkedForever | src/data_structures/session.c:432-434 | In every run a session parked by SEND_FAILED is parked as long as it is there, eligible for no pool, with the rest of its response in front in its buffer |
| ProtocolRuns.EveryDeliveryIsExactlyOnce | src/handlers/parser.c:11-48 | In every run each response sent came of one parse, one load, one build and then sends, and the wire got what was built |
| ProtocolRuns.WireAndBufferMakeTheResponse | src/handlers/sender.c:53-58 | At all times wire and buffer together are the response built |
| ProtocolRuns.PushMakesProgress | src/handlers/sender.c:30-71 | With positive sends each worker push lowers (stages left, bytes left) of its session, or ends it, and touches no other |
| ProtocolRuns.NoLostWakeup | src/data_structures/session.c:420-431 | In every run no worker sleeps while a session is eligible for its pool |
| ProtocolRuns.PoolOfWaitingSessionCanStep | src/data_structures/session.c:508-529 | In every run, while a session waits for a pool and the mutex is free, each worker of the pool that has not left can take its next step |
| ProtocolRuns.ShutdownNeverBlocks | src/worker.c:46-63 | After stop and broadcast some worker can step until all have left |
| ProtocolRuns.EveryJoinReturns | src/shutdown/stop.c:10-18 | After stop and broadcast nobody is or becomes asleep, at most four steps a worker remain, and a run is at its end exactly when all have left |
| ProtocolRuns.InFlightEventBreaksOwnership | src/listener.c:234-235 | Handling input for a session is safe if and only if the session may be popped by its descriptor |
| InFlightEvents.EventOnQueuedSessionFailsTheAssertion | src/data_structures/session.c:410 | A run from the start, of accept, add, pop and read, for any data, after which it is not: the session is queued for the parser, and the assertion on its status fails |
| Workers.CreateWorkers | src/worker.c:21-44 | Thread i * n + j runs handler i, for all four handlers, so that every stage has n workers |
| Workers.JoinWorkers | src/worker.c:50-59 | Every thread is joined exactly once |
| PollArrays.AddKeeps | src/data_structures/poll_array.c:64-113 | Adding meets its assertions, keeps the indices and the listener's slot, and puts the descriptor in the slot returned, at capacity or not |
| PollArrays.RemoveKeeps | src/data_structures/poll_array.c:115-143 | So does removing, which keeps the others in order |
| PollArrays.EveryRunIsInOrder | src/data_structures/poll_array.c:14-31 | Over every sequence of adds and removes from the start; a table of one slot is never in order |
| PollArrays.AddAppends | src/data_structures/poll_array.c:82-100 | Below capacity the clients gain exactly that descriptor, at the end |
| PollArrays.RemoveDrops | src/data_structures/poll_array.c:126-137 | Removing takes exactly that client away |
| PollArrays.CountIsClients | src/data_structures/poll_array.c:67 | There is a free slot exactly when listener and clients are fewer than the slots |
| PollArrays.OverflowEvictsOnlyOne | src/data_structures/poll_array.c:71-77 | A full array gives up one descriptor alone if and only if no slot after last_in_index looks idle |
| PollArrays.OverflowLosesAnother | src/data_structures/poll_array.c:73-75 | A concrete full array that loses another |
| PollArrays.FullGoesRound | src/data_structures/poll_array.c:98-105 | In a full array where no later slot looks idle the one whose turn it is goes and the new one comes last in turn |
| PollArrays.ComesLastIff | src/data_structures/poll_array.c:98-99 | Below capacity the new one comes last if and only if the turn is at the first slot |
| PollArrays.RemoveKeepsTurns | src/data_structures/poll_array.c:126-137 | A removal leaves the others in turn, wherever it is |
| PollArrays.PollArray.constructor | src/data_structures/poll_array.c:14-31 | The listener in slot 0 and nothing else, in order if and only if there is a second slot |
| PollArrays.PollArray.PeekNext | src/data_structures/poll_array.c:64-80 | The loop as it is, with the swap that copies |
| PollArrays.PollArray.AddPollFd | src/data_structures/poll_array.c:82-113 | Does to the array what Poll.Add does to its value |
| PollArrays.PollArray.RemoveByIndex | src/data_structures/poll_array.c:115-143 | Does what Poll.Remove does, unmarks the descriptor it closes, and steps the caller's index back |
| Listener.Visit | src/listener.c:159-240 | One pass of the loop body: the removal, push, accept or handler call that the events, marks and errors call for |
| Listener.Scan | src/listener.c:158-241 | The scan ends, sees each entry present at its start and the one accepted in it exactly once in order, and leaves those not removed in order; what is left in the array and in the log follows from events, marks and answers as DoneByEvents says |
| Listener.DecidedBy | src/listener.c:163-239 | What an entry leads to, event by event |
| Listener.ScanIsByEvents | src/listener.c:163-239 | A client is gone, and for unmarked ones REJECTED pushed, if and only if it was marked, or its socket was broken, or it had POLLERR with more than an interruption, or hung up or was invalid and then broken, or had POLLIN without POLLOUT and was not answered; output, input and connections likewise |
| Listener.EntriesByEvents | src/listener.c:207-230 | A connection is visited in the scan that accepts it, on input on the listener |
| Listener.RejectedBeforeRemoved | src/listener.c:163-237 | Each removal is of a marked entry or comes right after the push of REJECTED for it |
| Listener.KeptFds | src/listener.c:163-237 | A descriptor is left exactly when an entry with it was not removed |
| Listener.RemovedFds | src/listener.c:163-237 | REJECTED is pushed exactly for the entries removed without a mark |
| Listener.ScanAsSets | src/listener.c:159-240 | As a set, what a scan leaves of distinct descriptors is what it saw without what it removed |
| ReadHandler.HandleRequestAsync | src/listener.c:21-68 | On the cache: the session is popped, written to and pushed; it answers, that is, does not return -1, if and only if there is a session to read for and the read does not fail |
| ReadHandler.HandlerIsSteps | src/listener.c:234-236 | The protocol's pop and read steps do to the table what the handler and the push of REJECTED after a missing answer do to the cache |
| ListenerSteps.VerdictIsSteps | src/listener.c:163-237 | Under the protocol's assumptions what the scan does at an entry is a sequence of enabled listener steps that comes to rest, and polls afterwards what its actions say |
| ScanRuns.OthersLeavePoll | src/data_structures/session.c:395-587 | No step of a worker changes what is polled or where the listener stands |
| ScanRuns.OthersKeepAssumed | src/data_structures/session.c:395-587 | What a visit assumes of an entry (an idle session or none, a mark, room) stays so over every step of a worker |
| ScanRuns.NextStepIsEnabled | src/listener.c:163-237 | However many steps workers took before a visit and between its steps, its next step is enabled whenever the mutex is free and the listener runs |
| ScanRuns.ScanFollowsLog | src/listener.c:158-241 | In every stretch of a run in which the listener's steps are those of a scan, with any steps of workers before, between and inside its visits and any outcome for each visit, where a client counts as answered exactly when its session was there and was read, what is polled in the end is what the log of the scan says |
| ScanRuns.ArrayFollowsProtocol | src/listener.c:158-241 | If the protocol polls the clients of the array when a scan begins, it polls those left in the array when it ends, over the same stretches |
| Buffers.Buffer.constructor | src/data_structures/buffer.c:6-21 | Empty, zeroed, of at least 1024 bytes |
| Buffers.Buffer.EnsureCapacity | src/data_structures/buffer.c:38-53 | Terminates without overflow up to 2^63, reaches the request and keeps the contents, or loses the pointer when realloc fails |
| Buffers.Buffer.CopyFrom | src/data_structures/buffer.c:28-36 | The target holds what the source holds, or -1 |
| Buffers.Grown | src/data_structures/buffer.c:41-45 | The new capacity reaches the request and is 1024 or below twice the request |
| Buffers.LoopEndsUpToHalf | src/data_structures/buffer.c:41-45 | In 64-bit arithmetic the loop ends if and only if the request is at most 2^63 |
| Buffers.GrowthIsAmortized | src/data_structures/buffer.c:41-50 | Over any sequence of requests all capacities allocated sum to less than twice the last |
| Buffers.GrownTwice | src/data_structures/buffer.c:41-45 | Growing for one request and then another is growing for the larger |
| Replacing.FindIsFirst | src/handlers/loader.c:307 | strstr from inside the text gives the first occurrence from the cursor on |
| Replacing.CursorIsRightIff | src/handlers/loader.c:335 | In the midst of a text: the hits are the right ones if and only if the cursor jumps over none |
| Replacing.ReplacementIsRightIff | src/handlers/loader.c:299-337 | The same for a whole text, and then the text is left-to-right replacement of the first n occurrences, with nothing inserted ever scanned |
| Replacing.TwiceIsFine | src/handlers/loader.c:335 | No occurrence of a word that occurs at most twice is skipped, whether or not a later search leaves the text |
| Replacing.ThriceIsNot | src/handlers/loader.c:335 | A text with three occurrences, of which the last stays |
| Replacing.StrayMidway | src/handlers/loader.c:307 | Where the first search behind the text starts, in terms of the text as it was, for every text and word |
| Replacing.StrayIsBehind | src/handlers/loader.c:307-314 | Such a search starts behind the terminator of the text by then, to which nothing more is done |
| Replacing.OnceIsInside | src/handlers/loader.c:307 | For a word that occurs once every search starts inside the text |
| Replacing.TwiceIsInsideIff | src/handlers/loader.c:307 | For a word that occurs twice they all do if and only if h1 + h2 + needle_len + repl_len is at most the length; else the third starts at h1 + h2 - needle_len + 3 * repl_len |
| InPlaceReplacing.QuietIff | src/handlers/loader.c:307-314 | In clean memory a search behind the terminator finds nothing if and only if it starts in the allocation |
| InPlaceReplacing.StaysClean | src/handlers/loader.c:326-332 | A replacement leaves the memory behind the text clean, also when the text shrinks |
| InPlaceReplacing.Splice | src/handlers/loader.c:323-332 | One replacement in place: growing, equal and shrinking, in bounds, terminated, nothing behind it written |
| InPlaceReplacing.StrReplace | src/handlers/loader.c:299-337 | The loop over the buffer, across reallocations: the text is InPlace, below capacity and terminated; the outcome is defined if and only if no search strays or the first that does is quiet |
| Templates.FillIsReplaced | src/handlers/loader.c:299-337 | On a page whose texts have no '%' and a separator between placeholders, replacing a placeholder in the text is filling its holes |
| Templates.InTurnIsAtOnce | src/handlers/loader.c:193-220 | Filling one placeholder after another is filling them all at once |
| Templates.FillOrderIsIrrelevant | src/handlers/loader.c:152-163 | The order of the calls does not matter |
| Templates.OneHoleIsInside | src/handlers/loader.c:152-163 | A placeholder that is on a page once is searched for inside the page only |
| Templates.TwoHoles | src/handlers/loader.c:154 | For one that is there twice the condition and the place of the third search, from the texts around it |
| IndexLists.ListIsWholeIff | src/handlers/loader.c:258-267 | A list is the concatenation of its lines if and only if each fits the room it finds |
| IndexLists.ShortItemsFit | src/handlers/loader.c:261 | So it is when all lines are shorter than 256 |
| IndexLists.LongTitleIsCut | src/handlers/loader.c:261-265 | In a buffer of 1024 a row with a title of 1024 characters or more gives a list that is not whole |
| IndexLists.CountIsWithinIff | src/handlers/loader.c:266 | The count left is within the capacity if and only if the last line is no longer than the room it finds |
| IndexLists.AssembleList | src/handlers/loader.c:256-267 | The loop over rows of id and title leaves the list Listed describes of their lines, cut or not, and a count that is their whole length |
| IndexLists.ListReadsBack | src/handlers/loader.c:258-283 | The lines of a list read back as their rows: each link leads to the page of its own row, under its own title |
| IndexLists.PrintedListReadsBack | src/handlers/loader.c:258-283 | So does the list as printed when its lines fit |
| Loader.FillNext | src/handlers/loader.c:154-162 | One str_replace of a sequence fills one placeholder; with clean memory and room its outcome is defined if and only if its searches start in the allocation |
| Loader.ReadStaticFile | src/utils/static_file.c:63-86 | The buffer holds the file as a C string, and if it was all zeroes and longer than the file the memory behind it is clean for every word |
| Loader.LoadPost | src/handlers/loader.c:134-176 | Returns 0, -1 or -2 as the database answers and, if defined, leaves the page filled with row and post; with clean memory and room it is defined if and only if the searches for the title start in the allocation |
| Loader.LoadProject | src/handlers/loader.c:178-233 | The same for a project, with links that may be missing or cut off |
| Loader.LoadIndex | src/handlers/loader.c:235-297 | The same for the front page over the rows of both tables, with the lists as printed; always defined when each placeholder is there once. The count left in the list buffer, which is cleared next, is in it if and only if the last line of the last list is no longer than its room |
| ShippedPages.PostPageFits | static/post.html:1-16 | The post page can be filled with every row without '%', and has all placeholders but the title once |
| ShippedPages.ProjectPageFits | static/project.html:1-22 | So can the project page |
| ShippedPages.IndexPageFits | static/index.html:1-27 | So can the front page, which has every placeholder once |
| ShippedPages.PostPageReads | static/post.html:1-16 | The filled post page is its texts with title, title, description, date and post between them, in this order |
| ShippedPages.ProjectPageReads | static/project.html:1-22 | The project page has title, title, description, repository, the links to website and readme, empty when missing and whole when they fit, and picture |
| ShippedPages.IndexPageReads | static/index.html:1-27 | The front page has projects, notes and version; a table not read to its end leaves its placeholder and those after it |
| ShippedPages.PostPageAlwaysStrays | static/post.html:6-10 | On the post page, titles at 155 and 244 of 345 characters, the third search for the title starts at 392 + 3 * its length, behind the page for every title |
| ShippedPages.ProjectPageStraysIff | static/project.html:6-11 | On the project page, titles at 155 and 287 of 563, it does if and only if the title has more than 114 characters |
| Messages.DecimalRoundTrip | src/http/response.c:237-239 | A length printed in decimal reads back |
| Messages.FieldRoundTrip | src/http/response.c:229-277 | So does a header line |
| Messages.StatusRoundTrip | src/http/response.c:225-227 | So does the status line |
| Messages.SplitJoined | src/http/response.c:280-287 | The first blank line separates head and body, whatever the body has in it |
| Messages.MessageRoundTrip | src/http/response.c:218-290 | A serialised response reads back as its status, its headers in order and its body |
| ResponseHeaders.MessageReadsByName | src/http/response.c:223-287 | In what a client reads each of the eight names is there once with the value of its own field, or not at all if that is empty; with status and body |
| Buffers.Snprintf | src/http/response.c:225-282 | What snprintf writes, cut off or not, and what it returns |
| Response.PutField | src/http/response.c:229-278 | Each reservation is enough for its header, which is written in full |
| Response.ToString | src/http/response.c:218-290 | The offset returned is the length of the message, and the message is there in full if its Content-Encoding fits what was reserved and the blank line is not cut, two conditions on the response and the capacity before the call; else there is a NUL in the head or at the end |
| Response.HeadLength | src/http/response.c:223-282 | The length of the head, field by field |
| Response.OnlyLongEncodingsAreCut | src/http/response.c:273-282 | With a Content-Encoding of less than 106 characters neither happens, whatever the capacity |
| Response.LongEncodingIsCut | src/http/response.c:280-282 | A response whose blank line is cut |
| Response.LongerEncodingDoesNotFit | src/http/response.c:273-278 | The same response with an encoding of 108, which does not fit |
| Response.ConstructedIs | src/http/response.c:29-68 | Content-Length is the body's length on every path; 304 exactly when the page is OK and its hash is what the client has, without body and its headers; else the page, compressed as accepted |
| Response.EncodingIsRightIff | src/http/response.c:181-210 | The Content-Encoding sent is right if and only if the field was empty or is written on this path |
| Response.StaleEncodingIsSent | src/http/response.c:181-210 | A row that answered with gzip and was not reset sends a plain page as gzip |
| Response.ConstructedReadsBack | src/http/response.c:29-68 | What construct_response sends reads back as meant |
| ResponseHeaders.ConstructedReadsByName | src/http/response.c:29-68 | What a client reads of a constructed response, by name: 304 without body when it has the page; else the date, the language, the hash and time of a page that was found, the length of the body, the type, and the encoding |
| ResponseHeaders.TypeByExtension | src/http/response.c:93-116 | The type is the one of the file's extension, case aside, for a page that was found, and text/html else |
| ResponseHeaders.PageIsSentWithItsType | src/http/response.c:93-116 | And so a client reads it |
| Response.Compress | src/http/response.c:181-210 | gzip wins over deflate, and neither leaves the page |
| Response.ConstructResponse | src/http/response.c:29-68 | The page in the buffer is replaced by the whole message |
| Tokenizer.StrTok | src/http/request.c:25-28 | One call of strtok_r gives the next token |
| Request.ControlPattern | src/http/request.c:130-136 | The control pattern matches exactly method, space, target, space, version |
| Request.HeaderPattern | src/http/request.c:190-197 | The header pattern matches exactly name, colon, blank, value |
| Request.HeaderIsDefinedIff | src/http/request.c:199-249 | All copies of a header stay in their arrays if and only if it is not an If-None-Match of 65 to 255 characters |
| Request.ControlIsDefinedIff | src/http/request.c:138-152 | Those of a request line do if and only if its method has at most 7 letters |
| Request.ParseControlData | src/http/request.c:127-184 | The token loop stores up to four tokens, stops at one too long, and keeps what was stored; undefined for a method too long |
| Request.ParseHttpRequest | src/http/request.c:16-38 | The line loop computes ParseRequest, which reads up to the first NUL, for all bytes received and every outcome of malloc |
| RequestLaws.HeadersAreStored | src/http/request.c:188-252 | Well-formed header lines without NUL are all stored, in turn, if and only if each stays in its field |
| RequestLaws.HeaderOrderIsIrrelevant | src/http/request.c:28-34 | Every order of header lines without NUL and with distinct names, case aside, gives the same outcome, and it is defined if and only if all stay in their fields |
| RequestLaws.NulHeaderIsTheLast | src/http/request.c:24-34 | Of headers, one of which has a NUL in its value, those before it are stored, it up to the NUL, and nothing behind it, whatever that is |
| RequestLaws.NulOrderIsIrrelevantIff | src/http/request.c:24-34 | The place of such a header before or behind one of another name, both staying in their fields, is irrelevant if and only if the other changes nothing that is stored |
| RequestLaws.NulMakesOrderMatter | src/http/request.c:24-34 | Two orders of "X: a NUL b" and "Host: h" with different outcomes |
| RequestLaws.LongTagIsUndefined | src/http/request.c:238-241 | An entity tag of 80 characters |
| RequestLaws.LongMethodIsUndefined | src/http/request.c:149-152 | A method of eight letters |
| RequestLaws.UnknownChangeNothing | src/http/request.c:213-251 | Headers with other names change nothing |
| RequestLaws.ZeroMeans | src/http/request.c:26-37 | For all bytes received the result is 0 if and only if there is a line before the first NUL, its copies stay in their arrays, all header lines are well formed, and the request line too when it is alone |
| RequestLaws.ZeroWithoutRequestLine | src/http/request.c:26-37 | "x" and a header "A: b" give 0, although "x" is no request line |
| RequestLaws.MethodRoundTrip | src/http/request.c:254-275 | Each printed method is recognised whatever follows it |
| RequestLaws.RequestLineRoundTrip | src/http/request.c:127-184 | A request line of up to four tokens reads back |
| RequestLaws.RequestRoundTrip | test/simulator/http_cases.c:210-249 | A printed request reads back field by field |
| RequestLaws.StrtolRoundTrip | src/http/request.c:246-249 | A printed length reads back, for every long |
| RequestLaws.FullRequestRoundTrip | src/http/request.c:188-252 | With the three headers the printer does not write, every field the parser fills reads back |

## Left out

- Sockets, ppoll, BIO, OpenSSL, SQLite, the file system, the clock, zlib and SHA-256: their results are parameters.
- recv_bio and recv_ssl: the listener's read step appends a complete request, asks for a retry, or fails. They end what they read with a NUL and count it; the parser's `received` is the bytes with or without it.
- Pushes by the listener without a pop (src/listener.c:171, 182, 195, 202), and POLLOUT events, which are never asked for: not steps of the protocol; Listener.Visit logs them.
- The second TLS listener and its slot in the poll array.
- Signal reentrancy: stop is raised outside of critical sections.
- Protocol steps leave out thread_id, which only log lines read.
- SessionCache.Cache.PopRequest: without the wait; waiting, waking and retrying are the worker steps WCheck, WSleep, WSpurious and WLock of the protocol.
- MarkedDescriptors.MarkedFds.Mark: counters do not overflow; a descriptor without a counter is not covered, since for it the source leaves the array (which cache sizes have none is CountersSufficeIff).
- MarkedDescriptors.MarkedFds.Unmark: as for Mark.
- MarkedDescriptors.MarkedFds.IsMarked: as for Mark.
- PollArrays.PollArray.RemoveByIndex: as for Mark, whose counter it clears.
- SessionCache.Cache.PushRequest: as for Mark, and only where it marks; every other push is covered for all descriptors.
- InPlaceReplacing.StrReplace: realloc succeeds and sizes stay an `int`, as the function asserts; a search behind the terminator that is not quiet ends the model.
- Templates.InTurnIsAtOnce: a search behind the terminator is taken to find nothing here; that it does is the `ok` of StrReplace and of the loaders.
- Loader.LoadIndex: the count of the list buffer is kept in a variable, since it runs ahead of the capacity when a line is cut.
- Response.ConstructResponse: a compressor that fails or does not fit; the uncompressed branch for it is never taken in the source, whose test is on an unsigned number.
- Request.ParseHttpRequest: what stands in the row after a copy has left its array, or after a match against NULL.
- RequestLaws.RequestRoundTrip: the printer of the tests writes one path field; here up to four tokens are joined by slashes, and the version is printed as it is stored, with its prefix.
- construct_upgrade_to_https_response, validate_request_headers, the table of uri_to_file_name and gen_error_body: finite choices without interplay.
- Logging, properties, migrations, static file lookup, regex compilation (the two patterns are modelled directly).
