# Verified models of four asio components

This project models four stateful parts of the asio headers that obZrv carries, and proves
what they promise over whole runs. `dafny verify dfyconfig.toml` checks all of it.

* **The stream buffer** (`asio/basic_streambuf.hpp`). `Streambuf.BasicStreambuf` is the object:
  one character array, shifted and grown in place, with six area pointers as offsets.
  `StreambufSpec` says what each operation does to a snapshot of it, and `StreambufRuns`
  treats any sequence of operations, with throwing ones in between.
* **The socket stream buffer** (`asio/basic_socket_streambuf.hpp`).
  `SocketStreambuf.BasicSocketStreambuf` is the object, over a native socket. `SocketSpec` has
  the retry loops, moves and closing, `ConnectSpec` the loop over endpoints, and `SocketRuns`
  conservation in each direction. `SocketSafety` has the condition under which output is
  never resent, `SocketStreams` interleaved reads and writes, and `SocketSessions` whole lives of
  a stream, with close, connect and moves in them. The operating system and the clock are
  scripts of arbitrary answers, one event for each pass of a loop. A script may end while a loop is
  still retrying; the call is then `Waiting`. So the loops need no bound, and a
  property of all scripts holds at every point of every execution.
* **The type-erased handler** (`asio/any_completion_handler.hpp`). `HandlerSpec` is a state
  machine in which the body and the destructor of a handler are programs over the wrappers,
  so that running handlers re-enter them at will, and in which the exception of an empty
  call unwinds them. `HandlerRuntime` has the wrappers as objects,
  `HandlerProof` shows the invariant, `HandlerRuns` what follows from it, and `HandlerEnds` that
  every run ends. `HandlerNested` says what a program means without a call stack, by evaluating
  handlers and destructors inside the operations that run them, and proves that the machine
  does just that. `AlignedSpec` and `AlignedMemory` are the over-aligned allocation with its
  hidden trailer.
* **Binder nests** (`asio/bind_*.hpp`, `asio/associated_*.hpp`, `asio/async_result.hpp`).
  `BinderNest` has the binders and the lookups through them, `AsyncInitiate` the peeling of a
  token and the rewrapping of its handler, `Signatures` the choice of the base class.

Each imperative class is proved to act on its snapshot as the specification functions say,
and the lemmas are about those functions. The `...Replay` modules take the objects through
whole runs, so that the theorems about runs hold of the objects too.

## Where the code and its promises part

* `prepare` moves the characters before it throws (`asio/basic_streambuf.hpp:322-340`). The
  documentation does not say that a failed call may change the input sequence;
  `FailedReserveEffect` gives the new input, `FailedReserveHarmlessIff` when it is the old one,
  and `SlideReached` a run that ends with another one.
* `commit` and `consume` convert a `size_t` to `int`; `CommitExactIff` and `ConsumeExactIff`
  give the exact range in which they do what is documented, `CommitNarrows` and
  `ConsumeNarrows` reach distances outside it from a new buffer, and `NeverNarrowsIff` says
  that a maximum size of at most INT_MAX is what rules them out.
* Operations past the expiry time are documented to fail with `operation_aborted`
  (`asio/basic_socket_streambuf.hpp:256-259`); the code sets `timed_out`: `OverflowExpires`,
  `UnderflowExpires`, and for `connect` the second cause in `FailureCauses`.
* A flush that fails after a partial send keeps its whole put area, so the next one sends that
  prefix again (`ResendReached` is such a run). `FlushSafeIff` is the condition on the stream
  before a flush that rules this out for all answers of the system, `AlwaysConservedIff` lifts
  it to runs, `PlanDecides` decides it before the run, and `OutputConservedIff` tells from a run
  whether it happened.
* `close` overwrites the error of its flush and reports success with output lost
  (`LossReached`); `CloseSafeIff` is the condition before the call that rules this out.
* A move sets the put area of the target to start at the old `pptr`; `MoveConservesIff` says
  when that drops output, and `SessionKeepsIff` when a whole run drops output or unread input.
* `connect` is documented to succeed when a connection was established
  (`asio/basic_socket_streambuf.hpp:182-186`). A wait that times out, followed by a clear
  SO_ERROR, counts as success as well. The events of `ConnectSpec` record whether there is a
  connection, as far as the answers of the system vouch for one; `SuccessGenuineIff` says when
  a reported success is one, and `UnconfirmedConnection` that it need not be.
* `allocate` throws `bad_alloc` when `size + align - 1` overflows (`BadAllocIff`), but the sizes
  it is given never do: `AllocatorNeverOverflows`. What can overflow unnoticed is the product
  `sizeof(T) * n`, and the addition of the trailer's size
  (`asio/any_completion_handler.hpp:140-150`, 521-522). The raw block is then too small for the
  objects, and the trailer may be written outside it: `AllocatorRoomIff` is the exact condition,
  `TrailerFitsIff` the one for the trailer alone, and `TrailerOutside` an instance.
* A wrapper that was called keeps its function table, and a lookup of its associated executor
  then uses a null block: `DispatchAgrees` excludes exactly these wrappers.
* `bind_executor` around an `executor_binder` of the same executor type replaces the inner
  executor (`asio/bind_executor.hpp:156-169` with 489-491). So rewrapping is the identity exactly
  on nests whose neighbouring executor binders of one type agree, down to the first reference
  wrapper or handler (`RewrappedIff`). The nests that can be built are among them
  (`WellBuiltSpine`).

## Model

| member | source | states |
|---|---|---|
| `StreambufSpec.Initial` | asio/basic_streambuf.hpp:131-141 | a new buffer meets the run invariant and has an empty input sequence |
| `StreambufSpec.Reserve` | asio/basic_streambuf.hpp:308-346 | both ways out, the throw included, keep the run invariant: ordered areas within max_size() and a vector of max(epptr, 1) characters; success leaves room for the request |
| `StreambufSpec.ReserveMeaning` | asio/basic_streambuf.hpp:209-214 | a throw happens exactly if size()+n > max_size(); otherwise the input is unchanged and the put area ends at max(old end, size()+n) |
| `StreambufSpec.ReserveAreas` | asio/basic_streambuf.hpp:313-345 | where there is room already nothing moves at all; otherwise the input moves to the front of the array |
| `StreambufSpec.FailedReserveEffect` | asio/basic_streambuf.hpp:321-341 | after a throw the pointers are as before and the input has slid by gptr except for its tail; no change if gptr is 0 or at least size() |
| `StreambufSpec.FailedReserveHarmlessIff` | asio/basic_streambuf.hpp:321-341 | for given pointers a throw preserves every possible input iff gptr is 0 or at least size() |
| `StreambufSpec.OverflowRequestThrows` | asio/basic_streambuf.hpp:287-297 | with a full put area the request of overflow throws exactly at maximum size, and then gptr is 0 |
| `StreambufSpec.OverflowMeaning` | asio/basic_streambuf.hpp:276-306 | overflow of a character appends it to the input, or throws exactly if size() is max_size() and then preserves the input |
| `StreambufSpec.OverflowGrowth` | asio/basic_streambuf.hpp:287-297 | a full put area grows to min(size()+128, max_size()) and never shrinks; one with room stays |
| `StreambufSpec.ReadMeaning` | asio/basic_streambuf.hpp:263-274 | readers see end of file iff size() is 0, else the oldest character, however far egptr lags; only a bump removes it |
| `StreambufSpec.AllReadable` | asio/basic_streambuf.hpp:233-274 | commit, consume and underflow each move egptr to pptr and leave the other pointers where they belong |
| `StreambufSpec.CommitExactIff` | asio/basic_streambuf.hpp:233-238 | commit moves pptr by the documented distance iff that distance fits an int |
| `StreambufSpec.ConsumeExactIff` | asio/basic_streambuf.hpp:247-254 | the same for consume and gptr |
| `StreambufSpec.AsIntMeaning` | asio/basic_streambuf.hpp:236-253 | the narrowing keeps the value modulo 2^32 and lands in the range of an int |
| `StreambufSpec.FillCommit` | asio/basic_streambuf.hpp:221-238 | characters stored in the prepared range are invisible until committed, and then follow the input in order |
| `StreambufSpec.ReadSizeMeaning` | asio/basic_streambuf.hpp:353-359 | preparing the preferred read size never throws; that size is 0 iff the limit is 0 or the buffer is full |
| `StreambufSpec.ReadSizeExact` | asio/basic_streambuf.hpp:353-359 | a read is within the preferred size iff the limit and max_size() admit it, and it is no more than 512 characters or fits the capacity |
| `StreambufSpec.ReadLoopBounded` | asio/basic_streambuf.hpp:353-359 | a loop that prepares the preferred size and commits at least one character ends within max_size()-size() rounds |
| `StreambufRuns.StepConserves` | asio/basic_streambuf.hpp:214-346 | each operation that does not slide the input keeps: removed, then input = old input, then added |
| `StreambufRuns.RunIsFifo` | asio/basic_streambuf.hpp:214-346 | over any run, throws included, unless a prepare throws with gptr strictly inside the input, the buffer is a FIFO queue |
| `StreambufRuns.FreshRunIsFifo` | asio/basic_streambuf.hpp:131-346 | from construction, over any run without throws: characters removed followed by the input are all those committed or put |
| `StreambufRuns.SlideReached` | asio/basic_streambuf.hpp:321-341 | a run from construction without throws after which a throwing prepare turns the unread "bc" into "cc" |
| `StreambufRuns.RunConservesCounts` | asio/basic_streambuf.hpp:214-346 | the counts are conserved over every run, even one that slides the input |
| `StreambufRuns.SmallBuffersAllowed` | asio/basic_streambuf.hpp:233-254 | with max_size() at most INT_MAX no run ever meets the narrowing of commit and consume |
| `StreambufRuns.NeverNarrowsIff` | asio/basic_streambuf.hpp:233-254 | all runs from construction avoid the narrowing iff max_size() is at most INT_MAX |
| `StreambufRuns.CommitNarrows` | asio/basic_streambuf.hpp:233-238 | for every m in (INT_MAX, max_size()], after prepare(m) on a new buffer there is room for m and committing m moves pptr elsewhere |
| `StreambufRuns.ConsumeNarrows` | asio/basic_streambuf.hpp:247-254 | for every such m up to twice INT_MAX, two exact commits make an input of m, and consuming m moves gptr elsewhere |
| `StreambufRuns.GrowthIsHighWater` | asio/basic_streambuf.hpp:308-346 | over any run, throws included, the end of the put area is the maximum of its start value and size()+n of all successful requests |
| `StreambufRuns.FreshGrowth` | asio/basic_streambuf.hpp:137-140 | from construction that start value is min(max_size(), 128) |
| `Streambuf.BasicStreambuf.constructor` | asio/basic_streambuf.hpp:131-141 | the object starts in the initial snapshot |
| `Streambuf.BasicStreambuf.Size` | asio/basic_streambuf.hpp:158-161 | the length of the input sequence |
| `Streambuf.BasicStreambuf.Data` | asio/basic_streambuf.hpp:192-196 | the range returned holds the input sequence |
| `Streambuf.BasicStreambuf.MoveToStart` | asio/basic_streambuf.hpp:325 | the overlapping move, done in place, yields the moved characters followed by the untouched rest |
| `Streambuf.BasicStreambuf.Reserve` | asio/basic_streambuf.hpp:308-346 | in-place shift and growth equal the specified snapshot, for the throw as well |
| `Streambuf.BasicStreambuf.MakeRoom` | asio/basic_streambuf.hpp:321-345 | the same for a put area that is too small, with no size_t subtraction below zero |
| `Streambuf.BasicStreambuf.Prepare` | asio/basic_streambuf.hpp:214-219 | throws iff size()+n > max_size(), else returns n characters inside the put area |
| `Streambuf.BasicStreambuf.Commit` | asio/basic_streambuf.hpp:233-238 | the pointer moved through int, and the documented effect whenever that is exact |
| `Streambuf.BasicStreambuf.Consume` | asio/basic_streambuf.hpp:247-254 | the same for the input sequence |
| `Streambuf.BasicStreambuf.Underflow` | asio/basic_streambuf.hpp:263-274 | returns the first input character or eof and makes the whole input readable |
| `Streambuf.BasicStreambuf.Overflow` | asio/basic_streambuf.hpp:283-306 | acts as specified for a character, does nothing for eof |
| `Streambuf.BasicStreambuf.ReadSizeHelper` | asio/basic_streambuf.hpp:353-359 | computes, without wrapping, the largest size that fits in this sense |
| `StreambufReplay.Replay` | asio/basic_streambuf.hpp:214-346 | the object itself goes through any allowed run as specified, with the same throws and characters |
| `StreambufReplay.FifoReplay` | asio/basic_streambuf.hpp:131-346 | a new object goes through the run of the given operations, and if nothing throws, the characters taken out and then its input are the characters put in |
| `SocketSpec.SendAll` | asio/basic_socket_streambuf.hpp:359-392 | the send loop succeeds exactly if everything was sent |
| `SocketSpec.SendOutcome` | asio/basic_socket_streambuf.hpp:359-392 | passes are used in order and in time; a failure is that of the last pass, with its error |
| `SocketSpec.SendTotal` | asio/basic_socket_streambuf.hpp:359-392 | what was sent is what the passes took, up to the whole, and the loop stops with the pass that completes it |
| `SocketSpec.SendCodes` | asio/basic_socket_streambuf.hpp:374-391 | the error code is clear after a pass that sent, that of poll_write after one that waited, and untouched without a pass |
| `SocketSpec.SuccessfulOverflow` | asio/basic_socket_streambuf.hpp:337-409 | a successful overflow returns the character, or some character for eof, leaves wire + pending extended by it, and a buffered one regains all 512 characters |
| `SocketSpec.UnsuccessfulOverflow` | asio/basic_socket_streambuf.hpp:359-392 | a failed or unfinished overflow sent a proper prefix of the pending output and left the put area intact; nothing without a buffer |
| `SocketSpec.OverflowReturns` | asio/basic_socket_streambuf.hpp:353-408 | eof is returned iff not everything was sent, and c itself otherwise if it is a character |
| `SocketSpec.OverflowOutcome` | asio/basic_socket_streambuf.hpp:337-409 | answers are used in order; a failure leaves the error of its last pass, in the fields of that pass; without anything to send none is used and the error code stays |
| `SocketSpec.SputcMeaning` | asio/basic_socket_streambuf.hpp:337-409 | with room the character is stored and nothing is sent; otherwise it is a flush, and the value returned tells whether the character was accepted |
| `SocketSpec.SetbufMeaning` | asio/basic_socket_streambuf.hpp:416-427 | succeeds iff asked to unbuffer with nothing pending, and changes nothing otherwise |
| `SocketSpec.FlushSafeIff` | asio/basic_socket_streambuf.hpp:353-397 | a failing flush leaves wire + pending alone for all answers of the system iff, before it, the stream is unbuffered or has at most one character pending |
| `SocketSpec.FailedThenFlushed` | asio/basic_socket_streambuf.hpp:353-397 | if the flush right after a failed one succeeds, it sends the whole pending output again |
| `SocketRuns.ResentAfterFailure` | asio/basic_socket_streambuf.hpp:353-397 | so does the first flush that succeeds after a failure, through any puts and further failures, followed by what was put since |
| `SocketSpec.RecvSome` | asio/basic_socket_streambuf.hpp:292-333 | success exactly with data, of at most 504 characters |
| `SocketSpec.RecvOutcome` | asio/basic_socket_streambuf.hpp:292-333 | only passes without data are retried; the last one delivers its data or fails with its own error |
| `SocketSpec.UnderflowOutcome` | asio/basic_socket_streambuf.hpp:283-335 | a refill leaves the error of the pass that failed, and none when characters came; with unread characters it fails and touches nothing |
| `SocketSpec.SbumpcMeaning` | asio/basic_socket_streambuf.hpp:283-335 | takes exactly the first unread character, refilling only when there is none |
| `SocketSpec.OverflowExpires` | asio/basic_socket_streambuf.hpp:359-367 | an overflow still retrying after any passes fails at the first pass past the expiry time, with timed_out and nothing more sent |
| `SocketSpec.UnderflowExpires` | asio/basic_socket_streambuf.hpp:292-300 | the same for a refill |
| `SocketSpec.MoveConservesIff` | asio/basic_socket_streambuf.hpp:139-171 | a move keeps wire + pending iff nothing was pending; mode and remaining room carry over |
| `SocketSpec.MovedThenFlushed` | asio/basic_socket_streambuf.hpp:394-405 | the next successful flush of a moved buffered stream regains 512 characters |
| `SocketSpec.ResetMeaning` | asio/basic_socket_streambuf.hpp:435-445 | all 512 characters of the put area are free again, the get area is empty at 8, everything else stays |
| `SocketSpec.CloseLosesIff` | asio/basic_socket_streambuf.hpp:219-226 | a close that reports success has put the pending output on the wire iff its flush succeeded |
| `SocketSpec.CloseSafeIff` | asio/basic_socket_streambuf.hpp:219-226 | a close that reports success has sent the pending output for all answers of the system iff nothing is pending before it |
| `SocketSpec.CloseOutcome` | asio/basic_socket_streambuf.hpp:219-226 | reports the error of closing the socket and succeeds iff there was none, with both areas free again; if closing failed, what the flush left is still there |
| `SocketRuns.OutRunLedger` | asio/basic_socket_streambuf.hpp:337-427 | over any run the wire is what all flushes sent, and the accepted characters are those of the whole flushes, then the pending ones |
| `SocketRuns.OutputConservedIff` | asio/basic_socket_streambuf.hpp:337-427 | over any run of puts, flushes and mode switches: wire + pending = accepted stream, iff every failed or unfinished flush had sent nothing |
| `SocketSafety.AlwaysConservedIff` | asio/basic_socket_streambuf.hpp:337-427 | a sequence of operations conserves the output for all answers of the system iff for all of them every flush it comes to is unbuffered or has at most one character pending |
| `SocketSafety.PlanDecides` | asio/basic_socket_streambuf.hpp:337-427 | a sequence of operations conserves the output for all answers of the system iff a recursion over it says so, which knows only the mode, the room and the number of pending characters |
| `SocketSafety.GuardedNoFragment` | asio/basic_socket_streambuf.hpp:337-427 | one run with that guard before each of its flushes leaves no fragment on the wire |
| `SocketSafety.ResendReached` | asio/basic_socket_streambuf.hpp:353-397 | a run from a new stream that accepts "ab" and puts "aab" on the wire |
| `SocketSafety.LossReached` | asio/basic_socket_streambuf.hpp:219-226 | a run from a new stream whose close reports success with the accepted character lost |
| `SocketRuns.UnbufferedRunConserves` | asio/basic_socket_streambuf.hpp:347-352 | an unbuffered stream always conserves |
| `SocketRuns.UnderflowPasses` | asio/basic_socket_streambuf.hpp:283-335 | a refill puts gptr at 8, makes exactly the received characters readable and returns the first; otherwise only the error changes |
| `SocketRuns.StepDelivers` | asio/basic_socket_streambuf.hpp:283-335 | a bump hands out the first unread character and no other, a peek none |
| `SocketRuns.InputConserved` | asio/basic_socket_streambuf.hpp:283-335 | over any run, whatever fails: unread + newly received = delivered + still unread |
| `SocketRuns.FreshInputConserved` | asio/basic_socket_streambuf.hpp:283-335 | from a new connection: delivered + unread = received |
| `SocketStreams.StreamRunAccounts` | asio/basic_socket_streambuf.hpp:283-427 | both accounts hold over every interleaving of reads and writes, which share the error code and the expiry time |
| `SocketStreams.ExpiresAtSend` | asio/basic_socket_streambuf.hpp:254-266 | the next overflow goes by the new time: timed_out when its first pass is late by it, success when that pass is not and takes everything |
| `SocketStreams.ExpiresAtRecv` | asio/basic_socket_streambuf.hpp:254-266 | the same for the next refill |
| `SocketSessions.SessionAccounts` | asio/basic_socket_streambuf.hpp:139-427 | over any run of reads, writes, closes, connects and moves: accepted output was sent whole, dropped or is pending, in that order; received input was delivered, skipped or is unread; the wire is what the flushes sent |
| `SocketSessions.SessionKeepsIff` | asio/basic_socket_streambuf.hpp:139-427 | over any such run input is kept iff none was skipped, and where no flush was cut off, output is kept iff none was dropped |
| `SocketReplay.ReplayOut` | asio/basic_socket_streambuf.hpp:337-427 | the object's put area and socket go through any output run as specified |
| `SocketReplay.ReplayIn` | asio/basic_socket_streambuf.hpp:283-335 | the object's get area and socket go through any input run as specified |
| `SocketReplay.ReplayBoth` | asio/basic_socket_streambuf.hpp:283-427 | the object goes through any interleaving of both as specified |
| `SessionReplay.Perform` | asio/basic_socket_streambuf.hpp:139-427 | one operation on the object, close, connect and move included, acts as the session step; a move goes on with its target |
| `SessionReplay.Replay` | asio/basic_socket_streambuf.hpp:139-427 | the object and the targets it is moved into go through any such run as specified |
| `SessionReplay.Live` | asio/basic_socket_streambuf.hpp:121-427 | from a new object, both accounts hold of its socket, its pending output and its unread input after any run |
| `SocketStreambuf.BasicSocketStreambuf.constructor` | asio/basic_socket_streambuf.hpp:121-127 | both areas empty, buffered, no error, latest expiry |
| `SocketStreambuf.BasicSocketStreambuf.FromSocket` | asio/basic_socket_streambuf.hpp:130-136 | the same over a socket that is taken over |
| `SocketStreambuf.BasicSocketStreambuf.InitBuffers` | asio/basic_socket_streambuf.hpp:435-445 | both areas empty, in the current mode |
| `SocketStreambuf.BasicSocketStreambuf.Underflow` | asio/basic_socket_streambuf.hpp:283-335 | refines the specified refill, output side untouched |
| `SocketStreambuf.BasicSocketStreambuf.Receive` | asio/basic_socket_streambuf.hpp:292-333 | the loop stores at offset 8 exactly what the specification delivers |
| `SocketStreambuf.BasicSocketStreambuf.Overflow` | asio/basic_socket_streambuf.hpp:337-409 | refines the specified flush, input side untouched; returns eof iff it did not complete, and c itself otherwise if it is a character |
| `SocketStreambuf.BasicSocketStreambuf.Transmit` | asio/basic_socket_streambuf.hpp:359-392 | the loop puts on the wire exactly the prefix the specification says |
| `SocketStreambuf.BasicSocketStreambuf.Sync` | asio/basic_socket_streambuf.hpp:411-414 | a flush, which returns eof iff it did not complete |
| `SocketStreambuf.BasicSocketStreambuf.Destroy` | asio/basic_socket_streambuf.hpp:174-178 | the destructor leaves on the wire what a flush would |
| `SocketStreambuf.BasicSocketStreambuf.Setbuf` | asio/basic_socket_streambuf.hpp:416-427 | switches to unbuffered mode and succeeds iff asked to and nothing is pending, sending nothing |
| `SocketStreambuf.BasicSocketStreambuf.CloseStream` | asio/basic_socket_streambuf.hpp:219-226 | refines the specified close for both directions |
| `SocketStreambuf.BasicSocketStreambuf.MoveFrom` | asio/basic_socket_streambuf.hpp:139-152 | the target has the unread input, mode, socket and remaining room; the source is as new |
| `SocketStreambuf.BasicSocketStreambuf.MoveAssign` | asio/basic_socket_streambuf.hpp:155-171 | the target is closed, then as for construction; the source is as new even if the target was unbuffered; the two stay separate; assignment to itself closes and resets the object |
| `SocketStreambuf.BasicSocketStreambuf.ConnectToEndpoints` | asio/basic_socket_streambuf.hpp:465-526 | ends as `ConnectOutcome` says, attempts endpoints once each in order, and on success the last socket opened is the connected one |
| `SocketStreambuf.BasicSocketStreambuf.Connect` | asio/basic_socket_streambuf.hpp:187-193 | resets both areas, leaves the error code of the loop, timed_out past the expiry time, and succeeds iff the endpoint does in time |
| `ConnectSpec.StopsAt` | asio/basic_socket_streambuf.hpp:475-524 | the first endpoint the loop does not get past |
| `ConnectSpec.ConnectOutcome` | asio/basic_socket_streambuf.hpp:474-524 | in the fields of the answers: after any endpoints given up, a late one leaves timed_out and is not attempted, one that succeeds no error, one whose SO_ERROR cannot be read that error, and the end of the list the error of the last one |
| `ConnectSpec.GivenUpFirst` | asio/basic_socket_streambuf.hpp:475-524 | every list of endpoints is in exactly one of these cases |
| `ConnectSpec.ConnectedIff` | asio/basic_socket_streambuf.hpp:465-526 | no error iff some endpoint connects after all before it failed, and it is the last one attempted |
| `ConnectSpec.FailureCauses` | asio/basic_socket_streambuf.hpp:474-521 | otherwise: no endpoints, the deadline, an SO_ERROR query that was reached and failed, or the error of the last endpoint |
| `ConnectSpec.SuccessGenuineIff` | asio/basic_socket_streambuf.hpp:182-193 | when the loop reports success, its last endpoint is connected whatever the truth behind the system's answers iff the wait for it did not time out |
| `ConnectSpec.UnconfirmedConnection` | asio/basic_socket_streambuf.hpp:506-523 | after any refused endpoints, one more whose wait times out makes the loop report success without a connection |
| `HandlerProof.StepKeeps` | asio/any_completion_handler.hpp:91-191 | every step of every program keeps the ownership invariant |
| `HandlerProof.AssignOwned` | asio/any_completion_handler.hpp:683-689 | move assignment releases exactly the old block of its target, and nothing on self-move |
| `HandlerProof.CallKeeps` | asio/any_completion_handler.hpp:745-756 | a call keeps the invariant with the block freed before the handler runs |
| `HandlerProof.UnwoundCounts` | asio/any_completion_handler.hpp:749-755 | the exception of an empty call drops no destruction and no release that is due |
| `HandlerProof.EmptyCallThrows` | asio/any_completion_handler.hpp:749-755 | a call of an empty wrapper skips the operations that were to follow; the exception leaves the program, is caught by a try block, destroys the handler it leaves and goes on, or ends the program at a destructor; nothing else changes |
| `HandlerProof.ExceptionGoesOn` | asio/any_completion_handler.hpp:176-190 | the same for the exception once it has left a handler |
| `HandlerRuns.Ownership` | asio/any_completion_handler.hpp:655-756 | over any re-entrant run: each target invoked at most once, each block freed at most once and before its handler runs, no block shared, allocated blocks owned or being released |
| `HandlerRuns.Quiescent` | asio/any_completion_handler.hpp:655-756 | at the end allocated blocks are exactly the non-null impl_, and all others were freed once and their handlers destroyed once |
| `HandlerEnds.UnwoundWeight` | asio/any_completion_handler.hpp:749-755 | an exception on its way out of the running handlers adds no work to the call stack but itself |
| `HandlerEnds.StepWeight` | asio/any_completion_handler.hpp:655-756 | every step, re-entrant calls and unwinding included, leaves less to do: what is on the stack and what the live targets can still put there |
| `HandlerEnds.RunsEnd` | asio/any_completion_handler.hpp:655-756 | every program over wrappers stops within a number of steps computed from it |
| `HandlerEnds.EveryRunAccounts` | asio/any_completion_handler.hpp:655-756 | it stops at an uncaught exception, before undefined use of a wrapper, or at its end, where allocated blocks are exactly the non-null impl_, and all others were freed once and their handlers destroyed once |
| `HandlerNested.Refines` | asio/any_completion_handler.hpp:655-756 | from any sound state, with anything left to do after it, the machine reaches the memory and the exit that the nested evaluation of a program has |
| `HandlerNested.MachineEvaluates` | asio/any_completion_handler.hpp:655-756 | every program ends in the memory its nested evaluation leaves, normally, by an uncaught exception, or before undefined use of a wrapper, as the evaluation does |
| `HandlerRuns.SpentOnlyByCalls` | asio/any_completion_handler.hpp:671-756 | in every reachable state only a call of a handler leaves a wrapper with a table and no block, its own with the handler's table; any other step keeps the multiset of such tables within what it was |
| `HandlerRuns.DispatchAgrees` | asio/any_completion_handler.hpp:787-800 | in every reachable state the executor lookup dispatches to a live block of the table's type, or has no table, unless the wrapper was called |
| `HandlerRuns.SpentReachable` | asio/any_completion_handler.hpp:745-753 | one call reaches the excepted state |
| `HandlerRuns.SelfMove` | asio/any_completion_handler.hpp:683-689 | self-move assignment changes nothing |
| `HandlerRuntime.AnyCompletionHandler.MoveFrom` | asio/any_completion_handler.hpp:671-677 | takes both fields and leaves the source empty |
| `HandlerRuntime.AnyCompletionHandler.MoveAssign` | asio/any_completion_handler.hpp:683-689 | takes both fields, aliasing allowed; the temporary to be destroyed has the old ones |
| `HandlerRuntime.AnyCompletionHandler.AssignNull` | asio/any_completion_handler.hpp:692-696 | the wrapper is empty before the old target is destroyed |
| `HandlerRuntime.AnyCompletionHandler.Swap` | asio/any_completion_handler.hpp:718-722 | exchanges both fields |
| `HandlerRuntime.Runtime.Make` | asio/any_completion_handler.hpp:653-665 | a new block, the table of its type, nothing else changed |
| `HandlerRuntime.Runtime.Destruct` | asio/any_completion_handler.hpp:699-703 | destroys the target, then frees the block, if there is one |
| `HandlerRuntime.Runtime.Call` | asio/any_completion_handler.hpp:745-756 | wrapper emptied, block freed, then the handler runs; for an empty wrapper an exception skips what was to follow and goes where `EmptyCallThrows` says |
| `HandlerRuntime.Runtime.StepOnce` | asio/any_completion_handler.hpp:655-756 | the objects refine the state machine step by step |
| `HandlerReplay.Replay` | asio/any_completion_handler.hpp:655-756 | the wrapper objects go through any number of steps of a program as the state machine does |
| `HandlerReplay.Execute` | asio/any_completion_handler.hpp:655-756 | the wrapper objects reach the state of the given program after n steps; if that is its end, the allocated blocks are exactly those they hold, and no handler was invoked twice |
| `HandlerReplay.ExecuteAll` | asio/any_completion_handler.hpp:655-756 | the wrapper objects go through the whole of any program, stop as the state machine does, and end in the memory of its nested evaluation |
| `AlignedSpec.AlignUp` | asio/any_completion_handler.hpp:145-146 | the aligned address lies in [base, base+align) |
| `AlignedSpec.BadAllocIff` | asio/any_completion_handler.hpp:140-155 | with any arguments, the bad_alloc path is taken iff size+align-1 overflows, for every base address |
| `AlignedSpec.AllocatorNeverOverflows` | asio/any_completion_handler.hpp:515-526 | with the arguments the allocator passes, wrapped product or not, it is never taken |
| `AlignedSpec.TrailerFitsIff` | asio/any_completion_handler.hpp:140-150 | the pointer is aligned and the block with its trailer lies in the raw block iff adding the trailer does not overflow |
| `AlignedSpec.AllocatorRoomIff` | asio/any_completion_handler.hpp:514-526 | the pointer returned for n objects is aligned and has room for them in its raw block, and for the trailer, iff sizeof(T)*n plus alignment and trailer does not overflow |
| `AlignedSpec.TrailerOutside` | asio/any_completion_handler.hpp:514-526 | asked for 2^64-4 characters the allocator gets a raw block of 4 bytes and the trailer is written behind it |
| `AlignedSpec.TrailerRoundTrip` | asio/any_completion_handler.hpp:149-170 | the distance read back is the one stored |
| `AlignedSpec.BaseRecovered` | asio/any_completion_handler.hpp:158-174 | deallocate finds the base and the byte count of the raw block |
| `AlignedSpec.ApplyKeeps` | asio/any_completion_handler.hpp:131-176 | allocation, user writes, deallocation and other users of the allocator keep all trailers intact and blocks apart |
| `AlignedSpec.BlockRoundTrip` | asio/any_completion_handler.hpp:131-176 | whatever happens between allocate and deallocate, exactly the raw block goes back |
| `AlignedSpec.ContentsAreWritten` | asio/any_completion_handler.hpp:131-176 | over any run that does not free a block its bytes are what its own writes made of them |
| `AlignedMemory.HandlerMemory.Allocate` | asio/any_completion_handler.hpp:131-156 | for any arguments: an aligned pointer, with the trailer inside the raw block iff its addition does not overflow, or bad_alloc exactly when the size overflows |
| `AlignedMemory.HandlerMemory.AllocateObjects` | asio/any_completion_handler.hpp:514-526 | throws iff there is no function table; otherwise an aligned pointer, with room for the objects iff nothing wraps around |
| `AlignedMemory.HandlerMemory.Deallocate` | asio/any_completion_handler.hpp:158-176 | nothing for null, else frees exactly the raw block allocated for the pointer |
| `AlignedReplay.Replay` | asio/any_completion_handler.hpp:131-176 | the memory object goes through any allowed run as specified |
| `AlignedReplay.RoundTrip` | asio/any_completion_handler.hpp:131-176 | the object allocates a block, goes through any run that does not free it, and gives back its raw block, base and byte count |
| `BinderNest.LookupFindsOutermost` | asio/bind_executor.hpp:633-663 | a lookup finds the outermost binder of its kind through all others |
| `BinderNest.LookupFallsThrough` | asio/associated_immediate_executor.hpp:119-155 | without one it finds the handler's own, else the candidate, the never-blocking form of it for an immediate executor |
| `BinderNest.DeclaredFound` | asio/associated_immediate_executor.hpp:119-155 | what a handler declares is found for its kind; without it the candidate, an immediate executor with never-blocking required |
| `BinderNest.LookupKeepsSort` | asio/bind_executor.hpp:633-663 | each of the four lookups answers with a value of its own sort |
| `BinderNest.BindLookup` | asio/bind_allocator.hpp:565-595 | binding changes the lookup of its own kind to the bound value and no other lookup |
| `BinderNest.BindLayers` | asio/bind_executor.hpp:156-169 | layer by layer: a new outermost layer, the same handler, and of the layers within only the executor binders of the same C++ type at the front hold the new executor |
| `BinderNest.OtherTypeKept` | asio/bind_executor.hpp:489-491 | an inner binder for another type of executor is left alone |
| `BinderNest.SwapNeighbours` | asio/bind_cancellation_slot.hpp:578-612 | neighbouring binders of different kinds may be swapped at any depth of a nest of binders and reference wrappers |
| `BinderNest.WithExecutorIdleIff` | asio/bind_executor.hpp:156-169 | handing an executor to a target changes nothing iff the executor binders of its C++ type at the front of the layers hold it |
| `BinderNest.WithinBuilds` | asio/bind_executor.hpp:274-334 | any construction with binders and reference wrappers yields layers in which neighbouring executor binders of one C++ type agree |
| `BinderNest.BuildableIff` | asio/bind_executor.hpp:274-334 | the nests with such layers are exactly the ones that can be constructed |
| `AsyncInitiate.PeelThenRewrap` | asio/bind_executor.hpp:558-601 | peeling a token of any depth and launching equals launching with the rewrapped token |
| `AsyncInitiate.InitiateDeliversToken` | asio/async_result.hpp:322-331 | the initiation runs exactly once, with its own arguments and with the token itself as handler |
| `AsyncInitiate.SeveralSignatures` | asio/async_result.hpp:322-331 | with several signatures nothing is peeled and any token is delivered as it is |
| `AsyncInitiate.RewrappedIff` | asio/bind_executor.hpp:558-601 | peeling and rewrapping is the identity iff neighbouring executor binders of one C++ type agree among the layers down to the first reference wrapper or handler |
| `AsyncInitiate.InitiateKeepsAssociations` | asio/bind_cancellation_slot.hpp:497-543 | every association of the delivered handler is the token's, for any nest |
| `Signatures.AnyLvalue` | asio/async_result.hpp:206-223 | the fold finds an lvalue-qualified signature iff there is one |
| `Signatures.AnyRvalue` | asio/async_result.hpp:244-261 | the same for rvalue-qualified ones |
| `Signatures.SelectionMeaning` | asio/async_result.hpp:419-437 | the base chain strips at most once, and not at all iff some signature is lvalue-qualified or none is rvalue-qualified; stripping keeps return and argument types and removes qualifiers and noexcept |

## Left out

- Putback into either buffer, `xsputn` and `xsgetn`, and seeking: not overridden by these classes.
- Failure to allocate a larger vector or a handler block.
- Address arithmetic: areas are offsets, so `gptr()+n` in `consume` does not wrap and vector reallocation is invisible.
- `capacity()` growth: how far a vector outgrows a request is any value that holds it.
- The `ASIO_WINDOWS_RUNTIME` branches and the preprocessor and concept variants.
- Switching the socket to non-blocking mode: it only sets an error code that the following call overwrites.
- `timeout()`: what the poll calls answer is arbitrary, whatever time they are given.
- `connect` with resolver arguments: the resolver is not part of this model, and the loop it ends in is.
- Concurrent use of one stream buffer or wrapper: the originals are not synchronised either.
- Socket.Send: a send of zero characters without an error does not occur; POSIX has no such answer for a non-empty buffer.
- Exceptions other than that of an empty call: a handler's own exception would unwind in the same way; those of its moves and of allocators are not modelled.
- HandlerEnds.Bound: a handler is a finite program, so one that makes and calls new targets without end is not among those that are shown to stop.
- Handlers that own other wrappers as members: their destructors would be further operations, which the model lets a destructor perform by name.
- Cancellation state of a handler block and the allocator handles of a wrapper: `associated_executor` stands for the three lookups of its kind.
- HandlerRuns.GetExecutor: the immediate executor lookup has the same shape and is not repeated.
- AlignedSpec.Allowed: runs that go on after a trailer was written outside its raw block are undefined and excluded; `AlignedMemory.HandlerMemory.Allocate` accepts the call itself.
- The bytes of a freed raw block: nothing reads them.
- The partial binders and the default completion token: they build a binder first, and from there the model applies.
- Bind: takes its target as an rvalue or a constant; from a non-constant lvalue that is an executor binder of the same type the original's generic constructor is chosen instead.
- Conversions between binders of different target types, and targets that can be constructed from anything.
- Legacy `async_completion` and the call operators of binders, which only forward.
