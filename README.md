# udpproxy relay session, modelled in Dafny

udpproxy relays a client's UDP datagrams through a SOCKS5 UDP association.
Each client address gets a `Forwarder` session, which has two loops:

- the **writer** (`client_to_upstream`) takes payloads from the session
  queue and writes them to the remote target through the relay endpoint;
- the **reader** (`upstream_to_local`) receives replies on the relay endpoint
  into a 64 KiB buffer and queues them, tagged with the client's address, on
  the process-wide outbound queue.

A single **dispatcher** (`channel_to_socket`) drains the outbound queue onto
the local socket. The writer debounces its 30-second receive timeouts. Two
failed receives in a row end the session: the writer stores a shared idle
flag and leaves. The reader leaves at its next receive error after that.

The model has these modules:

- `RelayTypes`: bytes, socket addresses, outbound queue items and the
  constants (buffer length 64 * 1024, idle limit 2).
- `Sockets`: a datagram socket seen as the log of what was written to it, plus
  an optional broken state in which every write fails. Also the unbounded
  FIFO channel shared by all sessions, whose sends fail once its receiver is
  gone.
- `UpstreamWriter`: the writer as a pure state machine. `Step` is one
  iteration; `Run` runs it over a trace of receive outcomes (a payload, an
  expired deadline, or a disconnection). `Receives` models the session queue
  as the receives see it: one receive per window, each giving the oldest
  waiting payload, or an error when nothing waits. The lemmas prove the
  debounce policy and that the session queue is FIFO.
- `UpstreamReader`: the reader as a pure state machine over a trace of read
  outcomes (a datagram from some peer, or an error). `ReceiveInto` copies a
  datagram into the fixed 64 KiB buffer.
- `LocalDispatcher`: the dispatcher loop over the shared queue.
- `Forwarding`: the `Forwarder` class. It holds the session queue, the
  counter, the idle flag and whether each loop still runs. Its methods are
  the constructor, `send_upstream`, and the two loops, each proved to follow
  its state machine. A ghost log of every payload the session queue
  accepted gives the order property: payloads reach the relay endpoint in
  the order `send_upstream` accepted them.

Time, threads and sockets are parameters:

- Time is a trace of outcomes. Each expired deadline is one outcome.
- The two threads' interleaving is up to the caller. The caller runs each
  loop over a stretch of trace at a time, and gives the writer, for each
  receive it makes, the payloads the client sends while that receive waits
  (a "window").
- Whether the relay endpoint accepts writes is the endpoint's `broken` state.
  Whether the outbound queue still has a receiver is the queue's
  `receiverAlive` state.

Two behaviours of the code shape the model:

- **Setup failures end threads, not the call.** `Forwarder::new` always
  returns a handle. Binding the relay endpoint (`src/lib.rs:105`) and cloning
  it (`src/lib.rs:106`) happen on the session's spawned thread. If either
  fails, that thread panics before either loop starts, and the session
  queue's receiver dies with it, so `send_upstream` fails from then on. The
  reader sets its read deadline (`src/lib.rs:40`) on its own thread, so a
  failure there kills only the reader. The constructor takes these outcomes
  as `bindOk` and `readTimeoutOk`.
- **Receive errors never end the reader on their own.** Every `recv_from`
  error takes the same branch as a timeout (`src/lib.rs:48-52`): the reader
  leaves only if the idle flag is set. So after the writer dies on a failed
  write, which never sets the flag, the reader loops until its own queue
  send fails. `ReaderExitIff` states this.

## Model

| member | source | states |
|---|---|---|
| `Sockets.Endpoint.SendTo` | src/lib.rs:24-27 | on a working socket the datagram is appended to the write log with its destination; on a broken one the write fails and nothing is written |
| `Sockets.OutboundQueue.Send` | src/lib.rs:45-46 | the item is appended at the tail exactly when the receiver is alive; otherwise the send fails and the queue is unchanged |
| `Sockets.OutboundQueue.Recv` | src/lib.rs:22 | an empty queue gives nothing; otherwise the oldest item is taken and the rest stay in order |
| `Sockets.OutboundQueue.DropReceiver` | src/lib.rs:26-27 | after the receiving thread dies, the receiver is gone and the buffered items with it |
| `UpstreamWriter.Step` | src/lib.rs:68-81 | one iteration keeps the counter at most 2, and below 2 while the writer still runs; forwarded payloads are only ever appended |
| `UpstreamWriter.Run` | src/lib.rs:67-82 | the counter stays 0 or 1 at the top of every iteration and at most 2 at exit; a writer that has left the loop changes no more; the forwarded log only grows |
| `UpstreamWriter.ItemResetsCounter` | src/lib.rs:69-73 | a received payload is written unchanged and the counter becomes 0; if the write fails the writer dies with counter and log untouched |
| `UpstreamWriter.ErrorIncrementsCounter` | src/lib.rs:74-80 | a timeout or disconnection adds exactly 1 to the counter and forwards nothing; the writer leaves exactly when the counter reaches 2, never by aborting |
| `UpstreamWriter.IdleIffConsecutiveErrors` | src/lib.rs:67-82 | with a working relay the writer leaves exactly when two receive errors have come in a row, and never aborts; while it runs, the counter is 1 exactly when the last outcome was an error |
| `UpstreamWriter.TimeoutThenItem` | src/lib.rs:69-79 | a timeout followed by a payload leaves the writer running with counter 0 and the payload forwarded |
| `UpstreamWriter.AlternatingNeverIdle` | src/lib.rs:67-82 | a client that alternates timeouts and payloads never lets the writer go idle, and every payload is forwarded in order |
| `UpstreamWriter.RunStopsAfterExit` | src/lib.rs:76-78 | once the writer has left its loop, later outcomes change nothing |
| `UpstreamWriter.ForwardedWhileRunning` | src/lib.rs:69-72 | while the writer runs, what it has forwarded is exactly the payloads received, unchanged and in order |
| `UpstreamWriter.ExitPoint` | src/lib.rs:67-82 | a writer that has left its loop did so at one outcome; before it, it ran and forwarded exactly the payloads before it; it left for idleness exactly when that outcome was an error |
| `UpstreamWriter.Receive` | src/lib.rs:68 | one `recv_timeout`: the oldest waiting payload, and a payload exactly when one waits; otherwise a timeout exactly while the sending handle exists, and a disconnection exactly once it is gone |
| `UpstreamWriter.Receives` | src/lib.rs:68 | one receive per window: exactly one outcome per window, whatever the windows hold |
| `UpstreamWriter.ReceivesAt` | src/lib.rs:68 | window by window: the k-th outcome is what one receive gives on the queue as the first k receives left it, once the k-th window's payloads have arrived |
| `UpstreamWriter.RunningUpToLast` | src/lib.rs:67-82 | a writer still running before the last outcome of a trace was running before every one of them, since it never re-enters its loop |
| `UpstreamWriter.ReceivesInOrder` | src/lib.rs:68-69 | the session queue is FIFO: the payloads the receives took, followed by what still waits, are what the queue held followed by everything the client sent, in order |
| `UpstreamWriter.ReceiveSplits` | src/lib.rs:68-69 | one receive takes the queue's head, if any, and leaves the rest |
| `UpstreamWriter.BusyClientNoErrors` | src/lib.rs:68-74 | a receive fails only on an empty queue: when the client sends something in every window, no receive fails |
| `UpstreamWriter.DisconnectedOnlyWhenClosed` | src/lib.rs:68-74 | while the sending handle exists, no receive reports a disconnection |
| `UpstreamWriter.BusyClientForwardsInOrder` | src/lib.rs:58-83 | a client that sends something in every window keeps the writer running with a working relay, and what was forwarded, followed by what still waits, is everything it sent, in order |
| `UpstreamReader.Truncate` | src/lib.rs:39-44 | the bytes a datagram leaves in the 64 KiB buffer are a prefix of it, the whole datagram when it fits, exactly 64 KiB when it does not |
| `UpstreamReader.Step` | src/lib.rs:42-53 | one iteration only ever appends to what has been queued |
| `UpstreamReader.Run` | src/lib.rs:41-54 | the queued items only grow, and a reader that has left its loop changes no more |
| `UpstreamReader.Tagged` | src/lib.rs:43-45 | the queue items for a trace are its datagrams in order, each truncated to the buffer and addressed to the client, whatever peer sent it |
| `UpstreamReader.StepFromAnyState` | src/lib.rs:42-53 | what one iteration queues, and whether the reader goes on, does not depend on what was queued before |
| `UpstreamReader.QueuedWhileReading` | src/lib.rs:43-46 | while the outbound queue has a receiver, the reader never dies of a failed send, and while it reads it has queued exactly the tagged datagrams |
| `UpstreamReader.ReaderExitIff` | src/lib.rs:48-52 | while the outbound queue has a receiver, the reader leaves its loop exactly when it sees a receive error with the idle flag set |
| `UpstreamReader.ErrorsIgnoredWhileFlagClear` | src/lib.rs:48-52 | with the flag clear, receive errors are ignored: the reader keeps reading and queues every datagram |
| `UpstreamReader.ExitAtFirstError` | src/lib.rs:48-51 | with the flag set, the reader leaves at the first receive error, having queued exactly the datagrams before it |
| `UpstreamReader.RunStopsAfterExit` | src/lib.rs:49-50 | once the reader has left its loop, later outcomes change nothing |
| `UpstreamReader.ClosedQueueTakesNothing` | src/lib.rs:45-46 | once the outbound queue's receiver is gone, nothing more is queued, and the reader dies only on a datagram it could not queue |
| `UpstreamReader.ReceiveInto` | src/lib.rs:39-44 | the first `n` bytes of the buffer become the datagram's truncation; the rest of the buffer keeps its old bytes |
| `LocalDispatcher.Deliveries` | src/lib.rs:22-25 | the datagrams written for a queue are each item's payload, sent to that item's own address, in queue order |
| `LocalDispatcher.ChannelToSocket` | src/lib.rs:19-30 | if the local socket works, the queue is drained and every item is written to its own destination in order; if it is broken and there was an item, the dispatcher dies writing nothing, and the receiver and the buffered items are gone; it runs only while the dispatcher owns a live receiving end |
| `LocalDispatcher.RepliesReachClient` | src/lib.rs:43-45 | replies a session's reader queued are dispatched to that session's client and no one else, each holding the bytes its buffer got, in arrival order |
| `Forwarding.Forwarder.IdleFlagMeansDrained` | src/lib.rs:74-78 | the idle flag is set exactly when the writer has left for idleness, and by then every payload the session queue accepted has been forwarded in order |
| `Forwarding.Forwarder.constructor` | src/lib.rs:90-129 | a new session has an empty queue, counter 0 and a clear flag, a fresh relay endpoint and an all-zero buffer; the writer starts in the machine's start state exactly when bind and clone succeed; the reader also needs its read deadline set |
| `Forwarding.Forwarder.SendUpstream` | src/lib.rs:131-133 | while the writer lives, the payload is appended to the session queue; afterwards it is returned as the error and nothing changes |
| `Forwarding.Forwarder.DropHandle` | src/lib.rs:85-87 | dropping the handle drops the session queue's only sender |
| `Forwarding.Forwarder.ClientSends` | src/lib.rs:131-133 | a client's payloads, sent through the handle one by one, are enqueued in order, or all refused once the writer has gone |
| `Forwarding.Forwarder.ForwardHead` | src/lib.rs:68-73 | a receive on a non-empty queue takes its oldest payload, leaving the rest queued, and takes the writer machine's step for that payload: written unchanged to the remote target and the counter reset, or the writer and its queue dead |
| `Forwarding.Forwarder.CountError` | src/lib.rs:74-80 | a receive on an empty queue is a timeout while the handle exists and a disconnection after; it takes the writer machine's step for an error, and at two in a row stores the flag and leaves |
| `Forwarding.Forwarder.WriterStep` | src/lib.rs:67-81 | one iteration of the writer: the window's payloads are accepted; the outcome is the waiting head payload if there is one, else a timeout or a disconnection by whether the handle exists; the queue loses exactly that head; the writer's state follows one step of its state machine for that outcome |
| `Forwarding.Forwarder.WriterIteration` | src/lib.rs:67-81 | one turn of the writer's loop: the queue accepts one more window, the outcome is the next receive on it, and the writer's state machine takes one more step, having been running before it |
| `Forwarding.Forwarder.WriterLoop` | src/lib.rs:67-82 | the loop stops only when the windows run out or the writer leaves; after it the outcomes, the accepted payloads and the writer's state are those of the receives and state machine over the windows consumed |
| `Forwarding.Forwarder.ClientToUpstream` | src/lib.rs:58-83 | the outcomes are exactly what receives on the session queue give, window by window (`Receives`); the writer's state after the loop is its state machine run over them, and the machine was running before each of them, so the loop stops at the writer's exit; the queue accepted exactly the windows consumed; the idle flag, once set, stays set; the session invariant holds |
| `Forwarding.Forwarder.ReaderStep` | src/lib.rs:42-53 | one iteration of the reader: what it queues and whether it goes on are one step of the reader's state machine |
| `Forwarding.Forwarder.ReaderIteration` | src/lib.rs:41-54 | one turn of the reader's loop extends the reader's state machine run over the outcomes before it by one step: the queued items and whether it goes on |
| `Forwarding.Forwarder.UpstreamToLocal` | src/lib.rs:32-56 | what the loop queued, and whether the reader still reads, are the reader's state machine run over the outcomes consumed; the machine was still reading before the last one, so the loop stops at the reader's exit; a reader that is not running consumes nothing |

The session invariant `Forwarding.Forwarder.Valid` holds before and after
every method. It says:

- the counter is at most 2, and below 2 while the writer runs;
- the flag is set only when the writer has left with the counter at 2;
- every write the writer made went to the remote target;
- what was written, followed by what still waits in the session queue, is
  exactly what the queue accepted.

The reader's methods do not list the flag in their `modifies` clauses. So only
the writer ever sets it, which `CountError` does at most once, at the writer's idle exit.

## Left out

- Threads and their interleaving: each loop runs over a trace, and the caller
  decides how the stretches alternate. Atomic memory ordering (`Relaxed` loads
  and stores) is not modelled; the flag is one shared boolean.
- Time: `Duration` and the 30-second length of the deadlines are not
  modelled. An expired deadline is one outcome of a trace. Whether
  `set_read_timeout` succeeds is the constructor's `readTimeoutOk`.
- The SOCKS5 association is not modelled: `Socks5Datagram::bind`, `try_clone`
  and the `0.0.0.0:0` local address. Whether both the bind and the
  `try_clone().unwrap()` succeed is the constructor's one `bindOk`: a failure
  of either panics the session thread before both loops. Both clones of the relay endpoint are one `Endpoint`. A send to
  an endpoint that was never bound is not modelled.
- The race on a failed bind, where `send_upstream` succeeds before the
  spawned thread has panicked and the payload is then lost, is not modelled.
  The constructor decides bind failure at once.
- `Forwarding.Forwarder.IdleFlagMeansDrained` is about the model's atomic
  idle exit. The race at the writer's idle exit is not modelled: there,
  `send_upstream` succeeds after the last failed receive but before the
  receiver is dropped, and the payload is lost.
- Panic messages (`expect` texts) are not modelled. A panic is the thread's
  death.
- When every sender of the outbound queue is gone, `recv().unwrap()` in the
  dispatcher panics. This path is not modelled: `ChannelToSocket` stops when
  the queue is empty, where the code blocks waiting for the next item.
- `UpstreamReader.Truncate`: datagrams longer than the 64 KiB buffer are
  taken to be cut to the buffer's length, as `recv_from` does on common
  platforms. Platform-specific error returns for oversize datagrams are not
  modelled.
- `Forwarding.Forwarder.ClientToUpstream`: whether the relay endpoint works is
  fixed for one call to a loop. A relay that breaks mid-stretch is modelled by
  splitting the trace across two calls.
- `LocalDispatcher.ChannelToSocket`: whether the local socket works is fixed
  for one drain. A `send_to` that fails at a later item, after earlier items
  went out, cannot happen within one call. It is reached only across calls:
  one drain while the socket works, then a drain after it has broken.
- The peer address a reply comes from is part of each outcome but is
  ignored, as in the code.
