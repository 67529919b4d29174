/** The loop of `upstream_to_local`: the reader of one session receives replies
    on the relay endpoint into a 64 KiB buffer and queues each one, tagged with
    the client's address, for the dispatcher. A receive error ends the loop
    only when the writer has already stored the idle flag. */
module UpstreamReader {
  import opened RelayTypes

  /** What one `recv_from` on the relay endpoint gives the reader: a datagram
      and the address it came from, or an error (an expired deadline or any
      other failure). */
  datatype ReadOutcome = Received(datagram: Payload, peer: SocketAddr) | ReadError

  /** Reading: still looping. FlagExit: left the loop at an error seen with the
      idle flag set. QueueClosed: queueing a reply failed and the thread died. */
  datatype ReaderStatus = Reading | FlagExit | QueueClosed

  /** The items the reader has queued, and whether it still loops. */
  datatype ReaderState = ReaderState(queued: seq<OutboundItem>, status: ReaderStatus)

  /** The part of a datagram that `recv_from` can place in the buffer. */
  function Truncate(d: Payload): (r: Payload)
    ensures r <= d
    ensures |r| <= BUF_LEN
    ensures |d| <= BUF_LEN ==> r == d
    ensures |d| > BUF_LEN ==> |r| == BUF_LEN
  {
    d[..Min(|d|, BUF_LEN)]
  }

  /** One iteration of the loop: `timedOut` is the idle flag as the reader
      loads it, `queueOpen` whether the outbound queue still has a receiver. */
  function Step(s: ReaderState, o: ReadOutcome, src: SocketAddr, timedOut: bool, queueOpen: bool): (r: ReaderState)
    requires s.status == Reading
    ensures s.queued <= r.queued
  {
    match o
    case Received(d, _) =>
      if queueOpen then s.(queued := s.queued + [OutboundItem(src, Truncate(d))])
      else s.(status := QueueClosed)
    case ReadError =>
      if timedOut then s.(status := FlagExit) else s
  }

  /** The reader after the outcomes `os`, starting from `s`. */
  function Run(s: ReaderState, os: seq<ReadOutcome>, src: SocketAddr, timedOut: bool, queueOpen: bool): (r: ReaderState)
    ensures s.queued <= r.queued
    ensures s.status != Reading ==> r == s
    decreases |os|
  {
    if os == [] then s
    else
      var p := Run(s, os[..|os| - 1], src, timedOut, queueOpen);
      if p.status == Reading then Step(p, os[|os| - 1], src, timedOut, queueOpen) else p
  }

  /** The reader as a session starts it. */
  function Start(): ReaderState
  {
    ReaderState([], Reading)
  }

  /** The datagrams among `os`, in order. */
  function Datagrams(os: seq<ReadOutcome>): seq<Payload>
  {
    if os == [] then []
    else Datagrams(os[..|os| - 1]) + (if os[|os| - 1].Received? then [os[|os| - 1].datagram] else [])
  }

  /** The datagrams among `os` as queue items: each one addressed to `src`,
      whichever peer sent it, and holding exactly the bytes the buffer got. */
  function Tagged(src: SocketAddr, os: seq<ReadOutcome>): (r: seq<OutboundItem>)
    ensures |r| == |Datagrams(os)|
    ensures forall i :: 0 <= i < |r| ==> r[i] == OutboundItem(src, Truncate(Datagrams(os)[i]))
    decreases |os|
  {
    if os == [] then []
    else
      Tagged(src, os[..|os| - 1])
      + (if os[|os| - 1].Received? then [OutboundItem(src, Truncate(os[|os| - 1].datagram))] else [])
  }

  lemma {:induction false} RunLast(s: ReaderState, os: seq<ReadOutcome>, o: ReadOutcome,
                                   src: SocketAddr, timedOut: bool, queueOpen: bool)
    ensures Run(s, os + [o], src, timedOut, queueOpen)
         == if Run(s, os, src, timedOut, queueOpen).status == Reading
            then Step(Run(s, os, src, timedOut, queueOpen), o, src, timedOut, queueOpen)
            else Run(s, os, src, timedOut, queueOpen)
  {
    assert (os + [o])[..|os|] == os;
  }

  /** Running over one more outcome of a trace is one more step. */
  lemma {:induction false} RunPrefixStep(s: ReaderState, trace: seq<ReadOutcome>, k: nat,
                                         src: SocketAddr, timedOut: bool, queueOpen: bool)
    requires k < |trace|
    requires Run(s, trace[..k], src, timedOut, queueOpen).status == Reading
    ensures Run(s, trace[..k + 1], src, timedOut, queueOpen)
         == Step(Run(s, trace[..k], src, timedOut, queueOpen), trace[k], src, timedOut, queueOpen)
  {
    assert trace[..k + 1] == trace[..k] + [trace[k]];
    RunLast(s, trace[..k], trace[k], src, timedOut, queueOpen);
  }

  /** What one iteration does depends on the outcome, the flag and the queue,
      not on what was queued before. */
  lemma StepFromAnyState(s: ReaderState, o: ReadOutcome, src: SocketAddr, timedOut: bool, queueOpen: bool)
    requires s.status == Reading
    ensures Step(s, o, src, timedOut, queueOpen).queued == s.queued + Step(Start(), o, src, timedOut, queueOpen).queued
    ensures Step(s, o, src, timedOut, queueOpen).status == Step(Start(), o, src, timedOut, queueOpen).status
  {
  }

  /** While the queue has a receiver, the reader queues every datagram it
      receives, tagged and in order, for as long as it keeps reading. */
  lemma {:induction false} QueuedWhileReading(s: ReaderState, os: seq<ReadOutcome>, src: SocketAddr, timedOut: bool)
    requires s.status == Reading
    ensures Run(s, os, src, timedOut, true).status != QueueClosed
    ensures Run(s, os, src, timedOut, true).status == Reading ==>
              Run(s, os, src, timedOut, true).queued == s.queued + Tagged(src, os)
    decreases |os|
  {
    if os != [] {
      var n := |os| - 1;
      QueuedWhileReading(s, os[..n], src, timedOut);
      assert os[..n] + [os[n]] == os;
      RunLast(s, os[..n], os[n], src, timedOut, true);
    }
  }

  /** While the queue has a receiver, the reader leaves its loop exactly when
      it has seen a receive error with the idle flag set. */
  lemma {:induction false} ReaderExitIff(s: ReaderState, os: seq<ReadOutcome>, src: SocketAddr, timedOut: bool)
    requires s.status == Reading
    ensures Run(s, os, src, timedOut, true).status == FlagExit <==> timedOut && ReadError in os
    decreases |os|
  {
    QueuedWhileReading(s, os, src, timedOut);
    if os != [] {
      var n := |os| - 1;
      ReaderExitIff(s, os[..n], src, timedOut);
      assert os[..n] + [os[n]] == os;
      RunLast(s, os[..n], os[n], src, timedOut, true);
      assert ReadError in os <==> ReadError in os[..n] || os[n] == ReadError;
    }
  }

  /** As long as the idle flag is clear, receive errors are ignored: the reader
      keeps looping and queues every datagram. */
  lemma {:induction false} ErrorsIgnoredWhileFlagClear(s: ReaderState, os: seq<ReadOutcome>, src: SocketAddr)
    requires s.status == Reading
    ensures Run(s, os, src, false, true) == ReaderState(s.queued + Tagged(src, os), Reading)
  {
    ReaderExitIff(s, os, src, false);
    QueuedWhileReading(s, os, src, false);
  }

  /** With the idle flag set, the reader leaves at the first receive error,
      having queued exactly the datagrams before it. */
  lemma {:induction false} ExitAtFirstError(s: ReaderState, pre: seq<ReadOutcome>, post: seq<ReadOutcome>, src: SocketAddr)
    requires s.status == Reading
    requires ReadError !in pre
    ensures Run(s, pre + [ReadError] + post, src, true, true) == ReaderState(s.queued + Tagged(src, pre), FlagExit)
  {
    ReaderExitIff(s, pre, src, true);
    QueuedWhileReading(s, pre, src, true);
    RunLast(s, pre, ReadError, src, true, true);
    RunStopsAfterExit(s, pre + [ReadError], post, src, true, true);
  }

  /** Once the reader has left its loop, later outcomes change nothing. */
  lemma {:induction false} RunStopsAfterExit(s: ReaderState, os: seq<ReadOutcome>, more: seq<ReadOutcome>,
                                             src: SocketAddr, timedOut: bool, queueOpen: bool)
    requires Run(s, os, src, timedOut, queueOpen).status != Reading
    ensures Run(s, os + more, src, timedOut, queueOpen) == Run(s, os, src, timedOut, queueOpen)
    decreases |more|
  {
    if more == [] {
      assert os + more == os;
    } else {
      var n := |more| - 1;
      RunStopsAfterExit(s, os, more[..n], src, timedOut, queueOpen);
      assert os + more == (os + more[..n]) + [more[n]];
      RunLast(s, os + more[..n], more[n], src, timedOut, queueOpen);
    }
  }

  /** Once the queue's receiver is gone the reader queues nothing more, and it
      dies only on a datagram it could not queue. */
  lemma {:induction false} ClosedQueueTakesNothing(s: ReaderState, os: seq<ReadOutcome>, src: SocketAddr, timedOut: bool)
    requires s.status == Reading
    ensures Run(s, os, src, timedOut, false).queued == s.queued
    ensures Run(s, os, src, timedOut, false).status == QueueClosed ==> exists i :: 0 <= i < |os| && os[i].Received?
    decreases |os|
  {
    if os != [] {
      var n := |os| - 1;
      ClosedQueueTakesNothing(s, os[..n], src, timedOut);
      assert os[..n] + [os[n]] == os;
      RunLast(s, os[..n], os[n], src, timedOut, false);
      if Run(s, os, src, timedOut, false).status == QueueClosed && Run(s, os[..n], src, timedOut, false).status == Reading {
        assert os[n].Received?;
      }
    }
  }

  /** `recv_from` into the reader's buffer: the first bytes of the buffer
      become the datagram (as much of it as fits), the rest keep whatever an
      earlier datagram left there, and the count of new bytes is returned. */
  method ReceiveInto(buf: array<Byte>, datagram: Payload) returns (n: nat)
    requires buf.Length == BUF_LEN
    modifies buf
    ensures n <= BUF_LEN
    ensures buf[..n] == Truncate(datagram)
    ensures buf[n..] == old(buf[n..])
  {
    n := Min(|datagram|, BUF_LEN);
    var k := 0;
    while k < n
      invariant 0 <= k <= n
      invariant forall m :: 0 <= m < k ==> buf[m] == datagram[m]
      invariant forall m :: k <= m < buf.Length ==> buf[m] == old(buf[m])
    {
      buf[k] := datagram[k];
      k := k + 1;
    }
    assert buf[..n] == datagram[..n];
  }
}
