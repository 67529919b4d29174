/** One relay session (`Forwarder`): the handle the dispatch layer keeps, the
    session queue behind it, and the state of the session's writer and reader
    loops, coupled by the one-shot idle flag. Each loop runs over a trace of
    what its blocking receives return; how the two threads interleave is up to
    the caller, who may run each loop over a stretch of trace at a time. */
module Forwarding {
  import opened RelayTypes
  import opened Sockets
  import UpstreamWriter
  import UpstreamReader

  class Forwarder {
    /** The client this session answers. */
    const srcAddr: SocketAddr
    /** The target every payload is written to. */
    const remoteAddr: string
    /** The SOCKS5 relay endpoint; the writer's clone writes to it. */
    const relay: Endpoint<string>
    /** The process-wide outbound queue the reader sends replies to. */
    const localQueue: OutboundQueue
    /** The reader's receive buffer, reused for every datagram. */
    const fromUpstream: array<Byte>

    /** The payloads sent on the session queue and not yet received. */
    var inbound: seq<Payload>
    /** The handle's sending end of the session queue still exists. */
    var senderAlive: bool
    /** The writer still loops, and so holds the receiving end of the queue. */
    var writerAlive: bool
    /** The reader still loops. */
    var readerAlive: bool
    /** The writer's counter of consecutive receive errors. */
    var timeouts: nat
    /** The idle flag shared by writer and reader. */
    var timedOut: bool
    /** Every payload the session queue has accepted, in order. */
    ghost var accepted: seq<Payload>

    ghost predicate Valid()
      reads this, relay
    {
      && fromUpstream.Length == BUF_LEN
      && timeouts <= IDLE_LIMIT
      && (writerAlive ==> timeouts < IDLE_LIMIT)
      && (timedOut ==> !writerAlive && timeouts == IDLE_LIMIT)
      && (!writerAlive ==> inbound == [])
      && (forall i :: 0 <= i < |relay.sent| ==> relay.sent[i].1 == remoteAddr)
      && Payloads(relay.sent) <= accepted
      && (writerAlive || timedOut ==> Payloads(relay.sent) + inbound == accepted)
    }

    /** The writer seen as the state machine of `UpstreamWriter`. */
    ghost function WriterView(): UpstreamWriter.WriterState
      reads this, relay
    {
      UpstreamWriter.WriterState(
        timeouts, Payloads(relay.sent),
        if writerAlive then UpstreamWriter.Running
        else if timedOut then UpstreamWriter.IdleExit
        else UpstreamWriter.Aborted)
    }

    /** The idle flag is set exactly when the writer has left its loop for
        idleness; by then the writer has forwarded every payload the session
        queue accepted, unchanged and in order. */
    lemma IdleFlagMeansDrained()
      requires Valid()
      ensures timedOut <==> WriterView().status == UpstreamWriter.IdleExit
      ensures timedOut ==> Payloads(relay.sent) == accepted
    {
      if timedOut {
        assert Payloads(relay.sent) + inbound == Payloads(relay.sent);
      }
    }

    /** `Forwarder::new`: creates the session queue, the relay endpoint, the
        zeroed buffer, a counter of 0 and a clear flag, and starts both loops.
        Binding the relay endpoint and cloning it (`bindOk`) happen on the
        session's own thread: when either fails that thread dies before either
        loop starts, and the handle is returned all the same. Setting the read
        deadline (`readTimeoutOk`) happens on the reader's own thread: when it
        fails only the reader dies. */
    constructor (localQueue: OutboundQueue, remoteAddr: string, srcAddr: SocketAddr, bindOk: bool, readTimeoutOk: bool)
      ensures Valid()
      ensures this.localQueue == localQueue && this.remoteAddr == remoteAddr && this.srcAddr == srcAddr
      ensures fresh(relay) && relay.sent == [] && !relay.broken && fresh(fromUpstream)
      ensures forall i :: 0 <= i < fromUpstream.Length ==> fromUpstream[i] == 0
      ensures inbound == [] && accepted == [] && senderAlive
      ensures timeouts == 0 && !timedOut
      ensures writerAlive == bindOk && readerAlive == (bindOk && readTimeoutOk)
      ensures bindOk ==> WriterView() == UpstreamWriter.Start()
    {
      this.localQueue := localQueue;
      this.remoteAddr := remoteAddr;
      this.srcAddr := srcAddr;
      relay := new Endpoint(false);
      fromUpstream := new Byte[BUF_LEN](_ => 0);
      inbound := [];
      accepted := [];
      senderAlive := true;
      timeouts := 0;
      timedOut := false;
      writerAlive := bindOk;
      readerAlive := bindOk && readTimeoutOk;
    }

    /** `send_upstream`: appends the payload to the session queue; once the
        writer is gone the payload comes back as the error. */
    method SendUpstream(data: Payload) returns (r: Result<(), Payload>)
      requires Valid() && senderAlive
      modifies this`inbound, this`accepted
      ensures Valid()
      ensures r == if writerAlive then Ok(()) else Err(data)
      ensures writerAlive ==> inbound == old(inbound) + [data] && accepted == old(accepted) + [data]
      ensures !writerAlive ==> inbound == old(inbound) && accepted == old(accepted)
    {
      if writerAlive {
        inbound := inbound + [data];
        accepted := accepted + [data];
        r := Ok(());
      } else {
        r := Err(data);
      }
    }

    /** The dispatch layer drops the handle, and with it the sending end of
        the session queue. */
    method DropHandle()
      requires Valid()
      modifies this`senderAlive
      ensures Valid()
      ensures !senderAlive
    {
      senderAlive := false;
    }

    /** The client sends `ps` through the handle, in order. */
    method ClientSends(ps: seq<Payload>)
      requires Valid() && senderAlive
      modifies this`inbound, this`accepted
      ensures Valid()
      ensures writerAlive ==> inbound == old(inbound) + ps && accepted == old(accepted) + ps
      ensures !writerAlive ==> inbound == old(inbound) && accepted == old(accepted)
    {
      var j := 0;
      while j < |ps|
        invariant 0 <= j <= |ps|
        invariant Valid()
        invariant writerAlive ==> inbound == old(inbound) + ps[..j] && accepted == old(accepted) + ps[..j]
        invariant !writerAlive ==> inbound == old(inbound) && accepted == old(accepted)
      {
        var _ := SendUpstream(ps[j]);
        assert ps[..j + 1] == ps[..j] + [ps[j]];
        j := j + 1;
      }
      assert ps[..j] == ps;
    }

    /** A receive that finds the session queue non-empty takes its oldest
        payload and writes it to the remote target: the counter goes back to
        0, or, if the write fails, the writer dies and the queue with it. */
    method ForwardHead() returns (o: UpstreamWriter.RecvOutcome)
      requires Valid() && writerAlive && inbound != []
      modifies this`inbound, this`timeouts, this`writerAlive, relay`sent
      ensures Valid()
      ensures o == UpstreamWriter.Item(old(inbound)[0])
      ensures writerAlive ==> inbound == old(inbound)[1..]
      ensures WriterView() == UpstreamWriter.Step(old(WriterView()), o, !relay.broken)
    {
      var p := inbound[0];
      o := UpstreamWriter.Item(p);
      ghost var sent0 := relay.sent;
      assert Payloads(sent0) + [p] + inbound[1..] == accepted by {
        assert inbound == [p] + inbound[1..];
      }
      inbound := inbound[1..];
      var ok := relay.SendTo(p, remoteAddr);
      if ok {
        assert relay.sent == sent0 + [(p, remoteAddr)];
        assert Payloads(relay.sent) == Payloads(sent0) + [p];
        timeouts := 0;
      } else {
        assert Payloads(sent0) <= Payloads(sent0) + [p] + inbound;
        writerAlive := false;
        inbound := [];
      }
    }

    /** A receive that finds the session queue empty fails: with a deadline
        that expires while the handle exists, or at once as a disconnection
        once it is gone. The counter goes up by one; at two the writer stores
        the idle flag and leaves. */
    method CountError() returns (o: UpstreamWriter.RecvOutcome)
      requires Valid() && writerAlive && inbound == []
      modifies this`timeouts, this`timedOut, this`writerAlive
      ensures Valid()
      ensures o == if senderAlive then UpstreamWriter.Timeout else UpstreamWriter.Disconnected
      ensures WriterView() == UpstreamWriter.Step(old(WriterView()), o, !relay.broken)
    {
      o := if senderAlive then UpstreamWriter.Timeout else UpstreamWriter.Disconnected;
      timeouts := timeouts + 1;
      if timeouts >= IDLE_LIMIT {
        timedOut := true;
        writerAlive := false;
      }
    }

    /** One iteration of `client_to_upstream`: the client sends `window`
        while the writer waits; the writer then receives from the session
        queue, which gives the oldest payload at once if there is one. */
    method WriterStep(window: seq<Payload>) returns (o: UpstreamWriter.RecvOutcome)
      requires Valid() && writerAlive
      requires !senderAlive ==> window == []
      modifies this`inbound, this`accepted, this`timeouts, this`timedOut, this`writerAlive, relay`sent
      ensures Valid()
      ensures accepted == old(accepted) + window
      ensures o == UpstreamWriter.Receive(old(inbound) + window, senderAlive)
      ensures writerAlive ==> inbound == UpstreamWriter.AfterReceive(old(inbound) + window)
      ensures WriterView() == UpstreamWriter.Step(old(WriterView()), o, !relay.broken)
    {
      if senderAlive {
        ClientSends(window);
      } else {
        assert inbound + window == inbound;
      }
      if inbound != [] {
        o := ForwardHead();
      } else {
        o := CountError();
      }
    }

    /** The writer's loop after `i` of the `windows`, having met `outcomes`,
        from state `start` with `accepted0` accepted and `inbound0` waiting:
        the queue accepted those windows, the outcomes are what its receives
        gave, the writer is its state machine run over them, and that machine
        was still running before the last of them. */
    ghost predicate WriterLoopAt(windows: seq<seq<Payload>>, i: nat, outcomes: seq<UpstreamWriter.RecvOutcome>,
                                 start: UpstreamWriter.WriterState, accepted0: seq<Payload>, inbound0: seq<Payload>)
      reads this, relay
    {
      && i <= |windows| && |outcomes| == i
      && accepted == accepted0 + UpstreamWriter.Flatten(windows[..i])
      && WriterView() == UpstreamWriter.Run(start, outcomes, !relay.broken)
      && outcomes == UpstreamWriter.Receives(inbound0, windows[..i], senderAlive).0
      && (writerAlive ==> inbound == UpstreamWriter.Receives(inbound0, windows[..i], senderAlive).1)
      && (i > 0 ==> UpstreamWriter.Run(start, outcomes[..i - 1], !relay.broken).status == UpstreamWriter.Running)
    }

    /** One turn of the writer's loop over `windows`, taken at window `i`:
        the queue accepts one more window, the outcome is the next receive of
        the session queue, and the writer takes one more step of its state
        machine, having met that outcome while running. */
    method WriterIteration(windows: seq<seq<Payload>>, i: nat, outcomes: seq<UpstreamWriter.RecvOutcome>,
                           ghost start: UpstreamWriter.WriterState, ghost accepted0: seq<Payload>, ghost inbound0: seq<Payload>)
      returns (o: UpstreamWriter.RecvOutcome)
      requires Valid() && writerAlive && i < |windows|
      requires !senderAlive ==> windows[i] == []
      requires WriterLoopAt(windows, i, outcomes, start, accepted0, inbound0)
      modifies this`inbound, this`accepted, this`timeouts, this`timedOut, this`writerAlive, relay`sent
      ensures Valid()
      ensures WriterLoopAt(windows, i + 1, outcomes + [o], start, accepted0, inbound0)
    {
      o := WriterStep(windows[i]);
      UpstreamWriter.ReceivesTurn(inbound0, windows, i, senderAlive);
      AppendAssoc(accepted0, UpstreamWriter.Flatten(windows[..i]), windows[i]);
      UpstreamWriter.RunLast(start, outcomes, o, !relay.broken);
      TakeFront(outcomes, o);
    }

    /** `client_to_upstream`, one receive per window: `windows[i]` are the
        payloads the client sends while the writer waits for the `i`-th time.
        Returns what the receives gave, one outcome per window consumed: each
        is what a receive on the session queue gives at that point. The
        writer's new state is the state machine run over those outcomes, and
        the idle flag, once set, stays set. */
    method ClientToUpstream(windows: seq<seq<Payload>>) returns (outcomes: seq<UpstreamWriter.RecvOutcome>)
      requires Valid()
      requires !senderAlive ==> forall i :: 0 <= i < |windows| ==> windows[i] == []
      modifies this`inbound, this`accepted, this`timeouts, this`timedOut, this`writerAlive, relay`sent
      ensures Valid()
      ensures |outcomes| <= |windows|
      ensures writerAlive ==> |outcomes| == |windows|
      ensures !old(writerAlive) ==> outcomes == []
      ensures accepted == old(accepted) + UpstreamWriter.Flatten(windows[..|outcomes|])
      ensures outcomes == UpstreamWriter.Receives(old(inbound), windows[..|outcomes|], senderAlive).0
      ensures writerAlive ==> inbound == UpstreamWriter.Receives(old(inbound), windows[..|outcomes|], senderAlive).1
      ensures WriterView() == UpstreamWriter.Run(old(WriterView()), outcomes, !relay.broken)
      ensures forall j :: 0 <= j < |outcomes| ==>
                UpstreamWriter.Run(old(WriterView()), outcomes[..j], !relay.broken).status == UpstreamWriter.Running
      ensures old(timedOut) ==> timedOut
    {
      outcomes := [];
      assert windows[..0] == [];
      if !writerAlive {
        assert accepted + [] == accepted;
        return;
      }
      ghost var start := WriterView();
      outcomes := WriterLoop(windows, start, accepted, inbound);
      UpstreamWriter.RunningUpToLast(start, outcomes, !relay.broken);
    }

    /** The loop of `client_to_upstream` from a running writer in state
        `start`, with `accepted0` accepted and `inbound0` waiting so far: it
        stops when the windows run out or the writer leaves. */
    method WriterLoop(windows: seq<seq<Payload>>, ghost start: UpstreamWriter.WriterState,
                      ghost accepted0: seq<Payload>, ghost inbound0: seq<Payload>)
      returns (outcomes: seq<UpstreamWriter.RecvOutcome>)
      requires Valid() && writerAlive
      requires !senderAlive ==> forall i :: 0 <= i < |windows| ==> windows[i] == []
      requires WriterView() == start && accepted == accepted0 && inbound == inbound0
      modifies this`inbound, this`accepted, this`timeouts, this`timedOut, this`writerAlive, relay`sent
      ensures Valid()
      ensures |outcomes| <= |windows|
      ensures writerAlive ==> |outcomes| == |windows|
      ensures WriterLoopAt(windows, |outcomes|, outcomes, start, accepted0, inbound0)
    {
      outcomes := [];
      assert windows[..0] == [];
      assert accepted0 + [] == accepted0;
      var i := 0;
      while i < |windows| && writerAlive
        invariant Valid()
        invariant WriterLoopAt(windows, i, outcomes, start, accepted0, inbound0)
        decreases |windows| - i
      {
        var o := WriterIteration(windows, i, outcomes, start, accepted0, inbound0);
        outcomes := outcomes + [o];
        i := i + 1;
      }
    }

    /** One iteration of `upstream_to_local`: a datagram is received into
        the buffer and its first bytes are queued, tagged with the client's
        address, or, if the queue has no receiver, the reader dies; a receive
        error ends the loop when the idle flag is set and is ignored
        otherwise. */
    method ReaderStep(o: UpstreamReader.ReadOutcome)
      requires Valid() && readerAlive
      modifies this`readerAlive, localQueue`items, fromUpstream
      ensures Valid()
      ensures var r := UpstreamReader.Step(UpstreamReader.Start(), o, srcAddr, timedOut, localQueue.receiverAlive);
              && localQueue.items == old(localQueue.items) + r.queued
              && (readerAlive <==> r.status == UpstreamReader.Reading)
    {
      match o {
        case Received(d, _) =>
          var n := UpstreamReader.ReceiveInto(fromUpstream, d);
          var toSend := fromUpstream[..n];
          var ok := localQueue.Send(OutboundItem(srcAddr, toSend));
          if !ok {
            readerAlive := false;
          }
        case ReadError =>
          if timedOut {
            readerAlive := false;
          }
      }
    }

    /** The reader's loop after `k` of the outcomes in `trace`, with `items0`
        queued before it began: what it queued, and whether it still loops,
        is the reader's state machine run over those outcomes, and that
        machine was still reading before the last of them. */
    ghost predicate ReaderLoopAt(trace: seq<UpstreamReader.ReadOutcome>, k: nat, items0: seq<OutboundItem>)
      reads this, localQueue
    {
      && k <= |trace|
      && var r := UpstreamReader.Run(UpstreamReader.Start(), trace[..k], srcAddr, timedOut, localQueue.receiverAlive);
         && localQueue.items == items0 + r.queued
         && (readerAlive <==> r.status == UpstreamReader.Reading)
         && (k > 0 ==>
               UpstreamReader.Run(UpstreamReader.Start(), trace[..k - 1], srcAddr, timedOut, localQueue.receiverAlive).status
               == UpstreamReader.Reading)
    }

    /** One turn of the reader's loop over `trace`, taken at outcome
        `k`: what it queues and whether the reader goes on extend the reader's
        state machine run over the outcomes before `k` by one step. */
    method ReaderIteration(trace: seq<UpstreamReader.ReadOutcome>, k: nat, ghost items0: seq<OutboundItem>)
      requires Valid() && readerAlive && k < |trace|
      requires ReaderLoopAt(trace, k, items0)
      modifies this`readerAlive, localQueue`items, fromUpstream
      ensures Valid()
      ensures ReaderLoopAt(trace, k + 1, items0)
    {
      ghost var st := UpstreamReader.Run(UpstreamReader.Start(), trace[..k], srcAddr, timedOut, localQueue.receiverAlive);
      var o := trace[k];
      ghost var delta := UpstreamReader.Step(UpstreamReader.Start(), o, srcAddr, timedOut, localQueue.receiverAlive);
      ReaderStep(o);
      UpstreamReader.StepFromAnyState(st, o, srcAddr, timedOut, localQueue.receiverAlive);
      AppendAssoc(items0, st.queued, delta.queued);
      UpstreamReader.RunPrefixStep(UpstreamReader.Start(), trace, k, srcAddr, timedOut, localQueue.receiverAlive);
    }

    /** `upstream_to_local` over the receive outcomes `trace`. Returns how
        many outcomes the loop consumed; what it queued, and whether it still
        loops, is the reader's state machine run over those outcomes, which
        was still reading before the last one consumed. */
    method UpstreamToLocal(trace: seq<UpstreamReader.ReadOutcome>) returns (consumed: nat)
      requires Valid()
      modifies this`readerAlive, localQueue`items, fromUpstream
      ensures Valid()
      ensures consumed <= |trace|
      ensures !old(readerAlive) ==> consumed == 0 && !readerAlive && localQueue.items == old(localQueue.items)
      ensures old(readerAlive) ==>
                var r := UpstreamReader.Run(UpstreamReader.Start(), trace[..consumed], srcAddr, timedOut, localQueue.receiverAlive);
                && localQueue.items == old(localQueue.items) + r.queued
                && (readerAlive <==> r.status == UpstreamReader.Reading)
      ensures readerAlive ==> consumed == |trace|
      ensures old(readerAlive) && consumed > 0 ==>
                UpstreamReader.Run(UpstreamReader.Start(), trace[..consumed - 1], srcAddr, timedOut, localQueue.receiverAlive).status
                == UpstreamReader.Reading
    {
      consumed := 0;
      if !readerAlive {
        return;
      }
      ghost var items0 := localQueue.items;
      assert trace[..0] == [];
      assert items0 + [] == items0;
      while consumed < |trace| && readerAlive
        invariant Valid()
        invariant ReaderLoopAt(trace, consumed, items0)
        decreases |trace| - consumed
      {
        ReaderIteration(trace, consumed, items0);
        consumed := consumed + 1;
      }
    }
  }
}
