/** The loop of `channel_to_socket`: the one dispatcher of the process takes
    the items of the shared outbound queue in order and writes each payload to
    the client address recorded with it. */
module LocalDispatcher {
  import opened RelayTypes
  import opened Sockets
  import UpstreamReader

  /** The datagrams the dispatcher writes for `items`: each payload, to its
      own recorded address, in queue order. */
  function Deliveries(items: seq<OutboundItem>): (r: seq<(Payload, SocketAddr)>)
    ensures |r| == |items|
    ensures forall i :: 0 <= i < |items| ==> r[i] == (items[i].payload, items[i].dest)
  {
    if items == [] then []
    else Deliveries(items[..|items| - 1]) + [(items[|items| - 1].payload, items[|items| - 1].dest)]
  }

  /** Waiting: the queue is drained and the dispatcher waits for more.
      Crashed: a write failed and the dispatcher thread died. */
  datatype DispatchEnd = Waiting | Crashed

  /** Drains the queue onto the local socket. A failed write kills the
      dispatcher, and with it the queue's receiving end; the dispatcher owns
      that end, so it runs only while the end is alive. */
  method ChannelToSocket(queue: OutboundQueue, socket: Endpoint<SocketAddr>) returns (r: DispatchEnd)
    requires queue.receiverAlive
    modifies queue, socket`sent
    ensures r == Crashed <==> socket.broken && old(queue.items) != []
    ensures r == Waiting ==> queue.items == [] && queue.receiverAlive == old(queue.receiverAlive)
    ensures r == Waiting ==> socket.sent == old(socket.sent) + Deliveries(old(queue.items))
    ensures r == Crashed ==> socket.sent == old(socket.sent) && queue.items == [] && !queue.receiverAlive
  {
    r := Waiting;
    ghost var k := 0;
    while r == Waiting && queue.items != []
      invariant 0 <= k <= |old(queue.items)|
      invariant r == Waiting ==> queue.items == old(queue.items)[k..]
      invariant r == Waiting ==> queue.receiverAlive == old(queue.receiverAlive)
      invariant r == Waiting ==> socket.sent == old(socket.sent) + Deliveries(old(queue.items)[..k])
      invariant r == Waiting && k > 0 ==> !socket.broken
      invariant r == Crashed ==> socket.broken && old(queue.items) != [] && k == 0
      invariant r == Crashed ==> socket.sent == old(socket.sent) && queue.items == [] && !queue.receiverAlive
      decreases |queue.items|
    {
      var next := queue.Recv();
      var item := next.value;
      var ok := socket.SendTo(item.payload, item.dest);
      if ok {
        assert old(queue.items)[..k + 1] == old(queue.items)[..k] + [item];
        k := k + 1;
      } else {
        queue.DropReceiver();
        r := Crashed;
      }
    }
    if r == Waiting {
      assert old(queue.items)[..k] == old(queue.items);
    }
  }

  /** A session's replies, once dispatched, go to that session's client and to
      no one else, each one holding exactly the bytes the reader's buffer got,
      in the order they arrived. */
  lemma RepliesReachClient(src: SocketAddr, os: seq<UpstreamReader.ReadOutcome>)
    ensures |Deliveries(UpstreamReader.Tagged(src, os))| == |UpstreamReader.Datagrams(os)|
    ensures forall i :: 0 <= i < |UpstreamReader.Datagrams(os)| ==>
              Deliveries(UpstreamReader.Tagged(src, os))[i]
              == (UpstreamReader.Truncate(UpstreamReader.Datagrams(os)[i]), src)
  {
  }
}
