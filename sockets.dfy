/** The two kinds of channel the relay session talks through: datagram sockets,
    seen only through what is written to them, and the process-wide outbound
    queue shared by all sessions. */
module Sockets {
  import opened RelayTypes

  /** A datagram socket seen through the datagrams written to it. It stands for
      the SOCKS5 relay endpoint (destinations are strings such as "8.8.8.8:53")
      and for the local listener socket (destinations are client addresses).
      A broken endpoint refuses every write, like a socket whose `send_to`
      returns an error. */
  class Endpoint<A> {
    var sent: seq<(Payload, A)>
    var broken: bool

    constructor (broken: bool)
      ensures sent == [] && this.broken == broken
    {
      sent := [];
      this.broken := broken;
    }

    /** Writes one datagram to `dest`; fails, writing nothing, when broken. */
    method SendTo(buf: Payload, dest: A) returns (ok: bool)
      modifies this`sent
      ensures ok == !broken
      ensures sent == if ok then old(sent) + [(buf, dest)] else old(sent)
    {
      ok := !broken;
      if ok {
        sent := sent + [(buf, dest)];
      }
    }
  }

  /** The payloads of a log of written datagrams, in order. */
  function Payloads<A>(sent: seq<(Payload, A)>): (r: seq<Payload>)
    ensures |r| == |sent|
    ensures forall i :: 0 <= i < |sent| ==> r[i] == sent[i].0
  {
    if sent == [] then []
    else Payloads(sent[..|sent| - 1]) + [sent[|sent| - 1].0]
  }

  /** The unbounded FIFO channel that every session's reader sends replies to
      and that the single dispatcher receives from. Once its receiver is gone
      every send fails and the buffered items are gone with it. */
  class OutboundQueue {
    var items: seq<OutboundItem>
    var receiverAlive: bool

    constructor ()
      ensures items == [] && receiverAlive
    {
      items := [];
      receiverAlive := true;
    }

    /** Appends `item` at the tail, unless the receiver has been dropped. */
    method Send(item: OutboundItem) returns (ok: bool)
      modifies this`items
      ensures ok == receiverAlive
      ensures items == if ok then old(items) + [item] else old(items)
    {
      ok := receiverAlive;
      if ok {
        items := items + [item];
      }
    }

    /** Takes the oldest item, if there is one. */
    method Recv() returns (r: Option<OutboundItem>)
      modifies this`items
      ensures old(items) == [] ==> r == None && items == []
      ensures old(items) != [] ==> r == Some(old(items)[0]) && items == old(items)[1..]
    {
      if items == [] {
        r := None;
      } else {
        r := Some(items[0]);
        items := items[1..];
      }
    }

    /** The receiving thread ends: its end of the channel is dropped. */
    method DropReceiver()
      modifies this
      ensures !receiverAlive && items == []
    {
      receiverAlive := false;
      items := [];
    }
  }
}
