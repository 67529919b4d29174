/** The loop of `client_to_upstream`: the writer of one session waits on the
    session queue, forwards each payload to the remote target through the relay
    endpoint, and debounces receive timeouts, giving up after two in a row.
    Here the loop is a state machine over a trace of receive outcomes. */
module UpstreamWriter {
  import opened RelayTypes

  /** What one `recv_timeout` on the session queue gives the writer: a payload,
      an expired deadline, or the news that the sending handle is gone. */
  datatype RecvOutcome = Item(payload: Payload) | Timeout | Disconnected

  /** Both kinds of receive error take the same branch of the loop. */
  predicate IsError(o: RecvOutcome)
  {
    !o.Item?
  }

  /** Running: still looping. IdleExit: left the loop after storing the idle
      flag. Aborted: a write to the relay endpoint failed and the thread died. */
  datatype WriterStatus = Running | IdleExit | Aborted

  /** The writer's counter of consecutive receive errors, the payloads it has
      written to the relay endpoint (each one addressed to the remote target),
      and whether it still loops. */
  datatype WriterState = WriterState(timeouts: nat, forwarded: seq<Payload>, status: WriterStatus)

  /** One iteration of the loop; `relayOk` says whether the relay endpoint
      accepts writes. */
  function Step(s: WriterState, o: RecvOutcome, relayOk: bool): (r: WriterState)
    requires s.status == Running
    ensures s.timeouts < IDLE_LIMIT ==> r.timeouts <= IDLE_LIMIT
    ensures s.timeouts < IDLE_LIMIT && r.status == Running ==> r.timeouts < IDLE_LIMIT
    ensures s.forwarded <= r.forwarded
  {
    match o
    case Item(p) =>
      if relayOk then WriterState(0, s.forwarded + [p], Running)
      else s.(status := Aborted)
    case _ =>
      var t := s.timeouts + 1;
      if t >= IDLE_LIMIT then WriterState(t, s.forwarded, IdleExit)
      else s.(timeouts := t)
  }

  /** The writer after the outcomes `os`, starting from `s`; once it has left
      the loop, later outcomes change nothing. */
  function Run(s: WriterState, os: seq<RecvOutcome>, relayOk: bool): (r: WriterState)
    ensures s.forwarded <= r.forwarded
    ensures s.status != Running ==> r == s
    ensures s.status == Running && s.timeouts < IDLE_LIMIT ==> r.timeouts <= IDLE_LIMIT
    ensures s.status == Running && s.timeouts < IDLE_LIMIT && r.status == Running ==> r.timeouts < IDLE_LIMIT
    decreases |os|
  {
    if os == [] then s
    else
      var p := Run(s, os[..|os| - 1], relayOk);
      if p.status == Running then Step(p, os[|os| - 1], relayOk) else p
  }

  /** The writer as a session starts it. */
  function Start(): WriterState
  {
    WriterState(0, [], Running)
  }

  /** The payloads of the items among `os`, in order. */
  function Items(os: seq<RecvOutcome>): seq<Payload>
  {
    if os == [] then []
    else Items(os[..|os| - 1]) + (if os[|os| - 1].Item? then [os[|os| - 1].payload] else [])
  }

  /** Two receive errors directly after one another somewhere in `os`. */
  predicate HasConsecutiveErrors(os: seq<RecvOutcome>)
  {
    exists i :: 0 <= i < |os| - 1 && IsError(os[i]) && IsError(os[i + 1])
  }

  predicate EndsInError(os: seq<RecvOutcome>)
  {
    |os| > 0 && IsError(os[|os| - 1])
  }

  /** A counter of 1 stands for one receive error just before the trace. */
  function Lead(s: WriterState): seq<RecvOutcome>
  {
    if s.timeouts == 0 then [] else [Timeout]
  }

  /** Timeout then item, once per payload: a client that speaks once in every
      second receive window. */
  function Alternating(ps: seq<Payload>): seq<RecvOutcome>
  {
    if ps == [] then []
    else Alternating(ps[..|ps| - 1]) + [Timeout, Item(ps[|ps| - 1])]
  }

  /** All payloads of a sequence of receive windows, in order. */
  function Flatten(ws: seq<seq<Payload>>): seq<Payload>
  {
    if ws == [] then [] else Flatten(ws[..|ws| - 1]) + ws[|ws| - 1]
  }

  lemma {:induction false} FlattenLast(ws: seq<seq<Payload>>, w: seq<Payload>)
    ensures Flatten(ws + [w]) == Flatten(ws) + w
  {
    assert (ws + [w])[..|ws|] == ws;
  }

  /** What one `recv_timeout` on the session queue holding `q` gives: the
      oldest payload at once if one waits; otherwise an expired deadline while
      the sending handle exists (`open`), or a disconnection once it is gone. */
  function Receive(q: seq<Payload>, open: bool): (o: RecvOutcome)
    ensures o.Item? <==> q != []
    ensures o.Item? ==> o.payload == q[0]
    ensures o == Timeout <==> q == [] && open
    ensures o == Disconnected <==> q == [] && !open
  {
    if q != [] then Item(q[0]) else if open then Timeout else Disconnected
  }

  /** What the session queue holds after that receive. */
  function AfterReceive(q: seq<Payload>): seq<Payload>
  {
    if q != [] then q[1..] else q
  }

  /** One receive per window, starting with the session queue holding `q`:
      before the `i`-th receive the client sends the payloads `ws[i]`. Gives
      the outcomes of the receives and what the queue still holds after them. */
  function Receives(q: seq<Payload>, ws: seq<seq<Payload>>, open: bool): (r: (seq<RecvOutcome>, seq<Payload>))
    ensures |r.0| == |ws|
    decreases |ws|
  {
    if ws == [] then ([], q)
    else
      var p := Receives(q, ws[..|ws| - 1], open);
      var q' := p.1 + ws[|ws| - 1];
      (p.0 + [Receive(q', open)], AfterReceive(q'))
  }

  lemma {:induction false} ReceivesLast(q: seq<Payload>, ws: seq<seq<Payload>>, w: seq<Payload>, open: bool)
    ensures Receives(q, ws + [w], open)
         == (Receives(q, ws, open).0 + [Receive(Receives(q, ws, open).1 + w, open)],
             AfterReceive(Receives(q, ws, open).1 + w))
  {
    assert (ws + [w])[..|ws|] == ws;
  }

  /** Window by window: the `k`-th outcome is what one receive gives on the
      queue as the first `k` receives left it, once `ws[k]` has arrived. */
  lemma {:induction false} ReceivesAt(q: seq<Payload>, ws: seq<seq<Payload>>, k: nat, open: bool)
    requires k < |ws|
    ensures Receives(q, ws, open).0[k] == Receive(Receives(q, ws[..k], open).1 + ws[k], open)
    decreases |ws|
  {
    var init := ws[..|ws| - 1];
    var w := ws[|ws| - 1];
    assert init + [w] == ws;
    ReceivesLast(q, init, w, open);
    if k < |init| {
      ReceivesAt(q, init, k, open);
      assert init[..k] == ws[..k];
    } else {
      assert ws[..k] == init;
    }
  }

  /** The receives over the first `i + 1` windows are those over the first
      `i` and one more receive after window `i` arrives. */
  lemma ReceivesTurn(q: seq<Payload>, ws: seq<seq<Payload>>, i: nat, open: bool)
    requires i < |ws|
    ensures Receives(q, ws[..i + 1], open)
         == (Receives(q, ws[..i], open).0 + [Receive(Receives(q, ws[..i], open).1 + ws[i], open)],
             AfterReceive(Receives(q, ws[..i], open).1 + ws[i]))
    ensures Flatten(ws[..i + 1]) == Flatten(ws[..i]) + ws[i]
  {
    TakeSnoc(ws, i);
    ReceivesLast(q, ws[..i], ws[i], open);
    FlattenLast(ws[..i], ws[i]);
  }

  lemma {:induction false} ItemsLast(os: seq<RecvOutcome>, o: RecvOutcome)
    ensures Items(os + [o]) == Items(os) + (if o.Item? then [o.payload] else [])
  {
    assert (os + [o])[..|os|] == os;
  }

  /** One receive takes the queue's head, if any, and leaves the rest. */
  lemma ReceiveSplits(q: seq<Payload>, open: bool)
    ensures (if Receive(q, open).Item? then [Receive(q, open).payload] else []) + AfterReceive(q) == q
  {
    if q != [] {
      assert [q[0]] + q[1..] == q;
    }
  }

  /** The session queue is FIFO: the payloads the receives have taken,
      followed by what the queue still holds, are exactly what it started with
      followed by everything the client sent, in order. */
  lemma {:induction false} ReceivesInOrder(q: seq<Payload>, ws: seq<seq<Payload>>, open: bool)
    ensures Items(Receives(q, ws, open).0) + Receives(q, ws, open).1 == q + Flatten(ws)
    decreases |ws|
  {
    if ws != [] {
      var n := |ws| - 1;
      var init := ws[..n];
      var w := ws[n];
      var p := Receives(q, init, open);
      var o := Receive(p.1 + w, open);
      var taken := if o.Item? then [o.payload] else [];
      ReceivesInOrder(q, init, open);
      assert init + [w] == ws;
      ReceivesLast(q, init, w, open);
      ItemsLast(p.0, o);
      ReceiveSplits(p.1 + w, open);
      calc {
        Items(Receives(q, ws, open).0) + Receives(q, ws, open).1;
        (Items(p.0) + taken) + AfterReceive(p.1 + w);
        { AppendAssoc(Items(p.0), taken, AfterReceive(p.1 + w)); }
        Items(p.0) + (p.1 + w);
        { AppendAssoc(Items(p.0), p.1, w); }
        (q + Flatten(init)) + w;
        { AppendAssoc(q, Flatten(init), w); }
        q + Flatten(ws);
      }
    }
  }

  /** A receive fails only on an empty queue: a client that sends something
      in every window never makes the writer count a receive error. */
  lemma {:induction false} BusyClientNoErrors(q: seq<Payload>, ws: seq<seq<Payload>>, open: bool)
    requires forall i :: 0 <= i < |ws| ==> ws[i] != []
    ensures forall i :: 0 <= i < |ws| ==> Receives(q, ws, open).0[i].Item?
    decreases |ws|
  {
    if ws != [] {
      var n := |ws| - 1;
      BusyClientNoErrors(q, ws[..n], open);
      assert ws[..n] + [ws[n]] == ws;
      ReceivesLast(q, ws[..n], ws[n], open);
    }
  }

  /** A disconnection is only ever seen after the sending handle is gone. */
  lemma {:induction false} DisconnectedOnlyWhenClosed(q: seq<Payload>, ws: seq<seq<Payload>>)
    ensures forall i :: 0 <= i < |ws| ==> Receives(q, ws, true).0[i] != Disconnected
    decreases |ws|
  {
    if ws != [] {
      var n := |ws| - 1;
      DisconnectedOnlyWhenClosed(q, ws[..n]);
      assert ws[..n] + [ws[n]] == ws;
      ReceivesLast(q, ws[..n], ws[n], true);
    }
  }

  lemma {:induction false} RunLast(s: WriterState, os: seq<RecvOutcome>, o: RecvOutcome, relayOk: bool)
    ensures Run(s, os + [o], relayOk)
         == if Run(s, os, relayOk).status == Running then Step(Run(s, os, relayOk), o, relayOk)
            else Run(s, os, relayOk)
  {
    assert (os + [o])[..|os|] == os;
  }

  /** A payload received while the writer runs is written to the relay
      endpoint unchanged and the counter goes back to 0; if the write fails
      the writer dies instead, counter and flag untouched. */
  lemma {:induction false} ItemResetsCounter(s: WriterState, os: seq<RecvOutcome>, p: Payload, relayOk: bool)
    requires Run(s, os, relayOk).status == Running
    ensures relayOk ==> Run(s, os + [Item(p)], relayOk) == WriterState(0, Run(s, os, relayOk).forwarded + [p], Running)
    ensures !relayOk ==> Run(s, os + [Item(p)], relayOk) == Run(s, os, relayOk).(status := Aborted)
  {
    RunLast(s, os, Item(p), relayOk);
  }

  /** Each receive error while the writer runs adds exactly 1 to the counter and
      forwards nothing; the writer leaves the loop exactly when the counter
      reaches two. */
  lemma {:induction false} ErrorIncrementsCounter(s: WriterState, os: seq<RecvOutcome>, o: RecvOutcome, relayOk: bool)
    requires Run(s, os, relayOk).status == Running && IsError(o)
    ensures Run(s, os + [o], relayOk).timeouts == Run(s, os, relayOk).timeouts + 1
    ensures Run(s, os + [o], relayOk).forwarded == Run(s, os, relayOk).forwarded
    ensures Run(s, os + [o], relayOk).status != Aborted
    ensures Run(s, os + [o], relayOk).status == IdleExit <==> Run(s, os + [o], relayOk).timeouts >= IDLE_LIMIT
  {
    RunLast(s, os, o, relayOk);
  }

  lemma {:induction false} ConsecutiveErrorsAppend(a: seq<RecvOutcome>, o: RecvOutcome)
    ensures HasConsecutiveErrors(a + [o]) <==> HasConsecutiveErrors(a) || (EndsInError(a) && IsError(o))
  {
    var b := a + [o];
    if HasConsecutiveErrors(a) {
      var i :| 0 <= i < |a| - 1 && IsError(a[i]) && IsError(a[i + 1]);
      assert b[i] == a[i] && b[i + 1] == a[i + 1];
    }
    if EndsInError(a) && IsError(o) {
      assert b[|a| - 1] == a[|a| - 1] && b[|a|] == o;
    }
    if HasConsecutiveErrors(b) {
      var i :| 0 <= i < |b| - 1 && IsError(b[i]) && IsError(b[i + 1]);
      if i + 1 < |a| {
        assert b[i] == a[i] && b[i + 1] == a[i + 1];
      } else {
        assert b[i] == a[|a| - 1] && b[i + 1] == o;
      }
    }
  }

  /** With a working relay endpoint the writer leaves its loop exactly when two
      receive errors have come one after the other with no payload between
      them (counting the error a counter of 1 remembers); while it runs, the
      counter is 1 exactly when the last outcome was an error. */
  lemma {:induction false} IdleIffConsecutiveErrors(s: WriterState, os: seq<RecvOutcome>)
    requires s.status == Running && s.timeouts < IDLE_LIMIT
    ensures Run(s, os, true).status != Aborted
    ensures Run(s, os, true).status == IdleExit <==> HasConsecutiveErrors(Lead(s) + os)
    ensures Run(s, os, true).status == Running ==> (Run(s, os, true).timeouts == 1 <==> EndsInError(Lead(s) + os))
    decreases |os|
  {
    var lead := Lead(s);
    if os == [] {
      assert lead + os == lead;
    } else {
      var n := |os| - 1;
      var init := os[..n];
      var o := os[n];
      assert init + [o] == os;
      IdleIffConsecutiveErrors(s, init);
      RunLast(s, init, o, true);
      assert lead + os == (lead + init) + [o];
      ConsecutiveErrorsAppend(lead + init, o);
      if EndsInError(lead + init) {
        assert (lead + os)[|lead + init| - 1] == (lead + init)[|lead + init| - 1];
      }
    }
  }

  lemma {:induction false} TimeoutThenItem(s: WriterState, a: seq<RecvOutcome>, fwd: seq<Payload>, p: Payload)
    requires Run(s, a, true) == WriterState(0, fwd, Running)
    ensures Run(s, a + [Timeout, Item(p)], true) == WriterState(0, fwd + [p], Running)
  {
    RunLast(s, a, Timeout, true);
    assert Run(s, a + [Timeout], true) == WriterState(1, fwd, Running);
    RunLast(s, a + [Timeout], Item(p), true);
    assert a + [Timeout, Item(p)] == (a + [Timeout]) + [Item(p)];
  }

  /** A client that speaks at least once in every second receive window never
      lets the writer go idle, however long it keeps on: every payload is
      forwarded, in order. */
  lemma {:induction false} AlternatingNeverIdle(s: WriterState, ps: seq<Payload>)
    requires s.status == Running && s.timeouts == 0
    ensures Run(s, Alternating(ps), true) == WriterState(0, s.forwarded + ps, Running)
    decreases |ps|
  {
    if ps == [] {
      assert s.forwarded + ps == s.forwarded;
    } else {
      var n := |ps| - 1;
      AlternatingNeverIdle(s, ps[..n]);
      TimeoutThenItem(s, Alternating(ps[..n]), s.forwarded + ps[..n], ps[n]);
      AppendAssoc(s.forwarded, ps[..n], [ps[n]]);
      assert ps[..n] + [ps[n]] == ps;
    }
  }

  /** Once the writer has left its loop, later outcomes change nothing. */
  lemma {:induction false} RunStopsAfterExit(s: WriterState, os: seq<RecvOutcome>, more: seq<RecvOutcome>, relayOk: bool)
    requires Run(s, os, relayOk).status != Running
    ensures Run(s, os + more, relayOk) == Run(s, os, relayOk)
    decreases |more|
  {
    if more == [] {
      assert os + more == os;
    } else {
      var n := |more| - 1;
      RunStopsAfterExit(s, os, more[..n], relayOk);
      assert os + more == (os + more[..n]) + [more[n]];
      RunLast(s, os + more[..n], more[n], relayOk);
    }
  }

  /** A writer still running before the last outcome of `os` was running
      before each of them: it met every outcome inside its loop. */
  lemma {:induction false} RunningUpToLast(s: WriterState, os: seq<RecvOutcome>, relayOk: bool)
    requires |os| > 0 ==> Run(s, os[..|os| - 1], relayOk).status == Running
    ensures forall j :: 0 <= j < |os| ==> Run(s, os[..j], relayOk).status == Running
  {
    forall j | 0 <= j < |os|
      ensures Run(s, os[..j], relayOk).status == Running
    {
      var n := |os| - 1;
      assert os[..j] + os[j..n] == os[..n];
      if Run(s, os[..j], relayOk).status != Running {
        RunStopsAfterExit(s, os[..j], os[j..n], relayOk);
      }
    }
  }

  /** While the writer runs, what it has forwarded is exactly the payloads it
      has received, unchanged and in the order received. */
  lemma {:induction false} ForwardedWhileRunning(s: WriterState, os: seq<RecvOutcome>, relayOk: bool)
    requires s.status == Running
    ensures Run(s, os, relayOk).status == Running ==> Run(s, os, relayOk).forwarded == s.forwarded + Items(os)
    decreases |os|
  {
    if os != [] {
      var n := |os| - 1;
      ForwardedWhileRunning(s, os[..n], relayOk);
      assert os[..n] + [os[n]] == os;
      RunLast(s, os[..n], os[n], relayOk);
    }
  }

  /** A writer that has left its loop did so at one outcome `os[k]`: it was
      running on the outcomes before it, had forwarded exactly the payloads
      among them, and left for idleness exactly when `os[k]` was a receive
      error (otherwise `os[k]` was a payload whose write failed). */
  lemma {:induction false} ExitPoint(s: WriterState, os: seq<RecvOutcome>, relayOk: bool) returns (k: nat)
    requires s.status == Running
    requires Run(s, os, relayOk).status != Running
    ensures k < |os|
    ensures Run(s, os[..k], relayOk).status == Running
    ensures Run(s, os[..k + 1], relayOk) == Run(s, os, relayOk)
    ensures Run(s, os, relayOk).forwarded == s.forwarded + Items(os[..k])
    ensures Run(s, os, relayOk).status == IdleExit <==> IsError(os[k])
    decreases |os|
  {
    var n := |os| - 1;
    RunPrefixStep(s, os, n, relayOk);
    assert os[..n + 1] == os;
    if Run(s, os[..n], relayOk).status == Running {
      k := n;
    } else {
      var init := os[..n];
      k := ExitPoint(s, init, relayOk);
      assert init[..k] == os[..k] && init[..k + 1] == os[..k + 1];
    }
    RunPrefixStep(s, os, k, relayOk);
    ForwardedWhileRunning(s, os[..k], relayOk);
  }

  /** Running over one more outcome of a trace is one more step, unless the
      writer has already left. */
  lemma {:induction false} RunPrefixStep(s: WriterState, os: seq<RecvOutcome>, k: nat, relayOk: bool)
    requires k < |os|
    ensures Run(s, os[..k + 1], relayOk)
         == if Run(s, os[..k], relayOk).status == Running then Step(Run(s, os[..k], relayOk), os[k], relayOk)
            else Run(s, os[..k], relayOk)
  {
    assert os[..k + 1] == os[..k] + [os[k]];
    RunLast(s, os[..k], os[k], relayOk);
  }

  /** A client that sends something in every receive window keeps a session
      with a working relay endpoint alive for good: the writer never goes idle,
      and what it has forwarded, followed by what still waits in the session
      queue, is everything the client sent, unchanged and in order. */
  lemma {:induction false} BusyClientForwardsInOrder(ws: seq<seq<Payload>>, open: bool)
    requires forall i :: 0 <= i < |ws| ==> ws[i] != []
    ensures Run(Start(), Receives([], ws, open).0, true).status == Running
    ensures Run(Start(), Receives([], ws, open).0, true).forwarded + Receives([], ws, open).1 == Flatten(ws)
  {
    var os := Receives([], ws, open).0;
    BusyClientNoErrors([], ws, open);
    IdleIffConsecutiveErrors(Start(), os);
    assert Lead(Start()) + os == os;
    assert !HasConsecutiveErrors(os);
    ForwardedWhileRunning(Start(), os, true);
    ReceivesInOrder([], ws, open);
    assert Start().forwarded + Items(os) == Items(os);
    assert [] + Flatten(ws) == Flatten(ws);
  }
}
