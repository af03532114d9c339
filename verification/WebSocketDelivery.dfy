/**
  What the socket actor delivers: exactly the frames of the connection that is current, from its connect until something
  ends it, in the order of their arrival.
 */
module WebSocketDelivery {
  import opened Common
  import opened WebSocketClient

  lemma {:induction false} RunEvent(run: seq<System>, events: seq<Event>, k: nat)
    requires IsRun(run, events) && k < |events|
    ensures Enabled(run[k], events[k]) && run[k + 1] == Next(run[k], events[k])
  {
  }

  /** A new connection is current at once, with its own owner and an open stream. */
  lemma {:induction false} ConnectedIsCurrent(run: seq<System>, events: seq<Event>, i: nat)
    requires IsRun(run, events) && i < |events| && events[i].Connects?
    ensures var e, y := events[i], run[i + 1];
            && y.actor == Actor(Some(e.socket), Some(e.stream), Some(e.owner), Clamp(e.maximumFrameBytes))
            && e.socket in y.connections && y.connections[e.socket] == Connection(e.stream, e.owner, Clamp(e.maximumFrameBytes))
            && e.stream !in y.finished + y.cancelled
  {
    RunEvent(run, events, i);
    RunInv(run, events, i + 1);
    assert events[i].socket in run[i + 1].connections;
  }

  /** The socket was connected by the event before `i`. */
  predicate ConnectedAt(events: seq<Event>, i: nat, socket: SocketId)
  {
    0 < i <= |events| && events[i - 1].Connects? && events[i - 1].socket == socket
  }

  ghost predicate UpSince(run: seq<System>, events: seq<Event>, i: nat, k: nat, socket: SocketId)
    requires k <= |events| < |run|
  {
    i <= k && ConnectedAt(events, i, socket) && NothingEnds(run, events, i, k, socket)
  }

  lemma {:induction false} UpIsCurrent(run: seq<System>, events: seq<Event>, i: nat, k: nat, socket: SocketId)
    requires IsRun(run, events) && k < |run| && UpSince(run, events, i, k, socket)
    ensures run[k].actor.task == Some(socket)
  {
    ConnectedIsCurrent(run, events, i - 1);
    LastsIff(run, events, i, k, socket);
  }

  lemma {:induction false} OnlyConnectMakesCurrent(x: System, e: Event, socket: SocketId)
    requires Enabled(x, e) && Next(x, e).actor.task == Some(socket) && x.actor.task != Some(socket)
    ensures e.Connects? && e.socket == socket
  {
  }

  lemma {:induction false} CurrentWasConnected(run: seq<System>, events: seq<Event>, k: nat, socket: SocketId) returns (i: nat)
    requires IsRun(run, events) && k < |run| && run[k].actor.task == Some(socket)
    ensures UpSince(run, events, i, k, socket)
  {
    RunEvent(run, events, k - 1);
    if run[k - 1].actor.task == Some(socket) && !ConnectedAt(events, k, socket) {
      i := CurrentWasConnected(run, events, k - 1, socket);
      CurrentIsOpen(run, events, k - 1, socket);
      LastsStep(run, events, k - 1, socket);
    } else {
      if run[k - 1].actor.task != Some(socket) {
        OnlyConnectMakesCurrent(run[k - 1], events[k - 1], socket);
      }
      i := k;
    }
  }

  /** A socket is current exactly when it was connected and nothing has ended its connection since. */
  lemma {:induction false} CurrentIff(run: seq<System>, events: seq<Event>, k: nat, socket: SocketId)
    requires IsRun(run, events) && k < |run|
    ensures run[k].actor.task == Some(socket) <==> exists i :: UpSince(run, events, i, k, socket)
  {
    if run[k].actor.task == Some(socket) {
      var i := CurrentWasConnected(run, events, k, socket);
    }
    if i :| UpSince(run, events, i, k, socket) {
      UpIsCurrent(run, events, i, k, socket);
    }
  }

  /** The event brings a frame to deliver: it decodes, its connection is up, and its stream has not been given up. */
  ghost predicate Brings(run: seq<System>, events: seq<Event>, k: nat, socket: SocketId)
    requires k < |events| < |run|
  {
    && events[k] == Receives(socket, true) && socket in run[k].connections
    && (exists i :: UpSince(run, events, i, k, socket))
    && run[k].connections[socket].stream !in run[k].cancelled
  }

  lemma {:induction false} DeliveryAt(x: System, e: Event)
    requires Inv(x) && Enabled(x, e)
    ensures var s := x.actor.task;
            Next(x, e).delivered == x.delivered +
              if s.Some? && e == Receives(s.value, true) && x.connections[s.value].stream !in x.cancelled
              then [Delivery(s.value, x.connections[s.value].stream, x.connections[s.value].limit)] else []
  {
  }

  /** Every event delivers the frame it brings, to that connection's stream and under its limit, and nothing else. */
  lemma {:induction false} DeliversIff(run: seq<System>, events: seq<Event>, k: nat, socket: SocketId)
    requires IsRun(run, events) && k < |events|
    ensures Brings(run, events, k, socket) ==>
              run[k + 1].delivered ==
              run[k].delivered + [Delivery(socket, run[k].connections[socket].stream, run[k].connections[socket].limit)]
    ensures (forall s :: !Brings(run, events, k, s)) ==> run[k + 1].delivered == run[k].delivered
  {
    RunEvent(run, events, k);
    RunInv(run, events, k);
    DeliveryAt(run[k], events[k]);
    CurrentIff(run, events, k, socket);
    if run[k].actor.task.Some? {
      var s := run[k].actor.task.value;
      CurrentIff(run, events, k, s);
      assert Brings(run, events, k, s) <==>
             events[k] == Receives(s, true) && run[k].connections[s].stream !in run[k].cancelled;
    }
  }

  ghost predicate LoopInv(x: System)
  {
    x.actor.task.Some? ==> x.actor.task.value in x.loops && !x.loops[x.actor.task.value].Over?
  }

  lemma {:induction false} LoopStep(x: System, e: Event)
    requires Inv(x) && LoopInv(x) && Enabled(x, e)
    ensures LoopInv(Next(x, e))
  {
  }

  /** The receive loop of the current connection goes on as long as the connection is up, however many frames came. */
  lemma {:induction false} LoopLives(run: seq<System>, events: seq<Event>, k: nat)
    requires IsRun(run, events) && k < |run|
    ensures LoopInv(run[k])
  {
    if k > 0 {
      LoopLives(run, events, k - 1);
      RunInv(run, events, k - 1);
      RunEvent(run, events, k - 1);
      LoopStep(run[k - 1], events[k - 1]);
    }
  }

  /** So its next frame can always be received and delivered. */
  lemma {:induction false} NextFrameArrives(run: seq<System>, events: seq<Event>, k: nat, socket: SocketId)
    requires IsRun(run, events) && k < |run| && run[k].actor.task == Some(socket)
    ensures Enabled(run[k], Receives(socket, true)) || (Enabled(run[k], LoopTests(socket)) && Enabled(Next(run[k], LoopTests(socket)), Receives(socket, true)))
  {
    LoopLives(run, events, k);
    CurrentIsOpen(run, events, k, socket);
  }
}
