/**
  The socket actor behind the terminal: one current connection, replaced by connect and
  torn down by its owner, by its stream or by its own receive loop.  Callbacks and
  receives of earlier connections may arrive at any later time.
 */
module WebSocketClient {
  import opened Common

  type SocketId = nat
  type StreamId = nat
  type OwnerId = nat

  /** The fields of the actor. */
  datatype Actor = Actor(task: Option<SocketId>, continuation: Option<StreamId>, owner: Option<OwnerId>, limit: int)

  function Disconnected(a: Actor): Actor
  {
    a.(task := None, owner := None, continuation := None)
  }

  /** The negotiated payload limit of a connection. */
  function Clamp(maximumFrameBytes: int): int
  {
    var atLeast := if maximumFrameBytes < 1024 then 1024 else maximumFrameBytes;
    if atLeast > 1048576 then 1048576 else atLeast
  }

  /** What may happen to the actor: calls, callbacks and messages of any connection, current or not. */
  datatype Event =
    | Connects(owner: OwnerId, socket: SocketId, stream: StreamId, maximumFrameBytes: int)
    | Disconnects
    | OwnerDisconnects(owner: OwnerId)
    | Cancels(socket: SocketId)             // the consumer of a stream gives it up
    | StreamTerminates(socket: SocketId)    // the callback of a finished or cancelled stream
    | LoopTests(socket: SocketId)
    | Receives(socket: SocketId, decodes: bool)
    | ReceiveFails(socket: SocketId)

  /** The actor afterwards, the stream it finishes and the stream it yields the frame to. */
  datatype Reply = Reply(actor: Actor, finished: Option<StreamId>, yielded: Option<StreamId>)

  function Kept(a: Actor): Reply { Reply(a, None, None) }

  function Dropped(a: Actor): Reply { Reply(Disconnected(a), a.continuation, None) }

  function React(a: Actor, e: Event): Reply
  {
    match e
    case Connects(owner, socket, stream, maximum) =>
      Reply(Actor(Some(socket), Some(stream), Some(owner), Clamp(maximum)), a.continuation, None)
    case Disconnects => Dropped(a)
    case OwnerDisconnects(owner) => if a.owner == Some(owner) then Dropped(a) else Kept(a)
    case Cancels(_) => Kept(a)
    case StreamTerminates(socket) => if a.task == Some(socket) then Dropped(a) else Kept(a)
    case LoopTests(_) => Kept(a)
    case Receives(socket, decodes) =>
      if a.task != Some(socket) then Kept(a)
      else if decodes then Reply(a, None, a.continuation)
      else Dropped(a)
    case ReceiveFails(socket) => if a.task == Some(socket) then Dropped(a) else Kept(a)
  }

  class TerminalWebSocketClient {
    var task: Option<SocketId>
    var continuation: Option<StreamId>
    var ownerID: Option<OwnerId>
    var limit: int

    function Fields(): Actor
      reads this
    {
      Actor(task, continuation, ownerID, limit)
    }

    constructor ()
      ensures Fields() == Actor(None, None, None, 1048576)
    {
      task, continuation, ownerID := None, None, None;
      limit := 1048576;
    }

    /** Returns the stream that has to be finished, if there is one. */
    method Disconnect() returns (finished: Option<StreamId>)
      modifies this
      ensures Reply(Fields(), finished, None) == React(old(Fields()), Disconnects)
    {
      task := None;
      ownerID := None;
      finished := continuation;
      continuation := None;
    }

    method DisconnectOwner(owner: OwnerId) returns (finished: Option<StreamId>)
      modifies this
      ensures Reply(Fields(), finished, None) == React(old(Fields()), OwnerDisconnects(owner))
    {
      if ownerID != Some(owner) {
        return None;
      }
      finished := Disconnect();
    }

    method DisconnectIfCurrent(socket: SocketId) returns (finished: Option<StreamId>)
      modifies this
      ensures Reply(Fields(), finished, None) == React(old(Fields()), StreamTerminates(socket))
    {
      if task != Some(socket) {
        return None;
      }
      finished := Disconnect();
    }

    /** `socket` and `stream` are the objects that the platform has just created. */
    method Connect(owner: OwnerId, socket: SocketId, stream: StreamId, maximumFrameBytes: int) returns (finished: Option<StreamId>)
      modifies this
      ensures Reply(Fields(), finished, None) == React(old(Fields()), Connects(owner, socket, stream, maximumFrameBytes))
    {
      finished := Disconnect();
      ownerID := Some(owner);
      limit := Clamp(maximumFrameBytes);
      task := Some(socket);
      continuation := Some(stream);
    }

    /** The part of the receive loop between two suspensions: where the message goes, if anywhere. */
    method Deliver(socket: SocketId, decodes: bool) returns (yieldedTo: Option<StreamId>, finished: Option<StreamId>)
      modifies this
      ensures Reply(Fields(), finished, yieldedTo) == React(old(Fields()), Receives(socket, decodes))
    {
      if task != Some(socket) {
        return None, None;
      }
      if decodes {
        return continuation, None;
      }
      finished := FailReceive(socket);
      return None, finished;
    }

    /** The catch branch of the receive loop. */
    method FailReceive(socket: SocketId) returns (finished: Option<StreamId>)
      modifies this
      ensures Reply(Fields(), finished, None) == React(old(Fields()), ReceiveFails(socket))
    {
      finished := None;
      if task == Some(socket) {
        task := None;
        ownerID := None;
        finished := continuation;
        continuation := None;
      }
    }
  }

  // ----- The actor among everything that may call it

  datatype Connection = Connection(stream: StreamId, owner: OwnerId, limit: int)

  /** Where a receive loop is: about to test that it is current, suspended in receive, or over. */
  datatype Loop = Testing | Receiving | Over

  datatype Delivery = Delivery(socket: SocketId, stream: StreamId, limit: int)

  /** `finished` are the streams the actor ended, `cancelled` those their consumer gave up. */
  datatype System = System(
    actor: Actor,
    connections: map<SocketId, Connection>,
    loops: map<SocketId, Loop>,
    finished: set<StreamId>,
    cancelled: set<StreamId>,
    delivered: seq<Delivery>)

  function Finish(finished: set<StreamId>, stream: Option<StreamId>): set<StreamId>
  {
    if stream.Some? then finished + {stream.value} else finished
  }

  predicate Enabled(x: System, e: Event)
  {
    match e
    case Connects(_, socket, stream, _) =>
      && socket !in x.connections && stream !in x.cancelled
      && forall s <- x.connections :: x.connections[s].stream != stream
    case Disconnects => true
    case OwnerDisconnects(_) => true
    case Cancels(socket) => socket in x.connections
    case StreamTerminates(socket) => socket in x.connections && x.connections[socket].stream in x.finished + x.cancelled
    case LoopTests(socket) => socket in x.loops && x.loops[socket].Testing?
    case Receives(socket, _) => socket in x.loops && x.loops[socket].Receiving? && socket in x.connections
    case ReceiveFails(socket) => socket in x.loops && x.loops[socket].Receiving?
  }

  function LoopsAfter(x: System, e: Event): map<SocketId, Loop>
  {
    match e
    case Connects(_, socket, _, _) => x.loops[socket := Testing]
    case LoopTests(socket) => x.loops[socket := if x.actor.task == Some(socket) then Receiving else Over]
    case Receives(socket, decodes) => x.loops[socket := if x.actor.task == Some(socket) && decodes then Testing else Over]
    case ReceiveFails(socket) => x.loops[socket := Over]
    case _ => x.loops
  }

  /** A frame yielded to a stream that its consumer has given up goes nowhere. */
  function DeliveredAfter(x: System, e: Event): seq<Delivery>
    requires Enabled(x, e)
  {
    var stream := React(x.actor, e).yielded;
    if e.Receives? && stream.Some? && stream.value !in x.cancelled
    then x.delivered + [Delivery(e.socket, stream.value, x.connections[e.socket].limit)]
    else x.delivered
  }

  function Next(x: System, e: Event): System
    requires Enabled(x, e)
  {
    System(
      React(x.actor, e).actor,
      if e.Connects? then x.connections[e.socket := Connection(e.stream, e.owner, Clamp(e.maximumFrameBytes))] else x.connections,
      LoopsAfter(x, e),
      Finish(x.finished, React(x.actor, e).finished),
      if e.Cancels? then x.cancelled + {x.connections[e.socket].stream} else x.cancelled,
      DeliveredAfter(x, e))
  }

  // ----- Invariants

  /** Task, owner and stream are all set, for one connection, or all absent. */
  ghost predicate FieldsInv(x: System)
  {
    match x.actor.task
    case None => x.actor.owner.None? && x.actor.continuation.None?
    case Some(socket) =>
      && socket in x.connections
      && x.actor.continuation == Some(x.connections[socket].stream)
      && x.actor.owner == Some(x.connections[socket].owner)
      && x.actor.limit == x.connections[socket].limit
  }

  /** Streams are not shared, and exactly the current one is unfinished. */
  ghost predicate StreamsInv(x: System)
  {
    && (forall s, t :: s in x.connections && t in x.connections && x.connections[s].stream == x.connections[t].stream ==> s == t)
    && (forall s :: s in x.connections ==> (x.connections[s].stream in x.finished <==> x.actor.task != Some(s)))
    && (forall stream :: stream in x.finished ==> exists s :: s in x.connections && x.connections[s].stream == stream)
  }

  /** Every frame went to the stream of the socket it arrived on, decoded under that connection's limit. */
  ghost predicate DeliveredInv(x: System)
  {
    && (forall y :: y in x.delivered ==> y.socket in x.connections && y.stream == x.connections[y.socket].stream && y.limit == x.connections[y.socket].limit)
    && (forall s :: s in x.connections ==> 1024 <= x.connections[s].limit <= 1048576)
  }

  ghost predicate Inv(x: System)
  {
    FieldsInv(x) && StreamsInv(x) && DeliveredInv(x)
  }

  const START := System(Actor(None, None, None, 1048576), map[], map[], {}, {}, [])

  /** The actor is left alone, or its connection is torn down. */
  lemma {:induction false} QuietStep(x: System, e: Event)
    requires Inv(x) && Enabled(x, e) && !e.Connects?
    ensures FieldsInv(Next(x, e)) && StreamsInv(Next(x, e))
  {
  }

  lemma {:induction false} DeliveryStep(x: System, e: Event)
    requires Inv(x) && Enabled(x, e)
    ensures DeliveredInv(Next(x, e))
  {
  }

  lemma {:induction false} ConnectStep(x: System, e: Event)
    requires Inv(x) && e.Connects? && Enabled(x, e)
    ensures FieldsInv(Next(x, e)) && StreamsInv(Next(x, e))
  {
    var y := Next(x, e);
    assert forall s :: s in x.connections ==> y.connections[s] == x.connections[s];
    forall stream | stream in y.finished ensures exists s :: s in y.connections && y.connections[s].stream == stream {
      if stream in x.finished {
        var s :| s in x.connections && x.connections[s].stream == stream;
        assert s in y.connections && y.connections[s].stream == stream;
      } else {
        var s := x.actor.task.value;
        assert s in y.connections && y.connections[s].stream == stream;
      }
    }
  }

  lemma {:induction false} StepInv(x: System, e: Event)
    requires Inv(x) && Enabled(x, e)
    ensures Inv(Next(x, e))
  {
    DeliveryStep(x, e);
    if e.Connects? {
      ConnectStep(x, e);
    } else {
      QuietStep(x, e);
    }
  }

  ghost predicate IsRun(run: seq<System>, events: seq<Event>)
  {
    && |run| == |events| + 1
    && run[0] == START
    && forall i :: 0 <= i < |events| ==> Enabled(run[i], events[i]) && run[i + 1] == Next(run[i], events[i])
  }

  lemma {:induction false} RunInv(run: seq<System>, events: seq<Event>, i: nat)
    requires IsRun(run, events) && i < |run|
    ensures Inv(run[i])
  {
    if i > 0 {
      RunInv(run, events, i - 1);
      StepInv(run[i - 1], events[i - 1]);
      assert run[i - 1 + 1] == Next(run[i - 1], events[i - 1]);
    }
  }

  /** Frames never cross connections, and the actor's three fields never disagree. */
  lemma {:induction false} NoCrossTalk(run: seq<System>, events: seq<Event>, i: nat)
    requires IsRun(run, events) && i < |run|
    ensures forall y :: y in run[i].delivered ==> y.socket in run[i].connections && y.stream == run[i].connections[y.socket].stream
    ensures run[i].actor.task.Some? == run[i].actor.owner.Some? == run[i].actor.continuation.Some?
    ensures forall s :: s in run[i].connections ==> (run[i].connections[s].stream in run[i].finished <==> run[i].actor.task != Some(s))
  {
    RunInv(run, events, i);
  }

  /** The event comes from an owner or a socket that is not current. */
  predicate Stale(x: System, e: Event)
  {
    match e
    case OwnerDisconnects(owner) => x.actor.owner != Some(owner)
    case Cancels(socket) => x.actor.task != Some(socket)
    case StreamTerminates(socket) => x.actor.task != Some(socket)
    case LoopTests(socket) => x.actor.task != Some(socket)
    case Receives(socket, _) => x.actor.task != Some(socket)
    case ReceiveFails(socket) => x.actor.task != Some(socket)
    case Connects(_, _, _, _) => false
    case Disconnects => false
  }

  /** Anything stale leaves the current connection alone and delivers nothing. */
  lemma {:induction false} StaleIsHarmless(x: System, e: Event)
    requires Enabled(x, e) && Stale(x, e)
    ensures Next(x, e).actor == x.actor && Next(x, e).finished == x.finished && Next(x, e).delivered == x.delivered
  {
  }

  /** What ends the connection of `socket` while it is current. */
  predicate Ends(x: System, e: Event, socket: SocketId)
    requires socket in x.connections
  {
    match e
    case Connects(_, _, _, _) => true
    case Disconnects => true
    case OwnerDisconnects(owner) => owner == x.connections[socket].owner
    case StreamTerminates(other) => other == socket
    case Receives(other, decodes) => other == socket && !decodes
    case ReceiveFails(other) => other == socket
    case Cancels(_) => false
    case LoopTests(_) => false
  }

  /** A step ends the current connection exactly when it is one of these. */
  lemma {:induction false} EndsIff(x: System, e: Event, socket: SocketId)
    requires Inv(x) && Enabled(x, e) && x.actor.task == Some(socket)
    ensures socket in x.connections
    ensures Next(x, e).actor.task != Some(socket) <==> Ends(x, e, socket)
    ensures !Ends(x, e, socket) ==> Next(x, e).actor == x.actor && Next(x, e).finished == x.finished
  {
  }

  lemma {:induction false} ConnectionsStay(run: seq<System>, events: seq<Event>, i: nat, j: nat, socket: SocketId)
    requires IsRun(run, events) && i <= j < |run| && socket in run[i].connections
    ensures socket in run[j].connections && run[j].connections[socket] == run[i].connections[socket]
    decreases j
  {
    if i < j {
      ConnectionsStay(run, events, i, j - 1, socket);
      assert run[j - 1 + 1] == Next(run[j - 1], events[j - 1]) && Enabled(run[j - 1], events[j - 1]);
    }
  }

  /** Nothing between `i` and `j` ends the connection of `socket`. */
  ghost predicate NothingEnds(run: seq<System>, events: seq<Event>, i: nat, j: nat, socket: SocketId)
    requires j <= |events| < |run|
  {
    forall k :: i <= k < j ==> socket in run[k].connections && !Ends(run[k], events[k], socket)
  }

  lemma {:induction false} LastsStep(run: seq<System>, events: seq<Event>, k: nat, socket: SocketId)
    requires IsRun(run, events) && k < |events| && socket in run[k].connections
    ensures run[k + 1].actor.task == Some(socket) <==> run[k].actor.task == Some(socket) && !Ends(run[k], events[k], socket)
    ensures run[k + 1].actor.task == Some(socket) ==> run[k + 1].actor == run[k].actor && run[k + 1].finished == run[k].finished
  {
    RunInv(run, events, k);
    assert run[k + 1] == Next(run[k], events[k]) && Enabled(run[k], events[k]);
    if run[k].actor.task == Some(socket) {
      EndsIff(run[k], events[k], socket);
    }
  }

  lemma {:induction false} CurrentIsOpen(run: seq<System>, events: seq<Event>, i: nat, socket: SocketId)
    requires IsRun(run, events) && i < |run| && run[i].actor.task == Some(socket)
    ensures socket in run[i].connections && run[i].connections[socket].stream !in run[i].finished
  {
    RunInv(run, events, i);
  }

  /** A current connection is still current later, and its stream open, exactly when nothing in between ends it. */
  lemma {:induction false} LastsIff(run: seq<System>, events: seq<Event>, i: nat, j: nat, socket: SocketId)
    requires IsRun(run, events) && i <= j < |run| && run[i].actor.task == Some(socket)
    ensures run[j].actor.task == Some(socket) <==> NothingEnds(run, events, i, j, socket)
    ensures run[j].actor.task == Some(socket) ==> run[j].actor == run[i].actor && run[j].finished == run[i].finished
    decreases j
  {
    if i < j {
      LastsIff(run, events, i, j - 1, socket);
      CurrentIsOpen(run, events, i, socket);
      ConnectionsStay(run, events, i, j - 1, socket);
      LastsStep(run, events, j - 1, socket);
      assert NothingEnds(run, events, i, j, socket) <==>
             NothingEnds(run, events, i, j - 1, socket) && !Ends(run[j - 1], events[j - 1], socket);
    }
  }

  /** A cancelled stream gets nothing more. */
  lemma {:induction false} CancelledForGood(run: seq<System>, events: seq<Event>, i: nat, j: nat, stream: StreamId)
    requires IsRun(run, events) && i <= j < |run| && stream in run[i].cancelled
    ensures stream in run[j].cancelled
    ensures forall y :: y in run[j].delivered && y.stream == stream ==> y in run[i].delivered
    decreases j
  {
    if i < j {
      CancelledForGood(run, events, i, j - 1, stream);
      var x, e := run[j - 1], events[j - 1];
      assert run[j - 1 + 1] == Next(x, e);
      forall y | y in run[j].delivered && y.stream == stream ensures y in run[i].delivered {
        assert y in x.delivered;
      }
    }
  }

  /** A socket that lost its place never becomes current again, so its frames are lost for good. */
  lemma {:induction false} ReplacedForGood(run: seq<System>, events: seq<Event>, i: nat, j: nat, socket: SocketId)
    requires IsRun(run, events) && i <= j < |run|
    requires socket in run[i].connections && run[i].actor.task != Some(socket)
    ensures socket in run[j].connections && run[j].actor.task != Some(socket)
    ensures (forall y :: y in run[j].delivered && y.socket == socket ==> y in run[i].delivered)
    decreases j
  {
    if i < j {
      ReplacedForGood(run, events, i, j - 1, socket);
      var x, e := run[j - 1], events[j - 1];
      assert run[j - 1 + 1] == Next(x, e);
      forall y | y in run[j].delivered && y.socket == socket ensures y in run[i].delivered {
        assert y in x.delivered;
      }
    }
  }
}
