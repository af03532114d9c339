/**
  The client side of the terminal stream: sequence numbers, acknowledgements, replay
  gaps and cached history in front of the output filter.

  Frames may be lost, repeated and reordered, connections may fail and come back, and
  an acknowledgement may fail to be sent; the screen still shows one filtering of
  consecutive payloads of the server's stream.
 */
module TerminalSession {
  import opened Common
  import opened OutputSanitizer

  const SEQUENCE_MAX := 0xFFFF_FFFF_FFFF_FFFF

  type Sequence = n: int | 0 <= n <= SEQUENCE_MAX

  /** What reaches the session; everything that touches neither the stream nor the screen is Other. */
  datatype Event =
    | Output(sequence: Sequence, payload: seq<byte>)
    | ReplayGap(sequence: Sequence)
    | Restore(lastSequence: Sequence, frames: seq<seq<byte>>)
    | Other

  /** The state of the stream: the last accepted number, the filter's buffer, the screen, the acknowledgements since its reset. */
  datatype View = View(lastAcknowledged: Sequence, pending: seq<byte>, rendered: seq<byte>, acks: seq<Sequence>)

  datatype Verdict = Accepted | Repeated | Gap | Malformed | Ignored

  function Judge(v: View, e: Event): Verdict
  {
    match e
    case Output(n, _) =>
      if n <= v.lastAcknowledged then Repeated
      else if v.lastAcknowledged == SEQUENCE_MAX || n != v.lastAcknowledged + 1 then Gap
      else Accepted
    case ReplayGap(n) => if n > 0 then Accepted else Malformed
    case Restore(_, _) => Accepted
    case Other => Ignored
  }

  function NextView(v: View, e: Event): View
  {
    match e
    case Output(n, payload) =>
      if Judge(v, e).Repeated? then v.(acks := v.acks + [n])
      else if Judge(v, e).Gap? then v
      else
        var o := Processed(v.pending, payload);
        View(n, o.rest, v.rendered + o.out, v.acks + [n])
    case ReplayGap(n) => if n > 0 then View(n - 1, [], [], []) else v
    case Restore(last, frames) =>
      View(if last > v.lastAcknowledged then last else v.lastAcknowledged, v.pending, Flatten(frames), [])
    case Other => v
  }

  class SessionModel {
    var sanitizer: Sanitizer
    var lastAcknowledgedSequence: Sequence
    var rendered: seq<byte>
    var acks: seq<Sequence>
    var hasReplayGap: bool

    function Current(): View
      reads this, sanitizer
    {
      View(lastAcknowledgedSequence, sanitizer.pending, rendered, acks)
    }

    constructor ()
      ensures fresh(sanitizer)
      ensures Current() == View(0, [], [], [])
      ensures !hasReplayGap
    {
      sanitizer := new Sanitizer();
      lastAcknowledgedSequence := 0;
      rendered, acks := [], [];
      hasReplayGap := false;
    }

    /** One output frame.  Whether its acknowledgement could be sent changes nothing here. */
    method HandleOutput(sequence: Sequence, payload: seq<byte>) returns (verdict: Verdict)
      modifies this, sanitizer
      ensures sanitizer == old(sanitizer)
      ensures verdict == Judge(old(Current()), Output(sequence, payload))
      ensures Current() == NextView(old(Current()), Output(sequence, payload))
      ensures lastAcknowledgedSequence == old(lastAcknowledgedSequence) + if verdict.Accepted? then 1 else 0
      ensures verdict.Accepted? <==> sequence == old(lastAcknowledgedSequence) + 1
      ensures acks == old(acks) + if sequence <= lastAcknowledgedSequence then [sequence] else []
      ensures hasReplayGap == (old(hasReplayGap) || verdict.Gap?)
    {
      if sequence <= lastAcknowledgedSequence {
        acks := acks + [sequence];
        return Repeated;
      }
      if lastAcknowledgedSequence == SEQUENCE_MAX || sequence != lastAcknowledgedSequence + 1 {
        hasReplayGap := true;
        return Gap;
      }
      var safe := sanitizer.Process(payload);
      if safe != [] {
        rendered := rendered + safe;
      } else {
        assert rendered + safe == rendered;
      }
      lastAcknowledgedSequence := sequence;
      acks := acks + [sequence];
      return Accepted;
    }

    /** The server declares its earlier history lost. */
    method HandleReplayGap(sequence: Sequence) returns (verdict: Verdict)
      modifies this, sanitizer
      ensures sanitizer == old(sanitizer)
      ensures verdict == Judge(old(Current()), ReplayGap(sequence))
      ensures Current() == NextView(old(Current()), ReplayGap(sequence))
      ensures hasReplayGap == (old(hasReplayGap) || verdict.Accepted?)
    {
      if sequence == 0 {
        return Malformed;
      }
      hasReplayGap := true;
      sanitizer.Reset();
      rendered, acks := [], [];
      lastAcknowledgedSequence := sequence - 1;
      return Accepted;
    }

    method RestoreCachedHistory(lastSequence: Sequence, frames: seq<seq<byte>>)
      modifies this
      ensures sanitizer == old(sanitizer) && sanitizer.pending == old(sanitizer.pending)
      ensures Current() == NextView(old(Current()), Restore(lastSequence, frames))
      ensures hasReplayGap == old(hasReplayGap)
    {
      rendered, acks := [], [];
      var i := 0;
      while i < |frames|
        invariant 0 <= i <= |frames|
        invariant rendered == Flatten(frames[..i])
        invariant sanitizer == old(sanitizer) && sanitizer.pending == old(sanitizer.pending)
        invariant lastAcknowledgedSequence == old(lastAcknowledgedSequence) && acks == [] && hasReplayGap == old(hasReplayGap)
      {
        FlattenConcat(frames[..i], [frames[i]]);
        FlattenSingle(frames[i]);
        assert frames[..i + 1] == frames[..i] + [frames[i]];
        if frames[i] != [] {
          rendered := rendered + frames[i];
        } else {
          assert rendered + frames[i] == rendered;
        }
        i := i + 1;
      }
      assert frames[..i] == frames;
      if lastSequence > lastAcknowledgedSequence {
        lastAcknowledgedSequence := lastSequence;
      }
    }
  }

  // ----- What the screen shows

  /**
    The stretch of the stream that the screen stands for: everything since the start,
    the last restored history or the last replay gap.  `shown` is what was rendered in
    one go at that moment, `held` what the filter was holding, `payloads` what was
    accepted since, beginning with number `base` + 1.
   */
  datatype Epoch = Epoch(base: nat, shown: seq<byte>, held: seq<byte>, payloads: seq<seq<byte>>)

  function NextEpoch(v: View, ep: Epoch, e: Event): Epoch
  {
    match e
    case Output(_, payload) => if Judge(v, e).Accepted? then ep.(payloads := ep.payloads + [payload]) else ep
    case ReplayGap(n) => if n > 0 then Epoch(n - 1, [], [], []) else ep
    case Restore(_, frames) => Epoch(NextView(v, e).lastAcknowledged, Flatten(frames), v.pending, [])
    case Other => ep
  }

  function RunView(events: seq<Event>): View
  {
    if events == [] then View(0, [], [], [])
    else NextView(RunView(events[..|events| - 1]), events[|events| - 1])
  }

  function RunEpoch(events: seq<Event>): Epoch
  {
    if events == [] then Epoch(0, [], [], [])
    else NextEpoch(RunView(events[..|events| - 1]), RunEpoch(events[..|events| - 1]), events[|events| - 1])
  }

  ghost predicate Coherent(v: View, ep: Epoch)
  {
    && v.lastAcknowledged == ep.base + |ep.payloads|
    && ProcessAll(ep.held, ep.payloads).After(ep.shown) == Outcome(v.rendered, v.pending)
    && Settled(v.pending) && Settled(ep.held)
    && forall n :: n in v.acks ==> n <= v.lastAcknowledged
  }

  /** Nothing in the filter's buffer is ready to be emitted. */
  ghost predicate Settled(pending: seq<byte>)
  {
    Scan(pending) == Outcome([], pending)
  }

  lemma {:induction false} ProcessAllAppend(pending: seq<byte>, chunks: seq<seq<byte>>, chunk: seq<byte>)
    ensures ProcessAll(pending, chunks + [chunk]) ==
      var o := ProcessAll(pending, chunks); Processed(o.rest, chunk).After(o.out)
    decreases |chunks|
  {
    if chunks == [] {
      assert [chunk][1..] == [];
      assert [] + Processed(pending, chunk).out == Processed(pending, chunk).out + [];
    } else {
      var first := Processed(pending, chunks[0]);
      assert (chunks + [chunk])[1..] == chunks[1..] + [chunk];
      ProcessAllAppend(first.rest, chunks[1..], chunk);
      var o := ProcessAll(first.rest, chunks[1..]);
      AfterAfter(Processed(o.rest, chunk), first.out, o.out);
    }
  }

  lemma {:induction false} ProcessedSettled(pending: seq<byte>, chunk: seq<byte>)
    ensures Settled(Processed(pending, chunk).rest)
  {
    ScanRest(pending + chunk);
  }

  lemma {:induction false} ScreenGrows(held: seq<byte>, payloads: seq<seq<byte>>, shown: seq<byte>, payload: seq<byte>, so: Outcome)
    requires ProcessAll(held, payloads).After(shown) == so
    ensures ProcessAll(held, payloads + [payload]).After(shown) == Processed(so.rest, payload).After(so.out)
  {
    var before := ProcessAll(held, payloads);
    ProcessAllAppend(held, payloads, payload);
    AfterAfter(Processed(before.rest, payload), shown, before.out);
  }

  lemma {:induction false} AcceptedOutput(v: View, ep: Epoch, n: Sequence, payload: seq<byte>)
    requires Coherent(v, ep) && Judge(v, Output(n, payload)).Accepted?
    ensures Coherent(NextView(v, Output(n, payload)), ep.(payloads := ep.payloads + [payload]))
  {
    ProcessedSettled(v.pending, payload);
    ScreenGrows(ep.held, ep.payloads, ep.shown, payload, Outcome(v.rendered, v.pending));
  }

  lemma {:induction false} NothingAfterNothing()
    ensures Outcome([], []).After([]) == Outcome([], [])
  {
  }

  lemma {:induction false} CoherentStep(v: View, ep: Epoch, e: Event)
    requires Coherent(v, ep)
    ensures Coherent(NextView(v, e), NextEpoch(v, ep, e))
  {
    match e
    case Output(n, payload) =>
      if Judge(v, e).Accepted? {
        AcceptedOutput(v, ep, n, payload);
      }
    case ReplayGap(n) =>
      NothingAfterNothing();
    case Restore(_, frames) =>
      assert Flatten(frames) + [] == Flatten(frames);
    case Other =>
  }

  lemma {:induction false} CoherentRun(events: seq<Event>)
    ensures Coherent(RunView(events), RunEpoch(events))
  {
    if events == [] {
      NothingAfterNothing();
    } else {
      CoherentRun(events[..|events| - 1]);
      CoherentStep(RunView(events[..|events| - 1]), RunEpoch(events[..|events| - 1]), events[|events| - 1]);
    }
  }

  /** The server sends one payload per number, however often it sends it. */
  ghost predicate FromServer(events: seq<Event>, server: nat -> seq<byte>)
  {
    forall i :: 0 <= i < |events| && events[i].Output? ==> events[i].payload == server(events[i].sequence)
  }

  /** Payloads of the numbers after `base`, up to and including `last`. */
  function Stretch(server: nat -> seq<byte>, base: nat, last: nat): seq<seq<byte>>
    requires base <= last
  {
    seq(last - base, i requires 0 <= i => server(base + 1 + i))
  }

  lemma {:induction false} StretchGrows(server: nat -> seq<byte>, base: nat, last: nat)
    requires base <= last
    ensures Stretch(server, base, last + 1) == Stretch(server, base, last) + [server(last + 1)]
  {
  }

  ghost predicate Consecutive(v: View, ep: Epoch, server: nat -> seq<byte>)
  {
    ep.base <= v.lastAcknowledged && ep.payloads == Stretch(server, ep.base, v.lastAcknowledged)
  }

  lemma {:induction false} ConsecutiveStep(v: View, ep: Epoch, e: Event, server: nat -> seq<byte>)
    requires Consecutive(v, ep, server) && (e.Output? ==> e.payload == server(e.sequence))
    ensures Consecutive(NextView(v, e), NextEpoch(v, ep, e), server)
  {
    if e.Output? && Judge(v, e).Accepted? {
      StretchGrows(server, ep.base, v.lastAcknowledged);
    }
  }

  lemma {:induction false} PayloadsAreConsecutive(events: seq<Event>, server: nat -> seq<byte>)
    requires FromServer(events, server)
    ensures Consecutive(RunView(events), RunEpoch(events), server)
  {
    if events != [] {
      var front, e := events[..|events| - 1], events[|events| - 1];
      assert FromServer(front, server);
      PayloadsAreConsecutive(front, server);
      ConsecutiveStep(RunView(front), RunEpoch(front), e, server);
    }
  }

  /**
    For every arrival of frames, losses, repeats, reorderings, reconnects, gaps and
    restored history: the screen is what was restored followed by one filtering of the
    consecutive payloads since, each used once, ending at the last acknowledged number;
    nothing beyond that number was acknowledged.
   */
  lemma {:induction false} ScreenShowsStream(events: seq<Event>, server: nat -> seq<byte>)
    requires FromServer(events, server)
    requires NoOverflow(RunEpoch(events).held, RunEpoch(events).payloads)
    ensures var v, ep := RunView(events), RunEpoch(events);
      && ep.base <= v.lastAcknowledged
      && var stream := ep.held + Flatten(Stretch(server, ep.base, v.lastAcknowledged));
         v.rendered == ep.shown + Scan(stream).out && v.pending == Scan(stream).rest
    ensures forall n :: n in RunView(events).acks ==> n <= RunView(events).lastAcknowledged
  {
    CoherentRun(events);
    PayloadsAreConsecutive(events, server);
    ChunksFrom(RunEpoch(events).held, RunEpoch(events).payloads);
  }

  /** The start and a replay gap leave nothing of an earlier stream behind. */
  ghost predicate CleanStart(events: seq<Event>)
  {
    RunEpoch(events).held == [] && RunEpoch(events).shown == []
  }

  lemma {:induction false} OnlyRestoreIsUnclean(events: seq<Event>)
    requires forall i :: 0 <= i < |events| ==> !events[i].Restore?
    ensures CleanStart(events)
  {
    if events != [] {
      OnlyRestoreIsUnclean(events[..|events| - 1]);
    }
  }

  /** Two sessions that have reached the same number of the same stretch show the same screen. */
  lemma {:induction false} ArrivalDoesNotMatter(events: seq<Event>, others: seq<Event>, server: nat -> seq<byte>)
    requires FromServer(events, server) && FromServer(others, server) && CleanStart(events) && CleanStart(others)
    requires NoOverflow([], RunEpoch(events).payloads) && NoOverflow([], RunEpoch(others).payloads)
    requires RunEpoch(events).base == RunEpoch(others).base
    requires RunView(events).lastAcknowledged == RunView(others).lastAcknowledged
    ensures RunView(events).rendered == RunView(others).rendered
    ensures RunView(events).pending == RunView(others).pending
  {
    ScreenShowsStream(events, server);
    ScreenShowsStream(others, server);
  }

  // ----- Restored history

  /** A screen showing `shown`, with `held` in the filter, goes on as the filtering of `prefix` does, whatever follows. */
  ghost predicate GoesOnFrom(prefix: seq<byte>, shown: seq<byte>, held: seq<byte>)
  {
    forall later :: Scan(held + later).After(shown) == Scan(prefix + later)
  }

  /**
    A restored screen continues the filtering of everything before it exactly when it
    shows what that emitted and the filter holds what that left: the history must not
    have been cut inside a command that the filter no longer holds.
   */
  lemma {:induction false} GoesOnIff(prefix: seq<byte>, shown: seq<byte>, held: seq<byte>)
    requires Settled(held)
    ensures GoesOnFrom(prefix, shown, held) <==> Scan(prefix) == Outcome(shown, held)
  {
    if Scan(prefix) == Outcome(shown, held) {
      forall later ensures Scan(held + later).After(shown) == Scan(prefix + later) {
        ScanSplit(prefix, later);
      }
    }
    if GoesOnFrom(prefix, shown, held) {
      GoesOnFromHere(prefix, shown, held);
    }
  }

  lemma {:induction false} GoesOnFromHere(prefix: seq<byte>, shown: seq<byte>, held: seq<byte>)
    requires Settled(held) && GoesOnFrom(prefix, shown, held)
    ensures Scan(prefix) == Outcome(shown, held)
  {
    assert held + [] == held && prefix + [] == prefix && shown + [] == shown;
    assert Scan(held + []).After(shown) == Scan(prefix + []);
  }

  lemma {:induction false} StretchSplit(server: nat -> seq<byte>, base: nat, last: nat)
    requires base <= last
    ensures Flatten(Stretch(server, 0, last)) == Flatten(Stretch(server, 0, base)) + Flatten(Stretch(server, base, last))
  {
    assert Stretch(server, 0, last) == Stretch(server, 0, base) + Stretch(server, base, last);
    FlattenConcat(Stretch(server, 0, base), Stretch(server, base, last));
  }

  /** Then the whole screen, restored part included, is one filtering of the stream from its first payload. */
  lemma {:induction false} RestoredScreenIsWhole(events: seq<Event>, server: nat -> seq<byte>)
    requires FromServer(events, server)
    requires NoOverflow(RunEpoch(events).held, RunEpoch(events).payloads)
    requires Scan(Flatten(Stretch(server, 0, RunEpoch(events).base))) == Outcome(RunEpoch(events).shown, RunEpoch(events).held)
    ensures Scan(Flatten(Stretch(server, 0, RunView(events).lastAcknowledged))) == Outcome(RunView(events).rendered, RunView(events).pending)
  {
    var v, ep := RunView(events), RunEpoch(events);
    ScreenShowsStream(events, server);
    StretchSplit(server, ep.base, v.lastAcknowledged);
    ScanSplit(Flatten(Stretch(server, 0, ep.base)), Flatten(Stretch(server, ep.base, v.lastAcknowledged)));
  }
}
