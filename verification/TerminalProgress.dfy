/**
  How far a session gets: the last acknowledged number is the greatest that the arrived frames reach in order, and
  every frame at or below it is acknowledged.
 */
module TerminalProgress {
  import opened Common
  import opened TerminalSession

  /** A replay gap or restored history: the numbering starts anew. */
  predicate Restarts(e: Event)
  {
    (e.ReplayGap? && e.sequence > 0) || e.Restore?
  }

  ghost predicate Steady(events: seq<Event>)
  {
    forall i :: 0 <= i < |events| ==> !Restarts(events[i])
  }

  /** At these places the output frames with the numbers after `base`, up to and including `n`, arrive in order. */
  ghost predicate ClimbsAt(events: seq<Event>, base: nat, n: nat, places: seq<nat>)
  {
    && |places| == n - base
    && (forall i, j :: 0 <= i < j < |places| ==> places[i] < places[j])
    && forall i :: 0 <= i < |places| ==>
         places[i] < |events| && events[places[i]].Output? && events[places[i]].sequence == base + 1 + i
  }

  /** The numbers after `base`, up to and including `n`, occur in this order among the output frames. */
  ghost predicate Climbs(events: seq<Event>, base: nat, n: nat)
  {
    exists places :: ClimbsAt(events, base, n, places)
  }

  lemma {:induction false} ClimbsNowhere(events: seq<Event>, base: nat)
    ensures Climbs(events, base, base)
  {
    assert ClimbsAt(events, base, base, []);
  }

  lemma {:induction false} ClimbsLonger(events: seq<Event>, e: Event, base: nat, n: nat)
    requires Climbs(events, base, n)
    ensures Climbs(events + [e], base, n)
  {
    var places: seq<nat> :| ClimbsAt(events, base, n, places);
    assert ClimbsAt(events + [e], base, n, places);
  }

  lemma {:induction false} ClimbsByLast(events: seq<Event>, e: Event, base: nat, n: nat)
    requires base < n && Climbs(events, base, n - 1) && e.Output? && e.sequence == n
    ensures Climbs(events + [e], base, n)
  {
    var places: seq<nat> :| ClimbsAt(events, base, n - 1, places);
    assert ClimbsAt(events + [e], base, n, places + [|events|]);
  }

  lemma {:induction false} ClimbedBefore(events: seq<Event>, e: Event, base: nat, n: nat)
    requires base <= n && Climbs(events + [e], base, n)
    ensures Climbs(events, base, n) || (base < n && e.Output? && e.sequence == n && Climbs(events, base, n - 1))
  {
    var places: seq<nat> :| ClimbsAt(events + [e], base, n, places);
    var k := |places| - 1;
    if k >= 0 && places[k] == |events| {
      assert ClimbsAt(events, base, n - 1, places[..k]);
    } else {
      assert ClimbsAt(events, base, n, places);
    }
  }

  /** `last` is the greatest number reached from `base`. */
  ghost predicate Reaches(events: seq<Event>, base: nat, last: nat)
  {
    base <= last && forall n: nat :: base <= n ==> (Climbs(events, base, n) <==> n <= last)
  }

  lemma {:induction false} ClimbNeedsFrames(events: seq<Event>, base: nat, n: nat)
    requires base < n && Climbs(events, base, n)
    ensures events != []
  {
    var places: seq<nat> :| ClimbsAt(events, base, n, places);
    assert places[0] < |events|;
  }

  lemma {:induction false} ClimbsNothing(events: seq<Event>, base: nat, n: nat)
    requires events == [] && base <= n
    ensures Climbs(events, base, n) <==> n <= base
  {
    if n == base {
      ClimbsNowhere(events, base);
    } else if Climbs(events, base, n) {
      ClimbNeedsFrames(events, base, n);
    }
  }

  lemma {:induction false} ReachesNothing(events: seq<Event>, base: nat)
    requires events == []
    ensures Reaches(events, base, base)
  {
    forall n: nat | base <= n ensures Climbs(events, base, n) <==> n <= base {
      ClimbsNothing(events, base, n);
    }
  }

  lemma {:induction false} ReachesOn(events: seq<Event>, e: Event, base: nat, last: nat)
    requires Reaches(events, base, last)
    ensures Reaches(events + [e], base, if e.Output? && e.sequence == last + 1 then last + 1 else last)
  {
    forall n: nat | base <= n
      ensures Climbs(events + [e], base, n) <==> n <= if e.Output? && e.sequence == last + 1 then last + 1 else last
    {
      if Climbs(events + [e], base, n) {
        ClimbedBefore(events, e, base, n);
      }
      if n <= last {
        ClimbsLonger(events, e, base, n);
      }
      if n == last + 1 && e.Output? && e.sequence == n {
        ClimbsByLast(events, e, base, n);
      }
    }
  }

  lemma {:induction false} RunSnoc(events: seq<Event>, e: Event)
    ensures RunView(events + [e]) == NextView(RunView(events), e)
  {
    assert (events + [e])[..|events|] == events;
  }

  lemma {:induction false} NumberStep(v: View, e: Event)
    requires !Restarts(e)
    ensures NextView(v, e).lastAcknowledged ==
            if e.Output? && e.sequence == v.lastAcknowledged + 1 then v.lastAcknowledged + 1 else v.lastAcknowledged
  {
  }

  /** From any point on, until the next restart, the acknowledged number is the greatest that later frames reach in order. */
  lemma {:induction false} ReachedFrom(before: seq<Event>, since: seq<Event>)
    requires Steady(since)
    ensures Reaches(since, RunView(before).lastAcknowledged, RunView(before + since).lastAcknowledged)
    decreases |since|
  {
    var base := RunView(before).lastAcknowledged;
    if since == [] {
      assert before + since == before;
      ReachesNothing(since, base);
    } else {
      var front, e := since[..|since| - 1], since[|since| - 1];
      ReachedFrom(before, front);
      assert since == front + [e] && before + since == (before + front) + [e];
      RunSnoc(before + front, e);
      assert !Restarts(e);
      NumberStep(RunView(before + front), e);
      ReachesOn(front, e, base, RunView(before + front).lastAcknowledged);
    }
  }

  /** The number a session starts or restarts from. */
  function Base(events: seq<Event>, start: nat): nat
    requires start <= |events| && (start == 0 || Restarts(events[start - 1]))
  {
    if start == 0 then 0
    else match events[start - 1]
         case ReplayGap(n) => n - 1
         case Restore(last, _) =>
           var so := RunView(events[..start - 1]).lastAcknowledged;
           if last > so then last else so
  }

  lemma {:induction false} BaseIsReached(events: seq<Event>, start: nat)
    requires start <= |events| && (start == 0 || Restarts(events[start - 1]))
    ensures RunView(events[..start]).lastAcknowledged == Base(events, start)
  {
    if start > 0 {
      assert events[..start] == events[..start - 1] + [events[start - 1]];
      RunSnoc(events[..start - 1], events[start - 1]);
    }
  }

  /**
    After any run, the last acknowledged number is the greatest n such that the numbers after the base, up to n, have
    arrived in this order since the last restart; whatever else arrived in between, repeated or out of order.
   */
  lemma {:induction false} AcknowledgesAllInOrder(events: seq<Event>, start: nat)
    requires start <= |events| && (start == 0 || Restarts(events[start - 1])) && Steady(events[start..])
    ensures Reaches(events[start..], Base(events, start), RunView(events).lastAcknowledged)
  {
    BaseIsReached(events, start);
    ReachedFrom(events[..start], events[start..]);
    assert events[..start] + events[start..] == events;
  }

  lemma {:induction false} ClimbBound(events: seq<Event>, base: nat, n: nat, top: nat)
    requires base < n && Climbs(events, base, n)
    requires forall i :: 0 <= i < |events| && events[i].Output? ==> events[i].sequence <= top
    ensures n <= top
  {
    var places: seq<nat> :| ClimbsAt(events, base, n, places);
    assert events[places[n - base - 1]].sequence == n;
  }

  /** The server's frames in order, from wherever the session is: all of them are accepted. */
  lemma {:induction false} InOrderIsAccepted(before: seq<Event>, since: seq<Event>)
    requires forall i :: 0 <= i < |since| ==> since[i].Output? && since[i].sequence == RunView(before).lastAcknowledged + 1 + i
    ensures RunView(before + since).lastAcknowledged == RunView(before).lastAcknowledged + |since|
  {
    var base, last := RunView(before).lastAcknowledged, RunView(before + since).lastAcknowledged;
    ReachedFrom(before, since);
    InOrderClimbs(since, base);
    if last > base {
      ClimbBound(since, base, last, base + |since|);
    }
  }

  lemma {:induction false} InOrderClimbs(since: seq<Event>, base: nat)
    requires forall i :: 0 <= i < |since| ==> since[i].Output? && since[i].sequence == base + 1 + i
    ensures Climbs(since, base, base + |since|)
  {
    var places := seq(|since|, i requires 0 <= i < |since| => i as nat);
    assert ClimbsAt(since, base, base + |since|, places);
  }

  /** A frame is acknowledged, with its own number, exactly when that number is reached, by it or before it. */
  lemma {:induction false} AcknowledgedIff(events: seq<Event>, n: Sequence, payload: seq<byte>)
    ensures var v, w := RunView(events), RunView(events + [Output(n, payload)]);
            w.acks == v.acks + if n <= w.lastAcknowledged then [n] else []
  {
    RunSnoc(events, Output(n, payload));
  }
}
