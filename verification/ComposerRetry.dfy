/**
  Retries of composed input: what a later call takes up, for how long a draft can be taken up, and why no message is
  swallowed by the delivery of another.
 */
module ComposerRetry {
  import opened Common
  import opened ComposerDelivery

  /** A draw of a key that no sent frame and no delivery in progress carries. */
  ghost predicate UnusedDraw(w: World, m: Move)
  {
    m.Compose? ==> KeyUnused(w, m.frame.key)
  }

  ghost predicate UnusedDraws(run: seq<World>, moves: seq<Move>)
    requires |run| > |moves|
  {
    forall i :: 0 <= i < |moves| ==> UnusedDraw(run[i], moves[i])
  }

  lemma {:induction false} UnusedIsSafe(w: World, m: Move)
    requires UnusedDraw(w, m)
    ensures SafeDraw(w, m)
  {
  }

  lemma {:induction false} FreshIsUnused(w: World, m: Move)
    requires IdentityInv(w) && DrawsFreshKey(w, m)
    ensures UnusedDraw(w, m)
  {
    if m.Compose? {
      forall g | g in w.sent || g in w.calls.Values ensures g.key != m.frame.key {
        assert Known(w, g);
      }
    }
  }

  /** Fresh keys are unused keys, all along a run. */
  lemma {:induction false} FreshKeysAreUnused(run: seq<World>, moves: seq<Move>)
    requires IsRun(run, moves) && FreshKeys(run, moves)
    ensures UnusedDraws(run, moves)
  {
    forall i | 0 <= i < |moves| ensures UnusedDraw(run[i], moves[i]) {
      FreshKeysAreSafe(run, moves, i);
      assert DrawsFreshKey(run[i], moves[i]);
      FreshIsUnused(run[i], moves[i]);
    }
  }

  lemma {:induction false} RunMove(run: seq<World>, moves: seq<Move>, i: nat)
    requires IsRun(run, moves) && i < |moves|
    ensures Enabled(run[i], moves[i]) && run[i + 1] == Apply(run[i], moves[i])
  {
  }

  // ----- A delivered draft is not taken up again

  /** The draft on offer has not been delivered. */
  ghost predicate OfferInv(w: World)
  {
    w.draft.Some? ==> w.draft.value.frame !in w.returned
  }

  lemma {:induction false} ReturnedKeyIsUsed(w: World, f: Frame)
    requires GatewayInv(w) && f in w.returned
    ensures !KeyUnused(w, f.key)
  {
    assert f.key in AppliedKeys(w.applied);
    var g :| g in w.applied && g.key == f.key;
    assert g in w.sent;
  }

  lemma {:induction false} OfferStep(w: World, m: Move)
    requires GatewayInv(w) && OfferInv(w) && Enabled(w, m) && UnusedDraw(w, m)
    ensures OfferInv(Apply(w, m))
  {
    if m.Compose? && m.frame in w.returned {
      ReturnedKeyIsUsed(w, m.frame);
    }
  }

  lemma {:induction false} OfferFrom(run: seq<World>, moves: seq<Move>, i: nat)
    requires IsRun(run, moves) && UnusedDraws(run, moves) && i < |run|
    ensures OfferInv(run[i])
  {
    if i > 0 {
      OfferFrom(run, moves, i - 1);
      GatewayFrom(START, run, moves, i - 1);
      RunMove(run, moves, i - 1);
      assert UnusedDraw(run[i - 1], moves[i - 1]);
      OfferStep(run[i - 1], moves[i - 1]);
    }
  }

  lemma {:induction false} ReturnedStays(run: seq<World>, moves: seq<Move>, i: nat, j: nat, f: Frame)
    requires IsRun(run, moves) && i <= j < |run| && f in run[i].returned
    ensures f in run[j].returned
    decreases j
  {
    if i < j {
      ReturnedStays(run, moves, i, j - 1, f);
      RunMove(run, moves, j - 1);
    }
  }

  /** The frame that a call begins to deliver. */
  predicate Begins(w: World, m: Move, f: Frame)
  {
    match m
    case Compose(_, _, frame) => frame == f
    case Resume(_, _) => w.draft.Some? && w.draft.value.frame == f
    case _ => false
  }

  lemma {:induction false} BegunIsNew(w: World, m: Move, f: Frame)
    requires GatewayInv(w) && OfferInv(w) && UnusedDraw(w, m) && Begins(w, m, f)
    ensures f !in w.returned
  {
    if f in w.returned {
      ReturnedKeyIsUsed(w, f);
    }
  }

  /** Once a call has returned, its frame is never delivered again: neither drawn nor resumed. */
  lemma {:induction false} ReturnedIsOver(run: seq<World>, moves: seq<Move>, i: nat, j: nat, f: Frame)
    requires IsRun(run, moves) && UnusedDraws(run, moves) && i <= j < |moves| && f in run[i].returned
    ensures !Begins(run[j], moves[j], f)
  {
    ReturnedStays(run, moves, i, j, f);
    OfferFrom(run, moves, j);
    GatewayFrom(START, run, moves, j);
    assert UnusedDraw(run[j], moves[j]);
    if Begins(run[j], moves[j], f) {
      BegunIsNew(run[j], moves[j], f);
    }
  }

  /** From its beginning at `j` to `k` the call delivers `f`. */
  ghost predicate Delivers(run: seq<World>, moves: seq<Move>, c: CallId, f: Frame, j: nat, k: nat)
    requires |run| == |moves| + 1
  {
    && j < k < |moves| && (moves[j].Compose? || moves[j].Resume?) && moves[j].call == c && Begins(run[j], moves[j], f)
    && moves[k] == Return(c)
    && forall i :: j < i <= k ==> c in run[i].calls
  }

  lemma {:induction false} BegunDelivers(w: World, m: Move, f: Frame)
    requires Enabled(w, m) && Begins(w, m, f)
    ensures m.call in Apply(w, m).calls && Apply(w, m).calls[m.call] == f
  {
  }

  lemma {:induction false} DeliveringKeepsFrame(w: World, m: Move, c: CallId)
    requires Enabled(w, m) && c in w.calls && c in Apply(w, m).calls
    ensures Apply(w, m).calls[c] == w.calls[c]
  {
  }

  lemma {:induction false} DeliversFrame(run: seq<World>, moves: seq<Move>, c: CallId, f: Frame, j: nat, k: nat, i: nat)
    requires IsRun(run, moves) && Delivers(run, moves, c, f, j, k) && j < i <= k
    ensures run[i].calls[c] == f
    decreases i
  {
    RunMove(run, moves, i - 1);
    if i == j + 1 {
      BegunDelivers(run[j], moves[j], f);
    } else {
      DeliversFrame(run, moves, c, f, j, k, i - 1);
      DeliveringKeepsFrame(run[i - 1], moves[i - 1], c);
    }
  }

  lemma {:induction false} DeliveredReturns(run: seq<World>, moves: seq<Move>, c: CallId, f: Frame, j: nat, k: nat)
    requires IsRun(run, moves) && Delivers(run, moves, c, f, j, k)
    ensures f in run[k + 1].returned
  {
    DeliversFrame(run, moves, c, f, j, k, k);
    RunMove(run, moves, k);
  }

  lemma {:induction false} UnusedDrawsAreSafe(run: seq<World>, moves: seq<Move>)
    requires IsRun(run, moves) && UnusedDraws(run, moves)
    ensures SafeDraws(run, moves)
  {
    forall i | 0 <= i < |moves| ensures SafeDraw(run[i], moves[i]) {
      assert UnusedDraw(run[i], moves[i]);
      UnusedIsSafe(run[i], moves[i]);
    }
  }

  /**
    A call that begins after another has returned, drawn or resumed, delivers another frame, and when it has returned
    too each of the two frames was applied exactly once: no message is swallowed by an earlier one.
   */
  lemma {:induction false} NothingSwallowed(
      run: seq<World>, moves: seq<Move>, c: CallId, f: Frame, i: nat, j: nat, d: CallId, g: Frame, k: nat, l: nat)
    requires IsRun(run, moves) && UnusedDraws(run, moves)
    requires Delivers(run, moves, c, f, i, j) && Delivers(run, moves, d, g, k, l) && j < k
    ensures f != g && Count(run[l + 1].applied, f) == 1 && Count(run[l + 1].applied, g) == 1
  {
    DeliveredReturns(run, moves, c, f, i, j);
    DeliveredReturns(run, moves, d, g, k, l);
    ReturnedIsOver(run, moves, j + 1, k, f);
    ReturnedStays(run, moves, j + 1, l + 1, f);
    UnusedDrawsAreSafe(run, moves);
    ExactlyOnce(run, moves, l + 1, f);
    ExactlyOnce(run, moves, l + 1, g);
  }

  // ----- An undelivered draft stays on offer

  /** A call for this key returns. */
  predicate Delivered(w: World, m: Move, key: Key)
  {
    m.Return? && m.call in w.calls && w.calls[m.call].key == key
  }

  ghost predicate NoneDelivered(run: seq<World>, moves: seq<Move>, i: nat, j: nat, key: Key)
    requires |run| > |moves|
  {
    forall k :: i <= k < j && k < |moves| ==> !Delivered(run[k], moves[k], key)
  }

  lemma {:induction false} DraftStep(w: World, m: Move, d: Draft)
    requires Enabled(w, m) && !m.Compose? && (w.draft == Some(d) || w.draft == None)
    ensures Apply(w, m).draft == if Delivered(w, m, d.frame.key) then None else w.draft
  {
  }

  /**
    Until the next draw, a draft stays on offer exactly as long as no call for its key has returned: after calls that
    gave up, timed out or failed it can be resumed, with its own frame and key.
   */
  lemma {:induction false} DraftLastsIff(run: seq<World>, moves: seq<Move>, i: nat, j: nat, call: CallId, fp: seq<byte>, f: Frame)
    requires IsRun(run, moves) && i < j < |run| && moves[i] == Compose(call, fp, f)
    requires forall k :: i < k < j ==> !moves[k].Compose?
    ensures run[j].draft == if NoneDelivered(run, moves, i + 1, j, f.key) then Some(Draft(fp, f)) else None
    decreases j
  {
    RunMove(run, moves, j - 1);
    if i + 1 < j {
      DraftLastsIff(run, moves, i, j - 1, call, fp, f);
      DraftStep(run[j - 1], moves[j - 1], Draft(fp, f));
      assert NoneDelivered(run, moves, i + 1, j, f.key) <==>
             NoneDelivered(run, moves, i + 1, j - 1, f.key) && !Delivered(run[j - 1], moves[j - 1], f.key);
    }
  }

  /** So a message that was given up can be resumed by any idle call, which then delivers the very frame drawn for it. */
  lemma {:induction false} GivenUpCanBeResumed(
      run: seq<World>, moves: seq<Move>, i: nat, j: nat, call: CallId, fp: seq<byte>, f: Frame, next: CallId)
    requires IsRun(run, moves) && i < j < |moves| && moves[i] == Compose(call, fp, f) && moves[j] == GiveUp(call)
    requires forall k :: i < k < j ==> !moves[k].Compose?
    requires NoneDelivered(run, moves, i + 1, j, f.key) && next !in run[j + 1].calls
    ensures Enabled(run[j + 1], Resume(next, fp)) && Begins(run[j + 1], Resume(next, fp), f)
    ensures Apply(run[j + 1], Resume(next, fp)).calls[next] == f
  {
    DraftLastsIff(run, moves, i, j + 1, call, fp, f);
  }

  // ----- A resumed call repeats its own text

  /** The draft on offer was drawn for its fingerprint. */
  ghost predicate DrawnFor(moves: seq<Move>, i: nat, d: Draft)
    requires i <= |moves|
  {
    exists k, c :: 0 <= k < i && moves[k] == Compose(c, d.fingerprint, d.frame)
  }

  lemma {:induction false} DraftWasDrawn(run: seq<World>, moves: seq<Move>, i: nat)
    requires IsRun(run, moves) && i < |run|
    ensures run[i].draft.Some? ==> DrawnFor(moves, i, run[i].draft.value)
  {
    if i > 0 {
      DraftWasDrawn(run, moves, i - 1);
      RunMove(run, moves, i - 1);
      if moves[i - 1].Compose? {
        assert moves[i - 1] == Compose(moves[i - 1].call, run[i].draft.value.fingerprint, run[i].draft.value.frame);
      } else if run[i].draft.Some? {
        assert run[i].draft == run[i - 1].draft;
        var k, c :| 0 <= k < i - 1 && moves[k] == Compose(c, run[i].draft.value.fingerprint, run[i].draft.value.frame);
      }
    }
  }

  /** A resumed call delivers a frame that was drawn for the same text and attachments. */
  lemma {:induction false} ResumeRepeatsText(run: seq<World>, moves: seq<Move>, j: nat, c: CallId, fp: seq<byte>)
    requires IsRun(run, moves) && j < |moves| && moves[j] == Resume(c, fp)
    ensures c in run[j + 1].calls && DrawnFor(moves, j, Draft(fp, run[j + 1].calls[c]))
  {
    RunMove(run, moves, j);
    DraftWasDrawn(run, moves, j);
  }

  /**
    Per call: a resumed call that returns had a frame drawn for its own text, which no call had delivered before it
    began, and which is applied exactly once.
   */
  lemma {:induction false} ResumedCallDelivers(
      run: seq<World>, moves: seq<Move>, c: CallId, fp: seq<byte>, f: Frame, j: nat, k: nat)
    requires IsRun(run, moves) && UnusedDraws(run, moves) && Delivers(run, moves, c, f, j, k) && moves[j] == Resume(c, fp)
    ensures DrawnFor(moves, j, Draft(fp, f)) && f !in run[j].returned
    ensures f in run[k + 1].returned && Count(run[k + 1].applied, f) == 1
  {
    ResumeRepeatsText(run, moves, j, c, fp);
    DeliversFrame(run, moves, c, f, j, k, j + 1);
    OfferFrom(run, moves, j);
    DeliveredReturns(run, moves, c, f, j, k);
    UnusedDrawsAreSafe(run, moves);
    ExactlyOnce(run, moves, k + 1, f);
  }

  // ----- Returns are possible, and answer the call

  ghost predicate ReceiptBetween(moves: seq<Move>, i: nat, j: nat, key: Key)
    requires j <= |moves|
  {
    exists k :: i <= k < j && moves[k] == ReceiptArrives(key)
  }

  lemma {:induction false} ReceiptNeedsArrival(w: World, m: Move, key: Key)
    requires Enabled(w, m) && key !in w.receipts && key in Apply(w, m).receipts && ReceiptsInv(w.receipts)
    ensures m == ReceiptArrives(key)
  {
    if m.ReceiptArrives? {
      RememberedInv(w.receipts, m.key);
    } else if m.Return? {
      WithoutKeeps(w.receipts, w.calls[m.call].key);
    }
  }

  lemma {:induction false} ReceiptArrived(run: seq<World>, moves: seq<Move>, i: nat, j: nat, key: Key)
    requires IsRun(run, moves) && i <= j < |run| && key !in run[i].receipts && key in run[j].receipts
    ensures ReceiptBetween(moves, i, j, key)
    decreases j
  {
    RunMove(run, moves, j - 1);
    if key in run[j - 1].receipts {
      ReceiptArrived(run, moves, i, j - 1, key);
    } else {
      GatewayFrom(START, run, moves, j - 1);
      ReceiptNeedsArrival(run[j - 1], moves[j - 1], key);
    }
  }

  /** With no condition at all, a drawn call returns only on a receipt that arrived after the draw. */
  lemma {:induction false} ReturnAnswersDraw(run: seq<World>, moves: seq<Move>, c: CallId, f: Frame, j: nat, k: nat)
    requires IsRun(run, moves) && Delivers(run, moves, c, f, j, k) && moves[j].Compose?
    ensures ReceiptBetween(moves, j + 1, k, f.key)
  {
    DeliversFrame(run, moves, c, f, j, k, k);
    RunMove(run, moves, j);
    RunMove(run, moves, k);
    ReceiptArrived(run, moves, j + 1, k, f.key);
  }

  /** A delivering call whose key is applied for no other frame can always be brought to return, its frame applied. */
  lemma {:induction false} CallCanReturn(w: World, c: CallId) returns (run: seq<World>, moves: seq<Move>)
    requires GatewayInv(w) && IdentityInv(w) && c in w.calls
    ensures Continues(w, run, moves) && SafeDraws(run, moves) && |moves| == 4
    ensures var f := w.calls[c];
            && f in run[4].returned && c !in run[4].calls && Count(run[4].applied, f) == 1
            && (f !in w.applied ==> run[4].applied == w.applied + [f])
  {
    var f := w.calls[c];
    var w1 := Apply(w, Attempt(c));
    GatewayStep(w, Attempt(c));
    forall a | a in w.applied && a.key == f.key ensures a == f {
      assert Known(w, a) && Known(w, f);
    }
    var w2 := Apply(w1, Arrive(f));
    ArriveApplies(w1, f);
    GatewayStep(w1, Arrive(f));
    var w3 := Apply(w2, ReceiptArrives(f.key));
    RememberedInv(w2.receipts, f.key);
    var tail, after := RunOfThree(w1, Arrive(f), ReceiptArrives(f.key), Return(c));
    PrependMove(w, Attempt(c), tail, after);
    run, moves := [w] + tail, [Attempt(c)] + after;
    DistinctKeysCountOnce(run[4].applied, f);
  }

  /** A new receipt costs at most the oldest of 64. */
  lemma {:induction false} OnlyOldestForgotten(order: seq<Key>, key: Key)
    requires ReceiptsInv(order) && key !in order
    ensures Remembered(order, key) == (if |order| < 64 then order else order[1..]) + [key]
  {
    assert |order| == 64 ==> (order + [key])[1..] == order[1..] + [key];
  }
}
