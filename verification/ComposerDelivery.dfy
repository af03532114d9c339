/**
  Idempotent delivery of composed input: every attempt sends the same keyed frame, the
  gateway applies a key at most once and answers with a receipt, and the client returns
  only after it has consumed a receipt.

  Sends may fail after the frame has left, frames and receipts may be lost or repeated,
  calls may time out and be retried, and any number of calls may overlap.
 */
module ComposerDelivery {
  import opened Common

  const MAXIMUM_RECEIPTS := 64

  const KEY_MAX := 0xFFFF_FFFF_FFFF_FFFF

  type Key = k: int | 1 <= k <= KEY_MAX witness 1

  datatype Frame = Frame(key: Key, payload: seq<byte>)

  // ----- The bounded set of receipts

  ghost predicate Distinct(s: seq<Key>)
  {
    forall i, j :: 0 <= i < j < |s| ==> s[i] != s[j]
  }

  /** A new key goes to the back; beyond the bound the front is forgotten. */
  function Remembered(order: seq<Key>, key: Key): seq<Key>
  {
    if key in order then order
    else
      var longer := order + [key];
      if |longer| > MAXIMUM_RECEIPTS then longer[|longer| - MAXIMUM_RECEIPTS..] else longer
  }

  function Without(order: seq<Key>, key: Key): seq<Key>
  {
    if order == [] then []
    else if order[0] == key then Without(order[1..], key)
    else [order[0]] + Without(order[1..], key)
  }

  lemma {:induction false} WithoutKeeps(order: seq<Key>, key: Key)
    requires Distinct(order)
    ensures Distinct(Without(order, key)) && |Without(order, key)| <= |order|
    ensures forall k :: k in Without(order, key) <==> k in order && k != key
  {
    if order != [] {
      WithoutKeeps(order[1..], key);
      assert order[0] !in order[1..];
      assert forall k :: k in order <==> k == order[0] || k in order[1..];
    }
  }

  ghost predicate ReceiptsInv(order: seq<Key>)
  {
    Distinct(order) && |order| <= MAXIMUM_RECEIPTS
  }

  lemma {:induction false} RememberedInv(order: seq<Key>, key: Key)
    requires ReceiptsInv(order)
    ensures ReceiptsInv(Remembered(order, key)) && key in Remembered(order, key)
    ensures forall k :: k in Remembered(order, key) ==> k == key || k in order
  {
    if key !in order {
      var longer := order + [key];
      assert Distinct(longer);
      assert longer[|longer| - 1] == key;
    }
  }

  function Elements(order: seq<Key>): set<Key>
  {
    set k | k in order
  }

  lemma {:induction false} ForgetFirst(order: seq<Key>)
    requires Distinct(order) && order != []
    ensures Distinct(order[1..]) && Elements(order[1..]) == Elements(order) - {order[0]}
  {
    assert order == [order[0]] + order[1..];
    assert order[0] !in order[1..];
  }

  lemma {:induction false} AddLast(order: seq<Key>, key: Key)
    requires Distinct(order) && key !in order
    ensures Distinct(order + [key]) && Elements(order + [key]) == Elements(order) + {key}
  {
  }

  /** The receipts that have arrived and have not been consumed: a set and its order of arrival. */
  class InputReceipts {
    var received: set<Key>
    var order: seq<Key>

    ghost predicate Valid()
      reads this
    {
      received == Elements(order) && ReceiptsInv(order)
    }

    constructor ()
      ensures Valid() && order == []
    {
      received, order := {}, [];
    }

    method Remember(key: Key)
      requires Valid()
      modifies this
      ensures Valid() && order == Remembered(old(order), key)
    {
      RememberedInv(order, key);
      if key in received {
        return;
      }
      AddLast(order, key);
      received := received + {key};
      order := order + [key];
      ghost var full, dropped := order, 0;
      while |order| > MAXIMUM_RECEIPTS
        invariant Distinct(order) && received == Elements(order)
        invariant dropped <= |full| && order == full[dropped..] && (dropped > 0 ==> |order| >= MAXIMUM_RECEIPTS)
      {
        ForgetFirst(order);
        received := received - {order[0]};
        order := order[1..];
        dropped := dropped + 1;
      }
    }

    method Consume(key: Key) returns (found: bool)
      requires Valid()
      modifies this
      ensures Valid()
      ensures found <==> key in old(order)
      ensures order == if found then Without(old(order), key) else old(order)
    {
      if key !in received {
        return false;
      }
      WithoutKeeps(order, key);
      received := received - {key};
      order := Without(order, key);
      return true;
    }
  }

  // ----- Client, network and gateway

  type CallId = nat

  datatype Draft = Draft(fingerprint: seq<byte>, frame: Frame)

  datatype World = World(
    calls: map<CallId, Frame>,       // sendComposer calls that are delivering
    draft: Option<Draft>,            // the pending delivery that a retry may reuse
    receipts: seq<Key>,              // arrived and not consumed
    used: set<Key>,                  // keys that were ever drawn
    sent: set<Frame>,                // frames that left the client at least once
    applied: seq<Frame>,             // what the gateway wrote to the terminal
    answers: set<Key>,               // receipts the gateway has sent
    returned: seq<Frame>)            // calls that returned normally

  datatype Move =
    | Compose(call: CallId, fingerprint: seq<byte>, frame: Frame)
    | Resume(call: CallId, fingerprint: seq<byte>)
    | Attempt(call: CallId)
    | Arrive(frame: Frame)
    | ReceiptArrives(key: Key)
    | Return(call: CallId)
    | GiveUp(call: CallId)

  function AppliedKeys(applied: seq<Frame>): set<Key>
  {
    set f | f in applied :: f.key
  }

  predicate Enabled(w: World, m: Move)
  {
    match m
    case Compose(call, fp, frame) =>
      call !in w.calls && frame.key !in w.receipts
    case Resume(call, fp) => call !in w.calls && w.draft.Some? && w.draft.value.fingerprint == fp
    case Attempt(call) => call in w.calls
    case Arrive(frame) => frame in w.sent
    case ReceiptArrives(key) => key in w.answers
    case Return(call) => call in w.calls && w.calls[call].key in w.receipts
    case GiveUp(call) => call in w.calls
  }

  function Apply(w: World, m: Move): World
    requires Enabled(w, m)
  {
    match m
    case Compose(call, fp, frame) =>
      w.(calls := w.calls[call := frame], draft := Some(Draft(fp, frame)), used := w.used + {frame.key})
    case Resume(call, fp) => w.(calls := w.calls[call := w.draft.value.frame])
    case Attempt(call) => w.(sent := w.sent + {w.calls[call]})
    case Arrive(frame) =>
      if frame in w.applied then w.(answers := w.answers + {frame.key})
      else if frame.key in AppliedKeys(w.applied) then w
      else w.(applied := w.applied + [frame], answers := w.answers + {frame.key})
    case ReceiptArrives(key) => w.(receipts := Remembered(w.receipts, key))
    case Return(call) =>
      var frame := w.calls[call];
      w.(calls := w.calls - {call},
         receipts := Without(w.receipts, frame.key),
         draft := if w.draft.Some? && w.draft.value.frame.key == frame.key then None else w.draft,
         returned := w.returned + [frame])
    case GiveUp(call) => w.(calls := w.calls - {call})
  }

  const START := World(map[], None, [], {}, {}, [], {}, [])

  /** No other frame that has left the client, or that a call is delivering, carries the key of `f`. */
  ghost predicate SoleFrame(w: World, f: Frame)
  {
    forall g :: (g in w.sent || g in w.calls.Values) && g.key == f.key ==> g == f
  }

  /** A draw that does not repeat a key in use for another frame. */
  ghost predicate SafeDraw(w: World, m: Move)
  {
    m.Compose? ==> SoleFrame(w, m.frame)
  }

  /** A draw of a key that was never drawn before; keys are 64 random bits, so this is what is intended. */
  predicate DrawsFreshKey(w: World, m: Move)
  {
    m.Compose? ==> m.frame.key !in w.used
  }

  // ----- Invariants

  /** The gateway's side: a key is applied at most once and only applied keys are answered. */
  ghost predicate GatewayInv(w: World)
  {
    && (forall i, j :: 0 <= i < j < |w.applied| ==> w.applied[i].key != w.applied[j].key)
    && (forall k :: k in w.answers ==> k in AppliedKeys(w.applied))
    && (forall k :: k in w.receipts ==> k in AppliedKeys(w.applied))
    && (forall f :: f in w.applied ==> f in w.sent)
    && (forall f :: f in w.returned ==> f.key in AppliedKeys(w.applied))
    && ReceiptsInv(w.receipts)
  }

  lemma {:induction false} AppliedGrows(applied: seq<Frame>, frame: Frame)
    ensures AppliedKeys(applied + [frame]) == AppliedKeys(applied) + {frame.key}
  {
    assert forall f :: f in applied + [frame] <==> f in applied || f == frame;
  }

  lemma {:induction false} GatewayStep(w: World, m: Move)
    requires GatewayInv(w) && Enabled(w, m)
    ensures GatewayInv(Apply(w, m))
  {
    match m
    case Compose(_, _, _) =>
    case Resume(_, _) =>
    case Attempt(_) =>
    case Arrive(frame) =>
      AppliedGrows(w.applied, frame);
      if frame in w.applied {
        assert frame.key in AppliedKeys(w.applied);
      } else if frame.key !in AppliedKeys(w.applied) {
        forall i | 0 <= i < |w.applied| ensures w.applied[i].key != frame.key {
          assert w.applied[i].key in AppliedKeys(w.applied);
        }
      }
    case ReceiptArrives(key) =>
      RememberedInv(w.receipts, key);
    case Return(call) =>
      WithoutKeeps(w.receipts, w.calls[call].key);
    case GiveUp(_) =>
  }

  /** A frame the client still stands behind. */
  ghost predicate Known(w: World, f: Frame)
  {
    f in w.sent || f in w.calls.Values || (w.draft.Some? && w.draft.value.frame == f) || f in w.returned
  }

  /** One key names one frame, so every attempt repeats the same frame. */
  ghost predicate IdentityInv(w: World)
  {
    && (forall f :: Known(w, f) ==> f.key in w.used)
    && (forall f, g :: Known(w, f) && Known(w, g) && f.key == g.key ==> f == g)
  }

  /** Only a draw makes a frame known. */
  lemma {:induction false} KnownBefore(w: World, m: Move, f: Frame)
    requires Enabled(w, m) && Known(Apply(w, m), f)
    ensures Known(w, f) || (m.Compose? && f == m.frame)
  {
    var w' := Apply(w, m);
    if f in w'.calls.Values {
      var c :| c in w'.calls && w'.calls[c] == f;
      assert m.Compose? || m.Resume? || (c in w.calls && w.calls[c] == f && f in w.calls.Values);
    }
  }

  /** A frame known after a draw was sent or is being delivered, or is the drawn one: the old draft is forgotten. */
  lemma {:induction false} KnownAfterDraw(w: World, m: Move, f: Frame)
    requires GatewayInv(w) && IdentityInv(w) && Enabled(w, m) && m.Compose? && Known(Apply(w, m), f)
    ensures f == m.frame || f in w.sent || f in w.calls.Values
  {
    if f in Apply(w, m).calls.Values {
      var c :| c in Apply(w, m).calls && Apply(w, m).calls[c] == f;
      assert c == m.call || (c in w.calls && w.calls[c] == f);
    } else if f in w.returned {
      assert f.key in AppliedKeys(w.applied);
      var g :| g in w.applied && g.key == f.key;
      assert Known(w, g) && Known(w, f);
    }
  }

  lemma {:induction false} IdentityStep(w: World, m: Move)
    requires GatewayInv(w) && IdentityInv(w) && Enabled(w, m) && SafeDraw(w, m)
    ensures IdentityInv(Apply(w, m))
  {
    var w' := Apply(w, m);
    forall f | Known(w', f) ensures f.key in w'.used { KnownBefore(w, m, f); }
    forall f, g | Known(w', f) && Known(w', g) && f.key == g.key ensures f == g {
      KnownBefore(w, m, f);
      KnownBefore(w, m, g);
      if m.Compose? {
        KnownAfterDraw(w, m, f);
        KnownAfterDraw(w, m, g);
      }
    }
  }

  lemma {:induction false} FreshIsSafe(w: World, m: Move)
    requires IdentityInv(w) && DrawsFreshKey(w, m)
    ensures SafeDraw(w, m)
  {
    if m.Compose? {
      forall g | g in w.sent || g in w.calls.Values ensures g.key != m.frame.key {
        assert Known(w, g);
      }
    }
  }

  ghost predicate IsRun(run: seq<World>, moves: seq<Move>)
  {
    Continues(START, run, moves)
  }

  /** Any sequence of moves from `w`. */
  ghost predicate Continues(w: World, run: seq<World>, moves: seq<Move>)
  {
    && |run| == |moves| + 1
    && run[0] == w
    && forall i :: 0 <= i < |moves| ==> Enabled(run[i], moves[i]) && run[i + 1] == Apply(run[i], moves[i])
  }

  ghost predicate SafeDraws(run: seq<World>, moves: seq<Move>)
    requires |run| > |moves|
  {
    forall i :: 0 <= i < |moves| ==> SafeDraw(run[i], moves[i])
  }

  ghost predicate FreshKeys(run: seq<World>, moves: seq<Move>)
    requires IsRun(run, moves)
  {
    forall i :: 0 <= i < |moves| ==> DrawsFreshKey(run[i], moves[i])
  }

  lemma {:induction false} GatewayFrom(w: World, run: seq<World>, moves: seq<Move>, i: nat)
    requires GatewayInv(w) && Continues(w, run, moves) && i < |run|
    ensures GatewayInv(run[i])
  {
    if i > 0 {
      GatewayFrom(w, run, moves, i - 1);
      GatewayStep(run[i - 1], moves[i - 1]);
      assert run[i - 1 + 1] == Apply(run[i - 1], moves[i - 1]);
    }
  }

  lemma {:induction false} IdentityFrom(w: World, run: seq<World>, moves: seq<Move>, i: nat)
    requires GatewayInv(w) && IdentityInv(w) && Continues(w, run, moves) && SafeDraws(run, moves) && i < |run|
    ensures IdentityInv(run[i])
  {
    if i > 0 {
      IdentityFrom(w, run, moves, i - 1);
      GatewayFrom(w, run, moves, i - 1);
      assert SafeDraw(run[i - 1], moves[i - 1]);
      IdentityStep(run[i - 1], moves[i - 1]);
      assert run[i - 1 + 1] == Apply(run[i - 1], moves[i - 1]);
    }
  }

  /** Draws of keys never drawn before are safe, all along a run. */
  lemma {:induction false} FreshKeysAreSafe(run: seq<World>, moves: seq<Move>, i: nat)
    requires IsRun(run, moves) && FreshKeys(run, moves) && i <= |moves|
    ensures IdentityInv(run[i]) && forall k :: 0 <= k < i ==> SafeDraw(run[k], moves[k])
  {
    if i > 0 {
      FreshKeysAreSafe(run, moves, i - 1);
      assert DrawsFreshKey(run[i - 1], moves[i - 1]);
      FreshIsSafe(run[i - 1], moves[i - 1]);
      GatewayFrom(START, run, moves, i - 1);
      IdentityStep(run[i - 1], moves[i - 1]);
      assert run[i - 1 + 1] == Apply(run[i - 1], moves[i - 1]);
    }
  }

  /** How often a frame was written to the terminal. */
  function Count(applied: seq<Frame>, f: Frame): nat
  {
    multiset(applied)[f]
  }

  lemma {:induction false} DistinctKeysCountOnce(applied: seq<Frame>, f: Frame)
    requires forall i, j :: 0 <= i < j < |applied| ==> applied[i].key != applied[j].key
    ensures Count(applied, f) == if f in applied then 1 else 0
  {
    if applied != [] {
      var front, last := applied[..|applied| - 1], applied[|applied| - 1];
      DistinctKeysCountOnce(front, f);
      assert applied == front + [last];
      assert last !in front;
    }
  }

  /** With no condition at all, a call that returns normally had its key applied, and no frame is applied twice. */
  lemma {:induction false} ReturnMeansKeyApplied(run: seq<World>, moves: seq<Move>, i: nat, f: Frame)
    requires IsRun(run, moves) && i < |run| && f in run[i].returned
    ensures exists g :: g in run[i].applied && g.key == f.key && Count(run[i].applied, g) == 1
    ensures forall g :: Count(run[i].applied, g) <= 1
  {
    GatewayFrom(START, run, moves, i);
    var applied := run[i].applied;
    forall g ensures Count(applied, g) == if g in applied then 1 else 0 {
      DistinctKeysCountOnce(applied, g);
    }
    assert f.key in AppliedKeys(applied);
    var g :| g in applied && g.key == f.key;
    assert Count(applied, g) == 1;
  }

  lemma {:induction false} ReturnedAppliedOnce(w: World, f: Frame)
    requires GatewayInv(w) && IdentityInv(w) && f in w.returned
    ensures Count(w.applied, f) == 1
    ensures forall g :: g in w.sent && g.key == f.key ==> g == f
  {
    assert Known(w, f);
    assert f.key in AppliedKeys(w.applied);
    var g :| g in w.applied && g.key == f.key;
    assert g in w.sent && Known(w, g);
    DistinctKeysCountOnce(w.applied, f);
    forall h | h in w.sent && h.key == f.key ensures h == f {
      assert Known(w, h);
    }
  }

  /** Whatever happens after a draw of `f` from `w`, if later draws are safe: a return means applied exactly once. */
  ghost predicate DeliversOnce(w: World, call: CallId, fingerprint: seq<byte>, f: Frame)
    requires Enabled(w, Compose(call, fingerprint, f))
  {
    forall run, moves ::
      Continues(Apply(w, Compose(call, fingerprint, f)), run, moves) && SafeDraws(run, moves) ==> OnceAlong(run, f)
  }

  /** Wherever a call for `f` has returned, `f` was applied exactly once. */
  ghost predicate OnceAlong(run: seq<World>, f: Frame)
  {
    forall i :: 0 <= i < |run| && f in run[i].returned ==> Count(run[i].applied, f) == 1
  }

  lemma {:induction false} SoleFrameDelivers(w: World, call: CallId, fingerprint: seq<byte>, f: Frame)
    requires GatewayInv(w) && IdentityInv(w) && Enabled(w, Compose(call, fingerprint, f)) && SoleFrame(w, f)
    ensures DeliversOnce(w, call, fingerprint, f)
  {
    var w' := Apply(w, Compose(call, fingerprint, f));
    GatewayStep(w, Compose(call, fingerprint, f));
    IdentityStep(w, Compose(call, fingerprint, f));
    forall run: seq<World>, moves: seq<Move> | Continues(w', run, moves) && SafeDraws(run, moves) ensures OnceAlong(run, f) {
      forall i | 0 <= i < |run| && f in run[i].returned ensures Count(run[i].applied, f) == 1 {
        GatewayFrom(w', run, moves, i);
        IdentityFrom(w', run, moves, i);
        ReturnedAppliedOnce(run[i], f);
      }
    }
  }

  lemma {:induction false} ArriveApplies(w: World, g: Frame)
    requires g in w.sent && forall a :: a in w.applied && a.key == g.key ==> a == g
    ensures g in Apply(w, Arrive(g)).applied && g.key in Apply(w, Arrive(g)).answers
  {
    if g.key in AppliedKeys(w.applied) {
      var a :| a in w.applied && a.key == g.key;
    }
  }

  lemma {:induction false} OtherNotApplied(applied: seq<Frame>, f: Frame, g: Frame)
    requires forall i, j :: 0 <= i < j < |applied| ==> applied[i].key != applied[j].key
    requires g in applied && g.key == f.key && g != f
    ensures Count(applied, f) == 0
  {
    DistinctKeysCountOnce(applied, f);
  }

  /** A world in which another frame with the key has left the client can return the call without its frame. */
  lemma {:induction false} LieAfterSent(w: World, call: CallId, f: Frame, g: Frame) returns (run: seq<World>, moves: seq<Move>)
    requires GatewayInv(w) && call in w.calls && w.calls[call] == f
    requires g in w.sent && g.key == f.key && g != f
    requires forall a :: a in w.applied && a.key == g.key ==> a == g
    ensures Continues(w, run, moves) && SafeDraws(run, moves) && |run| == 4
    ensures f in run[3].returned && Count(run[3].applied, f) == 0
  {
    var w1 := Apply(w, Arrive(g));
    ArriveApplies(w, g);
    GatewayStep(w, Arrive(g));
    var w2 := Apply(w1, ReceiptArrives(g.key));
    RememberedInv(w1.receipts, g.key);
    var w3 := Apply(w2, Return(call));
    run, moves := RunOfThree(w, Arrive(g), ReceiptArrives(g.key), Return(call));
    OtherNotApplied(w3.applied, f, g);
  }

  lemma {:induction false} RunOfThree(w: World, a: Move, b: Move, c: Move) returns (run: seq<World>, moves: seq<Move>)
    requires Enabled(w, a) && Enabled(Apply(w, a), b) && Enabled(Apply(Apply(w, a), b), c)
    requires !a.Compose? && !b.Compose? && !c.Compose?
    ensures Continues(w, run, moves) && SafeDraws(run, moves) && moves == [a, b, c]
    ensures run == [w, Apply(w, a), Apply(Apply(w, a), b), Apply(Apply(Apply(w, a), b), c)]
  {
    run, moves := [w, Apply(w, a), Apply(Apply(w, a), b), Apply(Apply(Apply(w, a), b), c)], [a, b, c];
  }

  lemma {:induction false} OtherFrameLies(w: World, call: CallId, fingerprint: seq<byte>, f: Frame, g: Frame)
    requires GatewayInv(w) && IdentityInv(w) && Enabled(w, Compose(call, fingerprint, f))
    requires (g in w.sent || g in w.calls.Values) && g.key == f.key && g != f
    ensures !DeliversOnce(w, call, fingerprint, f)
  {
    var w0 := Apply(w, Compose(call, fingerprint, f));
    GatewayStep(w, Compose(call, fingerprint, f));
    forall a | a in w.applied && a.key == g.key ensures a == g {
      assert Known(w, a) && Known(w, g);
    }
    if g in w.sent {
      var run, moves := LieAfterSent(w0, call, f, g);
      assert !OnceAlong(run, f);
    } else {
      var c :| c in w.calls && w.calls[c] == g;
      assert w0.calls[c] == g;
      var w1 := Apply(w0, Attempt(c));
      GatewayStep(w0, Attempt(c));
      var run, moves := LieAfterSent(w1, call, f, g);
      var longer, before := [w0] + run, [Attempt(c)] + moves;
      PrependMove(w0, Attempt(c), run, moves);
      assert longer[4] == run[3];
      assert !OnceAlong(longer, f);
    }
  }

  lemma {:induction false} PrependMove(w: World, m: Move, run: seq<World>, moves: seq<Move>)
    requires Enabled(w, m) && !m.Compose? && Continues(Apply(w, m), run, moves) && SafeDraws(run, moves)
    ensures Continues(w, [w] + run, [m] + moves) && SafeDraws([w] + run, [m] + moves)
  {
    var longer, before := [w] + run, [m] + moves;
    forall i | 0 <= i < |before|
      ensures Enabled(longer[i], before[i]) && longer[i + 1] == Apply(longer[i], before[i]) && SafeDraw(longer[i], before[i])
    {
      if i > 0 {
        assert longer[i] == run[i - 1] && before[i] == moves[i - 1] && longer[i + 1] == run[i - 1 + 1];
      }
    }
  }

  /**
    A draw is delivered exactly once whenever its call returns, in every continuation,
    if and only if no other frame with its key was sent or is being delivered: the
    condition can be read off the client before the draw.
   */
  lemma {:induction false} DeliversOnceIff(w: World, call: CallId, fingerprint: seq<byte>, f: Frame)
    requires GatewayInv(w) && IdentityInv(w) && Enabled(w, Compose(call, fingerprint, f))
    ensures DeliversOnce(w, call, fingerprint, f) <==> SoleFrame(w, f)
  {
    if SoleFrame(w, f) {
      SoleFrameDelivers(w, call, fingerprint, f);
    } else {
      var g :| (g in w.sent || g in w.calls.Values) && g.key == f.key && g != f;
      OtherFrameLies(w, call, fingerprint, f, g);
    }
  }

  // ----- One delivery, one application

  /** No frame with this key has left the client, and none is being delivered. */
  ghost predicate KeyUnused(w: World, key: Key)
  {
    forall g :: g in w.sent || g in w.calls.Values ==> g.key != key
  }

  /** The call that was just drawn is delivering all along, and returns at the end. */
  ghost predicate ReturnsAtLast(run: seq<World>, moves: seq<Move>, call: CallId)
    requires |run| == |moves| + 1
  {
    && |moves| > 0 && moves[|moves| - 1] == Return(call)
    && forall i :: 0 <= i < |moves| ==> call in run[i].calls
  }

  /** `c` was delivering before the draw, and still is. */
  ghost predicate Older(prior: set<CallId>, run: seq<World>, c: CallId, j: nat)
    requires j < |run|
  {
    c in prior && forall i :: 0 <= i <= j ==> c in run[i].calls
  }

  /** At `j` a call begun with the draw or later sends `f`. */
  ghost predicate SentAt(prior: set<CallId>, run: seq<World>, moves: seq<Move>, f: Frame, j: nat)
    requires |run| == |moves| + 1
  {
    && j < |moves| && moves[j].Attempt? && moves[j].call in run[j].calls && run[j].calls[moves[j].call] == f
    && !Older(prior, run, moves[j].call, j)
  }

  /** At `k` the gateway applies `f`. */
  ghost predicate AppliedAt(run: seq<World>, moves: seq<Move>, f: Frame, k: nat)
    requires |run| == |moves| + 1
  {
    k < |moves| && moves[k] == Arrive(f) && f !in run[k].applied && f in run[k + 1].applied
  }

  /** The frame was applied exactly once, after it was sent by a call begun with the draw or later. */
  ghost predicate OwnApplication(prior: set<CallId>, run: seq<World>, moves: seq<Move>, f: Frame)
    requires |run| == |moves| + 1
  {
    && Count(run[|moves|].applied, f) == 1
    && exists j, k :: j < k && SentAt(prior, run, moves, f, j) && AppliedAt(run, moves, f, k)
  }

  /** Whatever happens after a draw of `f` from `w`, if later draws are safe: when its call returns, `f` had its own application. */
  ghost predicate DeliversItself(w: World, call: CallId, fingerprint: seq<byte>, f: Frame)
    requires Enabled(w, Compose(call, fingerprint, f))
  {
    forall run, moves ::
      Continues(Apply(w, Compose(call, fingerprint, f)), run, moves) && SafeDraws(run, moves) && ReturnsAtLast(run, moves, call) ==>
        OwnApplication(w.calls.Keys, run, moves, f)
  }

  /** A call that is delivering keeps its frame. */
  lemma {:induction false} CallKeepsFrame(w: World, run: seq<World>, moves: seq<Move>, c: CallId, j: nat)
    requires Continues(w, run, moves) && j < |run| && forall i :: 0 <= i <= j ==> c in run[i].calls
    ensures run[j].calls[c] == w.calls[c]
  {
    if j > 0 {
      CallKeepsFrame(w, run, moves, c, j - 1);
      assert run[j - 1 + 1] == Apply(run[j - 1], moves[j - 1]) && Enabled(run[j - 1], moves[j - 1]);
    }
  }

  /** A frame that was not sent and is sent later was sent by some attempt in between. */
  lemma {:induction false} FirstSend(w: World, run: seq<World>, moves: seq<Move>, f: Frame, i: nat) returns (j: nat)
    requires Continues(w, run, moves) && i < |run| && f !in w.sent && f in run[i].sent
    ensures j < i && f !in run[j].sent && f in run[j + 1].sent
    ensures moves[j].Attempt? && moves[j].call in run[j].calls && run[j].calls[moves[j].call] == f
  {
    assert run[i - 1 + 1] == Apply(run[i - 1], moves[i - 1]) && Enabled(run[i - 1], moves[i - 1]);
    if f in run[i - 1].sent {
      j := FirstSend(w, run, moves, f, i - 1);
    } else {
      j := i - 1;
    }
  }

  lemma {:induction false} FirstApplication(w: World, run: seq<World>, moves: seq<Move>, f: Frame, i: nat) returns (k: nat)
    requires Continues(w, run, moves) && i < |run| && f !in w.applied && f in run[i].applied
    ensures k < i && AppliedAt(run, moves, f, k) && f in run[k].sent
  {
    assert run[i - 1 + 1] == Apply(run[i - 1], moves[i - 1]) && Enabled(run[i - 1], moves[i - 1]);
    if f in run[i - 1].applied {
      k := FirstApplication(w, run, moves, f, i - 1);
    } else {
      k := i - 1;
    }
  }

  lemma {:induction false} SentStays(w: World, run: seq<World>, moves: seq<Move>, f: Frame, i: nat, j: nat)
    requires Continues(w, run, moves) && i <= j < |run| && f in run[i].sent
    ensures f in run[j].sent
    decreases j
  {
    if i < j {
      SentStays(w, run, moves, f, i, j - 1);
      assert run[j - 1 + 1] == Apply(run[j - 1], moves[j - 1]) && Enabled(run[j - 1], moves[j - 1]);
    }
  }

  /** The last move of such a run appends the drawn frame to what was returned. */
  lemma {:induction false} ReturnedAtLast(w: World, run: seq<World>, moves: seq<Move>, call: CallId, f: Frame)
    requires Continues(w, run, moves) && ReturnsAtLast(run, moves, call) && call in w.calls && w.calls[call] == f
    ensures f in run[|moves|].returned
  {
    var n := |moves| - 1;
    CallKeepsFrame(w, run, moves, call, n);
    assert run[n + 1] == Apply(run[n], moves[n]) && Enabled(run[n], moves[n]);
  }

  lemma {:induction false} NotOlder(w: World, w': World, run: seq<World>, moves: seq<Move>, f: Frame, j: nat)
    requires Continues(w', run, moves) && j < |moves| && KeyUnused(w, f.key)
    requires forall c :: c in w.calls ==> c in w'.calls && w'.calls[c] == w.calls[c]
    requires moves[j].Attempt? && moves[j].call in run[j].calls && run[j].calls[moves[j].call] == f
    ensures SentAt(w.calls.Keys, run, moves, f, j)
  {
    var c := moves[j].call;
    assert c in w.calls ==> w.calls[c] in w.calls.Values;
    if Older(w.calls.Keys, run, c, j) {
      CallKeepsFrame(w', run, moves, c, j);
    }
  }

  /** When the call returns, its frame was applied exactly once. */
  lemma {:induction false} ReturnedOnce(w: World, run: seq<World>, moves: seq<Move>, call: CallId, f: Frame)
    requires GatewayInv(w) && IdentityInv(w) && call in w.calls && w.calls[call] == f
    requires Continues(w, run, moves) && SafeDraws(run, moves) && ReturnsAtLast(run, moves, call)
    ensures Count(run[|moves|].applied, f) == 1 && f in run[|moves|].applied
  {
    var n := |moves|;
    GatewayFrom(w, run, moves, n);
    IdentityFrom(w, run, moves, n);
    ReturnedAtLast(w, run, moves, call, f);
    ReturnedAppliedOnce(run[n], f);
    DistinctKeysCountOnce(run[n].applied, f);
  }

  lemma {:induction false} UnusedKeyDelivers(w: World, call: CallId, fingerprint: seq<byte>, f: Frame, run: seq<World>, moves: seq<Move>)
    requires GatewayInv(w) && IdentityInv(w) && Enabled(w, Compose(call, fingerprint, f)) && KeyUnused(w, f.key)
    requires Continues(Apply(w, Compose(call, fingerprint, f)), run, moves) && SafeDraws(run, moves) && ReturnsAtLast(run, moves, call)
    ensures OwnApplication(w.calls.Keys, run, moves, f)
  {
    var w' := Apply(w, Compose(call, fingerprint, f));
    GatewayStep(w, Compose(call, fingerprint, f));
    IdentityStep(w, Compose(call, fingerprint, f));
    ReturnedOnce(w', run, moves, call, f);
    assert f !in w.sent;
    var k := FirstApplication(w', run, moves, f, |moves|);
    var j := FirstSend(w', run, moves, f, k);
    NotOlder(w, w', run, moves, f, j);
  }

  /** No attempt in a run means no application of its own. */
  lemma {:induction false} NoAttemptNoOwn(prior: set<CallId>, run: seq<World>, moves: seq<Move>, f: Frame)
    requires |run| == |moves| + 1
    requires forall j :: 0 <= j < |moves| && moves[j].Attempt? ==> Older(prior, run, moves[j].call, j)
    ensures !OwnApplication(prior, run, moves, f)
  {
  }

  /** A frame with the key that has left the client can answer for the new call. */
  lemma {:induction false} SentFrameAnswers(w: World, call: CallId, g: Frame) returns (run: seq<World>, moves: seq<Move>)
    requires GatewayInv(w) && call in w.calls && w.calls[call].key == g.key && g in w.sent
    requires forall a :: a in w.applied && a.key == g.key ==> a == g
    ensures Continues(w, run, moves) && SafeDraws(run, moves) && ReturnsAtLast(run, moves, call)
    ensures forall j :: 0 <= j < |moves| ==> !moves[j].Attempt?
  {
    var w1 := Apply(w, Arrive(g));
    ArriveApplies(w, g);
    GatewayStep(w, Arrive(g));
    var w2 := Apply(w1, ReceiptArrives(g.key));
    RememberedInv(w1.receipts, g.key);
    run, moves := RunOfThree(w, Arrive(g), ReceiptArrives(g.key), Return(call));
    assert w1.calls == w.calls && w2.calls == w.calls;
  }

  lemma {:induction false} UsedKeyLies(w: World, call: CallId, fingerprint: seq<byte>, f: Frame, g: Frame)
    requires GatewayInv(w) && IdentityInv(w) && Enabled(w, Compose(call, fingerprint, f))
    requires (g in w.sent || g in w.calls.Values) && g.key == f.key
    ensures !DeliversItself(w, call, fingerprint, f)
  {
    var w0 := Apply(w, Compose(call, fingerprint, f));
    GatewayStep(w, Compose(call, fingerprint, f));
    forall a | a in w.applied && a.key == g.key ensures a == g {
      assert Known(w, a) && Known(w, g);
    }
    if g in w.sent {
      var run, moves := SentFrameAnswers(w0, call, g);
      NoAttemptNoOwn(w.calls.Keys, run, moves, f);
    } else {
      var c :| c in w.calls && w.calls[c] == g;
      assert c in w0.calls && w0.calls[c] == g;
      var w1 := Apply(w0, Attempt(c));
      GatewayStep(w0, Attempt(c));
      var run, moves := SentFrameAnswers(w1, call, g);
      PrependMove(w0, Attempt(c), run, moves);
      OneOldAttempt(w, w0, call, c, f, run, moves);
    }
  }

  lemma {:induction false} OneOldAttempt(w: World, w0: World, call: CallId, c: CallId, f: Frame, run: seq<World>, moves: seq<Move>)
    requires |run| == |moves| + 1 && c in w.calls && c in w0.calls && call in w0.calls && ReturnsAtLast(run, moves, call)
    requires forall j :: 0 <= j < |moves| ==> !moves[j].Attempt?
    ensures ReturnsAtLast([w0] + run, [Attempt(c)] + moves, call)
    ensures !OwnApplication(w.calls.Keys, [w0] + run, [Attempt(c)] + moves, f)
  {
    var longer, before := [w0] + run, [Attempt(c)] + moves;
    assert forall j :: 0 < j < |before| ==> before[j] == moves[j - 1];
    assert Older(w.calls.Keys, longer, c, 0);
    NoAttemptNoOwn(w.calls.Keys, longer, before, f);
    forall i | 0 <= i < |before| ensures call in longer[i].calls {
      assert i > 0 ==> longer[i] == run[i - 1];
    }
  }

  /**
    When the call of a draw returns, its frame was applied exactly once and that
    application was of this delivery's own sending, in every continuation, if and only
    if no frame with its key was sent or is being delivered at the draw.
   */
  lemma {:induction false} DeliversItselfIff(w: World, call: CallId, fingerprint: seq<byte>, f: Frame)
    requires GatewayInv(w) && IdentityInv(w) && Enabled(w, Compose(call, fingerprint, f))
    ensures DeliversItself(w, call, fingerprint, f) <==> KeyUnused(w, f.key)
  {
    if KeyUnused(w, f.key) {
      forall run, moves |
        Continues(Apply(w, Compose(call, fingerprint, f)), run, moves) && SafeDraws(run, moves) && ReturnsAtLast(run, moves, call)
        ensures OwnApplication(w.calls.Keys, run, moves, f)
      {
        UnusedKeyDelivers(w, call, fingerprint, f, run, moves);
      }
    } else {
      var g :| (g in w.sent || g in w.calls.Values) && g.key == f.key;
      UsedKeyLies(w, call, fingerprint, f, g);
    }
  }

  /** If every draw is safe, every call that returned had exactly its own frame applied, exactly once. */
  lemma {:induction false} ExactlyOnce(run: seq<World>, moves: seq<Move>, i: nat, f: Frame)
    requires IsRun(run, moves) && SafeDraws(run, moves) && i < |run| && f in run[i].returned
    ensures Count(run[i].applied, f) == 1
    ensures forall g :: g in run[i].sent && g.key == f.key ==> g == f
  {
    GatewayFrom(START, run, moves, i);
    IdentityFrom(START, run, moves, i);
    ReturnedAppliedOnce(run[i], f);
  }

  /** In particular if no key is ever drawn twice. */
  lemma {:induction false} FreshKeysExactlyOnce(run: seq<World>, moves: seq<Move>, i: nat, f: Frame)
    requires IsRun(run, moves) && FreshKeys(run, moves) && i < |run| && f in run[i].returned
    ensures Count(run[i].applied, f) == 1
    ensures forall g :: g in run[i].sent && g.key == f.key ==> g == f
  {
    FreshKeysAreSafe(run, moves, |moves|);
    ExactlyOnce(run, moves, i, f);
  }

  /** In every run the receipts stay distinct and bounded. */
  lemma {:induction false} ReceiptsBounded(run: seq<World>, moves: seq<Move>, i: nat)
    requires IsRun(run, moves) && i < |run|
    ensures Distinct(run[i].receipts) && |run[i].receipts| <= MAXIMUM_RECEIPTS
  {
    GatewayFrom(START, run, moves, i);
  }

  /**
    Freshness cannot be dropped: a repeated receipt for an earlier frame lets a later
    draft with the same key return although it was never written.
   */
  lemma {:induction false} RepeatedKeyCanLie() returns (run: seq<World>, moves: seq<Move>, b: Frame)
    ensures IsRun(run, moves) && |run| == 8
    ensures b in run[7].returned && Count(run[7].applied, b) == 0
  {
    var a := Frame(1, [1]);
    b := Frame(1, [2]);
    var w1 := Apply(START, Compose(0, [1], a));
    var w2 := Apply(w1, Attempt(0));
    var w3 := Apply(w2, Arrive(a));
    var w4 := Apply(w3, GiveUp(0));
    var w5 := Apply(w4, Compose(1, [2], b));
    var w6 := Apply(w5, ReceiptArrives(1));
    var w7 := Apply(w6, Return(1));
    run := [START, w1, w2, w3, w4, w5, w6, w7];
    moves := [Compose(0, [1], a), Attempt(0), Arrive(a), GiveUp(0), Compose(1, [2], b), ReceiptArrives(1), Return(1)];
    assert w7.applied == [a] && w7.returned == [b];
  }
}
