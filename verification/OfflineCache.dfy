/**
 * The offline cache's terminal histories and its size bounds
 * (apps/ios/Sources/Security/EncryptedOfflineCache.swift).
 *
 * Dates are ticks of a clock and are only compared. The encoded size of a state is an arbitrary function,
 * so nothing below depends on the JSON encoder. Dictionary iteration order and the order in which the
 * library sort leaves equal keys are left open.
 */
module OfflineCache {
  import opened Common

  const MAXIMUM_FRAMES: nat := 256
  const MAXIMUM_HISTORY_BYTES: nat := 512 * 1024
  const MAXIMUM_FRAME_BYTES: nat := 128 * 1024
  const MAXIMUM_RECORDS: nat := 12

  datatype Frame = Frame(sequence: nat, output: seq<byte>)

  datatype History = History(lastSequence: nat, frames: seq<Frame>)

  const EMPTY_HISTORY: History := History(0, [])

  // ----- Increasing lists of frames

  ghost predicate Increasing(s: seq<Frame>)
  {
    forall i, j :: 0 <= i < j < |s| ==> s[i].sequence < s[j].sequence
  }

  ghost predicate Ordered(s: seq<Frame>)
  {
    forall i, j :: 0 <= i < j < |s| ==> s[i].sequence <= s[j].sequence
  }

  ghost predicate Within(a: seq<Frame>, b: seq<Frame>)
  {
    forall f :: f in a ==> f in b
  }

  lemma {:induction false} IncreasingTail(s: seq<Frame>)
    requires Increasing(s) && s != []
    ensures Increasing(s[1..])
    ensures forall f :: f in s[1..] <==> f in s && f != s[0]
    ensures forall f :: f in s[1..] ==> s[0].sequence < f.sequence
  {
    assert s == [s[0]] + s[1..];
  }

  /** An increasing list contained in another one is no longer and no heavier. */
  lemma {:induction false} ContainedIsLighter(a: seq<Frame>, b: seq<Frame>)
    requires Increasing(a) && Increasing(b) && Within(a, b)
    ensures |a| <= |b| && Bytes(a) <= Bytes(b)
    decreases |b|
  {
    if a != [] {
      assert a[0] in b;
      IncreasingTail(a);
      IncreasingTail(b);
      if a[0] == b[0] {
        ContainedIsLighter(a[1..], b[1..]);
      } else {
        assert b[0] !in a;
        ContainedIsLighter(a, b[1..]);
      }
    }
  }

  /** Increasing lists with the same members are the same list. */
  lemma {:induction false} IncreasingUnique(a: seq<Frame>, b: seq<Frame>)
    requires Increasing(a) && Increasing(b) && Within(a, b) && Within(b, a)
    ensures a == b
  {
    assert b != [] ==> b[0] in a;
    if a != [] {
      assert a[0] in b && b[0] in a;
      IncreasingTail(a);
      IncreasingTail(b);
      assert a[0] == b[0];
      IncreasingUnique(a[1..], b[1..]);
      assert a == [a[0]] + a[1..] && b == [b[0]] + b[1..];
    }
  }

  // ----- Trimming

  function Bytes(s: seq<Frame>): nat
  {
    if s == [] then 0 else |s[0].output| + Bytes(s[1..])
  }

  predicate Fits(s: seq<Frame>)
  {
    |s| <= MAXIMUM_FRAMES && Bytes(s) <= MAXIMUM_HISTORY_BYTES
  }

  /** The newest frames within both limits. */
  function Trim(s: seq<Frame>): seq<Frame>
    decreases |s|
  {
    if Fits(s) then s else Trim(s[1..])
  }

  lemma {:induction false} SuffixFits(s: seq<Frame>, k: nat)
    requires k <= |s| && Fits(s)
    ensures Fits(s[k..])
  {
    if k > 0 {
      SuffixFits(s[1..], k - 1);
      DropOfDrop(s, 1, k);
    }
  }

  /** Trimming keeps the longest suffix that is within both limits. */
  lemma {:induction false} TrimIsLongestSuffix(s: seq<Frame>)
    ensures |Trim(s)| <= |s| && Trim(s) == s[|s| - |Trim(s)|..] && Fits(Trim(s))
    ensures forall j :: 0 <= j < |s| - |Trim(s)| ==> !Fits(s[j..])
    decreases |s|
  {
    if !Fits(s) {
      var tail := s[1..];
      TrimIsLongestSuffix(tail);
      DropOfDrop(s, 1, |s| - |Trim(s)|);
      forall j | 0 <= j < |s| - |Trim(s)| ensures !Fits(s[j..]) {
        if j == 0 {
          assert s[0..] == s;
        } else {
          DropOfDrop(s, 1, j);
          assert !Fits(tail[j - 1..]);
        }
      }
    }
  }

  /** The frames of `s` from sequence number `q` on. */
  function From(s: seq<Frame>, q: nat): seq<Frame>
  {
    if s == [] || s[0].sequence >= q then s else From(s[1..], q)
  }

  lemma {:induction false} FromMembers(s: seq<Frame>, q: nat)
    requires Increasing(s)
    ensures Increasing(From(s, q))
    ensures forall f :: f in From(s, q) <==> f in s && f.sequence >= q
  {
    if s != [] {
      IncreasingTail(s);
      if s[0].sequence < q {
        FromMembers(s[1..], q);
      }
    }
  }

  lemma {:induction false} FromIndex(s: seq<Frame>, i: nat)
    requires Increasing(s) && i < |s|
    ensures From(s, s[i].sequence) == s[i..]
  {
    if i > 0 {
      IncreasingTail(s);
      FromIndex(s[1..], i - 1);
      DropOfDrop(s, 1, i);
    }
  }

  /** A frame survives trimming exactly when it and everything newer fit together. */
  lemma {:induction false} TrimMembers(s: seq<Frame>, f: Frame)
    requires Increasing(s)
    ensures f in Trim(s) <==> f in s && Fits(From(s, f.sequence))
  {
    TrimIsLongestSuffix(s);
    var k := |s| - |Trim(s)|;
    if f in s {
      var i :| 0 <= i < |s| && s[i] == f;
      FromIndex(s, i);
      if i >= k {
        SuffixFits(s[k..], i - k);
        DropOfDrop(s, k, i);
        assert s[k..][i - k] == f;
      } else {
        assert forall j :: 0 <= j < |Trim(s)| ==> Trim(s)[j] == s[k + j];
      }
    }
  }

  lemma {:induction false} TrimIncreasing(s: seq<Frame>)
    requires Increasing(s)
    ensures Increasing(Trim(s)) && Within(Trim(s), s)
  {
    TrimIsLongestSuffix(s);
  }

  // ----- One append

  predicate Acceptable(f: Frame)
  {
    f.output != [] && |f.output| <= MAXIMUM_FRAME_BYTES
  }

  ghost predicate Recorded(s: seq<Frame>, q: nat)
  {
    exists f :: f in s && f.sequence == q
  }

  /**
   * `merged` is `stored` together with one acceptable offered frame for every acceptable sequence number
   * that was not stored. Which of several offered frames with one number is taken is left open.
   */
  ghost predicate Merged(stored: seq<Frame>, offered: seq<Frame>, merged: seq<Frame>)
  {
    && Increasing(merged)
    && Within(stored, merged)
    && (forall f :: f in merged ==> f in stored || (f in offered && Acceptable(f)))
    && (forall f :: f in offered && Acceptable(f) ==> Recorded(merged, f.sequence))
  }

  /** What one append makes of a history. */
  ghost predicate Appended(before: History, offered: seq<Frame>, merged: seq<Frame>, after: History)
  {
    && Merged(before.frames, offered, merged)
    && after.frames == Trim(merged)
    && IsMaximum(before.lastSequence, offered, after.lastSequence)
  }

  /** `m` is the largest of `start` and the sequence numbers of `offered`. */
  ghost predicate IsMaximum(start: nat, offered: seq<Frame>, m: nat)
  {
    && start <= m
    && (forall f :: f in offered ==> f.sequence <= m)
    && (m == start || Recorded(offered, m))
  }

  /** What every stored history satisfies. */
  ghost predicate Good(h: History)
  {
    && Increasing(h.frames)
    && (forall f :: f in h.frames ==> Acceptable(f) && f.sequence <= h.lastSequence)
    && Fits(h.frames)
  }

  lemma {:induction false} AppendKeepsGood(before: History, offered: seq<Frame>, merged: seq<Frame>, after: History)
    requires Good(before) && Appended(before, offered, merged, after)
    ensures Good(after)
  {
    TrimIncreasing(merged);
    TrimIsLongestSuffix(merged);
  }

  // ----- The loops of the append

  method SortBySequence(frames: seq<Frame>) returns (sorted: seq<Frame>)
    ensures Ordered(sorted) && |sorted| == |frames|
    ensures forall f :: f in sorted <==> f in frames
    ensures Distinct(frames) ==> Increasing(sorted)
  {
    sorted := [];
    for n := 0 to |frames|
      invariant Ordered(sorted) && |sorted| == n
      invariant forall f :: f in sorted <==> f in frames[..n]
      invariant Distinct(frames) ==> Increasing(sorted)
    {
      var i := |sorted|;
      while i > 0 && frames[n].sequence < sorted[i - 1].sequence
        invariant 0 <= i <= |sorted|
        invariant forall j :: i <= j < |sorted| ==> frames[n].sequence < sorted[j].sequence
      {
        i := i - 1;
      }
      ghost var was := sorted;
      InsertOrdered(sorted, i, frames[n]);
      InsertMembers(sorted, i, frames[n]);
      sorted := sorted[..i] + [frames[n]] + sorted[i..];
      assert frames[..n + 1] == frames[..n] + [frames[n]];
      if Distinct(frames) {
        forall f | f in was ensures f.sequence != frames[n].sequence {
          var j :| 0 <= j < n && frames[..n][j] == f;
        }
        InsertIncreasing(was, i, frames[n]);
      }
    }
    assert frames[..|frames|] == frames;
  }

  /** No two positions carry one sequence number. */
  ghost predicate Distinct(s: seq<Frame>)
  {
    forall i, j :: 0 <= i < j < |s| ==> s[i].sequence != s[j].sequence
  }

  lemma {:induction false} InsertOrdered(s: seq<Frame>, i: nat, f: Frame)
    requires Ordered(s) && i <= |s|
    requires i > 0 ==> s[i - 1].sequence <= f.sequence
    requires forall j :: i <= j < |s| ==> f.sequence < s[j].sequence
    ensures Ordered(s[..i] + [f] + s[i..])
  {
    var r := s[..i] + [f] + s[i..];
    forall a, b | 0 <= a < b < |r| ensures r[a].sequence <= r[b].sequence {
      assert a < i ==> r[a] == s[a];
      assert a > i ==> r[a] == s[a - 1];
      assert b < i ==> r[b] == s[b];
      assert b > i ==> r[b] == s[b - 1];
    }
  }

  lemma {:induction false} InsertMembers(s: seq<Frame>, i: nat, f: Frame)
    requires i <= |s|
    ensures forall g :: g in s[..i] + [f] + s[i..] <==> g == f || g in s
  {
    assert s == s[..i] + s[i..];
  }

  lemma {:induction false} InsertIncreasing(s: seq<Frame>, i: nat, f: Frame)
    requires Increasing(s) && i <= |s|
    requires i > 0 ==> s[i - 1].sequence <= f.sequence
    requires forall j :: i <= j < |s| ==> f.sequence < s[j].sequence
    requires forall g :: g in s ==> g.sequence != f.sequence
    ensures Increasing(s[..i] + [f] + s[i..])
  {
    if i > 0 { assert s[i - 1] in s; }
  }

  method TrimTerminalFrames(frames: seq<Frame>) returns (kept: seq<Frame>)
    ensures kept == Trim(frames)
  {
    kept := frames;
    var bytes := 0;
    for i := 0 to |frames|
      invariant bytes + Bytes(frames[i..]) == Bytes(frames)
    {
      DropOfDrop(frames, i, i + 1);
      bytes := bytes + |frames[i].output|;
    }
    while |kept| > MAXIMUM_FRAMES || bytes > MAXIMUM_HISTORY_BYTES
      invariant bytes == Bytes(kept)
      invariant Trim(kept) == Trim(frames)
      decreases |kept|
    {
      bytes := bytes - |kept[0].output|;
      kept := kept[1..];
    }
  }

  // ----- Appending to one history

  lemma {:induction false} MaximumStep(start: nat, s: seq<Frame>, i: nat, m: nat)
    requires i < |s| && IsMaximum(start, s[..i], m)
    ensures IsMaximum(start, s[..i + 1], if s[i].sequence > m then s[i].sequence else m)
  {
    assert s[..i + 1] == s[..i] + [s[i]];
    assert s[i] in s[..i + 1];
    if m != start {
      var f :| f in s[..i] && f.sequence == m;
      assert f in s[..i + 1];
    }
  }

  lemma {:induction false} MaximumMembers(start: nat, a: seq<Frame>, b: seq<Frame>, m: nat)
    requires IsMaximum(start, a, m) && Within(a, b) && Within(b, a)
    ensures IsMaximum(start, b, m)
  {
  }

  lemma {:induction false} RecordedSnoc(s: seq<Frame>, f: Frame)
    requires Distinct(s) && !Recorded(s, f.sequence)
    ensures Distinct(s + [f])
    ensures forall q :: Recorded(s + [f], q) <==> Recorded(s, q) || q == f.sequence
  {
    forall q ensures Recorded(s + [f], q) <==> Recorded(s, q) || q == f.sequence {
      assert f in s + [f];
      if Recorded(s, q) {
        var g :| g in s && g.sequence == q;
        assert g in s + [f];
      }
    }
  }

  lemma {:induction false} MergedByLoop(stored: seq<Frame>, offered: seq<Frame>, frames: seq<Frame>, merged: seq<Frame>)
    requires Increasing(merged) && Within(frames, merged) && Within(merged, frames) && Within(stored, frames)
    requires forall f :: f in frames ==> f in stored || (f in offered && Acceptable(f))
    requires forall f :: f in offered && Acceptable(f) ==> Recorded(frames, f.sequence)
    ensures Merged(stored, offered, merged)
  {
    forall f | f in offered && Acceptable(f) ensures Recorded(merged, f.sequence) {
      var g :| g in frames && g.sequence == f.sequence;
      assert g in merged;
    }
  }

  /** `frames` is `stored` and one acceptable frame for every acceptable sequence number of `seen`. */
  ghost predicate Adding(stored: seq<Frame>, offered: seq<Frame>, seen: seq<Frame>, frames: seq<Frame>)
  {
    && Distinct(frames) && Within(stored, frames)
    && (forall f :: f in frames ==> f in stored || (f in offered && Acceptable(f)))
    && (forall f :: f in seen && Acceptable(f) ==> Recorded(frames, f.sequence))
  }

  function Sequences(s: seq<Frame>): set<nat>
  {
    set f | f in s :: f.sequence
  }

  lemma {:induction false} SequencesRecorded(s: seq<Frame>, q: nat)
    ensures q in Sequences(s) <==> Recorded(s, q)
  {
  }

  lemma {:induction false} SequencesSnoc(s: seq<Frame>, f: Frame)
    ensures Sequences(s + [f]) == Sequences(s) + {f.sequence}
  {
    assert forall g :: g in s + [f] <==> g in s || g == f;
  }

  /** The list after one more offered frame. */
  function Added(frames: seq<Frame>, f: Frame): seq<Frame>
  {
    if Acceptable(f) && f.sequence !in Sequences(frames) then frames + [f] else frames
  }

  lemma {:induction false} AddStep(stored: seq<Frame>, offered: seq<Frame>, sorted: seq<Frame>, i: nat, frames: seq<Frame>)
    requires i < |sorted| && sorted[i] in offered && Adding(stored, offered, sorted[..i], frames)
    ensures Adding(stored, offered, sorted[..i + 1], Added(frames, sorted[i]))
  {
    var f := sorted[i];
    assert sorted[..i + 1] == sorted[..i] + [f];
    SequencesRecorded(frames, f.sequence);
    if Acceptable(f) && f.sequence !in Sequences(frames) {
      RecordedSnoc(frames, f);
    }
  }

  method AddFrame(frames: seq<Frame>, recorded: set<nat>, frame: Frame) returns (frames': seq<Frame>, recorded': set<nat>)
    requires recorded == Sequences(frames)
    ensures frames' == Added(frames, frame) && recorded' == Sequences(frames')
  {
    frames', recorded' := frames, recorded;
    if frame.sequence !in recorded && frame.output != [] && |frame.output| <= MAXIMUM_FRAME_BYTES {
      SequencesSnoc(frames, frame);
      frames' := frames + [frame];
      recorded' := recorded + {frame.sequence};
    }
  }

  /** The loop of the append: raises `last` for every offered frame and adds the acceptable new ones. */
  method AddFrames(stored: seq<Frame>, start: nat, offered: seq<Frame>, sorted: seq<Frame>) returns (frames: seq<Frame>, last: nat)
    requires Increasing(stored) && forall i :: 0 <= i < |sorted| ==> sorted[i] in offered
    ensures Adding(stored, offered, sorted, frames) && IsMaximum(start, sorted, last)
  {
    frames, last := stored, start;
    var recorded := Sequences(stored);
    for i := 0 to |sorted|
      invariant IsMaximum(start, sorted[..i], last)
      invariant Adding(stored, offered, sorted[..i], frames)
      invariant recorded == Sequences(frames)
    {
      MaximumStep(start, sorted, i, last);
      AddStep(stored, offered, sorted, i, frames);
      if sorted[i].sequence > last {
        last := sorted[i].sequence;
      }
      frames, recorded := AddFrame(frames, recorded, sorted[i]);
    }
    assert sorted[..|sorted|] == sorted;
  }

  /** The history an append stores; `merged` is the list before it was trimmed. */
  method AppendToHistory(before: History, offered: seq<Frame>) returns (after: History, ghost merged: seq<Frame>)
    requires Increasing(before.frames)
    ensures Appended(before, offered, merged, after)
    ensures Increasing(after.frames) && Fits(after.frames) && IsMaximum(before.lastSequence, offered, after.lastSequence)
  {
    var sorted := SortBySequence(offered);
    var frames, last := AddFrames(before.frames, before.lastSequence, offered, sorted);
    var ordered := SortBySequence(frames);
    MergedByLoop(before.frames, offered, frames, ordered);
    MaximumMembers(before.lastSequence, sorted, offered, last);
    merged := ordered;
    var kept := TrimTerminalFrames(ordered);
    TrimIncreasing(ordered);
    TrimIsLongestSuffix(ordered);
    after := History(last, kept);
  }

  // ----- Any series of appends

  /** `histories` is a run of appends of `batches`, starting from no history. */
  ghost predicate IsSeries(batches: seq<seq<Frame>>, merged: seq<seq<Frame>>, histories: seq<History>)
  {
    && |histories| == |batches| + 1 && |merged| == |batches|
    && histories[0] == EMPTY_HISTORY
    && forall i :: 0 <= i < |batches| ==> Appended(histories[i], batches[i], merged[i], histories[i + 1])
  }

  lemma {:induction false} TakeFlatten(batches: seq<seq<Frame>>, i: nat)
    requires i < |batches|
    ensures Flatten(batches[..i + 1]) == Flatten(batches[..i]) + batches[i]
  {
    assert batches[..i + 1] == batches[..i] + [batches[i]];
    FlattenConcat(batches[..i], [batches[i]]);
    FlattenSingle(batches[i]);
  }

  lemma {:induction false} SeriesGood(batches: seq<seq<Frame>>, merged: seq<seq<Frame>>, histories: seq<History>, i: nat)
    requires IsSeries(batches, merged, histories) && i < |histories|
    ensures Good(histories[i])
  {
    if i > 0 {
      SeriesGood(batches, merged, histories, i - 1);
      assert Appended(histories[i - 1], batches[i - 1], merged[i - 1], histories[i - 1 + 1]);
      AppendKeepsGood(histories[i - 1], batches[i - 1], merged[i - 1], histories[i]);
    }
  }

  lemma {:induction false} MaximumConcat(a: seq<Frame>, b: seq<Frame>, m: nat, n: nat)
    requires IsMaximum(0, a, m) && IsMaximum(m, b, n)
    ensures IsMaximum(0, a + b, n)
  {
    if n != m {
      var f :| f in b && f.sequence == n;
      assert f in a + b;
    } else if m != 0 {
      var f :| f in a && f.sequence == m;
      assert f in a + b;
    }
  }

  /** `lastSequence` is the largest sequence number ever offered, acceptable or not, in whatever order. */
  lemma {:induction false} LastSequenceIsMaximum(batches: seq<seq<Frame>>, merged: seq<seq<Frame>>, histories: seq<History>, i: nat)
    requires IsSeries(batches, merged, histories) && i < |histories|
    ensures IsMaximum(0, Flatten(batches[..i]), histories[i].lastSequence)
  {
    if i > 0 {
      LastSequenceIsMaximum(batches, merged, histories, i - 1);
      assert Appended(histories[i - 1], batches[i - 1], merged[i - 1], histories[i - 1 + 1]);
      TakeFlatten(batches, i - 1);
      MaximumConcat(Flatten(batches[..i - 1]), batches[i - 1], histories[i - 1].lastSequence, histories[i].lastSequence);
    }
  }

  /** No sequence number is offered with two acceptable outputs. */
  ghost predicate Consistent(s: seq<Frame>)
  {
    forall f, g :: f in s && g in s && Acceptable(f) && Acceptable(g) && f.sequence == g.sequence ==> f == g
  }

  function InsertFrame(s: seq<Frame>, f: Frame): seq<Frame>
  {
    if s == [] || f.sequence < s[0].sequence then [f] + s
    else if f.sequence == s[0].sequence then s
    else [s[0]] + InsertFrame(s[1..], f)
  }

  /** Every acceptable frame of `s`, once, in order of sequence number. */
  function Everything(s: seq<Frame>): seq<Frame>
  {
    if s == [] then []
    else
      var rest := Everything(s[1..]);
      if Acceptable(s[0]) then InsertFrame(rest, s[0]) else rest
  }

  lemma {:induction false} IncreasingFrom(first: Frame, rest: seq<Frame>)
    requires Increasing(rest) && forall g :: g in rest ==> first.sequence < g.sequence
    ensures Increasing([first] + rest)
  {
  }

  lemma {:induction false} FirstIsLeast(s: seq<Frame>, g: Frame)
    requires Increasing(s) && s != [] && g in s[1..]
    ensures s[0].sequence < g.sequence
  {
    var i :| 0 <= i < |s[1..]| && s[1..][i] == g;
    assert s[i + 1] == g;
  }

  lemma {:induction false} InsertFrameMembers(s: seq<Frame>, f: Frame)
    requires Increasing(s) && forall g :: g in s && g.sequence == f.sequence ==> g == f
    ensures Increasing(InsertFrame(s, f))
    ensures forall g :: g in InsertFrame(s, f) <==> g == f || g in s
  {
    if s != [] {
      IncreasingTail(s);
      assert s == [s[0]] + s[1..];
      forall g | g in s[1..] ensures s[0].sequence < g.sequence { FirstIsLeast(s, g); }
      if f.sequence > s[0].sequence {
        InsertFrameMembers(s[1..], f);
        IncreasingFrom(s[0], InsertFrame(s[1..], f));
      } else if f.sequence == s[0].sequence {
        assert s[0] in s;
      } else {
        IncreasingFrom(f, s);
      }
    }
  }

  lemma {:induction false} EverythingMembers(s: seq<Frame>)
    requires Consistent(s)
    ensures Increasing(Everything(s))
    ensures forall f :: f in Everything(s) <==> f in s && Acceptable(f)
  {
    if s != [] {
      assert s == [s[0]] + s[1..];
      EverythingMembers(s[1..]);
      if Acceptable(s[0]) {
        InsertFrameMembers(Everything(s[1..]), s[0]);
      }
    }
  }

  /** `u` is `a` together with the acceptable frames of `offered`. */
  ghost predicate Union(a: seq<Frame>, offered: seq<Frame>, u: seq<Frame>)
  {
    Increasing(u) && forall f :: f in u <==> f in a || (f in offered && Acceptable(f))
  }

  lemma {:induction false} FromWithin(a: seq<Frame>, b: seq<Frame>, q: nat)
    requires Increasing(a) && Increasing(b) && Within(a, b) && Fits(From(b, q))
    ensures Fits(From(a, q))
  {
    FromMembers(a, q);
    FromMembers(b, q);
    ContainedIsLighter(From(a, q), From(b, q));
  }

  lemma {:induction false} SameSequence(u: seq<Frame>, f: Frame, g: Frame)
    requires Increasing(u) && f in u && g in u && f.sequence == g.sequence
    ensures f == g
  {
  }

  /** A frame of the tail of everything offered survives an append. */
  lemma {:induction false} TailSurvives(a: seq<Frame>, h: seq<Frame>, offered: seq<Frame>, merged: seq<Frame>, u: seq<Frame>, f: Frame)
    requires Increasing(a) && Within(Trim(a), h) && Within(h, a)
    requires Merged(h, offered, merged) && Union(a, offered, u) && f in Trim(u)
    ensures f in Trim(merged)
  {
    TrimMembers(u, f);
    assert Within(merged, u);
    if f in a {
      FromWithin(a, u, f.sequence);
      TrimMembers(a, f);
    } else {
      var g :| g in merged && g.sequence == f.sequence;
      SameSequence(u, f, g);
    }
    FromWithin(merged, u, f.sequence);
    TrimMembers(merged, f);
  }

  lemma {:induction false} ConsistentPrefix(a: seq<Frame>, b: seq<Frame>)
    requires Consistent(a + b)
    ensures Consistent(a)
  {
    forall f | f in a ensures f in a + b {}
  }

  lemma {:induction false} UnionStep(batches: seq<seq<Frame>>, i: nat)
    requires i < |batches| && Consistent(Flatten(batches[..i + 1]))
    ensures Consistent(Flatten(batches[..i]))
    ensures Increasing(Everything(Flatten(batches[..i])))
    ensures Union(Everything(Flatten(batches[..i])), batches[i], Everything(Flatten(batches[..i + 1])))
  {
    TakeFlatten(batches, i);
    ConsistentPrefix(Flatten(batches[..i]), batches[i]);
    EverythingMembers(Flatten(batches[..i]));
    EverythingMembers(Flatten(batches[..i + 1]));
  }

  /**
   * However the frames were batched, ordered and repeated, the stored history holds at least the longest
   * tail, within both limits, of everything ever offered, and only frames that were offered.
   */
  lemma {:induction false} HistoryCoversTail(batches: seq<seq<Frame>>, merged: seq<seq<Frame>>, histories: seq<History>, i: nat)
    requires IsSeries(batches, merged, histories) && i < |histories| && Consistent(Flatten(batches[..i]))
    ensures Within(Trim(Everything(Flatten(batches[..i]))), histories[i].frames)
    ensures Within(histories[i].frames, Everything(Flatten(batches[..i])))
  {
    if i == 0 {
      assert Flatten(batches[..0]) == [];
    } else {
      assert Appended(histories[i - 1], batches[i - 1], merged[i - 1], histories[i - 1 + 1]);
      UnionStep(batches, i - 1);
      HistoryCoversTail(batches, merged, histories, i - 1);
      var a, u := Everything(Flatten(batches[..i - 1])), Everything(Flatten(batches[..i]));
      forall f | f in Trim(u) ensures f in histories[i].frames {
        TailSurvives(a, histories[i - 1].frames, batches[i - 1], merged[i - 1], u, f);
      }
      TrimIncreasing(merged[i - 1]);
    }
  }

  /** Nothing offered is missing above the oldest stored frame. */
  ghost predicate Gapless(frames: seq<Frame>, u: seq<Frame>)
  {
    forall f, g :: f in frames && g in u && f.sequence <= g.sequence ==> g in frames
  }

  lemma {:induction false} TailIsGapless(u: seq<Frame>)
    requires Increasing(u)
    ensures Gapless(Trim(u), u)
  {
    forall f, g | f in Trim(u) && g in u && f.sequence <= g.sequence ensures g in Trim(u) {
      TrimMembers(u, f);
      TrimMembers(u, g);
      FromMembers(u, f.sequence);
      FromMembers(u, g.sequence);
      ContainedIsLighter(From(u, g.sequence), From(u, f.sequence));
    }
  }

  lemma {:induction false} GaplessIsTail(frames: seq<Frame>, u: seq<Frame>)
    requires Increasing(u) && Increasing(frames) && Within(frames, u) && Fits(frames)
    requires Within(Trim(u), frames) && Gapless(frames, u)
    ensures frames == Trim(u)
  {
    forall f | f in frames ensures f in Trim(u) {
      FromMembers(u, f.sequence);
      ContainedIsLighter(From(u, f.sequence), frames);
      TrimMembers(u, f);
    }
    TrimIncreasing(u);
    IncreasingUnique(frames, Trim(u));
  }

  /** The history is exactly the tail of everything offered when it has no gap, and only then. */
  lemma {:induction false} TailIffGapless(batches: seq<seq<Frame>>, merged: seq<seq<Frame>>, histories: seq<History>, i: nat)
    requires IsSeries(batches, merged, histories) && i < |histories| && Consistent(Flatten(batches[..i]))
    ensures histories[i].frames == Trim(Everything(Flatten(batches[..i])))
       <==> Gapless(histories[i].frames, Everything(Flatten(batches[..i])))
  {
    var u := Everything(Flatten(batches[..i]));
    EverythingMembers(Flatten(batches[..i]));
    HistoryCoversTail(batches, merged, histories, i);
    SeriesGood(batches, merged, histories, i);
    if Gapless(histories[i].frames, u) {
      GaplessIsTail(histories[i].frames, u);
    } else {
      TailIsGapless(u);
    }
  }

  /**
   * Of everything offered before, `a`, no frame that is gone from `merged` is newer than an offered frame
   * that would fit together with everything newer in `merged`. This can be read off before trimming.
   */
  ghost predicate LeavesNoGap(a: seq<Frame>, batch: seq<Frame>, merged: seq<Frame>)
  {
    forall f, g :: f in batch && Acceptable(f) && g in a && g !in merged && f.sequence < g.sequence ==>
      !Fits(From(merged, f.sequence))
  }

  lemma {:induction false} OfferedIsMerged(h: seq<Frame>, batch: seq<Frame>, merged: seq<Frame>, a: seq<Frame>, u: seq<Frame>, f: Frame)
    requires Within(h, a) && Merged(h, batch, merged) && Union(a, batch, u) && f in batch && Acceptable(f)
    ensures f in merged
  {
    var e :| e in merged && e.sequence == f.sequence;
    SameSequence(u, e, f);
  }

  lemma {:induction false} NoGapAfter(a: seq<Frame>, h: seq<Frame>, batch: seq<Frame>, merged: seq<Frame>, u: seq<Frame>, f: Frame, g: Frame)
    requires Increasing(a) && h == Trim(a) && Merged(h, batch, merged) && Union(a, batch, u) && LeavesNoGap(a, batch, merged)
    requires f in Trim(merged) && g in u && f.sequence <= g.sequence
    ensures g in Trim(merged)
  {
    TrimIncreasing(a);
    TrimIncreasing(merged);
    TailIsGapless(a);
    TailIsGapless(merged);
    TrimMembers(merged, f);
    if g in batch && Acceptable(g) {
      OfferedIsMerged(h, batch, merged, a, u, g);
    } else if f.sequence == g.sequence {
      SameSequence(u, f, g);
    }
    assert g in merged;
  }

  lemma {:induction false} GapShowsLater(a: seq<Frame>, h: seq<Frame>, batch: seq<Frame>, merged: seq<Frame>, u: seq<Frame>, f: Frame, g: Frame)
    requires Increasing(a) && h == Trim(a) && Merged(h, batch, merged) && Union(a, batch, u)
    requires f in batch && Acceptable(f) && g in a && g !in merged && f.sequence < g.sequence && Fits(From(merged, f.sequence))
    ensures Trim(merged) != Trim(u)
  {
    TrimIncreasing(a);
    OfferedIsMerged(h, batch, merged, a, u, f);
    TrimMembers(merged, f);
    TrimIncreasing(merged);
    TailIsGapless(u);
  }

  /** One append trims to the tail of everything offered exactly when the batch leaves no gap. */
  lemma {:induction false} AppendIsTailIff(a: seq<Frame>, h: seq<Frame>, batch: seq<Frame>, merged: seq<Frame>, u: seq<Frame>)
    requires Increasing(a) && h == Trim(a) && Merged(h, batch, merged) && Union(a, batch, u)
    ensures Trim(merged) == Trim(u) <==> LeavesNoGap(a, batch, merged)
  {
    if LeavesNoGap(a, batch, merged) {
      TrimIncreasing(a);
      TrimIncreasing(merged);
      TrimIsLongestSuffix(merged);
      forall f, g | f in Trim(merged) && g in u && f.sequence <= g.sequence ensures g in Trim(merged) {
        NoGapAfter(a, h, batch, merged, u, f, g);
      }
      forall f | f in Trim(u) ensures f in Trim(merged) {
        TailSurvives(a, h, batch, merged, u, f);
      }
      GaplessIsTail(Trim(merged), u);
    } else {
      var f, g :| f in batch && Acceptable(f) && g in a && g !in merged && f.sequence < g.sequence && Fits(From(merged, f.sequence));
      GapShowsLater(a, h, batch, merged, u, f, g);
    }
  }

  /** No append up to the `i`-th leaves a gap. */
  ghost predicate NoGaps(batches: seq<seq<Frame>>, merged: seq<seq<Frame>>, i: nat)
    requires i <= |batches| == |merged|
  {
    forall k :: 0 <= k < i ==> LeavesNoGap(Everything(Flatten(batches[..k])), batches[k], merged[k])
  }

  /** The history was the tail of everything offered before each of the first `i` appends, and is after them. */
  ghost predicate AlwaysTail(batches: seq<seq<Frame>>, histories: seq<History>, i: nat)
    requires i <= |batches| < |histories|
  {
    forall k :: 0 <= k <= i ==> histories[k].frames == Trim(Everything(Flatten(batches[..k])))
  }

  /** Trimming at every append is trimming everything once, all along, exactly when no append leaves a gap. */
  lemma {:induction false} AlwaysTailIff(batches: seq<seq<Frame>>, merged: seq<seq<Frame>>, histories: seq<History>, i: nat)
    requires IsSeries(batches, merged, histories) && i <= |batches| && Consistent(Flatten(batches[..i]))
    ensures AlwaysTail(batches, histories, i) <==> NoGaps(batches, merged, i)
  {
    if i == 0 {
      assert Flatten(batches[..0]) == [];
    } else {
      UnionStep(batches, i - 1);
      AlwaysTailIff(batches, merged, histories, i - 1);
      assert Appended(histories[i - 1], batches[i - 1], merged[i - 1], histories[i - 1 + 1]);
      assert AlwaysTail(batches, histories, i) <==>
             AlwaysTail(batches, histories, i - 1) && histories[i].frames == Trim(Everything(Flatten(batches[..i])));
      assert NoGaps(batches, merged, i) <==>
             NoGaps(batches, merged, i - 1) && LeavesNoGap(Everything(Flatten(batches[..i - 1])), batches[i - 1], merged[i - 1]);
      if AlwaysTail(batches, histories, i - 1) {
        AppendIsTailIff(Everything(Flatten(batches[..i - 1])), histories[i - 1].frames, batches[i - 1], merged[i - 1],
                        Everything(Flatten(batches[..i])));
      }
    }
  }

  /** Every acceptable frame of the batch is already stored or newer than everything offered before. */
  ghost predicate InOrder(h: History, batch: seq<Frame>)
  {
    forall f :: f in batch && Acceptable(f) ==> f in h.frames || f.sequence > h.lastSequence
  }

  lemma {:induction false} InOrderLeavesNoGap(h: History, batch: seq<Frame>, merged: seq<Frame>, a: seq<Frame>)
    requires Merged(h.frames, batch, merged) && InOrder(h, batch)
    requires Increasing(a) && h.frames == Trim(a) && (forall f :: f in a ==> f.sequence <= h.lastSequence)
    ensures LeavesNoGap(a, batch, merged)
  {
    TailIsGapless(a);
    assert Within(h.frames, merged);
  }

  lemma {:induction false} LastBoundsEverything(batches: seq<seq<Frame>>, merged: seq<seq<Frame>>, histories: seq<History>, i: nat)
    requires IsSeries(batches, merged, histories) && i < |histories| && Consistent(Flatten(batches[..i]))
    ensures forall f :: f in Everything(Flatten(batches[..i])) ==> f.sequence <= histories[i].lastSequence
  {
    LastSequenceIsMaximum(batches, merged, histories, i);
    EverythingMembers(Flatten(batches[..i]));
  }

  /** When batches arrive in order, repeats included, incremental trimming is trimming everything once. */
  lemma {:induction false} InOrderHistoryIsTail(batches: seq<seq<Frame>>, merged: seq<seq<Frame>>, histories: seq<History>, i: nat)
    requires IsSeries(batches, merged, histories) && i < |histories| && Consistent(Flatten(batches[..i]))
    requires forall k :: 0 <= k < i ==> InOrder(histories[k], batches[k])
    ensures histories[i].frames == Trim(Everything(Flatten(batches[..i])))
  {
    if i > 0 {
      UnionStep(batches, i - 1);
      InOrderHistoryIsTail(batches, merged, histories, i - 1);
      LastBoundsEverything(batches, merged, histories, i - 1);
      assert Appended(histories[i - 1], batches[i - 1], merged[i - 1], histories[i - 1 + 1]);
      assert InOrder(histories[i - 1], batches[i - 1]);
      var a, u := Everything(Flatten(batches[..i - 1])), Everything(Flatten(batches[..i]));
      InOrderLeavesNoGap(histories[i - 1], batches[i - 1], merged[i - 1], a);
      AppendIsTailIff(a, histories[i - 1].frames, batches[i - 1], merged[i - 1], u);
    } else {
      assert Flatten(batches[..0]) == [];
    }
  }

  lemma {:induction false} BytesCons(f: Frame, s: seq<Frame>)
    ensures Bytes([f] + s) == |f.output| + Bytes(s)
  {
    assert ([f] + s)[1..] == s;
  }

  lemma {:induction false} TrimDrops(f: Frame, s: seq<Frame>)
    requires !Fits([f] + s) && Fits(s)
    ensures Trim([f] + s) == s
  {
    assert ([f] + s)[1..] == s;
  }

  function Large(): seq<byte>
    ensures |Large()| == MAXIMUM_FRAME_BYTES
  {
    seq(MAXIMUM_FRAME_BYTES, i => 0)
  }

  const LATE: Frame := Frame(0, [0])
  const LOST: Frame := Frame(1, Large())
  const KEPT: seq<Frame> := [Frame(2, Large()), Frame(3, Large()), Frame(4, Large()), Frame(5, [0])]

  lemma {:induction false} KeptWeighs()
    ensures Fits(KEPT) && Fits([LATE] + KEPT) && Trim([LOST] + KEPT) == KEPT && Trim([LATE] + KEPT) == [LATE] + KEPT
  {
    var s1, s2, s3 := [Frame(5, [0])], [Frame(4, Large()), Frame(5, [0])], [Frame(3, Large()), Frame(4, Large()), Frame(5, [0])];
    BytesCons(Frame(5, [0]), []);
    assert s1 == [Frame(5, [0])] + [];
    BytesCons(Frame(4, Large()), s1);
    assert s2 == [Frame(4, Large())] + s1;
    BytesCons(Frame(3, Large()), s2);
    assert s3 == [Frame(3, Large())] + s2;
    BytesCons(Frame(2, Large()), s3);
    assert KEPT == [Frame(2, Large())] + s3;
    BytesCons(LOST, KEPT);
    BytesCons(LATE, KEPT);
    TrimDrops(LOST, KEPT);
  }

  lemma {:induction false} MergedWithNothing(s: seq<Frame>)
    requires Increasing(s) && forall f :: f in s ==> Acceptable(f)
    ensures Merged([], s, s)
  {
    forall f | f in s ensures Recorded(s, f.sequence) {}
  }

  lemma {:induction false} FirstAppend()
    ensures Appended(EMPTY_HISTORY, [LOST] + KEPT, [LOST] + KEPT, History(5, KEPT))
  {
    KeptWeighs();
    var first := [LOST] + KEPT;
    MergedWithNothing(first);
    assert first[4] == Frame(5, [0]);
    assert Recorded(first, 5);
  }

  lemma {:induction false} SecondAppend()
    ensures Appended(History(5, KEPT), [LATE], [LATE] + KEPT, History(5, [LATE] + KEPT))
  {
    KeptWeighs();
    var second := [LATE] + KEPT;
    assert Increasing(second);
    assert LATE in second;
    assert Within(KEPT, second);
  }

  lemma {:induction false} ConsistentByOrder(a: seq<Frame>, f: Frame)
    requires Increasing(a) && !Recorded(a, f.sequence)
    ensures Consistent(a + [f])
  {
  }

  /** A list with a member below a frame that is offered and missing is not the tail. */
  lemma {:induction false} MissingShows(frames: seq<Frame>, offered: seq<Frame>, low: Frame, missing: Frame)
    requires Consistent(offered) && low in frames && missing in offered && Acceptable(missing) && missing !in frames
    requires low.sequence <= missing.sequence
    ensures frames != Trim(Everything(offered))
  {
    EverythingMembers(offered);
    TailIsGapless(Everything(offered));
    assert missing in Everything(offered);
  }

  lemma {:induction false} KeptNumbers(f: Frame)
    requires f in KEPT
    ensures 2 <= f.sequence
  {
  }

  lemma {:induction false} GapShows(first: seq<Frame>, second: seq<Frame>)
    requires first == [LOST] + KEPT && second == [LATE] + KEPT
    ensures Consistent(first + [LATE]) && second != Trim(Everything(first + [LATE]))
  {
    forall f | f in KEPT ensures 2 <= f.sequence { KeptNumbers(f); }
    ConsistentByOrder(first, LATE);
    assert (first + [LATE])[0] == LOST && second[0] == LATE;
    assert LOST in first + [LATE] && LATE in second && LOST !in second;
    MissingShows(second, first + [LATE], LATE, LOST);
  }

  lemma {:induction false} FlattenPair(a: seq<Frame>, b: seq<Frame>)
    ensures Flatten([a, b]) == a + b
  {
    assert [a, b][..1] == [a] && [a, b][..2] == [a, b];
    FlattenSingle(a);
    TakeFlatten([a, b], 1);
  }

  lemma {:induction false} SeriesOfTwo(a: seq<Frame>, b: seq<Frame>, m: seq<Frame>, n: seq<Frame>, h: History, h': History)
    requires Appended(EMPTY_HISTORY, a, m, h) && Appended(h, b, n, h')
    ensures IsSeries([a, b], [m, n], [EMPTY_HISTORY, h, h'])
  {
  }

  /** A late small frame can slip in below one that was trimmed away, so the order condition is needed. */
  lemma {:induction false} OutOfOrderLeavesGap() returns (batches: seq<seq<Frame>>, merged: seq<seq<Frame>>, histories: seq<History>)
    ensures IsSeries(batches, merged, histories) && |batches| == 2 && Consistent(Flatten(batches))
    ensures InOrder(histories[0], batches[0]) && !InOrder(histories[1], batches[1])
    ensures histories[2].frames != Trim(Everything(Flatten(batches)))
  {
    var first, second := [LOST] + KEPT, [LATE] + KEPT;
    batches, merged := [first, [LATE]], [first, second];
    histories := [EMPTY_HISTORY, History(5, KEPT), History(5, second)];
    FirstAppend();
    SecondAppend();
    SeriesOfTwo(first, [LATE], first, second, History(5, KEPT), History(5, second));
    FlattenPair(first, [LATE]);
    GapShows(first, second);
    assert !InOrder(History(5, KEPT), [LATE]) by { assert LATE in [LATE] && LATE !in KEPT; }
    assert InOrder(EMPTY_HISTORY, first);
  }

  // ----- The size bound: oldest records go first

  datatype Record<+T> = Record(content: T, viewedAt: int)

  datatype State = State(
    dashboard: Option<string>,
    files: map<string, Record<string>>,
    diffs: map<string, Record<string>>,
    terminals: map<string, Record<History>>)

  const EMPTY_STATE: State := State(None, map[], map[], map[])

  /** Where a record that can be evicted is kept. */
  datatype Place = File(key: string) | Diff(key: string) | Terminal(key: string)

  function Rank(p: Place): nat
  {
    match p case File(_) => 0 case Diff(_) => 1 case Terminal(_) => 2
  }

  predicate Has(s: State, p: Place)
  {
    match p
    case File(k) => k in s.files
    case Diff(k) => k in s.diffs
    case Terminal(k) => k in s.terminals
  }

  function ViewedAt(s: State, p: Place): int
    requires Has(s, p)
  {
    match p
    case File(k) => s.files[k].viewedAt
    case Diff(k) => s.diffs[k].viewedAt
    case Terminal(k) => s.terminals[k].viewedAt
  }

  function Without(s: State, p: Place): State
  {
    match p
    case File(k) => s.(files := s.files - {k})
    case Diff(k) => s.(diffs := s.diffs - {k})
    case Terminal(k) => s.(terminals := s.terminals - {k})
  }

  function Count(s: State): nat
  {
    |s.files| + |s.diffs| + |s.terminals|
  }

  /** `p` holds a record no newer than any other; of equally old ones, files go before diffs before terminals. */
  ghost predicate Oldest(s: State, p: Place)
  {
    && Has(s, p)
    && (forall q :: Has(s, q) ==> ViewedAt(s, p) <= ViewedAt(s, q))
    && (forall q :: Has(s, q) && Rank(q) < Rank(p) ==> ViewedAt(s, p) < ViewedAt(s, q))
  }

  method OldestKey<T>(records: map<string, Record<T>>) returns (oldest: string)
    requires records != map[]
    ensures oldest in records
    ensures forall k :: k in records ==> records[oldest].viewedAt <= records[k].viewedAt
  {
    oldest :| oldest in records;
    var rest := records.Keys - {oldest};
    while rest != {}
      invariant rest <= records.Keys && oldest in records
      invariant forall k :: k in records && k !in rest ==> records[oldest].viewedAt <= records[k].viewedAt
      decreases |rest|
    {
      var k :| k in rest;
      if records[k].viewedAt < records[oldest].viewedAt {
        oldest := k;
      }
      rest := rest - {k};
    }
  }

  /** `kept` is `records` without some that are no newer than any that stay. */
  ghost predicate OldestDropped<T>(records: map<string, Record<T>>, kept: map<string, Record<T>>)
  {
    && (forall k :: k in kept ==> k in records && records[k] == kept[k])
    && (forall k, d :: k in kept && d in records && d !in kept ==> records[d].viewedAt <= records[k].viewedAt)
  }

  /** One dictionary of `trim`: the twelve newest records stay. */
  method TrimRecords<T>(records: map<string, Record<T>>) returns (kept: map<string, Record<T>>)
    ensures OldestDropped(records, kept)
    ensures |kept| == if |records| > MAXIMUM_RECORDS then MAXIMUM_RECORDS else |records|
  {
    kept := records;
    while |kept| > MAXIMUM_RECORDS
      invariant OldestDropped(records, kept) && |kept| <= |records|
      invariant |records| <= MAXIMUM_RECORDS ==> kept == records
      invariant |records| > MAXIMUM_RECORDS ==> |kept| >= MAXIMUM_RECORDS
    {
      var oldest := OldestKey(kept);
      RemoveSize(kept, oldest);
      kept := kept - {oldest};
    }
  }

  lemma {:induction false} RemoveSize<T>(m: map<string, T>, k: string)
    requires k in m
    ensures |m - {k}| == |m| - 1
  {
    assert (m - {k}).Keys == m.Keys - {k};
    assert |(m - {k}).Keys| == |m - {k}|;
  }

  /** `at` is no later than the date of any of `records`, and earlier than all of them if `strictly`. */
  ghost predicate NoNewer<T>(at: int, records: map<string, Record<T>>, strictly: bool)
  {
    forall k :: k in records ==> at <= records[k].viewedAt && (strictly ==> at < records[k].viewedAt)
  }

  lemma {:induction false} OldestByKind(s: State, p: Place)
    requires Has(s, p)
    requires NoNewer(ViewedAt(s, p), s.files, Rank(p) > 0)
    requires NoNewer(ViewedAt(s, p), s.diffs, Rank(p) > 1)
    requires NoNewer(ViewedAt(s, p), s.terminals, false)
    ensures Oldest(s, p)
  {
  }

  lemma {:induction false} WithoutCount(s: State, p: Place)
    requires Has(s, p)
    ensures Count(Without(s, p)) == Count(s) - 1
  {
    match p
    case File(k) => RemoveSize(s.files, k);
    case Diff(k) => RemoveSize(s.diffs, k);
    case Terminal(k) => RemoveSize(s.terminals, k);
  }

  method OldestPlace(s: State) returns (p: Place)
    requires Count(s) > 0
    ensures Oldest(s, p)
  {
    var best: Option<Place> := None;
    var date := 0;
    if s.files != map[] {
      var k := OldestKey(s.files);
      best, date := Some(File(k)), s.files[k].viewedAt;
    }
    if s.diffs != map[] {
      var k := OldestKey(s.diffs);
      if best.None? || s.diffs[k].viewedAt < date {
        best, date := Some(Diff(k)), s.diffs[k].viewedAt;
      }
    }
    assert best.Some? ==> NoNewer(date, s.files, Rank(best.value) > 0);
    assert best.Some? ==> NoNewer(date, s.diffs, Rank(best.value) > 1);
    if s.terminals != map[] {
      var k := OldestKey(s.terminals);
      if best.None? || s.terminals[k].viewedAt < date {
        best, date := Some(Terminal(k)), s.terminals[k].viewedAt;
      }
    }
    p := best.value;
    OldestByKind(s, p);
  }

  method RemoveOldestRecord(s: State) returns (r: State, ghost gone: Place)
    requires Count(s) > 0
    ensures Oldest(s, gone) && r == Without(s, gone) && Count(r) == Count(s) - 1 && r.dashboard == s.dashboard
  {
    var p := OldestPlace(s);
    gone := p;
    WithoutCount(s, p);
    match p
    case File(k) => r := s.(files := s.files - {k});
    case Diff(k) => r := s.(diffs := s.diffs - {k});
    case Terminal(k) => r := s.(terminals := s.terminals - {k});
  }

  /** The states an eviction passes through and the places it empties. */
  datatype Trace = Trace(states: seq<State>, gone: seq<Place>)

  ghost predicate IsEviction(t: Trace)
  {
    && |t.states| == |t.gone| + 1
    && forall i :: 0 <= i < |t.gone| ==> Oldest(t.states[i], t.gone[i]) && t.states[i + 1] == Without(t.states[i], t.gone[i])
  }

  /** An eviction all of whose states but the last exceed `limit`. */
  ghost predicate Evicting(t: Trace, size: State -> nat, limit: nat)
  {
    IsEviction(t) && forall i :: 0 <= i < |t.gone| ==> size(t.states[i]) > limit
  }

  /** The eviction stopped at the first state of at most `limit`, or with nothing left to remove. */
  ghost predicate StopsAtFirstFit(t: Trace, size: State -> nat, limit: nat)
  {
    Evicting(t, size, limit) && (size(t.states[|t.gone|]) <= limit || Count(t.states[|t.gone|]) == 0)
  }

  lemma {:induction false} ExtendTrace(t: Trace, s: State, p: Place, size: State -> nat, limit: nat) returns (t': Trace)
    requires Evicting(t, size, limit) && size(t.states[|t.gone|]) > limit
    requires Oldest(t.states[|t.gone|], p) && s == Without(t.states[|t.gone|], p)
    ensures Evicting(t', size, limit) && t'.states[0] == t.states[0] && t'.states[|t'.gone|] == s
  {
    t' := Trace(t.states + [s], t.gone + [p]);
    forall i | 0 <= i < |t'.gone|
      ensures Oldest(t'.states[i], t'.gone[i]) && t'.states[i + 1] == Without(t'.states[i], t'.gone[i]) && size(t'.states[i]) > limit
    {
      if i < |t.gone| {
        assert t'.states[i] == t.states[i] && t'.gone[i] == t.gone[i] && t'.states[i + 1] == t.states[i + 1];
      }
    }
  }

  method EvictToFit(proposed: State, size: State -> nat, limit: nat) returns (s: State, ghost t: Trace)
    ensures StopsAtFirstFit(t, size, limit) && t.states[0] == proposed && t.states[|t.gone|] == s
    ensures s.dashboard == proposed.dashboard && (size(s) <= limit || Count(s) == 0)
    ensures size(proposed) <= limit ==> s == proposed
  {
    s := proposed;
    t := Trace([proposed], []);
    while size(s) > limit && Count(s) > 0
      invariant Evicting(t, size, limit) && t.states[0] == proposed && t.states[|t.gone|] == s
      invariant s.dashboard == proposed.dashboard && (size(proposed) <= limit ==> s == proposed)
      decreases Count(s)
    {
      ghost var gone;
      s, gone := RemoveOldestRecord(s);
      t := ExtendTrace(t, s, gone, size, limit);
    }
  }

  /** What is left was there before with the same date, and the dashboard is untouched. */
  lemma {:induction false} EvictionOnlyRemoves(t: Trace, i: nat, q: Place)
    requires IsEviction(t) && i <= |t.gone|
    ensures t.states[i].dashboard == t.states[0].dashboard
    ensures Has(t.states[i], q) <==> Has(t.states[0], q) && q !in t.gone[..i]
    ensures Has(t.states[i], q) ==> ViewedAt(t.states[i], q) == ViewedAt(t.states[0], q)
  {
    if i > 0 {
      EvictionOnlyRemoves(t, i - 1, q);
      assert t.states[i - 1 + 1] == Without(t.states[i - 1], t.gone[i - 1]);
      assert t.gone[..i] == t.gone[..i - 1] + [t.gone[i - 1]];
    }
  }

  /** Every record removed, of whatever kind, is no newer than every record kept. */
  lemma {:induction false} EvictsOldestFirst(t: Trace, i: nat, q: Place)
    requires IsEviction(t) && i < |t.gone| && Has(t.states[|t.gone|], q)
    ensures Has(t.states[0], t.gone[i]) && Has(t.states[0], q)
    ensures ViewedAt(t.states[0], t.gone[i]) <= ViewedAt(t.states[0], q)
  {
    assert Oldest(t.states[i], t.gone[i]);
    EvictionOnlyRemoves(t, i, t.gone[i]);
    EvictionOnlyRemoves(t, i, q);
    EvictionOnlyRemoves(t, |t.gone|, q);
    assert t.gone[..|t.gone|] == t.gone;
    assert forall g :: g in t.gone[..i] ==> g in t.gone;
  }

  /** No record is removed twice. */
  lemma {:induction false} EvictsEachOnce(t: Trace, i: nat, j: nat)
    requires IsEviction(t) && i < j < |t.gone|
    ensures t.gone[i] != t.gone[j]
  {
    assert Oldest(t.states[j], t.gone[j]);
    EvictionOnlyRemoves(t, j, t.gone[j]);
    assert t.gone[..j][i] == t.gone[i];
  }

  /** The kept contents are the contents before. */
  lemma {:induction false} EvictionKeepsTerminals(t: Trace, i: nat, k: string)
    requires IsEviction(t) && i <= |t.gone| && k in t.states[i].terminals
    ensures k in t.states[0].terminals && t.states[i].terminals[k] == t.states[0].terminals[k]
  {
    if i > 0 {
      assert t.states[i - 1 + 1] == Without(t.states[i - 1], t.gone[i - 1]);
      EvictionKeepsTerminals(t, i - 1, k);
    }
  }

  // ----- Keys

  const SEPARATOR: char := '\U{001F}'

  function TerminalKey(workspaceID: string, tabID: string): string
  {
    workspaceID + [SEPARATOR] + tabID
  }

  /** Some other workspace and tab share the key of these. */
  ghost predicate Collides(workspaceID: string, tabID: string)
  {
    exists w, t :: (w, t) != (workspaceID, tabID) && TerminalKey(w, t) == TerminalKey(workspaceID, tabID)
  }

  lemma {:induction false} SeparatorPosition(w: string, t: string, w': string, t': string)
    requires TerminalKey(w, t) == TerminalKey(w', t') && |w| < |w'|
    ensures SEPARATOR in w' && SEPARATOR in t
  {
    var k := TerminalKey(w, t);
    assert k[|w|] == SEPARATOR && k[|w|] == w'[|w|];
    assert k[|w'|] == SEPARATOR && k[|w'|] == t[|w'| - |w| - 1];
  }

  lemma {:induction false} EqualLengthKeys(w: string, t: string, w': string, t': string)
    requires TerminalKey(w, t) == TerminalKey(w', t') && |w| == |w'|
    ensures w == w' && t == t'
  {
    var k, k' := TerminalKey(w, t), TerminalKey(w', t');
    assert w == k[..|w|] && w' == k'[..|w|];
    assert t == k[|w| + 1..] && t' == k'[|w| + 1..];
  }

  /** A key is shared exactly when the separator occurs in one of its own parts. */
  lemma {:induction false} KeyCollidesIff(workspaceID: string, tabID: string)
    ensures Collides(workspaceID, tabID) <==> SEPARATOR in workspaceID || SEPARATOR in tabID
  {
    if SEPARATOR in workspaceID {
      var i :| 0 <= i < |workspaceID| && workspaceID[i] == SEPARATOR;
      var w, t := workspaceID[..i], workspaceID[i + 1..] + [SEPARATOR] + tabID;
      assert workspaceID == w + [SEPARATOR] + workspaceID[i + 1..];
      assert TerminalKey(w, t) == TerminalKey(workspaceID, tabID);
      assert |w| != |workspaceID|;
    } else if SEPARATOR in tabID {
      var i :| 0 <= i < |tabID| && tabID[i] == SEPARATOR;
      var w, t := workspaceID + [SEPARATOR] + tabID[..i], tabID[i + 1..];
      assert tabID == tabID[..i] + [SEPARATOR] + t;
      assert TerminalKey(w, t) == TerminalKey(workspaceID, tabID);
      assert |w| != |workspaceID|;
    } else if Collides(workspaceID, tabID) {
      var w, t :| (w, t) != (workspaceID, tabID) && TerminalKey(w, t) == TerminalKey(workspaceID, tabID);
      if |w| < |workspaceID| {
        SeparatorPosition(w, t, workspaceID, tabID);
      } else if |w| > |workspaceID| {
        SeparatorPosition(workspaceID, tabID, w, t);
      } else {
        EqualLengthKeys(w, t, workspaceID, tabID);
      }
    }
  }

  // ----- The cache object

  datatype CacheError = TooLarge | NotWritten

  /** `after` is `before` with each dictionary cut to its twelve newest records. */
  ghost predicate Trimmed(before: State, after: State)
  {
    && after.dashboard == before.dashboard
    && OldestDropped(before.files, after.files) && |after.files| == Capped(|before.files|)
    && OldestDropped(before.diffs, after.diffs) && |after.diffs| == Capped(|before.diffs|)
    && OldestDropped(before.terminals, after.terminals) && |after.terminals| == Capped(|before.terminals|)
  }

  function Capped(n: nat): nat
  {
    if n > MAXIMUM_RECORDS then MAXIMUM_RECORDS else n
  }

  method TrimState(before: State) returns (after: State)
    ensures Trimmed(before, after)
  {
    var files := TrimRecords(before.files);
    var diffs := TrimRecords(before.diffs);
    var terminals := TrimRecords(before.terminals);
    after := State(before.dashboard, files, diffs, terminals);
  }

  function HistoryAt(s: State, key: string): History
  {
    if key in s.terminals then s.terminals[key].content else EMPTY_HISTORY
  }

  ghost predicate GoodHistories(s: State)
  {
    forall k :: k in s.terminals ==> Good(s.terminals[k].content)
  }

  lemma {:induction false} EvictionKeepsGood(t: Trace)
    requires IsEviction(t) && GoodHistories(t.states[0])
    ensures GoodHistories(t.states[|t.gone|])
  {
    forall k | k in t.states[|t.gone|].terminals ensures Good(t.states[|t.gone|].terminals[k].content) {
      EvictionKeepsTerminals(t, |t.gone|, k);
    }
  }

  /** `after` is what an eviction down to `limit` leaves of `proposed`. */
  ghost predicate Persisted(proposed: State, size: State -> nat, limit: nat, after: State)
  {
    exists t :: StopsAtFirstFit(t, size, limit) && t.states[0] == proposed && t.states[|t.gone|] == after
  }

  /** `after` is what trimming and evicting leave of `before` with this history under `key`. */
  ghost predicate Saved(before: State, key: string, record: Record<History>, size: State -> nat, limit: nat, after: State)
  {
    exists trimmed ::
      && Trimmed(before.(terminals := before.terminals[key := record]), trimmed)
      && Persisted(trimmed, size, limit, after)
  }

  lemma {:induction false} IsPersisted(t: Trace, size: State -> nat, limit: nat)
    requires StopsAtFirstFit(t, size, limit)
    ensures Persisted(t.states[0], size, limit, t.states[|t.gone|])
  {
  }

  /** Calls run one at a time; `written` says whether the key, the sealing and the file were available. */
  class EncryptedOfflineCache {
    const maximumEncryptedBytes: nat
    const encodedSize: State -> nat
    var loaded: State

    ghost predicate Valid()
      reads this
    {
      GoodHistories(loaded)
    }

    constructor (maximumEncryptedBytes: nat, encodedSize: State -> nat)
      ensures Valid() && loaded == EMPTY_STATE
      ensures this.maximumEncryptedBytes == maximumEncryptedBytes && this.encodedSize == encodedSize
    {
      this.maximumEncryptedBytes, this.encodedSize, loaded := maximumEncryptedBytes, encodedSize, EMPTY_STATE;
    }

    /** Removes oldest records until the state fits; a failing call leaves the loaded state alone. */
    method Persist(proposed: State, written: bool) returns (r: Result<(), CacheError>, ghost t: Trace)
      modifies this
      ensures StopsAtFirstFit(t, encodedSize, maximumEncryptedBytes / 2) && t.states[0] == proposed
      ensures r.Ok? ==> loaded == t.states[|t.gone|] && encodedSize(loaded) <= maximumEncryptedBytes / 2
      ensures r.Err? ==> loaded == old(loaded)
      ensures r == Err(TooLarge) <==> encodedSize(t.states[|t.gone|]) > maximumEncryptedBytes / 2
      ensures r == Err(TooLarge) ==> Count(t.states[|t.gone|]) == 0
      ensures written ==> r != Err(NotWritten)
    {
      var s;
      s, t := EvictToFit(proposed, encodedSize, maximumEncryptedBytes / 2);
      if encodedSize(s) > maximumEncryptedBytes / 2 {
        return Err(TooLarge), t;
      }
      if !written {
        return Err(NotWritten), t;
      }
      loaded := s;
      r := Ok(());
    }

    /** The history with the frames appended is stored under its key, in what trimming and evicting leave. */
    method AppendTerminalFrames(workspaceID: string, tabID: string, frames: seq<Frame>, now: int, written: bool)
      returns (r: Result<(), CacheError>, ghost merged: seq<Frame>, ghost history: History)
      requires Valid()
      modifies this
      ensures Valid()
      ensures workspaceID == "" || tabID == "" || frames == [] || r.Err? ==> loaded == old(loaded)
      ensures workspaceID == "" || tabID == "" || frames == [] ==> r.Ok?
      ensures r.Ok? && workspaceID != "" && tabID != "" && frames != [] ==>
                var key, limit := TerminalKey(workspaceID, tabID), maximumEncryptedBytes / 2;
                && Appended(HistoryAt(old(loaded), key), frames, merged, history)
                && Saved(old(loaded), key, Record(history, now), encodedSize, limit, loaded)
                && encodedSize(loaded) <= limit
      ensures r == Err(TooLarge) ==> encodedSize(State(old(loaded).dashboard, map[], map[], map[])) > maximumEncryptedBytes / 2
      ensures written ==> r != Err(NotWritten)
    {
      merged, history := [], EMPTY_HISTORY;
      if workspaceID == "" || tabID == "" || frames == [] {
        return Ok(()), merged, history;
      }
      var key := TerminalKey(workspaceID, tabID);
      var before := if key in loaded.terminals then loaded.terminals[key].content else EMPTY_HISTORY;
      var after;
      after, merged := AppendToHistory(before, frames);
      history := after;
      AppendKeepsGood(before, frames, merged, after);
      var whole := loaded.(terminals := loaded.terminals[key := Record(after, now)]);
      var proposed := TrimState(whole);
      ghost var t;
      r, t := Persist(proposed, written);
      EvictionKeepsGood(t);
      AfterEviction(t);
      IsPersisted(t, encodedSize, maximumEncryptedBytes / 2);
    }

    method ResetTerminalHistory(workspaceID: string, tabID: string, written: bool) returns (r: Result<(), CacheError>)
      requires Valid()
      modifies this
      ensures Valid()
      ensures var nothing := workspaceID == "" || tabID == "" || TerminalKey(workspaceID, tabID) !in old(loaded).terminals;
              && (nothing ==> r.Ok?)
              && (nothing || r.Err? ==> loaded == old(loaded))
              && (r.Ok? && !nothing ==>
                    && Persisted(Without(old(loaded), Terminal(TerminalKey(workspaceID, tabID))), encodedSize, maximumEncryptedBytes / 2, loaded)
                    && encodedSize(loaded) <= maximumEncryptedBytes / 2)
      ensures r == Err(TooLarge) ==> encodedSize(State(old(loaded).dashboard, map[], map[], map[])) > maximumEncryptedBytes / 2
      ensures written ==> r != Err(NotWritten)
    {
      var key := TerminalKey(workspaceID, tabID);
      if workspaceID == "" || tabID == "" || key !in loaded.terminals {
        return Ok(());
      }
      var proposed := loaded.(terminals := loaded.terminals - {key});
      ghost var t;
      r, t := Persist(proposed, written);
      EvictionKeepsGood(t);
      AfterEviction(t);
      IsPersisted(t, encodedSize, maximumEncryptedBytes / 2);
    }
  }

  lemma {:induction false} AfterEviction(t: Trace)
    requires IsEviction(t)
    ensures var s := t.states[|t.gone|];
            && s.dashboard == t.states[0].dashboard
            && (forall k :: k in s.terminals ==> k in t.states[0].terminals && s.terminals[k] == t.states[0].terminals[k])
            && |s.terminals| <= |t.states[0].terminals|
            && (Count(s) == 0 ==> s == State(t.states[0].dashboard, map[], map[], map[]))
  {
    var s := t.states[|t.gone|];
    EvictionOnlyRemoves(t, |t.gone|, Terminal(""));
    forall k | k in s.terminals ensures k in t.states[0].terminals && s.terminals[k] == t.states[0].terminals[k] {
      EvictionKeepsTerminals(t, |t.gone|, k);
    }
    FewerKeys(s.terminals.Keys, t.states[0].terminals.Keys);
  }

  lemma {:induction false} FewerKeys(a: set<string>, b: set<string>)
    requires a <= b
    ensures |a| <= |b|
  {
    if a != {} {
      var k :| k in a;
      FewerKeys(a - {k}, b - {k});
    }
  }
}
