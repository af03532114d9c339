/**
  The streaming filter that removes remote clipboard commands from terminal output.

  An operating system command (OSC, section 8.3.89 of ECMA-48) is introduced by the
  byte 0x9D or by ESC ], and ends at BEL, at 0x9C or at ESC \ (ST, section 8.3.143).
  The filter buffers an unfinished command across calls and drops finished commands
  that write the clipboard or exceed the length limit.
 */
module OutputSanitizer {
  import opened Common

  const MAXIMUM_OSC_BYTES := 8192

  const ESC: byte := 0x1B

  // ----- Scanning

  /** An introducer at this index; a final ESC may still become one. */
  predicate StartsOsc(buf: seq<byte>, i: nat)
  {
    i < |buf| && (buf[i] == 0x9D || (buf[i] == ESC && (i + 1 == |buf| || buf[i + 1] == 0x5D)))
  }

  function ContentStart(buf: seq<byte>, i: nat): nat
    requires StartsOsc(buf, i)
    ensures i < ContentStart(buf, i) <= |buf|
  {
    if buf[i] == 0x9D || i + 1 == |buf| then i + 1 else i + 2
  }

  function FirstStart(buf: seq<byte>, i: nat): (r: nat)
    requires i <= |buf|
    ensures i <= r <= |buf|
    ensures r < |buf| ==> StartsOsc(buf, r)
    decreases |buf| - i
  {
    if i == |buf| || StartsOsc(buf, i) then i else FirstStart(buf, i + 1)
  }

  predicate EndsOsc(buf: seq<byte>, i: nat)
  {
    i < |buf| && (buf[i] == 0x07 || buf[i] == 0x9C || (buf[i] == ESC && i + 1 < |buf| && buf[i + 1] == 0x5C))
  }

  function SequenceEnd(buf: seq<byte>, i: nat): nat
    requires EndsOsc(buf, i)
    ensures i < SequenceEnd(buf, i) <= |buf|
  {
    if buf[i] == ESC then i + 2 else i + 1
  }

  function FirstEnd(buf: seq<byte>, i: nat): (r: nat)
    requires i <= |buf|
    ensures i <= r <= |buf|
    ensures r < |buf| ==> EndsOsc(buf, r)
    decreases |buf| - i
  {
    if i == |buf| || EndsOsc(buf, i) then i else FirstEnd(buf, i + 1)
  }

  predicate IsClipboard(content: seq<byte>)
  {
    |content| >= 3 && content[..3] == [0x35, 0x32, 0x3B]
  }

  predicate Permitted(content: seq<byte>)
  {
    |content| <= MAXIMUM_OSC_BYTES && !IsClipboard(content)
  }

  /** A finished scan: what reaches the renderer, and the unfinished tail. */
  datatype Outcome = Outcome(out: seq<byte>, rest: seq<byte>) {
    /** The same outcome behind bytes that were emitted earlier. */
    function After(before: seq<byte>): Outcome { Outcome(before + out, rest) }
  }

  /** What comes next at a cursor: only text, an unfinished command, or a finished one. */
  datatype Piece = Text | Unfinished(start: nat) | Finished(start: nat, contentEnd: nat)

  function NextPiece(buf: seq<byte>, c: nat): (p: Piece)
    requires c <= |buf|
    ensures p.Unfinished? ==> c <= p.start < |buf|
    ensures p.Finished? ==> c <= p.start && StartsOsc(buf, p.start) && EndsOsc(buf, p.contentEnd) && ContentStart(buf, p.start) <= p.contentEnd
  {
    var i := FirstStart(buf, c);
    if i == |buf| then Text
    else
      var e := FirstEnd(buf, ContentStart(buf, i));
      if e == |buf| then Unfinished(i) else Finished(i, e)
  }

  /** One pass over a buffer. */
  function Scan(buf: seq<byte>): Outcome
    decreases |buf|
  {
    match NextPiece(buf, 0)
    case Text => Outcome(buf, [])
    case Unfinished(i) => Outcome(buf[..i], buf[i..])
    case Finished(i, e) => Scan(buf[SequenceEnd(buf, e)..]).After(buf[..i] + Passed(buf, i, e))
  }

  lemma AfterAfter(o: Outcome, a: seq<byte>, b: seq<byte>)
    ensures o.After(b).After(a) == o.After(a + b)
  {
    assert a + (b + o.out) == (a + b) + o.out;
  }

  /** The finished command between two indexes, if it may pass. */
  function Passed(buf: seq<byte>, i: nat, e: nat): seq<byte>
    requires StartsOsc(buf, i) && EndsOsc(buf, e) && ContentStart(buf, i) <= e
  {
    if Permitted(buf[ContentStart(buf, i)..e]) then buf[i..SequenceEnd(buf, e)] else []
  }

  // ----- The filter itself

  method NextOscStart(pending: seq<byte>, offset: nat) returns (index: nat)
    requires offset <= |pending|
    ensures index == FirstStart(pending, offset)
  {
    index := offset;
    while index < |pending|
      invariant offset <= index <= |pending|
      invariant FirstStart(pending, offset) == FirstStart(pending, index)
    {
      if pending[index] == 0x9D {
        return;
      }
      if pending[index] == ESC {
        var next := index + 1;
        if next == |pending| {
          return;
        }
        if pending[next] == 0x5D {
          return;
        }
      }
      index := index + 1;
    }
  }

  method OscTerminator(pending: seq<byte>, contentStart: nat) returns (contentEnd: nat)
    requires contentStart <= |pending|
    ensures contentEnd == FirstEnd(pending, contentStart)
  {
    contentEnd := contentStart;
    while contentEnd < |pending|
      invariant contentStart <= contentEnd <= |pending|
      invariant FirstEnd(pending, contentStart) == FirstEnd(pending, contentEnd)
    {
      if pending[contentEnd] == 0x07 || pending[contentEnd] == 0x9C {
        return;
      }
      if pending[contentEnd] == ESC {
        var next := contentEnd + 1;
        if next == |pending| {
          return |pending|;
        }
        if pending[next] == 0x5C {
          return;
        }
      }
      contentEnd := contentEnd + 1;
    }
  }

  method FindPiece(pending: seq<byte>, cursor: nat) returns (piece: Piece)
    requires cursor <= |pending|
    ensures piece == NextPiece(pending, cursor)
  {
    var start := NextOscStart(pending, cursor);
    if start == |pending| {
      return Text;
    }
    var contentEnd := OscTerminator(pending, ContentStart(pending, start));
    return if contentEnd == |pending| then Unfinished(start) else Finished(start, contentEnd);
  }

  /** What one call emits and keeps for the next. */
  function Processed(pending: seq<byte>, incoming: seq<byte>): Outcome
  {
    var o := Scan(pending + incoming);
    Outcome(o.out, if |o.rest| > MAXIMUM_OSC_BYTES then [] else o.rest)
  }

  /** The call takes the branch that drops an unterminated command. */
  predicate Overflows(pending: seq<byte>, incoming: seq<byte>)
  {
    |Scan(pending + incoming).rest| > MAXIMUM_OSC_BYTES
  }

  class Sanitizer {
    var pending: seq<byte>

    constructor ()
      ensures pending == []
    {
      pending := [];
    }

    method Process(incoming: seq<byte>) returns (safe: seq<byte>)
      modifies this
      ensures Outcome(safe, pending) == Processed(old(pending), incoming)
    {
      var buf := pending + incoming;
      safe := [];
      var cursor := 0;
      assert buf[0..] == buf;
      while cursor < |buf|
        invariant 0 <= cursor <= |buf|
        invariant Scan(buf) == Scan(buf[cursor..]).After(safe)
      {
        var piece := FindPiece(buf, cursor);
        ScanFrom(buf, cursor, safe);
        match piece {
          case Text =>
            safe := safe + buf[cursor..];
            pending := [];
            return;
          case Unfinished(start) =>
            safe := safe + buf[cursor..start];
            var incomplete := buf[start..];
            pending := if |incomplete| > MAXIMUM_OSC_BYTES then [] else incomplete;
            return;
          case Finished(start, contentEnd) =>
            safe := safe + (buf[cursor..start] + Passed(buf, start, contentEnd));
            cursor := SequenceEnd(buf, contentEnd);
        }
      }
      assert buf[cursor..] == [];
      pending := [];
    }

    method Reset()
      modifies this
      ensures pending == []
    {
      pending := [];
    }
  }

  lemma {:induction false} FirstStartShift(buf: seq<byte>, c: nat, i: nat)
    requires c <= i <= |buf|
    ensures FirstStart(buf[c..], i - c) == FirstStart(buf, i) - c
    decreases |buf| - i
  {
    if i < |buf| && !StartsOsc(buf, i) {
      FirstStartShift(buf, c, i + 1);
    }
  }

  lemma {:induction false} FirstEndShift(buf: seq<byte>, c: nat, i: nat)
    requires c <= i <= |buf|
    ensures FirstEnd(buf[c..], i - c) == FirstEnd(buf, i) - c
    decreases |buf| - i
  {
    if i < |buf| && !EndsOsc(buf, i) {
      FirstEndShift(buf, c, i + 1);
    }
  }

  lemma {:induction false} StartShift(buf: seq<byte>, c: nat, i: nat)
    requires c <= i && StartsOsc(buf, i)
    ensures StartsOsc(buf[c..], i - c) && ContentStart(buf[c..], i - c) == ContentStart(buf, i) - c
  {
  }

  lemma {:induction false} EndShift(buf: seq<byte>, c: nat, e: nat)
    requires c <= e && EndsOsc(buf, e)
    ensures EndsOsc(buf[c..], e - c) && SequenceEnd(buf[c..], e - c) == SequenceEnd(buf, e) - c
  {
  }

  lemma {:induction false} PassedIs(buf: seq<byte>, i: nat, e: nat, content: seq<byte>, whole: seq<byte>)
    requires StartsOsc(buf, i) && EndsOsc(buf, e) && ContentStart(buf, i) <= e
    requires content == buf[ContentStart(buf, i)..e] && whole == buf[i..SequenceEnd(buf, e)]
    ensures Passed(buf, i, e) == if Permitted(content) then whole else []
  {
  }

  lemma {:induction false} PassedShift(buf: seq<byte>, c: nat, i: nat, e: nat)
    requires c <= i && StartsOsc(buf, i) && EndsOsc(buf, e) && ContentStart(buf, i) <= e
    ensures StartsOsc(buf[c..], i - c) && EndsOsc(buf[c..], e - c)
    ensures ContentStart(buf[c..], i - c) == ContentStart(buf, i) - c
    ensures SequenceEnd(buf[c..], e - c) == SequenceEnd(buf, e) - c
    ensures Passed(buf[c..], i - c, e - c) == Passed(buf, i, e)
  {
    StartShift(buf, c, i);
    EndShift(buf, c, e);
    var content, whole := buf[ContentStart(buf, i)..e], buf[i..SequenceEnd(buf, e)];
    SliceOfDrop(buf, c, i, SequenceEnd(buf, e));
    SliceOfDrop(buf, c, ContentStart(buf, i), e);
    PassedIs(buf, i, e, content, whole);
    PassedIs(buf[c..], i - c, e - c, content, whole);
  }

  lemma {:induction false} NextPieceShift(buf: seq<byte>, c: nat, k: nat)
    requires c <= k <= |buf|
    ensures NextPiece(buf[c..], k - c) ==
      match NextPiece(buf, k)
      case Text => Text
      case Unfinished(i) => Unfinished(i - c)
      case Finished(i, e) => Finished(i - c, e - c)
  {
    var i := FirstStart(buf, k);
    FirstStartShift(buf, c, k);
    if i < |buf| {
      assert ContentStart(buf[c..], i - c) == ContentStart(buf, i) - c;
      FirstEndShift(buf, c, ContentStart(buf, i));
    }
  }

  /** A scan that meets a finished command, in terms of the bytes it emits and those it leaves. */
  lemma {:induction false} ScanFinished(buf: seq<byte>, i: nat, e: nat, text: seq<byte>, passed: seq<byte>, tail: seq<byte>)
    requires NextPiece(buf, 0) == Finished(i, e)
    requires buf[..i] == text && Passed(buf, i, e) == passed && buf[SequenceEnd(buf, e)..] == tail
    ensures Scan(buf) == Scan(tail).After(text + passed)
  {
  }

  lemma {:induction false} FinishedAtCursor(buf: seq<byte>, c: nat, i: nat, e: nat)
    requires c <= |buf| && NextPiece(buf, c) == Finished(i, e)
    ensures Scan(buf[c..]) == Scan(buf[SequenceEnd(buf, e)..]).After(buf[c..i] + Passed(buf, i, e))
  {
    FinishedInTail(buf, c, i, e, buf[c..], buf[c..i], buf[SequenceEnd(buf, e)..]);
  }

  lemma {:induction false} FinishedInTail(buf: seq<byte>, c: nat, i: nat, e: nat, tail: seq<byte>, text: seq<byte>, after: seq<byte>)
    requires c <= |buf| && NextPiece(buf, c) == Finished(i, e)
    requires tail == buf[c..] && text == buf[c..i] && after == buf[SequenceEnd(buf, e)..]
    ensures Scan(tail) == Scan(after).After(text + Passed(buf, i, e))
  {
    NextPieceShift(buf, c, c);
    PassedShift(buf, c, i, e);
    CutAt(buf, c, i, SequenceEnd(buf, e), tail);
    ScanFinished(tail, i - c, e - c, text, Passed(buf, i, e), after);
  }

  lemma {:induction false} CutAt(buf: seq<byte>, c: nat, i: nat, end: nat, tail: seq<byte>)
    requires c <= i <= end <= |buf| && tail == buf[c..]
    ensures tail[..i - c] == buf[c..i] && tail[end - c..] == buf[end..]
  {
    DropOfDrop(buf, c, end);
    TakeOfDrop(buf, c, i);
  }

  /** Scanning from a cursor, in terms of indexes of the whole buffer. */
  lemma {:induction false} ScanAtCursor(buf: seq<byte>, c: nat)
    requires c <= |buf|
    ensures Scan(buf[c..]) ==
      match NextPiece(buf, c)
      case Text => Outcome(buf[c..], [])
      case Unfinished(i) => Outcome(buf[c..i], buf[i..])
      case Finished(i, e) => Scan(buf[SequenceEnd(buf, e)..]).After(buf[c..i] + Passed(buf, i, e))
  {
    match NextPiece(buf, c)
    case Text =>
      NextPieceShift(buf, c, c);
    case Unfinished(i) =>
      NextPieceShift(buf, c, c);
      TakeOfDrop(buf, c, i);
      DropOfDrop(buf, c, i);
    case Finished(i, e) =>
      FinishedAtCursor(buf, c, i, e);
  }

  /** The state of the loop: what was emitted, and what is still to be scanned. */
  lemma {:induction false} ScanFrom(buf: seq<byte>, c: nat, safe: seq<byte>)
    requires c <= |buf| && Scan(buf) == Scan(buf[c..]).After(safe)
    ensures Scan(buf) ==
      match NextPiece(buf, c)
      case Text => Outcome(safe + buf[c..], [])
      case Unfinished(i) => Outcome(safe + buf[c..i], buf[i..])
      case Finished(i, e) => Scan(buf[SequenceEnd(buf, e)..]).After(safe + (buf[c..i] + Passed(buf, i, e)))
  {
    ScanAtCursor(buf, c);
    if NextPiece(buf, c).Finished? {
      var i, e := NextPiece(buf, c).start, NextPiece(buf, c).contentEnd;
      AfterAfter(Scan(buf[SequenceEnd(buf, e)..]), safe, buf[c..i] + Passed(buf, i, e));
    }
  }

  // ----- Splitting the stream

  lemma {:induction false} FirstStartSkips(buf: seq<byte>, i: nat, k: nat)
    requires i <= k <= |buf| && forall j :: i <= j < k ==> !StartsOsc(buf, j)
    ensures FirstStart(buf, i) == FirstStart(buf, k)
    decreases k - i
  {
    if i < k {
      FirstStartSkips(buf, i + 1, k);
    }
  }

  lemma {:induction false} NoStartBefore(buf: seq<byte>, i: nat)
    requires i <= |buf|
    ensures forall j :: i <= j < FirstStart(buf, i) ==> !StartsOsc(buf, j)
    decreases |buf| - i
  {
    if i < |buf| && !StartsOsc(buf, i) {
      NoStartBefore(buf, i + 1);
    }
  }

  /** Text in front of a scan passes through unchanged. */
  lemma {:induction false} SkipText(buf: seq<byte>, k: nat)
    requires k <= |buf| && forall j :: 0 <= j < k ==> !StartsOsc(buf, j)
    ensures Scan(buf) == Scan(buf[k..]).After(buf[..k])
  {
    SamePiece(buf, k);
    ScanAtCursor(buf, k);
    match NextPiece(buf, k)
    case Text =>
      TakeThenDrop(buf, k);
    case Unfinished(i) =>
      TakeSplit(buf, k, i);
    case Finished(i, e) =>
      FinishedAfterText(buf, k, i, e);
  }

  lemma {:induction false} SamePiece(buf: seq<byte>, k: nat)
    requires k <= |buf| && forall j :: 0 <= j < k ==> !StartsOsc(buf, j)
    ensures NextPiece(buf, 0) == NextPiece(buf, k)
  {
    FirstStartSkips(buf, 0, k);
  }

  lemma {:induction false} FinishedAfterText(buf: seq<byte>, k: nat, i: nat, e: nat)
    requires k <= |buf| && NextPiece(buf, 0) == NextPiece(buf, k) == Finished(i, e)
    ensures Scan(buf) == Scan(buf[k..]).After(buf[..k])
  {
    FinishedAtCursor(buf, k, i, e);
    ScanFinished(buf, i, e, buf[..i], Passed(buf, i, e), buf[SequenceEnd(buf, e)..]);
    TakeSplit(buf, k, i);
    Assoc(buf[..k], buf[k..i], Passed(buf, i, e));
    Regroup(Scan(buf), Scan(buf[k..]), Scan(buf[SequenceEnd(buf, e)..]), buf[..k], buf[k..i] + Passed(buf, i, e));
  }

  lemma {:induction false} Regroup(whole: Outcome, part: Outcome, last: Outcome, a: seq<byte>, b: seq<byte>)
    requires whole == last.After(a + b) && part == last.After(b)
    ensures whole == part.After(a)
  {
    AfterAfter(last, a, b);
  }

  lemma {:induction false} FirstStartConcat(a: seq<byte>, b: seq<byte>, i: nat)
    requires i <= |a| && FirstStart(a, i) < |a| && StartsOsc(a + b, FirstStart(a, i))
    ensures FirstStart(a + b, i) == FirstStart(a, i)
    decreases |a| - i
  {
    if !StartsOsc(a, i) {
      FirstStartConcat(a, b, i + 1);
    }
  }

  lemma {:induction false} FirstEndConcat(a: seq<byte>, b: seq<byte>, i: nat)
    requires i <= |a| && FirstEnd(a, i) < |a|
    ensures FirstEnd(a + b, i) == FirstEnd(a, i)
    decreases |a| - i
  {
    if !EndsOsc(a, i) {
      FirstEndConcat(a, b, i + 1);
      assert !EndsOsc(a + b, i);
    }
  }

  /** A command that is finished in a prefix is finished there in the whole. */
  lemma {:induction false} FinishedConcat(a: seq<byte>, b: seq<byte>, i: nat, e: nat)
    requires NextPiece(a, 0) == Finished(i, e)
    ensures NextPiece(a + b, 0) == Finished(i, e)
    ensures SequenceEnd(a + b, e) == SequenceEnd(a, e) && Passed(a + b, i, e) == Passed(a, i, e)
  {
    FirstStartConcat(a, b, 0);
    assert ContentStart(a + b, i) == ContentStart(a, i);
    FirstEndConcat(a, b, ContentStart(a, i));
    SliceOfConcat(a, b, i, SequenceEnd(a, e));
    SliceOfConcat(a, b, ContentStart(a, i), e);
  }

  lemma {:induction false} StartsReflect(a: seq<byte>, b: seq<byte>, k: nat)
    requires k <= |a| && forall j :: 0 <= j < k ==> !StartsOsc(a, j)
    ensures forall j :: 0 <= j < k ==> !StartsOsc(a + b, j)
  {
    forall j | 0 <= j < k ensures !StartsOsc(a + b, j) {
      assert !StartsOsc(a, j);
    }
  }

  /** Scanning a stream in two parts, the second behind what the first left unfinished. */
  lemma {:induction false} ScanSplit(a: seq<byte>, b: seq<byte>)
    ensures Scan(a + b) == Scan(Scan(a).rest + b).After(Scan(a).out)
    decreases |a|
  {
    match NextPiece(a, 0)
    case Text =>
      NoStartBefore(a, 0);
      StartsReflect(a, b, |a|);
      SkipText(a + b, |a|);
      assert (a + b)[|a|..] == b == [] + b && (a + b)[..|a|] == a;
    case Unfinished(i) =>
      NoStartBefore(a, 0);
      StartsReflect(a, b, i);
      SkipText(a + b, i);
      DropOfConcat(a, b, i);
      TakeOfConcat(a, b, i);
    case Finished(i, e) =>
      var tail, emitted := a[SequenceEnd(a, e)..], a[..i] + Passed(a, i, e);
      FinishedConcat(a, b, i, e);
      TakeOfConcat(a, b, i);
      DropOfConcat(a, b, SequenceEnd(a, e));
      ScanFinished(a + b, i, e, a[..i], Passed(a, i, e), tail + b);
      ScanFinished(a, i, e, a[..i], Passed(a, i, e), tail);
      ScanSplit(tail, b);
      AfterAfter(Scan(Scan(tail).rest + b), emitted, Scan(tail).out);
  }

  /** Everything a series of calls emits, and what it finally keeps. */
  function ProcessAll(pending: seq<byte>, chunks: seq<seq<byte>>): Outcome
    decreases |chunks|
  {
    if chunks == [] then Outcome([], pending)
    else
      var o := Processed(pending, chunks[0]);
      ProcessAll(o.rest, chunks[1..]).After(o.out)
  }

  predicate NoOverflow(pending: seq<byte>, chunks: seq<seq<byte>>)
    decreases |chunks|
  {
    chunks == [] ||
    (!Overflows(pending, chunks[0]) && NoOverflow(Processed(pending, chunks[0]).rest, chunks[1..]))
  }

  /** What a scan leaves is nothing, or one command that is unfinished from its first byte on. */
  lemma {:induction false} ScanRest(a: seq<byte>)
    ensures Scan(Scan(a).rest) == Outcome([], Scan(a).rest)
    ensures Scan(a).rest != [] ==> NextPiece(Scan(a).rest, 0) == Unfinished(0)
    decreases |a|
  {
    match NextPiece(a, 0)
    case Text =>
    case Unfinished(i) =>
      NextPieceShift(a, i, i);
      NoStartBefore(a, 0);
      FirstStartSkips(a, 0, i);
    case Finished(i, e) =>
      ScanRest(a[SequenceEnd(a, e)..]);
  }

  /**
    Filtering a stream in any split into chunks emits and keeps exactly what filtering
    it in one call does, if no call drops an unterminated command.
   */
  lemma {:induction false} ChunkIndependence(chunks: seq<seq<byte>>)
    requires NoOverflow([], chunks)
    ensures ProcessAll([], chunks) == Scan(Flatten(chunks))
  {
    assert Scan([]) == Outcome([], []);
    ChunksFrom([], chunks);
    assert [] + Flatten(chunks) == Flatten(chunks);
  }

  lemma {:induction false} ChunksFrom(pending: seq<byte>, chunks: seq<seq<byte>>)
    requires NoOverflow(pending, chunks) && Scan(pending) == Outcome([], pending)
    ensures ProcessAll(pending, chunks) == Scan(pending + Flatten(chunks))
    decreases |chunks|
  {
    if chunks == [] {
      assert pending + [] == pending;
    } else {
      ScanRest(pending + chunks[0]);
      ChunksFrom(Scan(pending + chunks[0]).rest, chunks[1..]);
      OneMoreChunk(pending, chunks[0], Flatten(chunks[1..]));
    }
  }

  lemma {:induction false} OneMoreChunk(pending: seq<byte>, chunk: seq<byte>, later: seq<byte>)
    ensures Scan(pending + (chunk + later)) == Scan(Scan(pending + chunk).rest + later).After(Scan(pending + chunk).out)
  {
    ScanSplit(pending + chunk, later);
    Assoc(pending, chunk, later);
  }

  /** Two splits of the same stream agree. */
  lemma {:induction false} SplitsAgree(chunks: seq<seq<byte>>, others: seq<seq<byte>>)
    requires NoOverflow([], chunks) && NoOverflow([], others) && Flatten(chunks) == Flatten(others)
    ensures ProcessAll([], chunks) == ProcessAll([], others)
  {
    ChunkIndependence(chunks);
    ChunkIndependence(others);
  }

  // ----- The condition is exact

  /** Handing over a chunk and its continuation separately or together makes no difference. */
  ghost predicate SplitHarmless(pending: seq<byte>, chunk: seq<byte>, later: seq<byte>)
  {
    var o := Processed(pending, chunk);
    Processed(o.rest, later).After(o.out) == Processed(pending, chunk + later)
  }

  lemma {:induction false} SplitWithoutOverflow(pending: seq<byte>, chunk: seq<byte>, later: seq<byte>)
    requires !Overflows(pending, chunk)
    ensures SplitHarmless(pending, chunk, later)
  {
    OneMoreChunk(pending, chunk, later);
  }

  lemma {:induction false} FirstEndIs(buf: seq<byte>, i: nat, e: nat)
    requires i <= e <= |buf| && (forall j :: i <= j < e ==> !EndsOsc(buf, j)) && (e < |buf| ==> EndsOsc(buf, e))
    ensures FirstEnd(buf, i) == e
    decreases e - i
  {
    if i < e {
      FirstEndIs(buf, i + 1, e);
    }
  }

  lemma {:induction false} NoEndBefore(buf: seq<byte>, i: nat)
    requires i <= |buf|
    ensures forall j :: i <= j < FirstEnd(buf, i) ==> !EndsOsc(buf, j)
    decreases |buf| - i
  {
    if i < |buf| && !EndsOsc(buf, i) {
      NoEndBefore(buf, i + 1);
    }
  }

  /** A letter does not finish a command. */
  lemma {:induction false} LetterKeepsUnfinished(rest: seq<byte>)
    requires |rest| >= 2 && NextPiece(rest, 0) == Unfinished(0)
    ensures Scan(rest + [0x41]).out == []
  {
    var longer, cs := rest + [0x41], ContentStart(rest, 0);
    NoEndBefore(rest, cs);
    forall j | cs <= j < |longer| ensures !EndsOsc(longer, j) {
      assert j < |rest| ==> !EndsOsc(rest, j);
    }
    assert StartsOsc(longer, 0) && ContentStart(longer, 0) == cs;
    FirstEndIs(longer, cs, |longer|);
    assert NextPiece(longer, 0) == Unfinished(0);
  }

  lemma {:induction false} OverflowDiffers(pending: seq<byte>, chunk: seq<byte>)
    requires Overflows(pending, chunk)
    ensures !SplitHarmless(pending, chunk, [0x41])
  {
    var o := Scan(pending + chunk);
    OneMoreChunk(pending, chunk, [0x41]);
    ScanRest(pending + chunk);
    LetterKeepsUnfinished(o.rest);
    assert [] + [0x41 as byte] == [0x41];
    assert Processed([], [0x41]).out == [0x41];
    assert Scan(pending + (chunk + [0x41])).out == o.out;
  }

  /** A concrete chunk that overflows: an introducer and as many letters as a command may have bytes. */
  lemma {:induction false} OverflowingChunk() returns (chunk: seq<byte>)
    ensures Overflows([], chunk) && !SplitHarmless([], chunk, [0x41])
  {
    var letters: seq<byte> := seq(MAXIMUM_OSC_BYTES, i => 0x41);
    chunk := [0x9D] + letters;
    assert forall j :: 1 <= j < |chunk| ==> chunk[j] == 0x41;
    FirstEndIs(chunk, 1, |chunk|);
    assert NextPiece(chunk, 0) == Unfinished(0);
    assert [] + chunk == chunk;
    assert Scan(chunk).rest == chunk[0..] == chunk;
    OverflowDiffers([], chunk);
  }

  /** Splitting after a chunk is harmless, whatever follows, exactly if the chunk does not overflow. */
  lemma {:induction false} SplitHarmlessIffNoOverflow(pending: seq<byte>, chunk: seq<byte>)
    ensures (forall later :: SplitHarmless(pending, chunk, later)) <==> !Overflows(pending, chunk)
  {
    if Overflows(pending, chunk) {
      OverflowDiffers(pending, chunk);
    } else {
      forall later ensures SplitHarmless(pending, chunk, later) {
        SplitWithoutOverflow(pending, chunk, later);
      }
    }
  }

  // ----- What the output means

  /** A stretch of text, or a whole command with its introducer and terminator. */
  datatype Segment = Plain(text: seq<byte>) | Command(intro: seq<byte>, content: seq<byte>, term: seq<byte>) {
    function Bytes(): seq<byte> { if Plain? then text else intro + content + term }
    predicate Kept() { Plain? || Permitted(content) }
  }

  /** The buffer is one command from its first byte on, and its end has not arrived. */
  ghost predicate Open(buf: seq<byte>)
  {
    StartsOsc(buf, 0) && forall j :: ContentStart(buf, 0) <= j < |buf| ==> !EndsOsc(buf, j)
  }

  /** The buffer begins with this segment: maximal text, or a command up to its first terminator. */
  ghost predicate BeginsWith(buf: seq<byte>, seg: Segment)
  {
    && seg.Bytes() <= buf
    && match seg
       case Plain(text) =>
         && text != []
         && (forall j :: 0 <= j < |text| ==> !StartsOsc(buf, j))
         && (|text| == |buf| || StartsOsc(buf, |text|))
       case Command(intro, content, term) =>
         && StartsOsc(buf, 0) && |intro| == ContentStart(buf, 0)
         && (forall j :: |intro| <= j < |intro| + |content| ==> !EndsOsc(buf, j))
         && EndsOsc(buf, |intro| + |content|)
         && |seg.Bytes()| == SequenceEnd(buf, |intro| + |content|)
  }

  /** The declarative reading of a stream: segments in order, then nothing or an open command. */
  ghost predicate Lexes(buf: seq<byte>, segs: seq<Segment>, rest: seq<byte>)
    decreases |segs|
  {
    if segs == [] then rest == buf && (buf == [] || Open(buf))
    else BeginsWith(buf, segs[0]) && Lexes(buf[|segs[0].Bytes()|..], segs[1..], rest)
  }

  function AllBytes(segs: seq<Segment>): seq<byte>
  {
    if segs == [] then [] else segs[0].Bytes() + AllBytes(segs[1..])
  }

  /** The kept segments, in order. */
  function Emitted(segs: seq<Segment>): seq<byte>
  {
    if segs == [] then []
    else (if segs[0].Kept() then segs[0].Bytes() else []) + Emitted(segs[1..])
  }

  lemma {:induction false} BeginsWithUnique(buf: seq<byte>, s1: Segment, s2: Segment)
    requires BeginsWith(buf, s1) && BeginsWith(buf, s2)
    ensures s1 == s2
  {
    if s1.Plain? && s2.Plain? {
      assert |s1.text| == |s2.text|;
      assert s1.text == buf[..|s1.text|] && s2.text == buf[..|s2.text|];
    } else if s1.Plain? || s2.Plain? {
      assert false;
    } else {
      assert |s1.content| == |s2.content|;
      CommandParts(buf, s1);
      CommandParts(buf, s2);
    }
  }

  lemma {:induction false} CommandParts(buf: seq<byte>, seg: Segment)
    requires seg.Command? && seg.Bytes() <= buf
    ensures seg.intro == buf[..|seg.intro|]
    ensures seg.content == buf[|seg.intro|..|seg.intro| + |seg.content|]
    ensures seg.term == buf[|seg.intro| + |seg.content|..|seg.intro| + |seg.content| + |seg.term|]
  {
    var all := seg.intro + seg.content + seg.term;
    assert buf[..|all|] == all;
    forall k | 0 <= k < |all| ensures buf[k] == all[k] {}
  }

  /** A stream has at most one reading. */
  lemma {:induction false} LexesUnique(buf: seq<byte>, s1: seq<Segment>, r1: seq<byte>, s2: seq<Segment>, r2: seq<byte>)
    requires Lexes(buf, s1, r1) && Lexes(buf, s2, r2)
    ensures s1 == s2 && r1 == r2
    decreases |s1|
  {
    if s1 != [] && s2 != [] {
      BeginsWithUnique(buf, s1[0], s2[0]);
      LexesUnique(buf[|s1[0].Bytes()|..], s1[1..], r1, s2[1..], r2);
      assert s1 == [s1[0]] + s1[1..] && s2 == [s2[0]] + s2[1..];
    } else if s1 != [] {
      OpenHasNoSegment(buf, s1[0]);
    } else if s2 != [] {
      OpenHasNoSegment(buf, s2[0]);
    }
  }

  lemma {:induction false} OpenHasNoSegment(buf: seq<byte>, seg: Segment)
    requires BeginsWith(buf, seg)
    ensures buf != [] && !Open(buf)
  {
    if seg.Plain? {
      assert !StartsOsc(buf, 0);
    }
  }

  lemma {:induction false} ScanCommand(buf: seq<byte>, seg: Segment)
    requires BeginsWith(buf, seg) && seg.Command?
    ensures Scan(buf) == Scan(buf[|seg.Bytes()|..]).After(if seg.Kept() then seg.Bytes() else [])
  {
    var e := |seg.intro| + |seg.content|;
    FirstEndIs(buf, |seg.intro|, e);
    assert NextPiece(buf, 0) == Finished(0, e);
    CommandParts(buf, seg);
    var passed := if seg.Kept() then seg.Bytes() else [];
    assert buf[0..SequenceEnd(buf, e)] == seg.Bytes();
    assert Passed(buf, 0, e) == passed;
    ScanFinished(buf, 0, e, [], passed, buf[SequenceEnd(buf, e)..]);
    assert [] + passed == passed;
  }

  lemma {:induction false} ScanSegment(buf: seq<byte>, seg: Segment)
    requires BeginsWith(buf, seg)
    ensures Scan(buf) == Scan(buf[|seg.Bytes()|..]).After(if seg.Kept() then seg.Bytes() else [])
  {
    if seg.Plain? {
      SkipText(buf, |seg.text|);
      assert buf[..|seg.text|] == seg.text;
    } else {
      ScanCommand(buf, seg);
    }
  }

  lemma {:induction false} ScanOpen(buf: seq<byte>)
    requires buf == [] || Open(buf)
    ensures Scan(buf) == Outcome([], buf)
  {
    if buf != [] {
      FirstEndIs(buf, ContentStart(buf, 0), |buf|);
      assert NextPiece(buf, 0) == Unfinished(0);
    }
  }

  lemma {:induction false} LexConserves(buf: seq<byte>, segs: seq<Segment>, rest: seq<byte>)
    requires Lexes(buf, segs, rest)
    ensures AllBytes(segs) + rest == buf
    decreases |segs|
  {
    if segs != [] {
      var n := |segs[0].Bytes()|;
      LexConserves(buf[n..], segs[1..], rest);
      assert buf[..n] == segs[0].Bytes();
      TakeThenDrop(buf, n);
      Assoc(segs[0].Bytes(), AllBytes(segs[1..]), rest);
    }
  }

  /**
    The filter emits exactly the text and the permitted commands of the stream, in
    order, keeps exactly the open command, and accounts for every byte.
   */
  lemma {:induction false} FilterMeaning(buf: seq<byte>, segs: seq<Segment>, rest: seq<byte>)
    requires Lexes(buf, segs, rest)
    ensures Scan(buf) == Outcome(Emitted(segs), rest)
    ensures AllBytes(segs) + rest == buf
    decreases |segs|
  {
    LexConserves(buf, segs, rest);
    if segs == [] {
      ScanOpen(buf);
    } else {
      FilterMeaning(buf[|segs[0].Bytes()|..], segs[1..], rest);
      ScanSegment(buf, segs[0]);
    }
  }

  /** Every stream has a reading. */
  lemma {:induction false} LexingExists(buf: seq<byte>) returns (segs: seq<Segment>, rest: seq<byte>)
    ensures Lexes(buf, segs, rest)
    decreases |buf|
  {
    var i := FirstStart(buf, 0);
    NoStartBefore(buf, 0);
    if i > 0 {
      segs, rest := LexingExists(buf[i..]);
      assert Plain(buf[..i]).Bytes() == buf[..i];
      assert BeginsWith(buf, Plain(buf[..i]));
      segs := PrependSegment(buf, Plain(buf[..i]), segs, rest);
    } else if buf == [] {
      return [], [];
    } else {
      var cs := ContentStart(buf, 0);
      var e := FirstEnd(buf, cs);
      NoEndBefore(buf, cs);
      if e == |buf| {
        assert Open(buf);
        return [], buf;
      }
      var se := SequenceEnd(buf, e);
      var seg := Command(buf[..cs], buf[cs..e], buf[e..se]);
      assert seg.Bytes() == buf[..se];
      segs, rest := LexingExists(buf[se..]);
      segs := PrependSegment(buf, seg, segs, rest);
    }
  }

  lemma {:induction false} PrependSegment(buf: seq<byte>, seg: Segment, segs: seq<Segment>, rest: seq<byte>) returns (longer: seq<Segment>)
    requires BeginsWith(buf, seg) && Lexes(buf[|seg.Bytes()|..], segs, rest)
    ensures longer == [seg] + segs && Lexes(buf, longer, rest)
  {
    longer := [seg] + segs;
    assert longer[1..] == segs;
  }
}
