/**
  What the output filter does with the commands of a terminal stream, byte by byte: which introducers and terminators it
  knows, and which commands it drops.
 */
module TerminalCommands {
  import opened Common
  import opened OutputSanitizer

  const BELL: byte := 0x07

  /** The two ways to introduce a command: one byte, or ESC and a bracket. */
  predicate IsIntroducer(s: seq<byte>) { s == [0x9D] || s == [0x1B, 0x5D] }

  /** The three ways to end one: BEL, one byte, or ESC and a backslash. */
  predicate IsTerminator(s: seq<byte>) { s == [0x07] || s == [0x9C] || s == [0x1B, 0x5C] }

  /** No command begins here, and none would with more text. */
  predicate PlainAt(s: seq<byte>, i: nat)
    requires i < |s|
  {
    s[i] != 0x9D && (s[i] == 0x1B ==> i + 1 < |s| && s[i + 1] != 0x5D)
  }

  /** Text in which no command begins and that does not end in ESC. */
  ghost predicate Plain(s: seq<byte>)
  {
    forall i :: 0 <= i < |s| ==> PlainAt(s, i)
  }

  /** A command's content: nothing in it ends the command. */
  ghost predicate Unended(s: seq<byte>)
  {
    forall i :: 0 <= i < |s| ==> s[i] != 0x07 && s[i] != 0x9C && (s[i] == 0x1B && i + 1 < |s| ==> s[i + 1] != 0x5C)
  }

  /** The clipboard command, `52;`. */
  predicate WritesClipboard(content: seq<byte>) { [0x35, 0x32, 0x3B] <= content }

  lemma {:induction false} PlainHasNoStart(text: seq<byte>, rest: seq<byte>, i: nat)
    requires Plain(text) && i < |text|
    ensures !StartsOsc(text + rest, i)
  {
    var buf := text + rest;
    assert buf[i] == text[i] && (i + 1 < |text| ==> buf[i + 1] == text[i + 1]);
    assert PlainAt(text, i);
  }

  lemma {:induction false} StartAfterText(text: seq<byte>, intro: seq<byte>, rest: seq<byte>)
    requires Plain(text) && IsIntroducer(intro)
    ensures var buf := text + (intro + rest);
            FirstStart(buf, 0) == |text| && |text| < |buf| && StartsOsc(buf, |text|) && ContentStart(buf, |text|) == |text| + |intro|
  {
    var buf := text + (intro + rest);
    assert buf[|text|] == intro[0] && (|intro| == 2 ==> buf[|text| + 1] == intro[1]);
    forall j | 0 <= j < |text| ensures !StartsOsc(buf, j) {
      PlainHasNoStart(text, intro + rest, j);
    }
    FirstStartSkips(buf, 0, |text|);
  }

  /** The command's terminator is the first one behind its introducer. */
  lemma {:induction false} EndAfterContent(buf: seq<byte>, from: nat, content: seq<byte>, term: seq<byte>)
    requires Unended(content) && IsTerminator(term) && from + |content| + |term| <= |buf|
    requires buf[from..from + |content|] == content && buf[from + |content|..from + |content| + |term|] == term
    ensures FirstEnd(buf, from) == from + |content| && EndsOsc(buf, from + |content|)
    ensures SequenceEnd(buf, from + |content|) == from + |content| + |term|
  {
    var e := from + |content|;
    assert buf[e] == buf[e..e + |term|][0] == term[0];
    assert |term| == 2 ==> buf[e + 1] == buf[e..e + |term|][1] == term[1];
    forall j | from <= j < e ensures !EndsOsc(buf, j) {
      assert buf[j] == buf[from..e][j - from] == content[j - from];
      assert j + 1 < e ==> buf[j + 1] == buf[from..e][j + 1 - from] == content[j + 1 - from];
    }
    FirstEndIs(buf, from, e);
  }

  lemma {:induction false} CommandCut(text: seq<byte>, intro: seq<byte>, content: seq<byte>, term: seq<byte>)
    ensures var buf := text + (intro + (content + term)); var from := |text| + |intro|;
            && buf[..|text|] == text && buf[from..from + |content|] == content
            && buf[from + |content|..from + |content| + |term|] == term
            && buf[|text|..|buf|] == intro + (content + term) && buf[|buf|..] == []
            && |buf| == from + |content| + |term|
  {
  }

  lemma {:induction false} ScanNothing()
    ensures Scan([]) == Outcome([], [])
  {
    assert FirstStart([], 0) == 0;
  }

  lemma {:induction false} CommandPiece(buf: seq<byte>, i: nat, from: nat, content: seq<byte>, term: seq<byte>)
    requires i < |buf| && FirstStart(buf, 0) == i && ContentStart(buf, i) == from
    requires Unended(content) && IsTerminator(term) && from + |content| + |term| == |buf|
    requires buf[from..from + |content|] == content && buf[from + |content|..from + |content| + |term|] == term
    ensures NextPiece(buf, 0) == Finished(i, from + |content|) && SequenceEnd(buf, from + |content|) == |buf|
  {
    EndAfterContent(buf, from, content, term);
  }

  lemma {:induction false} CommandScan(
      buf: seq<byte>, text: seq<byte>, i: nat, e: nat, content: seq<byte>, whole: seq<byte>)
    requires NextPiece(buf, 0) == Finished(i, e) && SequenceEnd(buf, e) == |buf|
    requires buf[..i] == text && buf[ContentStart(buf, i)..e] == content && buf[i..|buf|] == whole
    ensures Scan(buf) == Outcome(text + if WritesClipboard(content) || |content| > 8192 then [] else whole, [])
  {
    PassedIs(buf, i, e, content, whole);
    var passed := Passed(buf, i, e);
    ScanFinished(buf, i, e, text, passed, []);
    ScanNothing();
    assert Outcome([], []).After(text + passed) == Outcome(text + passed, []);
  }

  lemma {:induction false} CommandInBuffer(
      buf: seq<byte>, text: seq<byte>, i: nat, from: nat, content: seq<byte>, term: seq<byte>, whole: seq<byte>)
    requires i < |buf| && FirstStart(buf, 0) == i && ContentStart(buf, i) == from
    requires Unended(content) && IsTerminator(term) && from + |content| + |term| == |buf|
    requires buf[from..from + |content|] == content && buf[from + |content|..from + |content| + |term|] == term
    requires buf[..i] == text && buf[i..|buf|] == whole
    ensures Scan(buf) == Outcome(text + if WritesClipboard(content) || |content| > 8192 then [] else whole, [])
  {
    CommandPiece(buf, i, from, content, term);
    CommandScan(buf, text, i, from + |content|, content, whole);
  }

  /**
    Whatever introducer and terminator it has, a command behind plain text passes unchanged, unless it writes the
    clipboard or its content is longer than 8192 bytes: then nothing of it passes.
   */
  lemma {:induction false} CommandFiltered(text: seq<byte>, intro: seq<byte>, content: seq<byte>, term: seq<byte>)
    requires Plain(text) && IsIntroducer(intro) && Unended(content) && IsTerminator(term)
    ensures Scan(text + (intro + (content + term))) ==
            Outcome(text + if WritesClipboard(content) || |content| > 8192 then [] else intro + (content + term), [])
  {
    var buf := text + (intro + (content + term));
    CommandCut(text, intro, content, term);
    StartAfterText(text, intro, content + term);
    CommandInBuffer(buf, text, |text|, |text| + |intro|, content, term, intro + (content + term));
  }

  lemma {:induction false} PassedIs(buf: seq<byte>, i: nat, e: nat, content: seq<byte>, whole: seq<byte>)
    requires StartsOsc(buf, i) && EndsOsc(buf, e) && ContentStart(buf, i) <= e
    requires buf[ContentStart(buf, i)..e] == content && buf[i..SequenceEnd(buf, e)] == whole
    ensures Passed(buf, i, e) == if WritesClipboard(content) || |content| > 8192 then [] else whole
  {
    assert WritesClipboard(content) <==> |content| >= 3 && content[..3] == [0x35, 0x32, 0x3B];
  }

  /** In particular the clipboard command that remote programs use never reaches the screen. */
  lemma {:induction false} ClipboardDropped(text: seq<byte>, data: seq<byte>)
    requires Plain(text) && Unended([0x35, 0x32, 0x3B] + data)
    ensures Scan(text + ([0x1B, 0x5D] + (([0x35, 0x32, 0x3B] + data) + [BELL]))) == Outcome(text, [])
  {
    CommandFiltered(text, [0x1B, 0x5D], [0x35, 0x32, 0x3B] + data, [BELL]);
    assert text + [] == text;
  }

  /** Text without commands passes unchanged. */
  lemma {:induction false} PlainPasses(text: seq<byte>)
    requires Plain(text)
    ensures Scan(text) == Outcome(text, [])
  {
    forall j | 0 <= j < |text| ensures !StartsOsc(text, j) {
      PlainHasNoStart(text, [], j);
      assert text + [] == text;
    }
    FirstStartSkips(text, 0, |text|);
  }
}
