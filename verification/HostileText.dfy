/**
 * Escaping of labels that a repository or a terminal controls
 * (apps/ios/Sources/Security/HostileDisplayText.swift). A `char` is one Unicode scalar value.
 */
module HostileText {
  import opened Common

  predicate InRange(v: int, low: int, high: int) { low <= v <= high }

  predicate Unsafe(c: char)
  {
    var v := c as int;
    || InRange(v, 0x0000, 0x001F) || InRange(v, 0x007F, 0x009F)
    || v == 0x00AD || v == 0x061C || v == 0x180E
    || InRange(v, 0x200B, 0x200F) || InRange(v, 0x2028, 0x202E)
    || InRange(v, 0x2060, 0x206F) || v == 0xFEFF || InRange(v, 0xFFF9, 0xFFFB)
    || v == 0xE0001 || InRange(v, 0xE0020, 0xE007F)
  }

  const ELLIPSIS: char := '\U{2026}'
  const DIGITS: string := "0123456789ABCDEF"

  function Hex(v: nat): string
  {
    if v < 16 then [DIGITS[v]] else Hex(v / 16) + [DIGITS[v % 16]]
  }

  function Zeros(n: nat): string { seq(n, i => '0') }

  function PaddedHex(v: nat): string
  {
    var digits := Hex(v);
    Zeros(if |digits| < 4 then 4 - |digits| else 0) + digits
  }

  function VisibleEscape(v: nat): string
  {
    "\\u{" + PaddedHex(v) + "}"
  }

  /** How one scalar is shown. */
  function Piece(c: char): string
  {
    if c == '\\' || Unsafe(c) then VisibleEscape(c as int) else [c]
  }

  /** What is shown for each scalar, one after the other. */
  function Concat(piece: char -> string, s: string): string
  {
    if s == "" then "" else Concat(piece, s[..|s| - 1]) + piece(s[|s| - 1])
  }

  function Encode(s: string): string
  {
    Concat(Piece, s)
  }

  function Limit(scalarLimit: int): (n: int)
    ensures 1 <= n <= 4096
  {
    if scalarLimit < 1 then 1 else if scalarLimit > 4096 then 4096 else scalarLimit
  }

  /** What is left of a text within `limit` scalars. */
  function Shown(raw: string, limit: nat): string
  {
    if |raw| <= limit then raw else raw[..limit] + [ELLIPSIS]
  }

  method Sanitized(raw: string, scalarLimit: int) returns (result: string)
    ensures result == Encode(Shown(raw, Limit(scalarLimit)))
  {
    var limit: nat := Limit(scalarLimit);
    ShownEncoded(raw, limit);
    result := ConcatWithin(Piece, raw, limit);
  }

  /** The loop over the scalars: it stops with an ellipsis at the first one beyond the limit. */
  method ConcatWithin(piece: char -> string, raw: string, limit: nat) returns (result: string)
    ensures |raw| <= limit ==> result == Concat(piece, raw)
    ensures |raw| > limit ==> result == Concat(piece, raw[..limit]) + [ELLIPSIS]
  {
    result := "";
    var consumed := 0;
    ghost var done := "";
    for i := 0 to |raw|
      invariant consumed == i <= limit
      invariant done == raw[..i] && result == Concat(piece, done)
    {
      if consumed >= limit {
        assert i == limit && done == raw[..limit];
        result := result + [ELLIPSIS];
        return;
      }
      consumed := consumed + 1;
      ConcatSnoc(piece, done, raw[i]);
      done := done + [raw[i]];
      result := result + piece(raw[i]);
    }
    assert raw[..|raw|] == raw;
  }

  lemma {:induction false} ConcatSnoc(piece: char -> string, s: string, c: char)
    ensures Concat(piece, s + [c]) == Concat(piece, s) + piece(c)
  {
    assert (s + [c])[..|s|] == s;
  }

  lemma {:induction false} ShownEncoded(raw: string, limit: nat)
    ensures Encode(Shown(raw, limit)) == if |raw| <= limit then Encode(raw) else Encode(raw[..limit]) + [ELLIPSIS]
  {
    if |raw| > limit {
      EncodeSnoc(raw[..limit], ELLIPSIS);
    }
  }

  lemma {:induction false} EncodeSnoc(s: string, c: char)
    ensures Encode(s + [c]) == Encode(s) + Piece(c)
  {
    ConcatSnoc(Piece, s, c);
  }

  lemma {:induction false} ConcatCons(piece: char -> string, c: char, s: string)
    ensures Concat(piece, [c] + s) == piece(c) + Concat(piece, s)
    decreases |s|
  {
    if s == "" {
      assert [c] + s == "" + [c];
      ConcatSnoc(piece, "", c);
      assert "" + piece(c) == piece(c) == piece(c) + "";
    } else {
      var front, last := s[..|s| - 1], s[|s| - 1];
      assert [c] + s == ([c] + front) + [last];
      ConcatSnoc(piece, [c] + front, last);
      ConcatCons(piece, c, front);
      Assoc(piece(c), Concat(piece, front), piece(last));
    }
  }

  lemma {:induction false} EncodeCons(c: char, s: string)
    ensures Encode([c] + s) == Piece(c) + Encode(s)
  {
    ConcatCons(Piece, c, s);
  }

  // ----- What is shown is harmless and bounded

  predicate IsHexDigit(c: char) { '0' <= c <= '9' || 'A' <= c <= 'F' }

  lemma {:induction false} DigitIsHex(d: nat)
    requires d < 16
    ensures IsHexDigit(DIGITS[d])
  {
  }

  lemma {:induction false} HexShape(v: nat)
    ensures Hex(v) != "" && forall i :: 0 <= i < |Hex(v)| ==> IsHexDigit(Hex(v)[i])
  {
    DigitIsHex(v % 16);
    if v >= 16 {
      HexShape(v / 16);
    } else {
      DigitIsHex(v);
    }
  }

  lemma {:induction false} HexLength(v: nat)
    requires v < 0x10_0000
    ensures |Hex(v)| <= 5
  {
    HexLengthBelow(v, 5);
  }

  function Power16(n: nat): nat { if n == 0 then 1 else 16 * Power16(n - 1) }

  lemma {:induction false} HexLengthBelow(v: nat, n: nat)
    requires n >= 1 && v < Power16(n)
    ensures |Hex(v)| <= n
  {
    if v >= 16 {
      assert n >= 2;
      HexLengthBelow(v / 16, n - 1);
    }
  }

  lemma {:induction false} PaddedShape(v: nat)
    ensures |PaddedHex(v)| >= 4 && forall i :: 0 <= i < |PaddedHex(v)| ==> IsHexDigit(PaddedHex(v)[i])
    ensures |PaddedHex(v)| == if |Hex(v)| < 4 then 4 else |Hex(v)|
  {
    HexShape(v);
  }

  lemma {:induction false} EscapeShape(v: nat)
    ensures forall c :: c in VisibleEscape(v) ==> IsHexDigit(c) || c == '\\' || c == 'u' || c == '{' || c == '}'
    ensures |VisibleEscape(v)| == |PaddedHex(v)| + 4
  {
    PaddedShape(v);
    assert forall c :: c in PaddedHex(v) ==> IsHexDigit(c);
  }

  lemma {:induction false} PieceSafe(c: char)
    ensures forall x :: x in Piece(c) ==> !Unsafe(x)
    ensures 1 <= |Piece(c)| <= 9
  {
    var v := c as int;
    EscapeShape(v);
    if c == '\\' || Unsafe(c) {
      assert v < 0x10_0000;
      HexLength(v);
      PaddedShape(v);
    }
  }

  lemma {:induction false} EncodeSafe(s: string)
    ensures forall x :: x in Encode(s) ==> !Unsafe(x)
    ensures |s| <= |Encode(s)| <= 9 * |s|
  {
    if s != "" {
      EncodeSafe(s[..|s| - 1]);
      PieceSafe(s[|s| - 1]);
    }
  }

  /** No shown text contains an unsafe scalar or more than nine times the limit and an ellipsis. */
  lemma {:induction false} SanitizedIsInert(raw: string, scalarLimit: int)
    ensures var out := Encode(Shown(raw, Limit(scalarLimit)));
            && (forall c :: c in out ==> !Unsafe(c))
            && |out| <= 9 * Limit(scalarLimit) + 1
  {
    var limit := Limit(scalarLimit);
    EncodeSafe(Shown(raw, limit));
    if |raw| > limit {
      EncodeSnoc(raw[..limit], ELLIPSIS);
      EncodeSafe(raw[..limit]);
    }
  }

  // ----- What is shown can be read back

  function DigitValue(c: char): nat
    requires IsHexDigit(c)
  {
    if c <= '9' then c as int - '0' as int else c as int - 'A' as int + 10
  }

  function HexValue(s: string): nat
    requires forall i :: 0 <= i < |s| ==> IsHexDigit(s[i])
  {
    if s == "" then 0
    else
      assert IsHexDigit(s[|s| - 1]);
      16 * HexValue(s[..|s| - 1]) + DigitValue(s[|s| - 1])
  }

  /** How many hexadecimal digits `s` begins with. */
  function HexRun(s: string): (n: nat)
    ensures n <= |s| && forall i :: 0 <= i < n ==> IsHexDigit(s[i])
  {
    if s == "" || !IsHexDigit(s[0]) then 0 else 1 + HexRun(s[1..])
  }

  predicate IsScalar(v: int) { 0 <= v < 0xD800 || 0xE000 <= v < 0x11_0000 }

  /** Reads shown text back; `None` if it is not escaped text. */
  function Decode(s: string): Option<string>
    decreases |s|
  {
    if s == "" then Some("")
    else if s[0] != '\\' then
      var rest := Decode(s[1..]);
      if rest.None? then None else Some([s[0]] + rest.value)
    else if |s| < 3 || s[1] != 'u' || s[2] != '{' then None
    else
      var n := HexRun(s[3..]);
      if 3 + n >= |s| || s[3 + n] != '}' then None
      else
        var v := HexValue(s[3..][..n]);
        var rest := Decode(s[3 + n + 1..]);
        if !IsScalar(v) || rest.None? then None else Some([v as char] + rest.value)
  }

  lemma {:induction false} DigitRoundTrip(d: nat)
    requires d < 16
    ensures IsHexDigit(DIGITS[d]) && DigitValue(DIGITS[d]) == d
  {
  }

  lemma {:induction false} HexRoundTrip(v: nat)
    ensures forall i :: 0 <= i < |Hex(v)| ==> IsHexDigit(Hex(v)[i])
    ensures HexValue(Hex(v)) == v
  {
    HexShape(v);
    DigitRoundTrip(v % 16);
    if v >= 16 {
      HexRoundTrip(v / 16);
      assert Hex(v)[..|Hex(v)| - 1] == Hex(v / 16);
    } else {
      DigitRoundTrip(v);
      assert Hex(v)[..0] == "";
      assert HexValue("") == 0;
    }
  }

  lemma {:induction false} LeadingZeros(n: nat, s: string)
    requires forall i :: 0 <= i < |s| ==> IsHexDigit(s[i])
    ensures forall i :: 0 <= i < |Zeros(n) + s| ==> IsHexDigit((Zeros(n) + s)[i])
    ensures HexValue(Zeros(n) + s) == HexValue(s)
    decreases |s|, n
  {
    var t := Zeros(n) + s;
    if s != "" {
      assert t[..|t| - 1] == Zeros(n) + s[..|s| - 1];
      LeadingZeros(n, s[..|s| - 1]);
      assert t[|t| - 1] == s[|s| - 1];
    } else if n > 0 {
      assert t[..|t| - 1] == Zeros(n - 1) + s;
      LeadingZeros(n - 1, s);
      assert t[|t| - 1] == '0';
    } else {
      assert t == s;
    }
  }

  lemma {:induction false} RunOfDigits(h: string, rest: string)
    requires (forall i :: 0 <= i < |h| ==> IsHexDigit(h[i])) && rest != "" && !IsHexDigit(rest[0])
    ensures HexRun(h + rest) == |h|
  {
    if h == "" {
      assert h + rest == rest;
    } else {
      assert (h + rest)[1..] == h[1..] + rest && (h + rest)[0] == h[0];
      RunOfDigits(h[1..], rest);
    }
  }

  lemma {:induction false} DecodeEscape(v: nat, rest: string)
    requires IsScalar(v)
    ensures Decode(VisibleEscape(v) + rest) == if Decode(rest).None? then None else Some([v as char] + Decode(rest).value)
  {
    var h := PaddedHex(v);
    PaddedShape(v);
    HexRoundTrip(v);
    LeadingZeros(if |Hex(v)| < 4 then 4 - |Hex(v)| else 0, Hex(v));
    var s := VisibleEscape(v) + rest;
    assert s[3..] == h + ("}" + rest);
    RunOfDigits(h, "}" + rest);
    assert s[3..][..|h|] == h;
    assert s[3 + |h|] == s[3..][|h|] == '}';
    assert s[3 + |h| + 1..] == rest;
    assert s[0] == '\\' && s[1] == 'u' && s[2] == '{';
  }

  lemma {:induction false} DecodePiece(c: char, rest: string)
    ensures Decode(Piece(c) + rest) == if Decode(rest).None? then None else Some([c] + Decode(rest).value)
  {
    if c == '\\' || Unsafe(c) {
      assert (c as int) as char == c;
      DecodeEscape(c as int, rest);
    } else {
      assert ([c] + rest)[1..] == rest;
    }
  }

  lemma {:induction false} DecodeEncode(s: string)
    ensures Decode(Encode(s)) == Some(s)
  {
    if s != "" {
      assert s == [s[0]] + s[1..];
      EncodeCons(s[0], s[1..]);
      DecodePiece(s[0], Encode(s[1..]));
      DecodeEncode(s[1..]);
    }
  }

  /**
   * Reading a shown text back gives the original, or its first scalars and the ellipsis. Two texts are shown
   * alike exactly when they are equal or both too long with the same first scalars.
   */
  lemma {:induction false} ShownAlikeIff(a: string, b: string, scalarLimit: int)
    ensures var limit := Limit(scalarLimit);
            && Decode(Encode(Shown(a, limit))) == Some(Shown(a, limit))
            && (Encode(Shown(a, limit)) == Encode(Shown(b, limit)) <==>
                a == b || (|a| > limit && |b| > limit && a[..limit] == b[..limit]))
  {
    var limit := Limit(scalarLimit);
    DecodeEncode(Shown(a, limit));
    DecodeEncode(Shown(b, limit));
    if Shown(a, limit) == Shown(b, limit) && |a| > limit && |b| > limit {
      assert Shown(a, limit)[..limit] == a[..limit] && Shown(b, limit)[..limit] == b[..limit];
    }
  }

  /** Within the limit, escaping loses nothing. */
  lemma {:induction false} RoundTrip(raw: string, scalarLimit: int)
    requires |raw| <= Limit(scalarLimit)
    ensures Decode(Encode(Shown(raw, Limit(scalarLimit)))) == Some(raw)
  {
    DecodeEncode(raw);
  }

  // ----- What is unsafe, by kind of character

  /** C0 and C1 control characters and DEL. */
  predicate IsControl(c: char) { c < ' ' || '\U{7F}' <= c <= '\U{9F}' }

  /** Marks, embeddings, overrides and isolates that change the direction of text. */
  predicate TurnsDirection(c: char)
  {
    c in {'\U{61C}', '\U{200E}', '\U{200F}'} || '\U{202A}' <= c <= '\U{202E}' || '\U{2066}' <= c <= '\U{2069}'
  }

  /** Characters without width: soft hyphen, joiners and non-joiners, spaces of width zero, invisible operators. */
  predicate IsInvisible(c: char)
  {
    c in {'\U{AD}', '\U{180E}', '\U{FEFF}'} || '\U{200B}' <= c <= '\U{200D}' || '\U{2060}' <= c <= '\U{2065}'
  }

  predicate BreaksLine(c: char) { c == '\U{2028}' || c == '\U{2029}' }

  /** Deprecated format characters, interlinear annotation and language tags. */
  predicate IsFormat(c: char)
  {
    '\U{206A}' <= c <= '\U{206F}' || '\U{FFF9}' <= c <= '\U{FFFB}' || c == '\U{E0001}' || '\U{E0020}' <= c <= '\U{E007F}'
  }

  /** What is escaped besides the backslash: exactly the characters of these kinds. */
  lemma {:induction false} UnsafeIff(c: char)
    ensures Unsafe(c) <==> IsControl(c) || TurnsDirection(c) || IsInvisible(c) || BreaksLine(c) || IsFormat(c)
  {
  }

  ghost predicate Harmless(s: string)
  {
    forall i :: 0 <= i < |s| ==> s[i] != '\\' && !Unsafe(s[i])
  }

  lemma {:induction false} HarmlessEncoded(s: string)
    requires Harmless(s)
    ensures Encode(s) == s
  {
    if s != "" {
      HarmlessEncoded(s[..|s| - 1]);
      assert s == s[..|s| - 1] + [s[|s| - 1]];
    }
  }

  /** Text with nothing to escape and within the limit is shown as it is. */
  lemma {:induction false} HarmlessIsShown(s: string, scalarLimit: int)
    requires Harmless(s) && |s| <= Limit(scalarLimit)
    ensures Encode(Shown(s, Limit(scalarLimit))) == s
  {
    HarmlessEncoded(s);
  }

  /** Printable ASCII is harmless, the backslash aside. */
  lemma {:induction false} PrintableIsHarmless(s: string)
    requires forall i :: 0 <= i < |s| ==> ' ' <= s[i] <= '~' && s[i] != '\\'
    ensures Harmless(s)
  {
  }
}
