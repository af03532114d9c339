/**
  The binary frame format of the terminal protocol: a 36-byte header (magic, version,
  kind, flags, header length, sequence, tab, payload length, all big-endian) and the
  payload, with rules per kind that both directions enforce.

  Whether a payload is UTF-8 text is decided by the platform and is a parameter here.
 */
module FrameCodec {
  import opened Common

  datatype Kind =
    | Output | Input | Acknowledgement | Resize | Ping | Pong
    | ReplayGap | LeaseRequest | LeaseGranted | LeaseDenied | TabClosed | Attention

  function Raw(kind: Kind): byte
  {
    match kind
    case Output => 1
    case Input => 2
    case Acknowledgement => 3
    case Resize => 4
    case Ping => 5
    case Pong => 6
    case ReplayGap => 7
    case LeaseRequest => 8
    case LeaseGranted => 9
    case LeaseDenied => 10
    case TabClosed => 11
    case Attention => 12
  }

  function FromRaw(b: byte): (k: Option<Kind>)
    ensures k.Some? <==> 1 <= b <= 12
    ensures k.Some? ==> Raw(k.value) == b
  {
    if b == 1 then Some(Output) else if b == 2 then Some(Input) else if b == 3 then Some(Acknowledgement)
    else if b == 4 then Some(Resize) else if b == 5 then Some(Ping) else if b == 6 then Some(Pong)
    else if b == 7 then Some(ReplayGap) else if b == 8 then Some(LeaseRequest) else if b == 9 then Some(LeaseGranted)
    else if b == 10 then Some(LeaseDenied) else if b == 11 then Some(TabClosed) else if b == 12 then Some(Attention)
    else None
  }

  type UInt16 = n: int | 0 <= n < 0x1_0000
  type UInt32 = n: int | 0 <= n < 0x1_0000_0000
  type UInt64 = n: int | 0 <= n < 0x1_0000_0000_0000_0000
  type TabId = s: seq<byte> | |s| == 16 witness [0, 0, 0, 0, 0, 0, 0, 0, 0, 0, 0, 0, 0, 0, 0, 0]

  const ZERO_TAB: TabId := [0, 0, 0, 0, 0, 0, 0, 0, 0, 0, 0, 0, 0, 0, 0, 0]
  const MAGIC: seq<byte> := [0x43, 0x4D]
  const VERSION: byte := 1
  const HEADER_LENGTH := 36
  const TAKE_LEASE: UInt16 := 1
  const IDEMPOTENT_INPUT: UInt16 := 2
  const INPUT_RECEIPT: UInt16 := 4
  const INPUT_RECEIPT_CONFIRMED: UInt16 := 8

  datatype Frame = Frame(kind: Kind, flags: UInt16, sequence: UInt64, tab: TabId, payload: seq<byte>)

  datatype Error =
    | Truncated | BadMagic | UnsupportedVersion(version: byte) | UnknownKind(raw: byte) | Oversized(size: int)
    | InvalidLength | InvalidTabID | InvalidHeaderLength(length: UInt16) | UnknownFlags(flags: UInt16) | InvalidPayload
    | LengthTrap // the payload length does not fit its 32-bit field: the conversion traps

  // ----- Big-endian integers

  function Power(width: nat): nat
    ensures Power(width) > 0
  {
    if width == 0 then 1 else 256 * Power(width - 1)
  }

  function BigEndian(n: nat, width: nat): (s: seq<byte>)
    ensures |s| == width
  {
    if width == 0 then [] else BigEndian(n / 256, width - 1) + [n % 256]
  }

  function FromBigEndian(s: seq<byte>): nat
  {
    if s == [] then 0 else 256 * FromBigEndian(s[..|s| - 1]) + s[|s| - 1]
  }

  lemma {:induction false} FromBigEndianBound(s: seq<byte>)
    ensures FromBigEndian(s) < Power(|s|)
  {
    if s != [] {
      FromBigEndianBound(s[..|s| - 1]);
    }
  }

  lemma {:induction false} FromBigEndianNext(d: seq<byte>, offset: nat, next: nat)
    requires offset <= next < |d|
    ensures FromBigEndian(d[offset..next + 1]) == 256 * FromBigEndian(d[offset..next]) + d[next]
  {
    var s := d[offset..next + 1];
    assert s[..|s| - 1] == d[offset..next] && s[|s| - 1] == d[next];
  }

  lemma {:induction false} WriteThenRead(n: nat, width: nat)
    requires n < Power(width)
    ensures FromBigEndian(BigEndian(n, width)) == n
  {
    if width > 0 {
      WriteThenRead(n / 256, width - 1);
      assert BigEndian(n, width)[..width - 1] == BigEndian(n / 256, width - 1);
    }
  }

  lemma {:induction false} ReadThenWrite(s: seq<byte>)
    ensures BigEndian(FromBigEndian(s), |s|) == s
  {
    if s != [] {
      var front, last := s[..|s| - 1], s[|s| - 1];
      ReadThenWrite(front);
      assert FromBigEndian(s) / 256 == FromBigEndian(front) && FromBigEndian(s) % 256 == last;
      assert s == front + [last];
    }
  }

  // ----- Rules per kind

  function BitAnd(a: nat, b: nat): nat
  {
    if a == 0 || b == 0 then 0 else (a % 2) * (b % 2) + 2 * BitAnd(a / 2, b / 2)
  }

  function AllowedFlags(kind: Kind): UInt16
  {
    match kind
    case LeaseRequest => TAKE_LEASE
    case Input => IDEMPOTENT_INPUT
    case Acknowledgement => INPUT_RECEIPT + INPUT_RECEIPT_CONFIRMED
    case _ => 0
  }

  function PayloadRule(utf8: seq<byte> -> bool, f: Frame): bool
  {
    match f.kind
    case Output => f.sequence > 0
    case Input => if BitAnd(f.flags, IDEMPOTENT_INPUT) != 0 then f.sequence > 0 else f.sequence == 0
    case Acknowledgement =>
      && f.payload == []
      && (f.flags == 0 || f.flags == INPUT_RECEIPT || f.flags == INPUT_RECEIPT_CONFIRMED)
      && (f.flags != 0 ==> f.sequence > 0)
    case Resize => f.sequence == 0 && |f.payload| == 8
    case Ping => |f.payload| <= 64
    case Pong => |f.payload| <= 64
    case ReplayGap => f.sequence > 0 && utf8(f.payload)
    case LeaseRequest => f.sequence == 0 && f.payload != [] && utf8(f.payload)
    case LeaseGranted => f.sequence == 0 && f.payload != [] && utf8(f.payload)
    case LeaseDenied => f.sequence == 0 && f.payload != [] && utf8(f.payload)
    case TabClosed => utf8(f.payload)
    case Attention => utf8(f.payload)
  }

  function Validate(utf8: seq<byte> -> bool, f: Frame): Option<Error>
  {
    if BitAnd(f.flags, 0xFFFF - AllowedFlags(f.kind)) != 0 then Some(UnknownFlags(f.flags))
    else if f.tab == ZERO_TAB && !f.kind.Ping? && !f.kind.Pong? then Some(InvalidTabID)
    else if !PayloadRule(utf8, f) then Some(InvalidPayload)
    else None
  }

  // ----- The two directions

  function Header(f: Frame): (h: seq<byte>)
    requires |f.payload| < 0x1_0000_0000
    ensures |h| == HEADER_LENGTH
  {
    MAGIC + [VERSION, Raw(f.kind)] + BigEndian(f.flags, 2) + BigEndian(HEADER_LENGTH, 2)
    + BigEndian(f.sequence, 8) + f.tab + BigEndian(|f.payload|, 4)
  }

  function Encoded(limit: int, utf8: seq<byte> -> bool, f: Frame): Result<seq<byte>, Error>
  {
    if |f.payload| > limit then Err(Oversized(|f.payload|))
    else if Validate(utf8, f).Some? then Err(Validate(utf8, f).value)
    else if |f.payload| >= 0x1_0000_0000 then Err(LengthTrap)
    else Ok(Header(f) + f.payload)
  }

  /** The fields of a header, read at their offsets. */
  function Fields(d: seq<byte>, kind: Kind): Frame
    requires |d| >= HEADER_LENGTH
  {
    FromBigEndianBound(d[4..6]);
    FromBigEndianBound(d[8..16]);
    PowersAre();
    Frame(kind, FromBigEndian(d[4..6]), FromBigEndian(d[8..16]), d[16..32], d[HEADER_LENGTH..])
  }

  lemma PowersAre()
    ensures Power(2) == 0x1_0000 && Power(4) == 0x1_0000_0000 && Power(8) == 0x1_0000_0000_0000_0000
  {
    assert Power(1) == 256 * Power(0);
    assert Power(2) == 256 * Power(1);
    assert Power(3) == 256 * Power(2);
    assert Power(4) == 256 * Power(3);
    assert Power(5) == 256 * Power(4);
    assert Power(6) == 256 * Power(5);
    assert Power(7) == 256 * Power(6);
    assert Power(8) == 256 * Power(7);
  }

  function Decoded(limit: int, utf8: seq<byte> -> bool, d: seq<byte>): Result<Frame, Error>
  {
    if |d| < HEADER_LENGTH then Err(Truncated)
    else if d[..2] != MAGIC then Err(BadMagic)
    else if d[2] != VERSION then Err(UnsupportedVersion(d[2]))
    else if FromRaw(d[3]).None? then Err(UnknownKind(d[3]))
    else
      FromBigEndianBound(d[6..8]);
      PowersAre();
      if FromBigEndian(d[6..8]) != HEADER_LENGTH then Err(InvalidHeaderLength(FromBigEndian(d[6..8])))
      else if FromBigEndian(d[32..36]) > limit then Err(Oversized(FromBigEndian(d[32..36])))
      else if HEADER_LENGTH + FromBigEndian(d[32..36]) != |d| then Err(InvalidLength)
      else
        var f := Fields(d, FromRaw(d[3]).value);
        if Validate(utf8, f).Some? then Err(Validate(utf8, f).value) else Ok(f)
  }

  /** Where each header field of an encoded frame lies. */
  lemma {:induction false} HeaderFields(f: Frame, d: seq<byte>)
    requires |f.payload| < 0x1_0000_0000 && d == Header(f) + f.payload
    ensures |d| == HEADER_LENGTH + |f.payload|
    ensures d[..2] == MAGIC && d[2] == VERSION && d[3] == Raw(f.kind)
    ensures d[4..6] == BigEndian(f.flags, 2) && d[6..8] == BigEndian(HEADER_LENGTH, 2)
    ensures d[8..16] == BigEndian(f.sequence, 8) && d[16..32] == f.tab && d[32..36] == BigEndian(|f.payload|, 4)
    ensures d[HEADER_LENGTH..] == f.payload
  {
    SliceOfConcat(Header(f), f.payload, 0, 2);
    SliceOfConcat(Header(f), f.payload, 4, 6);
    SliceOfConcat(Header(f), f.payload, 6, 8);
    SliceOfConcat(Header(f), f.payload, 8, 16);
    SliceOfConcat(Header(f), f.payload, 16, 32);
    SliceOfConcat(Header(f), f.payload, 32, 36);
    HeaderSlices(MAGIC + [VERSION, Raw(f.kind)], BigEndian(f.flags, 2), BigEndian(HEADER_LENGTH, 2),
                 BigEndian(f.sequence, 8), f.tab, BigEndian(|f.payload|, 4));
    assert d[HEADER_LENGTH..] == f.payload;
  }

  lemma {:induction false} HeaderSlices(a: seq<byte>, b: seq<byte>, c: seq<byte>, e: seq<byte>, t: seq<byte>, l: seq<byte>)
    requires |a| == 4 && |b| == 2 && |c| == 2 && |e| == 8 && |t| == 16 && |l| == 4
    ensures var h := a + b + c + e + t + l;
      |h| == 36 && h[..4] == a && h[4..6] == b && h[6..8] == c && h[8..16] == e && h[16..32] == t && h[32..36] == l
  {
  }

  lemma {:induction false} FromRawInverse(kind: Kind)
    ensures FromRaw(Raw(kind)) == Some(kind)
  {
  }

  /** What was encoded decodes to itself. */
  lemma {:induction false} DecodeEncode(limit: int, utf8: seq<byte> -> bool, f: Frame)
    requires Encoded(limit, utf8, f).Ok?
    ensures Decoded(limit, utf8, Encoded(limit, utf8, f).value) == Ok(f)
  {
    var d := Encoded(limit, utf8, f).value;
    HeaderFields(f, d);
    FromRawInverse(f.kind);
    PowersAre();
    WriteThenRead(f.flags, 2);
    WriteThenRead(HEADER_LENGTH, 2);
    WriteThenRead(f.sequence, 8);
    WriteThenRead(|f.payload|, 4);
    assert Fields(d, f.kind) == f;
  }

  /** What was decoded encodes to the very bytes it came from. */
  lemma {:induction false} EncodeDecode(limit: int, utf8: seq<byte> -> bool, d: seq<byte>)
    requires Decoded(limit, utf8, d).Ok?
    ensures Encoded(limit, utf8, Decoded(limit, utf8, d).value) == Ok(d)
  {
    var f := Decoded(limit, utf8, d).value;
    ReadThenWrite(d[4..6]);
    ReadThenWrite(d[6..8]);
    ReadThenWrite(d[8..16]);
    ReadThenWrite(d[32..36]);
    FromBigEndianBound(d[32..36]);
    PowersAre();
    assert |f.payload| == FromBigEndian(d[32..36]);
    assert Header(f) == d[..2] + [d[2], d[3]] + d[4..6] + d[6..8] + d[8..16] + d[16..32] + d[32..36];
    HeaderSplit(d);
    TakeThenDrop(d, HEADER_LENGTH);
  }

  lemma {:induction false} HeaderSplit(d: seq<byte>)
    requires |d| >= 36
    ensures d[..2] + [d[2], d[3]] + d[4..6] + d[6..8] + d[8..16] + d[16..32] + d[32..36] == d[..36]
  {
    assert d[..2] + [d[2], d[3]] == d[..4];
    TakeSplit(d, 4, 6);
    TakeSplit(d, 6, 8);
    TakeSplit(d, 8, 16);
    TakeSplit(d, 16, 32);
    TakeSplit(d, 32, 36);
  }

  /** The decoder accepts exactly the byte strings that the encoder produces, and no frame has two encodings. */
  lemma {:induction false} DecoderAcceptsExactlyEncodings(limit: int, utf8: seq<byte> -> bool, d: seq<byte>)
    ensures Decoded(limit, utf8, d).Ok? <==> exists f :: Encoded(limit, utf8, f) == Ok(d)
    ensures forall f, g :: Encoded(limit, utf8, f) == Ok(d) && Encoded(limit, utf8, g) == Ok(d) ==> f == g
  {
    if Decoded(limit, utf8, d).Ok? {
      EncodeDecode(limit, utf8, d);
    }
    forall f | Encoded(limit, utf8, f) == Ok(d) ensures Decoded(limit, utf8, d) == Ok(f) {
      DecodeEncode(limit, utf8, f);
    }
  }

  // ----- The code

  /** Reads past the end fail; otherwise the value and the offset behind it. */
  method ReadBigEndian(d: seq<byte>, offset: nat, width: nat) returns (value: Option<nat>, next: nat)
    ensures value == if offset + width <= |d| then Some(FromBigEndian(d[offset..offset + width])) else None
    ensures next == if value.Some? then offset + width else offset
  {
    next := offset;
    if offset + width > |d| {
      return None, next;
    }
    var so: nat := 0;
    while next < offset + width
      invariant offset <= next <= offset + width
      invariant so == FromBigEndian(d[offset..next])
    {
      FromBigEndianNext(d, offset, next);
      so := 256 * so + d[next];
      next := next + 1;
    }
    value := Some(so);
  }

  method Encode(limit: int, utf8: seq<byte> -> bool, f: Frame) returns (r: Result<seq<byte>, Error>)
    ensures r == Encoded(limit, utf8, f)
  {
    if |f.payload| > limit {
      return Err(Oversized(|f.payload|));
    }
    var invalid := Validate(utf8, f);
    if invalid.Some? {
      return Err(invalid.value);
    }
    if |f.payload| >= 0x1_0000_0000 {
      return Err(LengthTrap);
    }
    var result := MAGIC;
    result := result + [VERSION, Raw(f.kind)];
    result := result + BigEndian(f.flags, 2);
    result := result + BigEndian(HEADER_LENGTH, 2);
    result := result + BigEndian(f.sequence, 8);
    result := result + f.tab;
    result := result + BigEndian(|f.payload|, 4);
    result := result + f.payload;
    return Ok(result);
  }

  method Decode(limit: int, utf8: seq<byte> -> bool, d: seq<byte>) returns (r: Result<Frame, Error>)
    ensures r == Decoded(limit, utf8, d)
  {
    if |d| < HEADER_LENGTH {
      return Err(Truncated);
    }
    if d[..2] != MAGIC {
      return Err(BadMagic);
    }
    if d[2] != VERSION {
      return Err(UnsupportedVersion(d[2]));
    }
    var kind := FromRaw(d[3]);
    if kind.None? {
      return Err(UnknownKind(d[3]));
    }
    var offset := 4;
    var flags, headerLength, sequence, length;
    flags, offset := ReadBigEndian(d, offset, 2);
    if flags.None? { return Err(Truncated); }
    headerLength, offset := ReadBigEndian(d, offset, 2);
    if headerLength.None? { return Err(Truncated); }
    FromBigEndianBound(d[4..6]);
    FromBigEndianBound(d[6..8]);
    FromBigEndianBound(d[8..16]);
    PowersAre();
    if headerLength.value != HEADER_LENGTH {
      return Err(InvalidHeaderLength(headerLength.value));
    }
    sequence, offset := ReadBigEndian(d, offset, 8);
    if sequence.None? || offset + 16 > |d| { return Err(Truncated); }
    var tab := d[offset..offset + 16];
    offset := offset + 16;
    length, offset := ReadBigEndian(d, offset, 4);
    if length.None? { return Err(Truncated); }
    if length.value > limit {
      return Err(Oversized(length.value));
    }
    if offset + length.value != |d| {
      return Err(InvalidLength);
    }
    var frame := Frame(kind.value, flags.value, sequence.value, tab, d[offset..]);
    var invalid := Validate(utf8, frame);
    return if invalid.Some? then Err(invalid.value) else Ok(frame);
  }
}
