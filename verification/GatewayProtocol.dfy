/**
  The server's side of the terminal protocol: its own encoder and parser of the binary frames, and what passes between
  the two sides. Whether a payload is UTF-8 text matters to the client only.
 */
module GatewayProtocol {
  import opened Common
  import F = FrameCodec

  const MAXIMUM_PAYLOAD := 1024 * 1024
  const HEADER_SIZE := 36

  const OUTPUT: byte := 1
  const INPUT: byte := 2
  const ACKNOWLEDGEMENT: byte := 3
  const RESIZE: byte := 4
  const PING: byte := 5
  const PONG: byte := 6
  const REPLAY_GAP: byte := 7
  const LEASE_REQUEST: byte := 8
  const LEASE_GRANTED: byte := 9
  const LEASE_DENIED: byte := 10
  const TAB_CLOSED: byte := 11
  const ATTENTION: byte := 12

  const TAKE_LEASE := 1
  const IDEMPOTENT_INPUT := 2
  const INPUT_RECEIPT := 4
  const INPUT_RECEIPT_CONFIRMED := 8

  datatype Frame = Frame(kind: byte, flags: F.UInt16, sequence: F.UInt64, tab: F.TabId, payload: seq<byte>)

  predicate ValidKind(kind: byte) { OUTPUT <= kind <= ATTENTION }

  predicate IsPing(f: Frame) { f.kind == PING || f.kind == PONG }

  predicate IsZero(tab: F.TabId) { forall i :: 0 <= i < 16 ==> tab[i] == 0 }

  function AllowedFlags(kind: byte): F.UInt16
  {
    if kind == LEASE_REQUEST then TAKE_LEASE
    else if kind == INPUT then IDEMPOTENT_INPUT
    else if kind == ACKNOWLEDGEMENT then INPUT_RECEIPT + INPUT_RECEIPT_CONFIRMED
    else 0
  }

  predicate FlagsAndSequenceOk(f: Frame)
  {
    && F.BitAnd(f.flags, 0xFFFF - AllowedFlags(f.kind)) == 0
    && (f.kind == OUTPUT || f.kind == REPLAY_GAP ==> f.sequence != 0)
    && (f.kind == INPUT ==> (F.BitAnd(f.flags, IDEMPOTENT_INPUT) != 0 <==> f.sequence != 0))
    && (f.kind == ACKNOWLEDGEMENT ==>
          && (f.flags == 0 || f.flags == INPUT_RECEIPT || f.flags == INPUT_RECEIPT_CONFIRMED)
          && (f.flags != 0 ==> f.sequence != 0))
    && (f.kind == RESIZE || f.kind == LEASE_REQUEST || f.kind == LEASE_GRANTED || f.kind == LEASE_DENIED ==> f.sequence == 0)
  }

  /** What both directions check; only the parser bounds the payload of a ping. */
  predicate FrameOk(f: Frame)
  {
    && ValidKind(f.kind) && |f.payload| <= MAXIMUM_PAYLOAD && (IsZero(f.tab) ==> IsPing(f))
    && (f.kind == ACKNOWLEDGEMENT ==> f.payload == []) && (f.kind == RESIZE ==> |f.payload| == 8)
    && FlagsAndSequenceOk(f)
  }

  function Bytes(f: Frame): seq<byte>
  {
    [0x43, 0x4D, 1, f.kind] + F.BigEndian(f.flags, 2) + F.BigEndian(HEADER_SIZE, 2) + F.BigEndian(f.sequence, 8) + f.tab
    + F.BigEndian(|f.payload|, 4) + f.payload
  }

  function Marshaled(f: Frame): Option<seq<byte>>
  {
    if FrameOk(f) then Some(Bytes(f)) else None
  }

  function Fields(d: seq<byte>): Frame
    requires |d| >= HEADER_SIZE
  {
    F.FromBigEndianBound(d[4..6]);
    F.FromBigEndianBound(d[8..16]);
    F.PowersAre();
    Frame(d[3], F.FromBigEndian(d[4..6]), F.FromBigEndian(d[8..16]), d[16..32], d[HEADER_SIZE..])
  }

  function Parsed(d: seq<byte>): Option<Frame>
  {
    if |d| < HEADER_SIZE || d[0] != 0x43 || d[1] != 0x4D || d[2] != 1 || F.FromBigEndian(d[6..8]) != HEADER_SIZE
       || F.FromBigEndian(d[32..36]) > MAXIMUM_PAYLOAD || |d| != HEADER_SIZE + F.FromBigEndian(d[32..36]) then None
    else if FrameOk(Fields(d)) && (IsPing(Fields(d)) ==> |Fields(d).payload| <= 64) then Some(Fields(d))
    else None
  }

  // ----- The code

  /** Writes a big-endian integer in place. */
  method Put(out: array<byte>, offset: nat, value: nat, width: nat)
    requires offset + width <= out.Length
    modifies out
    ensures out[..offset + width] == old(out[..offset]) + F.BigEndian(value, width)
    ensures out[offset + width..] == old(out[offset + width..])
  {
    var left: nat, rest: nat := width, value;
    ghost var before := out[..];
    while left > 0
      invariant left <= width && |before| == out.Length
      invariant out[..offset + left] == before[..offset + left] && out[offset + width..] == before[offset + width..]
      invariant F.BigEndian(rest, left) + out[offset + left..offset + width] == F.BigEndian(value, width)
    {
      ghost var done := out[offset + left..offset + width];
      assert F.BigEndian(rest, left) == F.BigEndian(rest / 256, left - 1) + [rest % 256];
      out[offset + left - 1] := rest % 256;
      left, rest := left - 1, rest / 256;
      assert out[offset + left..offset + width] == [out[offset + left]] + done;
    }
    assert out[..offset + width] == out[..offset] + out[offset..offset + width];
  }

  /** Copies bytes in place. */
  method Copy(out: array<byte>, offset: nat, bytes: seq<byte>)
    requires offset + |bytes| <= out.Length
    modifies out
    ensures out[..offset + |bytes|] == old(out[..offset]) + bytes
    ensures out[offset + |bytes|..] == old(out[offset + |bytes|..])
  {
    forall i | 0 <= i < |bytes| { out[offset + i] := bytes[i]; }
  }

  method MarshalBinary(f: Frame) returns (r: Option<seq<byte>>)
    ensures r == Marshaled(f)
  {
    if !ValidKind(f.kind) || |f.payload| > MAXIMUM_PAYLOAD { return None; }
    if IsZero(f.tab) && f.kind != PING && f.kind != PONG { return None; }
    if f.kind == ACKNOWLEDGEMENT && |f.payload| != 0 { return None; }
    if f.kind == RESIZE && |f.payload| != 8 { return None; }
    if !FlagsAndSequenceOk(f) { return None; }
    var out := new byte[HEADER_SIZE + |f.payload|](_ => 0);
    Copy(out, 0, [0x43, 0x4D, 1, f.kind]);
    assert out[..4] == [0x43, 0x4D, 1, f.kind];
    Put(out, 4, f.flags, 2);
    Put(out, 6, HEADER_SIZE, 2);
    Put(out, 8, f.sequence, 8);
    Copy(out, 16, f.tab);
    Put(out, 32, |f.payload|, 4);
    Copy(out, HEADER_SIZE, f.payload);
    assert out[..] == out[..out.Length];
    r := Some(out[..]);
  }

  method ParseFrame(d: seq<byte>) returns (r: Option<Frame>)
    ensures r == Parsed(d)
  {
    if |d| < HEADER_SIZE || d[0] != 0x43 || d[1] != 0x4D { return None; }
    if d[2] != 1 || F.FromBigEndian(d[6..8]) != HEADER_SIZE { return None; }
    var length := F.FromBigEndian(d[32..36]);
    if length > MAXIMUM_PAYLOAD || |d| != HEADER_SIZE + length { return None; }
    var f := Fields(d);
    if !ValidKind(f.kind) || (IsZero(f.tab) && f.kind != PING && f.kind != PONG) { return None; }
    if !FlagsAndSequenceOk(f) { return None; }
    if f.kind == ACKNOWLEDGEMENT && |f.payload| != 0 { return None; }
    if f.kind == RESIZE && |f.payload| != 8 { return None; }
    if (f.kind == PING || f.kind == PONG) && |f.payload| > 64 { return None; }
    r := Some(f);
  }

  // ----- Both sides

  /** The kinds by name. */
  function Code(kind: F.Kind): byte
  {
    match kind
    case Output => OUTPUT
    case Input => INPUT
    case Acknowledgement => ACKNOWLEDGEMENT
    case Resize => RESIZE
    case Ping => PING
    case Pong => PONG
    case ReplayGap => REPLAY_GAP
    case LeaseRequest => LEASE_REQUEST
    case LeaseGranted => LEASE_GRANTED
    case LeaseDenied => LEASE_DENIED
    case TabClosed => TAB_CLOSED
    case Attention => ATTENTION
  }

  function ToServer(f: F.Frame): Frame
  {
    Frame(Code(f.kind), f.flags, f.sequence, f.tab, f.payload)
  }

  /** What the client asks of a frame beyond what the server asks: short pings, and texts that are texts. */
  predicate ClientAlsoAsks(utf8: seq<byte> -> bool, f: Frame)
  {
    && (IsPing(f) ==> |f.payload| <= 64)
    && (f.kind == LEASE_REQUEST || f.kind == LEASE_GRANTED || f.kind == LEASE_DENIED ==> f.payload != [])
    && (REPLAY_GAP <= f.kind ==> utf8(f.payload))
  }

  lemma {:induction false} CodeIsRaw(kind: F.Kind)
    ensures Code(kind) == F.Raw(kind) && ValidKind(Code(kind)) && AllowedFlags(Code(kind)) == F.AllowedFlags(kind)
  {
  }

  lemma {:induction false} ZeroTab(tab: F.TabId)
    ensures IsZero(tab) <==> tab == F.ZERO_TAB
  {
  }

  /** The rules of the two sides differ by exactly what the client also asks. */
  lemma {:induction false} RulesAgree(utf8: seq<byte> -> bool, f: F.Frame)
    requires |f.payload| <= MAXIMUM_PAYLOAD
    ensures F.Validate(utf8, f).None? <==> FrameOk(ToServer(f)) && ClientAlsoAsks(utf8, ToServer(f))
  {
    CodeIsRaw(f.kind);
    ZeroTab(f.tab);
  }

  lemma {:induction false} SameBytes(f: F.Frame)
    requires |f.payload| < 0x1_0000_0000
    ensures Bytes(ToServer(f)) == F.Header(f) + f.payload
  {
    CodeIsRaw(f.kind);
    assert F.MAGIC + [F.VERSION, F.Raw(f.kind)] == [0x43, 0x4D, 1, Code(f.kind)];
  }

  /** A kind for every code. */
  lemma {:induction false} KindOf(code: byte) returns (kind: F.Kind)
    requires ValidKind(code)
    ensures Code(kind) == code
  {
    kind := F.FromRaw(code).value;
    CodeIsRaw(kind);
  }

  lemma {:induction false} ToServerInjective(f: F.Frame, g: F.Frame)
    requires ToServer(f) == ToServer(g)
    ensures f == g
  {
    CodeIsRaw(f.kind);
    CodeIsRaw(g.kind);
    F.FromRawInverse(f.kind);
    F.FromRawInverse(g.kind);
  }

  lemma {:induction false} ParseBytes(f: F.Frame)
    requires |f.payload| <= MAXIMUM_PAYLOAD
    ensures var d := Bytes(ToServer(f));
            Parsed(d) == if FrameOk(ToServer(f)) && (IsPing(ToServer(f)) ==> |f.payload| <= 64) then Some(ToServer(f)) else None
  {
    var d := Bytes(ToServer(f));
    SameBytes(f);
    F.HeaderFields(f, d);
    CodeIsRaw(f.kind);
    F.PowersAre();
    F.WriteThenRead(f.flags, 2);
    F.WriteThenRead(HEADER_SIZE, 2);
    F.WriteThenRead(f.sequence, 8);
    F.WriteThenRead(|f.payload|, 4);
    assert d[..2][0] == d[0] && d[..2][1] == d[1];
    assert Fields(d) == ToServer(f);
  }

  /** Whatever the client sends the server parses, as the same frame. */
  lemma {:induction false} ServerParsesClient(limit: int, utf8: seq<byte> -> bool, f: F.Frame)
    requires limit <= MAXIMUM_PAYLOAD && F.Encoded(limit, utf8, f).Ok?
    ensures Parsed(F.Encoded(limit, utf8, f).value) == Some(ToServer(f))
  {
    RulesAgree(utf8, f);
    SameBytes(f);
    ParseBytes(f);
  }

  /**
    Of the frames the server can send, the client reads exactly those that meet what it asks beyond the server's rules,
    as the same frame; the others it refuses for their payload.
   */
  lemma {:induction false} ClientReadsServerIff(utf8: seq<byte> -> bool, f: F.Frame)
    requires Marshaled(ToServer(f)).Some?
    ensures F.Decoded(MAXIMUM_PAYLOAD, utf8, Marshaled(ToServer(f)).value) ==
            if ClientAlsoAsks(utf8, ToServer(f)) then Ok(f) else Err(F.InvalidPayload)
  {
    RulesAgree(utf8, f);
    SameBytes(f);
    if ClientAlsoAsks(utf8, ToServer(f)) {
      F.DecodeEncode(MAXIMUM_PAYLOAD, utf8, f);
    } else {
      RefusedForPayload(utf8, f);
    }
  }

  lemma {:induction false} RefusedForPayload(utf8: seq<byte> -> bool, f: F.Frame)
    requires FrameOk(ToServer(f)) && !ClientAlsoAsks(utf8, ToServer(f))
    ensures F.Decoded(MAXIMUM_PAYLOAD, utf8, Bytes(ToServer(f))) == Err(F.InvalidPayload)
  {
    var d := Bytes(ToServer(f));
    SameBytes(f);
    F.HeaderFields(f, d);
    CodeIsRaw(f.kind);
    ZeroTab(f.tab);
    F.FromRawInverse(f.kind);
    F.PowersAre();
    F.WriteThenRead(f.flags, 2);
    F.WriteThenRead(HEADER_SIZE, 2);
    F.WriteThenRead(f.sequence, 8);
    F.WriteThenRead(|f.payload|, 4);
    assert F.Fields(d, f.kind) == f;
    RulesAgree(utf8, f);
  }

  /** Every frame the server can send is one of the client's, so the two results above speak of all of them. */
  lemma {:induction false} EveryFrameHasAName(g: Frame) returns (f: F.Frame)
    requires ValidKind(g.kind)
    ensures ToServer(f) == g && forall h :: ToServer(h) == g ==> h == f
  {
    var kind := KindOf(g.kind);
    f := F.Frame(kind, g.flags, g.sequence, g.tab, g.payload);
    forall h | ToServer(h) == g ensures h == f {
      ToServerInjective(h, f);
    }
  }

  /** The server parses what it marshals, except pings with more than 64 bytes. */
  lemma {:induction false} ParseMarshalIff(g: Frame)
    requires Marshaled(g).Some?
    ensures Parsed(Marshaled(g).value) == Some(g) <==> (IsPing(g) ==> |g.payload| <= 64)
  {
    var f := EveryFrameHasAName(g);
    ParseBytes(f);
  }

  // ----- Integers and flags, digit by digit

  lemma {:induction false} AtLeastOnce(d: nat, k: int)
    requires k >= 1
    ensures d * k >= d
  {
    assert d * k == d + d * (k - 1);
  }

  lemma {:induction false} SameQuotient(d: nat, x: int, y: int, r: int, t: int)
    requires 0 <= r < d && 0 <= t < d && d * x + r == d * y + t
    ensures x == y
  {
    assert d * (x - y) == t - r && d * (y - x) == r - t;
    if x > y {
      AtLeastOnce(d, x - y);
    } else if x < y {
      AtLeastOnce(d, y - x);
    }
  }

  lemma {:induction false} Regroup(p: nat, a: nat, b: nat, r: nat)
    requires b < p && r < 256
    ensures 256 * (p * a + b) + r == (256 * p) * a + (256 * b + r) && 256 * b + r < 256 * p
  {
    assert 256 * (p * a) == (256 * p) * a;
  }

  lemma {:induction false} DivideTwice(n: nat, p: nat)
    requires p > 0
    ensures n / 256 / p == n / (256 * p)
  {
    var q, r := n / 256, n % 256;
    var a, b := q / p, q % p;
    assert q == p * a + b;
    Regroup(p, a, b, r);
    var d := 256 * p;
    SameQuotient(d, n / d, a, n % d, 256 * b + r);
  }

  /** The most significant byte first. */
  lemma {:induction false} BigEndianAt(n: nat, width: nat, k: nat)
    requires k < width
    ensures F.BigEndian(n, width)[k] == (n / F.Power(width - 1 - k)) % 256
  {
    if k == width - 1 {
      assert n / F.Power(0) == n;
    } else {
      BigEndianAt(n / 256, width - 1, k);
      DivideTwice(n, F.Power(width - 2 - k));
    }
  }

  function Bit(n: nat, k: nat): nat
  {
    if k == 0 then n % 2 else Bit(n / 2, k - 1)
  }

  lemma {:induction false} BitOfZero(k: nat)
    ensures Bit(0, k) == 0
  {
    if k > 0 {
      BitOfZero(k - 1);
    }
  }

  /** Each bit of a conjunction is set exactly when both are. */
  lemma {:induction false} BitOfAnd(a: nat, b: nat, k: nat)
    ensures Bit(F.BitAnd(a, b), k) == 1 <==> Bit(a, k) == 1 && Bit(b, k) == 1
  {
    BitOfZero(k);
    if a != 0 && b != 0 {
      AndParts(a, b);
      if k > 0 {
        BitOfAnd(a / 2, b / 2, k - 1);
      }
    }
  }

  lemma {:induction false} AndParts(a: nat, b: nat)
    requires a != 0 && b != 0
    ensures F.BitAnd(a, b) / 2 == F.BitAnd(a / 2, b / 2)
    ensures F.BitAnd(a, b) % 2 == 1 <==> a % 2 == 1 && b % 2 == 1
  {
  }
}
