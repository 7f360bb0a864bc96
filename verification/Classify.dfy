/** Packets as they are padded and masked by the sender, and recognized and unmasked by the receiver. */
module Classify {
  import opened Basics
  import opened Text
  import opened Uapi
  import AddressBytes

  datatype Kind = Initiation | Response | Cookie | Transport

  const HEADER_SIZE: nat := 16
  const TRANSPORT_SIZE: nat := 32
  const TAG_SIZE: nat := 16

  function IndexOfKind(k: Kind): nat {
    match k
    case Initiation => 0
    case Response => 1
    case Cookie => 2
    case Transport => 3
  }

  /** The size of a handshake message, and the least size of a transport message. */
  function SizeOf(k: Kind): nat {
    match k
    case Initiation => 148
    case Response => 92
    case Cookie => 64
    case Transport => TRANSPORT_SIZE
  }

  /**
   What the fields in front of the content add up to.  Handshake messages: type, indices, ephemeral key, sealed fields and two
   authentication codes; a cookie reply: type, index, nonce and a sealed cookie; a transport message: type, index, counter.
   */
  function Fields(k: Kind): nat {
    match k
    case Initiation => 4 + 4 + 32 + (32 + TAG_SIZE) + (12 + TAG_SIZE) + 16 + 16
    case Response => 4 + 4 + 4 + 32 + (0 + TAG_SIZE) + 16 + 16
    case Cookie => 4 + 4 + 24 + (16 + TAG_SIZE)
    case Transport => 4 + 4 + 8
  }

  function Padding(c: Config, k: Kind): nat
    requires |c.paddings| == 4
  {
    c.paddings[IndexOfKind(k)]
  }

  function Header(c: Config, k: Kind): Range
    requires |c.headers| == 4
  {
    c.headers[IndexOfKind(k)]
  }

  // ---------------------------------------------------------------- settings by name

  function PaddingName(k: Kind): string {
    match k case Initiation => "s1" case Response => "s2" case Cookie => "s3" case Transport => "s4"
  }

  function HeaderName(k: Kind): string {
    match k case Initiation => "h1" case Response => "h2" case Cookie => "h3" case Transport => "h4"
  }

  /** A line with the name of a padding sets the padding of that kind of packets and nothing else, or is refused if it is too long. */
  lemma PaddingNamed(c: Config, k: Kind, v: nat, others: Others)
    requires |c.headers| == 4 && |c.paddings| == 4
    ensures var r := HandleDeviceLine(c, PaddingName(k), Decimal(v), others);
      && (r.Some? <==> v < B16)
      && (r.Some? ==> r.value.headers == c.headers && r.value.key == c.key && |r.value.paddings| == 4 &&
                      forall j :: Padding(r.value, j) == if j == k then v else Padding(c, j))
  {
    hide ParseUint, Decimal;
    ParseDecimal(v, B16);
    assert FieldOf(PaddingName(k)) == IndexOfKind(k);
  }

  /** One with the name of a header sets the headers of that kind and nothing else, or is refused if it is no range. */
  lemma HeaderNamed(c: Config, k: Kind, h: Range, others: Others)
    requires |c.headers| == 4 && |c.paddings| == 4 && h.lo < B32 && h.hi < B32
    ensures var r := HandleDeviceLine(c, HeaderName(k), ToString(h), others);
      && (r.Some? <==> h.lo <= h.hi)
      && (r.Some? ==> r.value.paddings == c.paddings && r.value.key == c.key && |r.value.headers| == 4 &&
                      forall j :: Header(r.value, j) == if j == k then h else Header(c, j))
  {
    hide FromString, ToString;
    FromToString(h);
    assert FieldOf(HeaderName(k)) == 4 + IndexOfKind(k);
  }

  /** And the key that headers are masked with has its own. */
  lemma KeyNamed(c: Config, key: Key, others: Others)
    requires |c.headers| == 4 && |c.paddings| == 4
    ensures HandleDeviceLine(c, "header_protection_key", EncodeHex(key), others) == if |key| == 32 then Some(c.(key := key)) else None
  {
    hide DecodeHex, EncodeHex;
    DecodeEncodedHex(key);
    var name := "header_protection_key";
    assert FieldOf(name) == 8 by { assert |name| == 21; }
  }

  // ---------------------------------------------------------------- masks

  /** A key stream, by key, nonce and position. */
  type Stream = (Key, seq<Byte>, nat) -> Byte

  /** The mask at a position of a message; there is none without a key. */
  function Mask(c: Config, stream: Stream, nonce: seq<Byte>, i: nat): Byte {
    if c.key == NO_KEY then 0 else stream(c.key, nonce, i)
  }

  function Xor8(a: Byte, b: Byte): (r: Byte)
    ensures b == 0 ==> r == a
  {
    AddressBytes.Xor8(a, b)
  }

  lemma XorTwice(a: Byte, b: Byte)
    ensures Xor8(Xor8(a, b), b) == a
  {
    AddressBytes.XorTwice(a, b);
  }

  /** The first `n` bytes masked from position `at` of the key stream on. */
  function Xored(c: Config, stream: Stream, nonce: seq<Byte>, b: seq<Byte>, n: nat, at: nat): (r: seq<Byte>)
    requires n <= |b|
    ensures |r| == |b|
    ensures forall i :: 0 <= i < |b| ==> r[i] == if i < n then Xor8(b[i], Mask(c, stream, nonce, at + i)) else b[i]
  {
    seq(|b|, i requires 0 <= i < |b| => if i < n then Xor8(b[i], Mask(c, stream, nonce, at + i)) else b[i])
  }

  /** How much of a message is masked: all of a handshake message, and the header of a transport message. */
  function MaskedSize(k: Kind, n: nat): nat {
    if k == Transport then HEADER_SIZE else n
  }

  function Uint32(b: seq<Byte>): nat
    requires |b| == 4
  {
    var b0: int, b1: int, b2: int, b3: int := b[0], b[1], b[2], b[3];
    b0 + 0x100 * b1 + 0x1_0000 * b2 + 0x100_0000 * b3
  }

  function Bytes32(v: nat): (r: seq<Byte>)
    ensures |r| == 4
  {
    var a: int, b: int, c: int, d: int := v % 0x100, v / 0x100 % 0x100, v / 0x1_0000 % 0x100, v / 0x100_0000 % 0x100;
    [a, b, c, d]
  }

  lemma Uint32Bytes(v: nat)
    requires v < B32
    ensures Uint32(Bytes32(v)) == v
  {
    Digits(v);
  }

  lemma Digits(v: nat)
    requires v < B32
    ensures v == v % 0x100 + 0x100 * (v / 0x100 % 0x100) + 0x1_0000 * (v / 0x1_0000 % 0x100) + 0x100_0000 * (v / 0x100_0000 % 0x100)
  {
    var a: nat, b: nat, c: nat := v / 0x100, v / 0x1_0000, v / 0x100_0000;
    assert v == 0x100 * a + v % 0x100;
    assert a == 0x100 * b + a % 0x100;
    assert b == 0x100 * c + b % 0x100;
    assert c < 0x100;
  }

  lemma BytesUint32(b: seq<Byte>)
    requires |b| == 4
    ensures Uint32(b) < B32 && Bytes32(Uint32(b)) == b
  {
    var b0: nat, b1: nat, b2: nat, b3: nat := b[0], b[1], b[2], b[3];
    var v := Uint32(b);
    assert v / 0x100 == b1 + 0x100 * b2 + 0x1_0000 * b3;
    assert v / 0x1_0000 == b2 + 0x100 * b3;
    assert v / 0x100_0000 == b3;
  }

  // ---------------------------------------------------------------- sending

  /** A message of kind `k` with a header from its range. */
  predicate IsMessage(c: Config, k: Kind, msg: seq<Byte>): (r: bool)
    requires |c.headers| == 4
    ensures r ==> |msg| >= SizeOf(k)
  {
    (if k == Transport then |msg| >= SizeOf(k) else |msg| == SizeOf(k)) && Contains(Header(c, k), Uint32(msg[..4]))
  }

  /** A padded message before masking; the nonce is what it begins with. */
  function Nonce(padding: seq<Byte>, msg: seq<Byte>): seq<Byte>
    requires |msg| >= NONCE_SIZE
  {
    (padding + msg)[..NONCE_SIZE]
  }

  function Sent(c: Config, stream: Stream, k: Kind, padding: seq<Byte>, msg: seq<Byte>): seq<Byte>
    requires |msg| >= SizeOf(k)
  {
    padding + Xored(c, stream, Nonce(padding, msg), msg, MaskedSize(k, |msg|), 0)
  }

  /** Byte `i` of a message of kind `k` is masked: all of a handshake message, type, index and counter of a transport message. */
  predicate Covered(c: Config, k: Kind, i: nat) {
    c.key != NO_KEY && (k == Transport ==> i < Fields(Transport))
  }

  /** What goes out: the padding as it is, and of the message exactly those bytes masked, each by its own byte of the key stream. */
  lemma SentExactly(c: Config, stream: Stream, k: Kind, padding: seq<Byte>, msg: seq<Byte>)
    requires |msg| >= SizeOf(k)
    ensures var packet := Sent(c, stream, k, padding, msg);
      && |packet| == |padding| + |msg| && packet[..|padding|] == padding
      && forall i :: 0 <= i < |msg| ==>
           packet[|padding| + i] == if Covered(c, k, i) then Xor8(msg[i], stream(c.key, (padding + msg)[..12], i)) else msg[i]
  {
    hide Xor8;
  }

  // ---------------------------------------------------------------- receiving

  /** The header found at a position, unmasked. */
  function HeaderAt(c: Config, stream: Stream, packet: seq<Byte>, at: nat): nat
    requires NONCE_SIZE <= |packet| && at + 4 <= |packet|
  {
    Uint32(Xored(c, stream, packet[..NONCE_SIZE], packet[at..at + 4], 4, 0))
  }

  predicate Matches(c: Config, stream: Stream, packet: seq<Byte>, k: Kind)
    requires |c.headers| == 4 && |c.paddings| == 4 && NONCE_SIZE <= |packet|
  {
    && (if k == Transport then |packet| >= Padding(c, k) + HEADER_SIZE else |packet| == Padding(c, k) + SizeOf(k))
    && Contains(Header(c, k), HeaderAt(c, stream, packet, Padding(c, k)))
  }

  /** The first kind that matches, in the order in which they are tried. */
  function Determine(c: Config, stream: Stream, packet: seq<Byte>): Option<Kind>
    requires |c.headers| == 4 && |c.paddings| == 4 && NONCE_SIZE <= |packet|
  {
    if Matches(c, stream, packet, Initiation) then Some(Initiation)
    else if Matches(c, stream, packet, Response) then Some(Response)
    else if Matches(c, stream, packet, Cookie) then Some(Cookie)
    else if Matches(c, stream, packet, Transport) then Some(Transport)
    else None
  }

  datatype Received = Received(kind: Kind, msg: seq<Byte>)

  /** Packets below the least size, of no kind, or too short for a transport message are dropped. */
  function Receive(c: Config, stream: Stream, packet: seq<Byte>): Option<Received>
    requires |c.headers| == 4 && |c.paddings| == 4
  {
    if |packet| < TRANSPORT_SIZE then None
    else
      var k := Determine(c, stream, packet);
      if k.None? || |packet| < Padding(c, k.value) + SizeOf(k.value) then None
      else
        var body := packet[Padding(c, k.value)..];
        Some(Received(k.value, Xored(c, stream, packet[..NONCE_SIZE], body, MaskedSize(k.value, |body|), 0)))
  }

  /** What is accepted: a message of the first kind that matches, without its padding, exactly those bytes unmasked. */
  lemma ReceivedExactly(c: Config, stream: Stream, packet: seq<Byte>)
    requires |c.headers| == 4 && |c.paddings| == 4 && Receive(c, stream, packet).Some?
    ensures var (k, msg) := (Receive(c, stream, packet).value.kind, Receive(c, stream, packet).value.msg);
      && |packet| == Padding(c, k) + |msg| >= SizeOf(Transport)
      && (if k == Transport then |msg| >= SizeOf(k) else |msg| == SizeOf(k))
      && forall i :: 0 <= i < |msg| ==>
           msg[i] == if Covered(c, k, i) then Xor8(packet[Padding(c, k) + i], stream(c.key, packet[..12], i)) else packet[Padding(c, k) + i]
  {
    hide Xor8, HeaderAt;
  }

  /** Byte `i` of a header at a position, unmasked by its byte of the key stream. */
  function Unmasked(c: Config, stream: Stream, packet: seq<Byte>, at: nat, i: nat): Byte
    requires NONCE_SIZE <= |packet| && at + i < |packet|
  {
    if c.key == NO_KEY then packet[at + i] else Xor8(packet[at + i], stream(c.key, packet[..12], i))
  }

  /** The header that a receiver reads at a position: four bytes, least significant first. */
  function ReadHeader(c: Config, stream: Stream, packet: seq<Byte>, at: nat): nat
    requires NONCE_SIZE <= |packet| && at + 4 <= |packet|
  {
    var b0: int, b1: int := Unmasked(c, stream, packet, at, 0), Unmasked(c, stream, packet, at, 1);
    var b2: int, b3: int := Unmasked(c, stream, packet, at, 2), Unmasked(c, stream, packet, at, 3);
    b0 + 0x100 * (b1 + 0x100 * (b2 + 0x100 * b3))
  }

  /** A packet could be one of kind `k`: it has the size for it and a header of that kind behind the padding. */
  predicate Fits(c: Config, stream: Stream, packet: seq<Byte>, k: Kind)
    requires |c.headers| == 4 && |c.paddings| == 4 && NONCE_SIZE <= |packet|
  {
    var n := |packet| - Padding(c, k);
    (if k == Transport then n >= Fields(k) else n == Fields(k)) && 4 <= n &&
    Header(c, k).lo <= ReadHeader(c, stream, packet, Padding(c, k)) <= Header(c, k).hi
  }

  /** It is taken for the first such kind in the order initiation, response, cookie reply, transport message, and dropped if there is none. */
  lemma DeterminedIff(c: Config, stream: Stream, packet: seq<Byte>, k: Kind)
    requires |c.headers| == 4 && |c.paddings| == 4 && NONCE_SIZE <= |packet|
    ensures Determine(c, stream, packet) == Some(k) <==> Fits(c, stream, packet, k) && forall j :: Earlier(j, k) ==> !Fits(c, stream, packet, j)
  {
    forall j ensures Fits(c, stream, packet, j) <==> Matches(c, stream, packet, j) {
      FitsMatches(c, stream, packet, j);
    }
    hide Fits, Matches;
  }

  /** Exactly such a packet is accepted, if it is not below the least size and a transport message has an authentication tag. */
  lemma AcceptedIff(c: Config, stream: Stream, packet: seq<Byte>, k: Kind)
    requires |c.headers| == 4 && |c.paddings| == 4
    ensures Receive(c, stream, packet).Some? && Receive(c, stream, packet).value.kind == k <==>
            && |packet| >= Fields(Transport) + TAG_SIZE && Fits(c, stream, packet, k) && (forall j :: Earlier(j, k) ==> !Fits(c, stream, packet, j))
            && (k == Transport ==> |packet| >= Padding(c, k) + Fields(k) + TAG_SIZE)
  {
    if |packet| >= TRANSPORT_SIZE {
      DeterminedIff(c, stream, packet, k);
      hide Determine, ReadHeader;
    }
  }

  lemma FitsMatches(c: Config, stream: Stream, packet: seq<Byte>, k: Kind)
    requires |c.headers| == 4 && |c.paddings| == 4 && NONCE_SIZE <= |packet|
    ensures Fits(c, stream, packet, k) <==> Matches(c, stream, packet, k)
  {
    assert SizeOf(k) >= 4;
    if Padding(c, k) + 4 <= |packet| {
      SameHeader(c, stream, packet, Padding(c, k));
    }
    hide ReadHeader, HeaderAt;
  }

  lemma SameHeader(c: Config, stream: Stream, packet: seq<Byte>, at: nat)
    requires NONCE_SIZE <= |packet| && at + 4 <= |packet|
    ensures ReadHeader(c, stream, packet, at) == HeaderAt(c, stream, packet, at)
  {
    hide Xor8;
  }

  // ---------------------------------------------------------------- packets are recognized

  predicate Earlier(j: Kind, k: Kind) {
    IndexOfKind(j) < IndexOfKind(k)
  }

  /** A packet of kind `k` can have the size that one of kind `j` has. */
  predicate SameSize(c: Config, j: Kind, k: Kind)
    requires |c.paddings| == 4 && j != Transport
  {
    if k == Transport then Padding(c, j) + SizeOf(j) >= Padding(c, k) + SizeOf(k)
    else Padding(c, j) + SizeOf(j) == Padding(c, k) + SizeOf(k)
  }

  /** A header as it looks masked. */
  function Masked(c: Config, stream: Stream, nonce: seq<Byte>, v: nat): (r: seq<Byte>)
    ensures |r| == 4
  {
    Xored(c, stream, nonce, Bytes32(v), 4, 0)
  }

  /** Masked headers of two kinds agree in the bytes where their places in a packet overlap. */
  predicate Agree(c: Config, stream: Stream, j: Kind, k: Kind, nonce: seq<Byte>, u: nat, v: nat)
    requires |c.paddings| == 4
  {
    var d := Padding(c, j) - Padding(c, k);
    forall i :: 0 <= i < 4 && 0 <= d + i < 4 ==> Masked(c, stream, nonce, u)[i] == Masked(c, stream, nonce, v)[d + i]
  }

  predicate Clashing(c: Config, stream: Stream, j: Kind, k: Kind, nonce: seq<Byte>, u: nat, v: nat)
    requires |c.headers| == 4 && |c.paddings| == 4
  {
    |nonce| == NONCE_SIZE && Contains(Header(c, j), u) && Contains(Header(c, k), v) && Agree(c, stream, j, k, nonce, u, v)
  }

  /** Some nonce and some headers of two kinds, whose packets can be of the same size, can be in one packet. */
  ghost predicate Clash(c: Config, stream: Stream, j: Kind, k: Kind)
    requires |c.headers| == 4 && |c.paddings| == 4
  {
    Earlier(j, k) && SameSize(c, j, k) && exists nonce, u, v :: Clashing(c, stream, j, k, nonce, u, v)
  }

  ghost predicate NoClash(c: Config, stream: Stream)
    requires |c.headers| == 4 && |c.paddings| == 4
  {
    forall j, k :: !Clash(c, stream, j, k)
  }

  /** Kinds whose packets can be of the same size have their headers at the same place. */
  predicate Clear(c: Config)
    requires |c.paddings| == 4
  {
    forall j, k :: Earlier(j, k) && SameSize(c, j, k) ==> Padding(c, j) == Padding(c, k)
  }

  lemma EqualPaddingsClear(c: Config)
    requires |c.paddings| == 4 && forall i :: 0 <= i < 4 ==> c.paddings[i] == c.paddings[0]
    ensures Clear(c)
  {
  }

  /** A packet begins with the nonce it was masked with, if it was masked at all. */
  lemma SameMask(c: Config, stream: Stream, k: Kind, padding: seq<Byte>, msg: seq<Byte>, i: nat)
    requires Shaped(c) && Safe(c) && |msg| >= SizeOf(k) && |padding| == Padding(c, k)
    ensures Mask(c, stream, Sent(c, stream, k, padding, msg)[..NONCE_SIZE], i) == Mask(c, stream, Nonce(padding, msg), i)
  {
    if c.key != NO_KEY {
      assert |padding| >= NONCE_SIZE;
      assert Sent(c, stream, k, padding, msg)[..NONCE_SIZE] == padding[..NONCE_SIZE] == Nonce(padding, msg);
    }
  }

  /** The header of a packet is found where its kind says. */
  lemma HeaderFound(c: Config, stream: Stream, k: Kind, padding: seq<Byte>, msg: seq<Byte>)
    requires Shaped(c) && Safe(c) && |msg| >= SizeOf(k) && |padding| == Padding(c, k)
    ensures HeaderAt(c, stream, Sent(c, stream, k, padding, msg), |padding|) == Uint32(msg[..4])
  {
    var packet := Sent(c, stream, k, padding, msg);
    var nonce, p := packet[..NONCE_SIZE], |padding|;
    var found := Xored(c, stream, nonce, packet[p..p + 4], 4, 0);
    forall i | 0 <= i < 4 ensures found[i] == msg[i] {
      SameMask(c, stream, k, padding, msg, i);
      XorTwice(msg[i], Mask(c, stream, nonce, i));
    }
    assert found == msg[..4];
  }

  /** The bytes of a packet where a header is found are that header, masked. */
  lemma HeaderBytes(c: Config, stream: Stream, packet: seq<Byte>, at: nat)
    requires NONCE_SIZE <= |packet| && at + 4 <= |packet|
    ensures packet[at..at + 4] == Masked(c, stream, packet[..NONCE_SIZE], HeaderAt(c, stream, packet, at))
  {
    var nonce, found := packet[..NONCE_SIZE], Xored(c, stream, packet[..NONCE_SIZE], packet[at..at + 4], 4, 0);
    BytesUint32(found);
    hide Bytes32, Uint32;
    forall i | 0 <= i < 4 ensures Xor8(found[i], Mask(c, stream, nonce, i)) == packet[at + i] {
      XorTwice(packet[at..at + 4][i], Mask(c, stream, nonce, i));
    }
  }

  /** A packet that could be of an earlier kind shows that headers clash. */
  lemma MatchClashes(c: Config, stream: Stream, j: Kind, k: Kind, padding: seq<Byte>, msg: seq<Byte>)
    requires Shaped(c) && Safe(c) && Earlier(j, k) && IsMessage(c, k, msg) && |padding| == Padding(c, k)
    requires Matches(c, stream, Sent(c, stream, k, padding, msg), j)
    ensures Clash(c, stream, j, k)
  {
    hide Safe, Masked, HeaderAt, Agree;
    var packet := Sent(c, stream, k, padding, msg);
    var nonce, at, p := packet[..NONCE_SIZE], Padding(c, j), |padding|;
    HeaderFound(c, stream, k, padding, msg);
    BothAgree(c, stream, j, k, packet);
    assert Clashing(c, stream, j, k, nonce, HeaderAt(c, stream, packet, at), HeaderAt(c, stream, packet, p));
  }

  /** Headers that are both found in one packet agree where they overlap. */
  lemma BothAgree(c: Config, stream: Stream, j: Kind, k: Kind, packet: seq<Byte>)
    requires |c.paddings| == 4 && NONCE_SIZE <= |packet| && Padding(c, j) + 4 <= |packet| && Padding(c, k) + 4 <= |packet|
    ensures Agree(c, stream, j, k, packet[..NONCE_SIZE], HeaderAt(c, stream, packet, Padding(c, j)), HeaderAt(c, stream, packet, Padding(c, k)))
  {
    hide Masked, HeaderAt;
    var nonce, at: int, p: int := packet[..NONCE_SIZE], Padding(c, j), Padding(c, k);
    var u, v := HeaderAt(c, stream, packet, at), HeaderAt(c, stream, packet, p);
    HeaderBytes(c, stream, packet, at);
    HeaderBytes(c, stream, packet, p);
    forall i | 0 <= i < 4 && 0 <= at - p + i < 4 ensures Masked(c, stream, nonce, u)[i] == Masked(c, stream, nonce, v)[at - p + i] {
      assert packet[at..at + 4][i] == packet[p..p + 4][at - p + i];
    }
  }

  /** Every packet is recognized as what it is, and unmasked to what was sent. */
  lemma Delivered(c: Config, stream: Stream, k: Kind, padding: seq<Byte>, msg: seq<Byte>)
    requires Shaped(c) && Safe(c) && NoClash(c, stream) && IsMessage(c, k, msg) && |padding| == Padding(c, k)
    ensures Receive(c, stream, Sent(c, stream, k, padding, msg)) == Some(Received(k, msg))
  {
    hide NoClash, Shaped, Safe, Matches, HeaderAt;
    var packet := Sent(c, stream, k, padding, msg);
    Recognized(c, stream, k, padding, msg);
    var nonce, body := packet[..NONCE_SIZE], packet[|padding|..];
    var out := Xored(c, stream, nonce, body, MaskedSize(k, |body|), 0);
    forall i | 0 <= i < |msg| ensures out[i] == msg[i] {
      SameMask(c, stream, k, padding, msg, i);
      XorTwice(msg[i], Mask(c, stream, nonce, i));
    }
    assert out == msg;
  }

  lemma NoClashHere(c: Config, stream: Stream, j: Kind, k: Kind)
    requires |c.headers| == 4 && |c.paddings| == 4 && NoClash(c, stream)
    ensures !Clash(c, stream, j, k)
  {
  }

  lemma Recognized(c: Config, stream: Stream, k: Kind, padding: seq<Byte>, msg: seq<Byte>)
    requires Shaped(c) && Safe(c) && NoClash(c, stream) && IsMessage(c, k, msg) && |padding| == Padding(c, k)
    ensures Determine(c, stream, Sent(c, stream, k, padding, msg)) == Some(k)
  {
    hide NoClash, Clash, Safe, HeaderAt;
    HeaderFound(c, stream, k, padding, msg);
    assert Matches(c, stream, Sent(c, stream, k, padding, msg), k);
    forall j | Earlier(j, k) ensures !Matches(c, stream, Sent(c, stream, k, padding, msg), j) {
      if Matches(c, stream, Sent(c, stream, k, padding, msg), j) {
        MatchClashes(c, stream, j, k, padding, msg);
        NoClashHere(c, stream, j, k);
      }
    }
  }

  lemma ClearNoClash(c: Config, stream: Stream)
    requires Shaped(c) && Safe(c) && Clear(c)
    ensures NoClash(c, stream)
  {
    forall j, k ensures !Clash(c, stream, j, k) {
      assert Earlier(j, k) ==> !Overlap(Header(c, j), Header(c, k));
      if Clash(c, stream, j, k) {
        var nonce, u, v :| Clashing(c, stream, j, k, nonce, u, v);
        SameMasked(c, stream, nonce, u, v);
        assert false;
      }
    }
  }

  lemma SameMasked(c: Config, stream: Stream, nonce: seq<Byte>, u: nat, v: nat)
    requires u < B32 && v < B32 && forall i :: 0 <= i < 4 ==> Masked(c, stream, nonce, u)[i] == Masked(c, stream, nonce, v)[i]
    ensures u == v
  {
    hide Bytes32, Uint32, Mask;
    forall i | 0 <= i < 4 ensures Bytes32(u)[i] == Bytes32(v)[i] {
      XorTwice(Bytes32(u)[i], Mask(c, stream, nonce, i));
      XorTwice(Bytes32(v)[i], Mask(c, stream, nonce, i));
      assert Masked(c, stream, nonce, u)[i] == Masked(c, stream, nonce, v)[i];
    }
    assert Bytes32(u) == Bytes32(v);
    Uint32Bytes(u);
    Uint32Bytes(v);
  }

  // ---------------------------------------------------------------- and otherwise they need not be

  /** Padding for a message of kind `k` with a nonce, and with the masked header of kind `j` as far as it falls into it. */
  function LurePadding(c: Config, stream: Stream, j: Kind, k: Kind, nonce: seq<Byte>, u: nat): (r: seq<Byte>)
    requires |c.paddings| == 4 && |nonce| == NONCE_SIZE
    ensures |r| == Padding(c, k)
  {
    var at := Padding(c, j);
    seq(Padding(c, k), q requires 0 <= q =>
      if at <= q < at + 4 then Masked(c, stream, nonce, u)[q - at] else if q < NONCE_SIZE then nonce[q] else 0)
  }

  /** What masks byte `q` of a message of `n` bytes. */
  function Hidden(c: Config, stream: Stream, k: Kind, nonce: seq<Byte>, n: nat, q: nat): Byte {
    if q < MaskedSize(k, n) then Mask(c, stream, nonce, q) else 0
  }

  /** A message of kind `k` that looks, once masked, as if it had the masked header of kind `j` in it. */
  function LureMessage(c: Config, stream: Stream, j: Kind, k: Kind, nonce: seq<Byte>, u: nat, v: nat, n: nat): (r: seq<Byte>)
    requires |c.paddings| == 4
    ensures |r| == n
  {
    seq(n, q requires 0 <= q < n => LureMessageAt(c, stream, j, k, nonce, u, v, n, q))
  }

  function LureMessageAt(c: Config, stream: Stream, j: Kind, k: Kind, nonce: seq<Byte>, u: nat, v: nat, n: nat, q: nat): Byte
    requires |c.paddings| == 4
  {
    var d := Padding(c, j) - Padding(c, k);
    if q < 4 then Bytes32(v)[q]
    else if d <= q < d + 4 then Xor8(Masked(c, stream, nonce, u)[q - d], Hidden(c, stream, k, nonce, n, q))
    else 0
  }

  lemma LureNonce(c: Config, stream: Stream, j: Kind, k: Kind, nonce: seq<Byte>, u: nat, msg: seq<Byte>, i: nat)
    requires Shaped(c) && Safe(c) && |msg| >= NONCE_SIZE == |nonce|
    ensures Mask(c, stream, Nonce(LurePadding(c, stream, j, k, nonce, u), msg), i) == Mask(c, stream, nonce, i)
  {
    if c.key != NO_KEY {
      assert Padding(c, j) >= NONCE_SIZE && Padding(c, k) >= NONCE_SIZE;
      assert Nonce(LurePadding(c, stream, j, k, nonce, u), msg) == nonce;
    }
  }

  /** The size of the message in a packet of kind `k` that is as long as one of kind `j`. */
  function LureSize(c: Config, j: Kind, k: Kind): (n: nat)
    requires |c.paddings| == 4 && Earlier(j, k) && SameSize(c, j, k)
    ensures if k == Transport then n >= SizeOf(k) else n == SizeOf(k)
    ensures SizeOf(k) >= TRANSPORT_SIZE && Padding(c, k) + n == Padding(c, j) + SizeOf(j) && SizeOf(j) >= TRANSPORT_SIZE
  {
    Padding(c, j) + SizeOf(j) - Padding(c, k)
  }

  /** The packet that looks like one of kind `j`. */
  function LurePacket(c: Config, stream: Stream, j: Kind, k: Kind, nonce: seq<Byte>, u: nat, v: nat): (r: seq<Byte>)
    requires |c.paddings| == 4 && |nonce| == NONCE_SIZE && Earlier(j, k) && SameSize(c, j, k)
    ensures |r| == Padding(c, j) + SizeOf(j)
  {
    Sent(c, stream, k, LurePadding(c, stream, j, k, nonce, u), LureMessage(c, stream, j, k, nonce, u, v, LureSize(c, j, k)))
  }

  lemma SentMessage(c: Config, stream: Stream, k: Kind, padding: seq<Byte>, msg: seq<Byte>, q: nat)
    requires q < |msg| && |msg| >= SizeOf(k)
    ensures |Sent(c, stream, k, padding, msg)| == |padding| + |msg|
    ensures Sent(c, stream, k, padding, msg)[|padding| + q] == Xor8(msg[q], Hidden(c, stream, k, Nonce(padding, msg), |msg|, q))
  {
  }

  lemma SentPadding(c: Config, stream: Stream, k: Kind, padding: seq<Byte>, msg: seq<Byte>, q: nat)
    requires q < |padding| && |msg| >= SizeOf(k)
    ensures |Sent(c, stream, k, padding, msg)| == |padding| + |msg|
    ensures Sent(c, stream, k, padding, msg)[q] == padding[q]
  {
  }

  /** A byte of the message, in the header or behind it. */
  lemma LureInMessage(c: Config, stream: Stream, j: Kind, k: Kind, nonce: seq<Byte>, u: nat, v: nat, n: nat, i: nat)
    requires Shaped(c) && Safe(c) && |nonce| == NONCE_SIZE && Clashing(c, stream, j, k, nonce, u, v)
    requires i < 4 && 0 <= Padding(c, j) + i - Padding(c, k) < n && n >= SizeOf(k) >= TRANSPORT_SIZE
    ensures Sent(c, stream, k, LurePadding(c, stream, j, k, nonce, u), LureMessage(c, stream, j, k, nonce, u, v, n))[Padding(c, j) + i]
            == Masked(c, stream, nonce, u)[i]
  {
    hide Safe, Masked, Mask, Sent, LurePadding, LureMessage, SizeOf, Padding, Xor8, Clashing, LureMessageAt;
    var q := Padding(c, j) + i - Padding(c, k);
    var padding, msg := LurePadding(c, stream, j, k, nonce, u), LureMessage(c, stream, j, k, nonce, u, v, n);
    SentMessage(c, stream, k, padding, msg, q);
    LureNonce(c, stream, j, k, nonce, u, msg, q);
    LureMessageByte(c, stream, j, k, nonce, u, v, n, i);
  }

  /** Masking a byte of the message shows the lure. */
  lemma LureMessageByte(c: Config, stream: Stream, j: Kind, k: Kind, nonce: seq<Byte>, u: nat, v: nat, n: nat, i: nat)
    requires |c.headers| == 4 && |c.paddings| == 4 && Clashing(c, stream, j, k, nonce, u, v)
    requires i < 4 && 0 <= Padding(c, j) + i - Padding(c, k) < n && n >= SizeOf(k) >= TRANSPORT_SIZE
    ensures var q := Padding(c, j) + i - Padding(c, k);
            Xor8(LureMessage(c, stream, j, k, nonce, u, v, n)[q], Hidden(c, stream, k, nonce, n, q)) == Masked(c, stream, nonce, u)[i]
  {
    var q := Padding(c, j) + i - Padding(c, k);
    assert LureMessage(c, stream, j, k, nonce, u, v, n)[q] == LureMessageAt(c, stream, j, k, nonce, u, v, n, q);
    hide LureMessage, Bytes32, Mask, Xor8, Padding, Header;
    if q < 4 {
      assert Masked(c, stream, nonce, u)[i] == Masked(c, stream, nonce, v)[q];
      assert Masked(c, stream, nonce, v)[q] == Xor8(Bytes32(v)[q], Mask(c, stream, nonce, q));
    } else {
      XorTwice(Masked(c, stream, nonce, u)[i], Hidden(c, stream, k, nonce, n, q));
    }
  }

  /** The lure is where a receiver looks for the header of kind `j`. */
  lemma LureFound(c: Config, stream: Stream, j: Kind, k: Kind, nonce: seq<Byte>, u: nat, v: nat, i: nat)
    requires Shaped(c) && Safe(c) && Earlier(j, k) && SameSize(c, j, k) && Clashing(c, stream, j, k, nonce, u, v) && i < 4
    ensures LurePacket(c, stream, j, k, nonce, u, v)[Padding(c, j) + i] == Masked(c, stream, nonce, u)[i]
  {
    hide Safe, Masked, Mask, Sent, LureMessage, SizeOf, Padding, Earlier, SameSize, Agree, LureSize;
    var n := LureSize(c, j, k);
    if Padding(c, j) + i >= Padding(c, k) {
      LureInMessage(c, stream, j, k, nonce, u, v, n, i);
    } else {
      SentPadding(c, stream, k, LurePadding(c, stream, j, k, nonce, u), LureMessage(c, stream, j, k, nonce, u, v, n), Padding(c, j) + i);
    }
  }

  lemma LureByte(c: Config, stream: Stream, j: Kind, k: Kind, nonce: seq<Byte>, u: nat, v: nat, i: nat)
    requires Shaped(c) && Safe(c) && Earlier(j, k) && SameSize(c, j, k) && Clashing(c, stream, j, k, nonce, u, v) && i < 4
    ensures var packet := LurePacket(c, stream, j, k, nonce, u, v);
            packet[Padding(c, j) + i] == Xor8(Bytes32(u)[i], Mask(c, stream, packet[..NONCE_SIZE], i))
  {
    var n := LureSize(c, j, k);
    LureFound(c, stream, j, k, nonce, u, v, i);
    SameMask(c, stream, k, LurePadding(c, stream, j, k, nonce, u), LureMessage(c, stream, j, k, nonce, u, v, n), i);
    LureNonce(c, stream, j, k, nonce, u, LureMessage(c, stream, j, k, nonce, u, v, n), i);
    hide Safe, Shaped, Mask, Bytes32, Sent, LurePadding, LureMessage;
  }

  lemma HeaderIs(c: Config, stream: Stream, packet: seq<Byte>, at: nat, lo: nat)
    requires NONCE_SIZE <= |packet| && at + 4 <= |packet| && lo < B32
    requires forall i :: 0 <= i < 4 ==> packet[at + i] == Xor8(Bytes32(lo)[i], Mask(c, stream, packet[..NONCE_SIZE], i))
    ensures HeaderAt(c, stream, packet, at) == lo
  {
    Uint32Bytes(lo);
    hide Mask, Bytes32, Uint32;
    var found := Xored(c, stream, packet[..NONCE_SIZE], packet[at..at + 4], 4, 0);
    forall i | 0 <= i < 4 ensures found[i] == Bytes32(lo)[i] {
      assert packet[at..at + 4][i] == packet[at + i];
      XorTwice(Bytes32(lo)[i], Mask(c, stream, packet[..NONCE_SIZE], i));
    }
    assert found == Bytes32(lo);
  }

  lemma LureMatches(c: Config, stream: Stream, j: Kind, k: Kind, nonce: seq<Byte>, u: nat, v: nat)
    requires Shaped(c) && Safe(c) && Earlier(j, k) && SameSize(c, j, k) && Clashing(c, stream, j, k, nonce, u, v)
    ensures Matches(c, stream, LurePacket(c, stream, j, k, nonce, u, v), j)
  {
    hide Safe, Mask, Bytes32, LurePacket, HeaderAt, Agree;
    var packet, at := LurePacket(c, stream, j, k, nonce, u, v), Padding(c, j);
    forall i | 0 <= i < 4 ensures packet[at + i] == Xor8(Bytes32(u)[i], Mask(c, stream, packet[..NONCE_SIZE], i)) {
      LureByte(c, stream, j, k, nonce, u, v, i);
    }
    HeaderIs(c, stream, packet, at, u);
  }

  lemma LureIsMessage(c: Config, stream: Stream, j: Kind, k: Kind, nonce: seq<Byte>, u: nat, v: nat, n: nat)
    requires Shaped(c) && Contains(Header(c, k), v) && (if k == Transport then n >= SizeOf(k) else n == SizeOf(k))
    ensures IsMessage(c, k, LureMessage(c, stream, j, k, nonce, u, v, n))
  {
    var msg := LureMessage(c, stream, j, k, nonce, u, v, n);
    Uint32Bytes(v);
    hide Bytes32, Uint32, Masked, Hidden;
    assert msg[..4] == Bytes32(v);
  }

  /** If headers clash, a packet of kind `k` can be taken for one of kind `j`. */
  lemma Misread(c: Config, stream: Stream, j: Kind, k: Kind, nonce: seq<Byte>, u: nat, v: nat) returns (padding: seq<Byte>, msg: seq<Byte>)
    requires Shaped(c) && Safe(c) && Earlier(j, k) && SameSize(c, j, k) && Clashing(c, stream, j, k, nonce, u, v)
    ensures |padding| == Padding(c, k) && IsMessage(c, k, msg)
    ensures Determine(c, stream, Sent(c, stream, k, padding, msg)) != Some(k)
  {
    hide Safe, Sent, IsMessage, LurePadding, LureMessage, Determine, Matches, SizeOf, Padding, SameSize, Agree, LureSize;
    var n := LureSize(c, j, k);
    padding, msg := LurePadding(c, stream, j, k, nonce, u), LureMessage(c, stream, j, k, nonce, u, v, n);
    LureIsMessage(c, stream, j, k, nonce, u, v, n);
    LureMatches(c, stream, j, k, nonce, u, v);
    EarlierWins(c, stream, LurePacket(c, stream, j, k, nonce, u, v), j, k);
  }

  lemma EarlierWins(c: Config, stream: Stream, packet: seq<Byte>, j: Kind, k: Kind)
    requires |c.headers| == 4 && |c.paddings| == 4 && NONCE_SIZE <= |packet| && Matches(c, stream, packet, j) && Earlier(j, k)
    ensures Determine(c, stream, packet) != Some(k)
  {
    hide Matches;
  }

  ghost predicate AllDelivered(c: Config, stream: Stream)
    requires Shaped(c)
  {
    forall k, padding, msg :: IsMessage(c, k, msg) && |padding| == Padding(c, k) ==>
                                Receive(c, stream, Sent(c, stream, k, padding, msg)) == Some(Received(k, msg))
  }

  /** All packets are delivered exactly if no headers clash. */
  lemma DeliveredIff(c: Config, stream: Stream)
    requires Shaped(c) && Safe(c)
    ensures AllDelivered(c, stream) <==> NoClash(c, stream)
  {
    hide Receive, Sent, IsMessage, Safe, Clashing, Earlier, SameSize;
    if NoClash(c, stream) {
      forall k, padding, msg | IsMessage(c, k, msg) && |padding| == Padding(c, k)
        ensures Receive(c, stream, Sent(c, stream, k, padding, msg)) == Some(Received(k, msg))
      {
        Delivered(c, stream, k, padding, msg);
      }
    } else {
      var j, k :| Clash(c, stream, j, k);
      var nonce, u, v :| Clashing(c, stream, j, k, nonce, u, v);
      var padding, msg := Misread(c, stream, j, k, nonce, u, v);
      OtherKind(c, stream, k, padding, msg);
    }
  }

  predicate Apart(a: nat, b: nat) {
    a + 4 <= b || b + 4 <= a
  }

  /** Headers whose places do not overlap always clash, so that such settings must not have packets of the same size. */
  lemma ApartClash(c: Config, stream: Stream, j: Kind, k: Kind)
    requires Shaped(c) && Earlier(j, k) && SameSize(c, j, k) && Apart(Padding(c, j), Padding(c, k))
    ensures Clash(c, stream, j, k)
  {
    var nonce: seq<Byte> := [0, 0, 0, 0, 0, 0, 0, 0, 0, 0, 0, 0];
    assert Clashing(c, stream, j, k, nonce, Header(c, j).lo, Header(c, k).lo);
  }

  /** Without a key a clash is a matter of the header ranges alone. */
  lemma ClashWithoutKey(c: Config, stream: Stream, j: Kind, k: Kind)
    requires Shaped(c) && c.key == NO_KEY && Earlier(j, k) && SameSize(c, j, k)
    ensures Clash(c, stream, j, k) <==> exists u, v :: Contains(Header(c, j), u) && Contains(Header(c, k), v) && BytesAgree(u, v, Padding(c, j) - Padding(c, k))
  {
    hide SameSize, Bytes32;
    var nonce: seq<Byte> := [0, 0, 0, 0, 0, 0, 0, 0, 0, 0, 0, 0];
    var d := Padding(c, j) - Padding(c, k);
    forall n: seq<Byte>, u, v ensures Agree(c, stream, j, k, n, u, v) <==> BytesAgree(u, v, d) {
      assert Masked(c, stream, n, u) == Bytes32(u) && Masked(c, stream, n, v) == Bytes32(v);
    }
    if u, v :| Contains(Header(c, j), u) && Contains(Header(c, k), v) && BytesAgree(u, v, d) {
      assert Clashing(c, stream, j, k, nonce, u, v);
    }
    if nonce', u, v :| Clashing(c, stream, j, k, nonce', u, v) {
      assert BytesAgree(u, v, d);
    }
  }

  predicate BytesAgree(u: nat, v: nat, d: int) {
    forall i :: 0 <= i < 4 && 0 <= d + i < 4 ==> Bytes32(u)[i] == Bytes32(v)[d + i]
  }

  lemma OtherKind(c: Config, stream: Stream, k: Kind, padding: seq<Byte>, msg: seq<Byte>)
    requires Shaped(c) && IsMessage(c, k, msg) && Determine(c, stream, Sent(c, stream, k, padding, msg)) != Some(k)
    ensures Receive(c, stream, Sent(c, stream, k, padding, msg)) != Some(Received(k, msg))
  {
  }

  // ---------------------------------------------------------------- in place

  /** Masks or unmasks the bytes from `from` up to `to`, taking the key stream from position `at` on. */
  method XorKeyStream(c: Config, stream: Stream, nonce: seq<Byte>, buf: array<Byte>, from: nat, to: nat, at: nat)
    requires from <= to <= buf.Length
    modifies buf
    ensures forall q :: 0 <= q < buf.Length ==>
                          buf[q] == if from <= q < to then Xor8(old(buf[q]), Mask(c, stream, nonce, at + q - from)) else old(buf[q])
  {
    var i := from;
    while i < to
      invariant from <= i <= to
      invariant forall q :: 0 <= q < buf.Length ==>
                              buf[q] == if from <= q < i then Xor8(old(buf[q]), Mask(c, stream, nonce, at + q - from)) else old(buf[q])
    {
      buf[i] := Xor8(buf[i], Mask(c, stream, nonce, at + i - from));
      i := i + 1;
    }
  }

  /** The buffer holds random padding and a message; without a key nothing is masked. */
  method SendInPlace(c: Config, stream: Stream, k: Kind, buf: array<Byte>, padding: nat)
    requires padding + SizeOf(k) <= buf.Length
    modifies buf
    ensures buf[..] == Sent(c, stream, k, old(buf[..padding]), old(buf[padding..]))
    ensures forall q :: 0 <= q < buf.Length ==>
                          buf[q] == if padding <= q && Covered(c, k, q - padding) then Xor8(old(buf[q]), stream(c.key, old(buf[..12]), q - padding))
                                    else old(buf[q])
  {
    hide Mask, Xor8, Xored, Sent;
    ghost var before := buf[..];
    var nonce, end := buf[..NONCE_SIZE], padding + MaskedSize(k, buf.Length - padding);
    if c.key != NO_KEY {
      XorKeyStream(c, stream, nonce, buf, padding, end, 0);
    }
    MaskIs(c, stream, nonce);
    SentWhole(c, stream, k, before, buf[..], padding);
  }

  lemma MaskIs(c: Config, stream: Stream, nonce: seq<Byte>)
    ensures forall i :: Mask(c, stream, nonce, i) == if c.key == NO_KEY then 0 else stream(c.key, nonce, i)
  {
  }

  lemma SentWhole(c: Config, stream: Stream, k: Kind, before: seq<Byte>, after: seq<Byte>, padding: nat)
    requires |before| == |after| >= padding + SizeOf(k)
    requires var end := padding + MaskedSize(k, |before| - padding);
             forall q :: 0 <= q < |before| ==>
                           after[q] == if padding <= q < end then Xor8(before[q], Mask(c, stream, before[..NONCE_SIZE], q - padding)) else before[q]
    ensures after == Sent(c, stream, k, before[..padding], before[padding..])
  {
    hide Mask, Xor8;
    var pad, msg := before[..padding], before[padding..];
    assert pad + msg == before;
    var masked := Xored(c, stream, before[..NONCE_SIZE], msg, MaskedSize(k, |msg|), 0);
    assert forall q :: 0 <= q < |msg| ==> after[padding + q] == masked[q];
  }

  lemma NoMask(c: Config, stream: Stream, nonce: seq<Byte>, b: seq<Byte>, n: nat)
    requires c.key == NO_KEY && n <= |b|
    ensures Xored(c, stream, nonce, b, n, 0) == b
  {
  }

  /** Unmasks a packet in place and tells its kind, or drops it. */
  method ReceiveInPlace(c: Config, stream: Stream, buf: array<Byte>) returns (r: Option<Kind>)
    requires |c.headers| == 4 && |c.paddings| == 4
    modifies buf
    ensures r.Some? <==> Receive(c, stream, old(buf[..])).Some?
    ensures r.Some? ==> var got := Receive(c, stream, old(buf[..])).value;
                        r.value == got.kind && Padding(c, got.kind) <= buf.Length && buf[Padding(c, got.kind)..] == got.msg
  {
    hide Determine, Mask, Xored;
    if buf.Length < TRANSPORT_SIZE {
      return None;
    }
    ghost var packet := buf[..];
    var nonce := buf[..NONCE_SIZE];
    var kind := Determine(c, stream, buf[..]);
    if kind.None? {
      return None;
    }
    var padding := Padding(c, kind.value);
    DetermineFits(c, stream, packet);
    if c.key != NO_KEY {
      XorKeyStream(c, stream, nonce, buf, padding, padding + 4, 0);
    }
    if buf.Length < padding + SizeOf(kind.value) {
      return None;
    }
    var end := padding + MaskedSize(kind.value, buf.Length - padding);
    if c.key != NO_KEY {
      XorKeyStream(c, stream, nonce, buf, padding + 4, end, 4);
    } else {
      NoMask(c, stream, nonce, packet[padding..], end - padding);
    }
    ghost var body := packet[padding..];
    assert buf[padding..] == Xored(c, stream, nonce, body, MaskedSize(kind.value, |body|), 0);
    return kind;
  }

  lemma DetermineFits(c: Config, stream: Stream, packet: seq<Byte>)
    requires |c.headers| == 4 && |c.paddings| == 4 && NONCE_SIZE <= |packet|
    ensures Determine(c, stream, packet).Some? ==> Padding(c, Determine(c, stream, packet).value) + HEADER_SIZE <= |packet|
  {
  }
}
