/** The messages of the control channel and their encoding, big-endian and without padding. */
module Codec {
  import opened Basics
  import opened Text

  type Bytes = seq<Byte>

  /** An address may be missing, and one of the longer kind may have a zone. */
  datatype Addr = NoAddr | V4(bytes: Bytes) | V6(bytes: Bytes, zone: string)

  datatype AddrPort = AddrPort(addr: Addr, port: nat)

  datatype Message =
    | Hello(role: Byte, publicKey: Bytes, version: Byte)
    | XInfo(probePortA: nat, probePortB: nat, nativePort: nat, cloakedPort: nat)
    | NatProbeRequest(probeId: nat, port: nat)
    | NatProbeResponse(probeId: nat, observed: AddrPort)
    | NativeEndpointReport(sessionId: Bytes, external: AddrPort)
    | NativeReady(sessionId: Bytes)
    | NativeFailed(sessionId: Bytes, reason: Bytes)
    | ModeDecision(sessionId: Bytes, mode: Byte, reason: Bytes)
    | CloakedParams(numbers: seq<nat>, hasKey: bool, key: Bytes, endpoint: AddrPort)
    | Ping(nonce: nat)
    | Pong(nonce: nat)
    | Bye(reason: Bytes)

  function TypeOf(m: Message): nat {
    match m
    case Hello(_, _, _) => 1
    case XInfo(_, _, _, _) => 2
    case NatProbeRequest(_, _) => 3
    case NatProbeResponse(_, _) => 4
    case NativeEndpointReport(_, _) => 5
    case NativeReady(_) => 6
    case NativeFailed(_, _) => 7
    case ModeDecision(_, _, _) => 8
    case CloakedParams(_, _, _, _) => 9
    case Ping(_) => 10
    case Pong(_) => 11
    case Bye(_) => 12
  }

  // ---------------------------------------------------------------- the widths of fields

  predicate AddrPortTyped(a: AddrPort) {
    a.port < B16 && (a.addr.V4? ==> |a.addr.bytes| == 4) && (a.addr.V6? ==> |a.addr.bytes| == 16)
  }

  predicate AllUint32(numbers: seq<nat>) {
    forall i :: 0 <= i < |numbers| ==> numbers[i] < B32
  }

  /** Fields have the sizes their types give them; strings may have any length. */
  predicate Typed(m: Message) {
    match m
    case Hello(_, publicKey, _) => |publicKey| == 32
    case XInfo(a, b, c, d) => a < B16 && b < B16 && c < B16 && d < B16
    case NatProbeRequest(id, port) => id < B64 && port < B16
    case NatProbeResponse(id, observed) => id < B64 && AddrPortTyped(observed)
    case NativeEndpointReport(sid, external) => |sid| == 16 && AddrPortTyped(external)
    case NativeReady(sid) => |sid| == 16
    case NativeFailed(sid, _) => |sid| == 16
    case ModeDecision(sid, _, _) => |sid| == 16
    case CloakedParams(numbers, _, key, endpoint) =>
      |numbers| == 12 && AllUint32(numbers) && |key| == 32 && AddrPortTyped(endpoint)
    case Ping(nonce) => nonce < B64
    case Pong(nonce) => nonce < B64
    case Bye(_) => true
  }

  // ---------------------------------------------------------------- helpers

  /** The last `n` bytes of `v`, most significant first. */
  function PutUint(v: nat, n: nat): (r: Bytes)
    ensures |r| == n
    decreases n
  {
    if n == 0 then [] else
      var low: int := v % 256;
      PutUint(v / 256, n - 1) + [low]
  }

  lemma {:induction false} UintPut(v: nat, n: nat)
    ensures BigEndian(PutUint(v, n)) == v % Pow256(n)
    decreases n
  {
    if n > 0 {
      UintPut(v / 256, n - 1);
      var b := PutUint(v, n);
      assert b[..n - 1] == PutUint(v / 256, n - 1);
      ModSplit(v, Pow256(n - 1));
    }
  }

  lemma ModSplit(v: nat, p: nat)
    requires p > 0
    ensures 256 * (v / 256 % p) + v % 256 == v % (256 * p)
  {
    var q, r := v / 256 / p, v / 256 % p;
    assert v / 256 == q * p + r;
    assert v == q * (256 * p) + (256 * r + v % 256);
    assert 0 <= 256 * r + v % 256 < 256 * p;
    DivUnique(v, 256 * p, q, 256 * r + v % 256);
  }

  lemma DivUnique(x: nat, g: nat, q: nat, r: nat)
    requires x == q * g + r && r < g
    ensures x % g == r
  {
    var q', r' := x / g, x % g;
    assert x == q' * g + r';
    assert (q - q') * g == r' - r;
    Multiples(q - q', g);
  }

  lemma Multiples(d: int, g: int)
    requires g > 0
    ensures d >= 1 ==> d * g >= g
    ensures d <= -1 ==> d * g <= -g
  {
  }

  function Get(b: Bytes, n: nat): Option<(nat, Bytes)> {
    if |b| < n then None else Some((BigEndian(b[..n]), b[n..]))
  }

  lemma Powers()
    ensures Pow256(2) == B16 && Pow256(4) == B32 && Pow256(8) == B64
  {
    assert Pow256(1) == 256 && Pow256(2) == 0x1_0000 && Pow256(3) == 0x100_0000 && Pow256(4) == B32;
    assert Pow256(5) == 256 * B32 && Pow256(6) == 0x1_0000 * B32 && Pow256(7) == 0x100_0000 * B32 && Pow256(8) == B64;
  }

  lemma GetPut(v: nat, n: nat, rest: Bytes)
    requires v < Pow256(n)
    ensures Get(PutUint(v, n) + rest, n) == Some((v, rest))
  {
    UintPut(v, n);
    var b := PutUint(v, n) + rest;
    assert b[..n] == PutUint(v, n) && b[n..] == rest;
  }

  /** The length is cut down to 16 bits. */
  function PutString(s: Bytes): Bytes {
    PutUint(|s| % B16, 2) + s
  }

  function GetString(b: Bytes): Option<(Bytes, Bytes)> {
    var l := Get(b, 2);
    if l.None? || |l.value.1| < l.value.0 then None else Some((l.value.1[..l.value.0], l.value.1[l.value.0..]))
  }

  lemma GetPutString(s: Bytes, rest: Bytes)
    ensures GetString(PutString(s) + rest) == Some((s[..|s| % B16], s[|s| % B16..] + rest))
  {
    Powers();
    GetPut(|s| % B16, 2, s + rest);
    assert PutString(s) + rest == PutUint(|s| % B16, 2) + (s + rest);
    var l := |s| % B16;
    assert (s + rest)[..l] == s[..l] && (s + rest)[l..] == s[l..] + rest;
  }

  const ZEROS: Bytes := [0, 0, 0, 0, 0, 0, 0, 0, 0, 0, 0, 0, 0, 0, 0, 0]

  function AddrBytes(addr: Addr): Bytes {
    match addr
    case V4(bytes) => [4] + bytes
    case V6(bytes, _) => [6] + bytes
    case NoAddr => [6] + ZEROS
  }

  function PutAddrPort(a: AddrPort): Bytes {
    AddrBytes(a.addr) + PutUint(a.port, 2)
  }

  function GetAddrPort(b: Bytes): Option<(AddrPort, Bytes)> {
    if |b| < 1 || (b[0] != 4 && b[0] != 6) then None
    else
      var n := if b[0] == 4 then 4 else 16;
      if |b| < 1 + n then None
      else
        var port := Get(b[1 + n..], 2);
        if port.None? then None
        else Some((AddrPort(if n == 4 then V4(b[1..1 + n]) else V6(b[1..1 + n], ""), port.value.0), port.value.1))
  }

  /** What arrives of an address: a zone is lost, and a missing address turns up as the unspecified one. */
  function Arrives(a: AddrPort): AddrPort {
    match a.addr
    case V4(_) => a
    case V6(bytes, _) => AddrPort(V6(bytes, ""), a.port)
    case NoAddr => AddrPort(V6(ZEROS, ""), a.port)
  }

  lemma GetPutAddrPort(a: AddrPort, rest: Bytes)
    requires AddrPortTyped(a)
    ensures GetAddrPort(PutAddrPort(a) + rest) == Some((Arrives(a), rest))
  {
    Powers();
    GetPut(a.port, 2, rest);
    var bytes := if a.addr.NoAddr? then ZEROS else a.addr.bytes;
    var b := PutAddrPort(a) + rest;
    var n := |bytes|;
    assert b == [b[0]] + bytes + (PutUint(a.port, 2) + rest);
    assert b[1..1 + n] == bytes && b[1 + n..] == PutUint(a.port, 2) + rest;
  }

  function PutUint32s(vs: seq<nat>): Bytes {
    if vs == [] then [] else PutUint(vs[0], 4) + PutUint32s(vs[1..])
  }

  function GetUint32s(b: Bytes, n: nat): Option<(seq<nat>, Bytes)> {
    if n == 0 then Some(([], b))
    else
      var v := Get(b, 4);
      if v.None? then None
      else
        var rest := GetUint32s(v.value.1, n - 1);
        if rest.None? then None else Some(([v.value.0] + rest.value.0, rest.value.1))
  }

  lemma {:induction false} GetPutUint32s(vs: seq<nat>, rest: Bytes)
    requires AllUint32(vs)
    ensures GetUint32s(PutUint32s(vs) + rest, |vs|) == Some((vs, rest))
  {
    hide PutUint, BigEndian, Pow256, Get;
    if vs == [] {
      assert PutUint32s(vs) + rest == rest;
    } else {
      Powers();
      assert PutUint32s(vs) + rest == PutUint(vs[0], 4) + (PutUint32s(vs[1..]) + rest);
      GetPut(vs[0], 4, PutUint32s(vs[1..]) + rest);
      GetPutUint32s(vs[1..], rest);
      assert [vs[0]] + vs[1..] == vs;
    }
  }

  // ---------------------------------------------------------------- messages

  function Encode(m: Message): Bytes {
    match m
    case Hello(role, publicKey, version) => [role] + publicKey + [version]
    case XInfo(a, b, c, d) => PutUint(a, 2) + (PutUint(b, 2) + (PutUint(c, 2) + PutUint(d, 2)))
    case NatProbeRequest(id, port) => PutUint(id, 8) + PutUint(port, 2)
    case NatProbeResponse(id, observed) => PutUint(id, 8) + PutAddrPort(observed)
    case NativeEndpointReport(sid, external) => sid + PutAddrPort(external)
    case NativeReady(sid) => sid
    case NativeFailed(sid, reason) => sid + PutString(reason)
    case ModeDecision(sid, mode, reason) => sid + [mode] + PutString(reason)
    case CloakedParams(numbers, hasKey, key, endpoint) =>
      var flag: Bytes := [if hasKey then 1 else 0];
      PutUint32s(numbers) + (flag + key + PutAddrPort(endpoint))
    case Ping(nonce) => PutUint(nonce, 8)
    case Pong(nonce) => PutUint(nonce, 8)
    case Bye(reason) => PutString(reason)
  }

  function DecodeXInfo(b: Bytes): Option<Message> {
    var p := Get(b, 2);
    if p.None? then None else
      var q := Get(p.value.1, 2);
      if q.None? then None else
        var r := Get(q.value.1, 2);
        if r.None? then None else
          var s := Get(r.value.1, 2);
          if s.None? then None else Some(XInfo(p.value.0, q.value.0, r.value.0, s.value.0))
  }

  function DecodeCloaked(b: Bytes): Option<Message> {
    var vs := GetUint32s(b, 12);
    if vs.None? || |vs.value.1| < 33 then None
    else
      var rest := vs.value.1;
      var ap := GetAddrPort(rest[33..]);
      if ap.None? then None else Some(CloakedParams(vs.value.0, rest[0] == 1, rest[1..33], ap.value.0))
  }

  function Decode(t: nat, b: Bytes): Option<Message> {
    match t
    case 1 => if |b| < 34 then None else Some(Hello(b[0], b[1..33], b[33]))
    case 2 => DecodeXInfo(b)
    case 3 =>
      var id := Get(b, 8);
      if id.None? then None else
        var port := Get(id.value.1, 2);
        if port.None? then None else Some(NatProbeRequest(id.value.0, port.value.0))
    case 4 =>
      var id := Get(b, 8);
      if id.None? then None else
        var ap := GetAddrPort(id.value.1);
        if ap.None? then None else Some(NatProbeResponse(id.value.0, ap.value.0))
    case 5 =>
      if |b| < 16 then None else
        var ap := GetAddrPort(b[16..]);
        if ap.None? then None else Some(NativeEndpointReport(b[..16], ap.value.0))
    case 6 => if |b| < 16 then None else Some(NativeReady(b[..16]))
    case 7 =>
      if |b| < 16 then None else
        var s := GetString(b[16..]);
        if s.None? then None else Some(NativeFailed(b[..16], s.value.0))
    case 8 =>
      if |b| < 17 then None else
        var s := GetString(b[17..]);
        if s.None? then None else Some(ModeDecision(b[..16], b[16], s.value.0))
    case 9 => DecodeCloaked(b)
    case 10 => var v := Get(b, 8); if v.None? then None else Some(Ping(v.value.0))
    case 11 => var v := Get(b, 8); if v.None? then None else Some(Pong(v.value.0))
    case 12 => var s := GetString(b); if s.None? then None else Some(Bye(s.value.0))
    case _ => None
  }

  // ---------------------------------------------------------------- where everything is

  /** The number in the bytes of `b` from `at` up to `to`. */
  function Number(b: Bytes, at: nat, to: nat): nat
    requires at <= to <= |b|
  {
    BigEndian(b[at..to])
  }

  /** An address and a port are all that is left from `at` on: the version, the address, and two bytes. */
  predicate AddrAt(b: Bytes, at: nat, a: AddrPort) {
    var n := if a.addr.V4? then 4 else 16;
    && |b| == at + 1 + n + 2 && b[at] == (if a.addr.V4? then 4 else 6)
    && b[at + 1..at + 1 + n] == (if a.addr.NoAddr? then ZEROS else a.addr.bytes) && Number(b, at + 1 + n, at + 3 + n) == a.port
  }

  /** A string is: its length in two bytes, as far as they go, and all of it. */
  predicate StringAt(b: Bytes, at: nat, s: Bytes) {
    |b| == at + 2 + |s| && Number(b, at, at + 2) == |s| % B16 && b[at + 2..] == s
  }

  /** A message of type `t` with the body `b`, by position. */
  predicate Laid(m: Message, t: nat, b: Bytes) {
    match m
    case Hello(role, publicKey, version) => t == 1 && |b| == 34 && b[0] == role && b[1..33] == publicKey && b[33] == version
    case XInfo(probeA, probeB, native, cloaked) =>
      t == 2 && |b| == 8 && Number(b, 0, 2) == probeA && Number(b, 2, 4) == probeB && Number(b, 4, 6) == native && Number(b, 6, 8) == cloaked
    case NatProbeRequest(id, port) => t == 3 && |b| == 10 && Number(b, 0, 8) == id && Number(b, 8, 10) == port
    case NatProbeResponse(id, observed) => t == 4 && |b| >= 8 && Number(b, 0, 8) == id && AddrAt(b, 8, observed)
    case NativeEndpointReport(sid, external) => t == 5 && |b| >= 16 && b[..16] == sid && AddrAt(b, 16, external)
    case NativeReady(sid) => t == 6 && |b| == 16 && b == sid
    case NativeFailed(sid, reason) => t == 7 && |b| >= 16 && b[..16] == sid && StringAt(b, 16, reason)
    case ModeDecision(sid, mode, reason) => t == 8 && |b| >= 17 && b[..16] == sid && b[16] == mode && StringAt(b, 17, reason)
    case CloakedParams(numbers, hasKey, key, endpoint) =>
      && t == 9 && |numbers| == 12 && |b| >= 81 && (forall i :: 0 <= i < 12 ==> Number(b, 4 * i, 4 * i + 4) == numbers[i])
      && b[48] == (if hasKey then 1 else 0) && b[49..81] == key && AddrAt(b, 81, endpoint)
    case Ping(nonce) => t == 10 && |b| == 8 && Number(b, 0, 8) == nonce
    case Pong(nonce) => t == 11 && |b| == 8 && Number(b, 0, 8) == nonce
    case Bye(reason) => t == 12 && StringAt(b, 0, reason)
  }

  /** The encoding puts everything there. */
  lemma LaidOut(m: Message)
    requires Typed(m)
    ensures Laid(m, TypeOf(m), Encode(m))
  {
    Powers();
    hide PutUint, BigEndian, Pow256, PutAddrPort, PutString, AddrAt, StringAt;
    var b := Encode(m);
    match m
    case Hello(role, publicKey, version) => assert b[1..33] == publicKey;
    case XInfo(p, q, r, s) => PortsLaid(p, q, r, s);
    case NatProbeRequest(id, port) => PutAt([], id, 8, PutUint(port, 2)); PutAt(PutUint(id, 8), port, 2, []); Plus(PutUint(id, 8), PutUint(port, 2));
    case NatProbeResponse(id, a) => PutAt([], id, 8, PutAddrPort(a)); Plus(PutUint(id, 8), PutAddrPort(a)); AddrLaid(PutUint(id, 8), a);
    case NativeEndpointReport(sid, a) => assert b[..16] == sid; AddrLaid(sid, a);
    case NativeReady(_) =>
    case NativeFailed(sid, reason) => assert b[..16] == sid; StringLaid(sid, reason);
    case ModeDecision(sid, mode, reason) => assert b[..16] == sid; StringLaid(sid + [mode], reason);
    case CloakedParams(_, _, _, _) => CloakedLaid(m);
    case Ping(nonce) => PutAt([], nonce, 8, []); Plus(PutUint(nonce, 8), []);
    case Pong(nonce) => PutAt([], nonce, 8, []); Plus(PutUint(nonce, 8), []);
    case Bye(reason) => StringLaid([], reason); Plus(PutString(reason), []);
  }

  lemma Plus(a: Bytes, b: Bytes)
    ensures [] + a == a && [] + a + b == a + b && a + b + [] == a + b && a + [] == a
  {
  }

  /** A number is where it was put. */
  lemma PutAt(before: Bytes, v: nat, n: nat, rest: Bytes)
    requires v < Pow256(n)
    ensures var b := before + PutUint(v, n) + rest; Number(b, |before|, |before| + n) == v
  {
    UintPut(v, n);
    hide PutUint, BigEndian, Pow256;
    var b := before + PutUint(v, n) + rest;
    assert b[|before|..|before| + n] == PutUint(v, n);
    SmallModulus(v, Pow256(n));
  }

  lemma SmallModulus(v: nat, p: nat)
    requires v < p
    ensures v % p == v
  {
  }

  lemma PortsLaid(p: nat, q: nat, r: nat, s: nat)
    requires p < B16 && q < B16 && r < B16 && s < B16
    ensures Laid(XInfo(p, q, r, s), 2, Encode(XInfo(p, q, r, s)))
  {
    Powers();
    hide PutUint, BigEndian, Pow256;
    var a, b, c, d := PutUint(p, 2), PutUint(q, 2), PutUint(r, 2), PutUint(s, 2);
    var e := Encode(XInfo(p, q, r, s));
    assert e == [] + a + (b + (c + d)) && e == a + b + (c + d) && e == (a + b) + c + d && e == (a + b + c) + d + [];
    PutAt([], p, 2, b + (c + d));
    PutAt(a, q, 2, c + d);
    PutAt(a + b, r, 2, d);
    PutAt(a + b + c, s, 2, []);
  }

  lemma AddrLaid(before: Bytes, a: AddrPort)
    requires AddrPortTyped(a)
    ensures AddrAt(before + PutAddrPort(a), |before|, a)
  {
    Powers();
    hide PutUint, BigEndian, Pow256;
    var b, n := before + PutAddrPort(a), if a.addr.V4? then 4 else 16;
    var bytes := if a.addr.NoAddr? then ZEROS else a.addr.bytes;
    assert |bytes| == n && b[|before| + 1..|before| + 1 + n] == bytes;
    assert b == before + AddrBytes(a.addr) + PutUint(a.port, 2) + [];
    PutAt(before + AddrBytes(a.addr), a.port, 2, []);
  }

  lemma StringLaid(before: Bytes, s: Bytes)
    ensures StringAt(before + PutString(s), |before|, s)
  {
    Powers();
    hide PutUint, BigEndian, Pow256;
    var b := before + PutString(s);
    assert b == before + PutUint(|s| % B16, 2) + s;
    PutAt(before, |s| % B16, 2, s);
  }

  lemma {:induction false} Uint32sLength(vs: seq<nat>)
    ensures |PutUint32s(vs)| == 4 * |vs|
  {
    if vs != [] {
      Uint32sLength(vs[1..]);
    }
  }

  lemma {:induction false} Uint32sAt(vs: seq<nat>, before: Bytes, rest: Bytes, i: nat, at: nat)
    requires AllUint32(vs) && i < |vs| && at == |before| + 4 * i
    ensures at + 4 <= |before + PutUint32s(vs) + rest| && Number(before + PutUint32s(vs) + rest, at, at + 4) == vs[i]
    decreases i
  {
    var first, more := PutUint(vs[0], 4), vs[1..];
    Uint32sLength(vs);
    assert PutUint32s(vs) == first + PutUint32s(more);
    Powers();
    hide PutUint, BigEndian, Pow256, PutUint32s, Number;
    Regroup(before, first, PutUint32s(more), rest);
    if i == 0 {
      PutAt(before, vs[0], 4, PutUint32s(more) + rest);
    } else {
      Uint32sAt(more, before + first, rest, i - 1, at);
    }
  }

  lemma Regroup(a: Bytes, b: Bytes, c: Bytes, d: Bytes)
    ensures a + (b + c) + d == a + b + (c + d) && a + (b + c) + d == a + b + c + d
  {
  }

  lemma CloakedLaid(m: Message)
    requires Typed(m) && m.CloakedParams?
    ensures Laid(m, TypeOf(m), Encode(m))
  {
    hide PutUint32s, BigEndian, PutAddrPort, AddrAt, Number;
    var flag: Bytes := [if m.hasKey then 1 else 0];
    var front := PutUint32s(m.numbers) + flag + m.key;
    var b := Encode(m);
    assert b == [] + PutUint32s(m.numbers) + (flag + m.key + PutAddrPort(m.endpoint));
    Uint32sLength(m.numbers);
    forall i | 0 <= i < 12 ensures Number(b, 4 * i, 4 * i + 4) == m.numbers[i] {
      Uint32sAt(m.numbers, [], flag + m.key + PutAddrPort(m.endpoint), i, 4 * i);
    }
    assert b == front + PutAddrPort(m.endpoint);
    assert b[48] == flag[0] && b[49..81] == m.key;
    AddrLaid(front, m.endpoint);
  }

  predicate AddrFaithful(a: AddrPort) {
    a.addr.V4? || (a.addr.V6? && a.addr.zone == "")
  }

  /** A message that its encoding can express: no string too long, no address missing or with a zone. */
  predicate Faithful(m: Message) {
    match m
    case NatProbeResponse(_, observed) => AddrFaithful(observed)
    case NativeEndpointReport(_, external) => AddrFaithful(external)
    case CloakedParams(_, _, _, endpoint) => AddrFaithful(endpoint)
    case NativeFailed(_, reason) => |reason| < B16
    case ModeDecision(_, _, reason) => |reason| < B16
    case Bye(reason) => |reason| < B16
    case _ => true
  }

  // ---------------------------------------------------------------- what is sent is received

  lemma DecodeCloakedEncoded(m: Message, rest: Bytes)
    requires m.CloakedParams? && Typed(m)
    ensures Decode(9, Encode(m) + rest) == Some(m.(endpoint := Arrives(m.endpoint)))
  {
    hide GetUint32s, PutUint32s, GetAddrPort, PutAddrPort, Arrives, AllUint32, AddrPortTyped;
    var flag: Bytes := [if m.hasKey then 1 else 0];
    var after := flag + m.key + PutAddrPort(m.endpoint) + rest;
    assert Encode(m) + rest == PutUint32s(m.numbers) + after;
    GetPutUint32s(m.numbers, after);
    assert after[1..33] == m.key && after[33..] == PutAddrPort(m.endpoint) + rest;
    GetPutAddrPort(m.endpoint, rest);
  }

  lemma DecodeNumbers(m: Message, rest: Bytes)
    requires Typed(m) && (m.XInfo? || m.NatProbeRequest? || m.Ping? || m.Pong? || m.Hello?)
    ensures Decode(TypeOf(m), Encode(m) + rest) == Some(m)
  {
    Powers();
    hide PutUint, BigEndian, Pow256, Get;
    match m
    case XInfo(a, b, c, d) =>
      var z := PutUint(d, 2) + rest;
      var y := PutUint(c, 2) + z;
      var x := PutUint(b, 2) + y;
      assert Encode(m) + rest == PutUint(a, 2) + x;
      GetPut(a, 2, x);
      GetPut(b, 2, y);
      GetPut(c, 2, z);
      GetPut(d, 2, rest);
    case NatProbeRequest(id, port) =>
      assert Encode(m) + rest == PutUint(id, 8) + (PutUint(port, 2) + rest);
      GetPut(id, 8, PutUint(port, 2) + rest);
      GetPut(port, 2, rest);
    case Hello(role, publicKey, version) =>
      var b := Encode(m) + rest;
      assert b[1..33] == publicKey && b[33] == version;
    case Ping(nonce) => GetPut(nonce, 8, rest);
    case Pong(nonce) => GetPut(nonce, 8, rest);
  }

  lemma DecodeAddresses(m: Message, rest: Bytes)
    requires Typed(m) && (m.NatProbeResponse? || m.NativeEndpointReport? || m.NativeReady?)
    ensures Decode(TypeOf(m), Encode(m) + rest) ==
              Some(match m
                   case NatProbeResponse(id, a) => NatProbeResponse(id, Arrives(a))
                   case NativeEndpointReport(sid, a) => NativeEndpointReport(sid, Arrives(a))
                   case _ => m)
  {
    Powers();
    hide PutUint, BigEndian, Pow256, Get, GetAddrPort, PutAddrPort;
    var b := Encode(m) + rest;
    match m
    case NatProbeResponse(id, a) =>
      assert b == PutUint(id, 8) + (PutAddrPort(a) + rest);
      GetPut(id, 8, PutAddrPort(a) + rest);
      GetPutAddrPort(a, rest);
    case NativeEndpointReport(sid, a) =>
      assert b[..16] == sid && b[16..] == PutAddrPort(a) + rest;
      GetPutAddrPort(a, rest);
    case NativeReady(sid) =>
      assert b[..16] == sid;
  }

  /** What arrives of a string. */
  function Cut16(s: Bytes): Bytes {
    s[..|s| % B16]
  }

  lemma Cut16Is(s: Bytes)
    ensures Cut16(s) == s <==> |s| < B16
  {
  }

  lemma DecodeStrings(m: Message, rest: Bytes)
    requires Typed(m) && (m.NativeFailed? || m.ModeDecision? || m.Bye?)
    ensures Decode(TypeOf(m), Encode(m) + rest) == Some(m.(reason := Cut16(m.reason)))
  {
    hide GetString, PutString;
    var b := Encode(m) + rest;
    GetPutString(m.reason, rest);
    match m
    case NativeFailed(sid, reason) =>
      assert b[..16] == sid && b[16..] == PutString(reason) + rest;
    case ModeDecision(sid, mode, reason) =>
      assert b[..16] == sid && b[16] == mode && b[17..] == PutString(reason) + rest;
    case Bye(reason) =>
  }

  /** Decoding gives a message back, whatever follows it, exactly if its encoding can express it. */
  lemma RoundTrip(m: Message, rest: Bytes)
    requires Typed(m)
    ensures Decode(TypeOf(m), Encode(m) + rest) == Some(m) <==> Faithful(m)
  {
    hide Decode, Encode, Cut16;
    match m
    case CloakedParams(_, _, _, _) => DecodeCloakedEncoded(m, rest);
    case NatProbeResponse(_, _) => DecodeAddresses(m, rest);
    case NativeEndpointReport(_, _) => DecodeAddresses(m, rest);
    case NativeReady(_) => DecodeAddresses(m, rest);
    case NativeFailed(_, reason) => DecodeStrings(m, rest); Cut16Is(reason);
    case ModeDecision(_, _, reason) => DecodeStrings(m, rest); Cut16Is(reason);
    case Bye(reason) => DecodeStrings(m, rest); Cut16Is(reason);
    case _ => DecodeNumbers(m, rest);
  }
}
