/** Splitting a large offloaded packet into segments, each a packet of its own with valid checksums. */
module Gso {
  import opened Basics
  import opened Checksum

  datatype VirtioHdr = VirtioHdr(isTcp: bool, hdrLen: nat, gsoSize: nat, csumStart: nat, csumOffset: nat)

  const TCP: Byte := 6
  const UDP: Byte := 17

  function Uint16At(b: seq<Byte>, at: nat): nat
    requires at + 2 <= |b|
  {
    Word16(b[at], b[at + 1])
  }

  function Uint32At(b: seq<Byte>, at: nat): (r: nat)
    requires at + 4 <= |b|
    ensures r < B32
  {
    0x1_0000 * Uint16At(b, at) + Uint16At(b, at + 2)
  }

  function PutUint32(b: seq<Byte>, at: nat, v: nat): (r: seq<Byte>)
    requires at + 4 <= |b| && v < B32
    ensures |r| == |b| && Uint32At(r, at) == v
    ensures forall k :: 0 <= k < |b| && !(at <= k < at + 4) ==> r[k] == b[k]
  {
    PutUint16(PutUint16(b, at, v / 0x1_0000), at + 2, v % 0x1_0000)
  }

  /** `b` with its FIN and PSH bits cleared. */
  function ClearFinPsh(b: Byte): (r: Byte)
    ensures r % 2 == 0 && r / 8 % 2 == 0
    ensures r / 2 % 4 == b / 2 % 4 && r / 16 == b / 16
  {
    Fields(b / 16, b / 2 % 4);
    var q: int, t: int := b / 16, b / 2 % 4;
    16 * q + 2 * t
  }

  lemma Fields(q: int, t: int)
    requires 0 <= q < 16 && 0 <= t < 4
    ensures var r := 16 * q + 2 * t; 0 <= r < 256 && r % 2 == 0 && r / 8 % 2 == 0 && r / 2 % 4 == t && r / 16 == q
  {
    var r := 16 * q + 2 * t;
    assert r / 2 == 8 * q + t && r / 8 == 2 * q && r / 16 == q;
  }

  // ---------------------------------------------------------------- reference

  /** `p` cut into pieces of `size` bytes, the last one possibly shorter. */
  function Chunks(p: seq<Byte>, size: nat): seq<seq<Byte>>
    requires size > 0
    decreases |p|
  {
    if p == [] then [] else if |p| <= size then [p] else [p[..size]] + Chunks(p[size..], size)
  }

  function Concat(s: seq<seq<Byte>>): seq<Byte> {
    if s == [] then [] else s[0] + Concat(s[1..])
  }

  lemma {:induction false} ConcatChunks(p: seq<Byte>, size: nat)
    requires size > 0
    ensures Concat(Chunks(p, size)) == p
    decreases |p|
  {
    if |p| > size {
      ConcatChunks(p[size..], size);
      ConcatCons(p[..size], Chunks(p[size..], size));
      assert p[..size] + p[size..] == p;
    } else if p != [] {
      ConcatCons(p, []);
    }
  }

  lemma ConcatCons(a: seq<Byte>, s: seq<seq<Byte>>)
    ensures Concat([a] + s) == a + Concat(s)
  {
    assert ([a] + s)[1..] == s;
  }

  /** Pieces that are all of `size` bytes, but for a shorter last one, come back from their concatenation. */
  lemma {:induction false} ChunksConcat(s: seq<seq<Byte>>, size: nat)
    requires size > 0
    requires forall k :: 0 <= k < |s| ==> 0 < |s[k]| <= size
    requires forall k :: 0 <= k < |s| - 1 ==> |s[k]| == size
    ensures Chunks(Concat(s), size) == s
  {
    if |s| == 1 {
      assert Concat(s[1..]) == [];
      assert Concat(s) == s[0];
    } else if |s| > 1 {
      ChunksConcat(s[1..], size);
      var rest := Concat(s[1..]);
      assert rest == s[1] + Concat(s[1..][1..]);
      assert (s[0] + rest)[..size] == s[0] && (s[0] + rest)[size..] == rest;
    }
  }

  /** Where the source and destination addresses lie. */
  function AddrAt(isV6: bool): nat { if isV6 then 8 else 12 }
  function AddrLen(isV6: bool): nat { if isV6 then 16 else 4 }

  /** The pseudo-header sum of the packet `pkt` with an IP header of `iphLen` bytes. */
  function PacketPseudo(pkt: seq<Byte>, iphLen: nat, proto: Byte, isV6: bool): nat
    requires AddrAt(isV6) + 2 * AddrLen(isV6) <= iphLen <= |pkt|
  {
    var at, n := AddrAt(isV6), AddrLen(isV6);
    PseudoSum(proto, pkt[at..at + n], pkt[at + n..at + 2 * n], (|pkt| - iphLen) % 0x1_0000)
  }

  /** The transport checksum of `pkt` is right. */
  predicate TransportValid(pkt: seq<Byte>, iphLen: nat, proto: Byte, isV6: bool)
    requires AddrAt(isV6) + 2 * AddrLen(isV6) <= iphLen <= |pkt|
  {
    Valid(pkt[iphLen..], PacketPseudo(pkt, iphLen, proto, isV6))
  }

  method ChecksumValid(pkt: seq<Byte>, iphLen: nat, proto: Byte, isV6: bool, little: bool) returns (ok: bool)
    requires AddrAt(isV6) + 2 * AddrLen(isV6) <= iphLen <= |pkt|
    ensures ok == TransportValid(pkt, iphLen, proto, isV6)
  {
    var at, n := AddrAt(isV6), AddrLen(isV6);
    var cSum := PseudoHeaderChecksumNoFold(proto, pkt[at..at + n], pkt[at + n..at + 2 * n], (|pkt| - iphLen) % 0x1_0000, little);
    var c := ComputeChecksum(pkt[iphLen..], cSum, little);
    ContinuedSum(cSum, PacketPseudo(pkt, iphLen, proto, isV6), Sum16(pkt[iphLen..]));
    ok := 0xFFFF - c == 0;
  }

  lemma ContinuedSum(x: nat, pseudo: nat, more: nat)
    requires Represents(x, pseudo)
    ensures OnesSum(x + more) == OnesSum(pseudo + more)
  {
    hide Cong;
    CongMultiple(more, more, 0);
    CongAdd(x, pseudo, more, more);
    OnesSumRepresents(x + more, pseudo + more);
  }

  /** What splitting relies on: the headers are all there, and the checksum field is where the protocol has it. */
  predicate Splittable(input: seq<Byte>, hdr: VirtioHdr, isV6: bool) {
    && hdr.gsoSize > 0 && |input| < 0x1_0000
    && (if isV6 then 40 else 20) <= hdr.csumStart
    && hdr.hdrLen <= |input|
    && (if hdr.isTcp then hdr.csumOffset == 16 && hdr.csumStart + 20 <= hdr.hdrLen
        else hdr.csumOffset == 6 && hdr.csumStart + 8 == hdr.hdrLen)
  }

  /** The IP header of segment `i`: right lengths, right checksum, otherwise that of the input. */
  predicate IpHeaderOk(input: seq<Byte>, hdr: VirtioHdr, isV6: bool, i: nat, totalLen: nat, out: seq<Byte>)
    requires Splittable(input, hdr, isV6)
  {
    && |out| >= hdr.csumStart
    && (if isV6 then
          && Uint16At(out, 4) == totalLen - hdr.csumStart
          && (forall k :: 0 <= k < hdr.csumStart && k !in {4, 5} ==> out[k] == input[k])
        else
          && Uint16At(out, 2) == totalLen
          && Uint16At(out, 4) == (Uint16At(input, 4) + i) % 0x1_0000
          && Valid(out[..hdr.csumStart], 0)
          && (forall k :: 0 <= k < hdr.csumStart && k !in {2, 3, 4, 5, 10, 11} ==> out[k] == input[k]))
  }

  method IpHeader(input: seq<Byte>, hdr: VirtioHdr, isV6: bool, i: nat, totalLen: nat, little: bool) returns (out: seq<Byte>)
    requires Splittable(input, hdr, isV6) && hdr.csumStart <= totalLen < 0x1_0000
    ensures |out| == hdr.csumStart && IpHeaderOk(input, hdr, isV6, i, totalLen, out)
  {
    hide Sum16, Valid, PutUint16, Word16, OnesSum;
    out := input[..hdr.csumStart];
    if isV6 {
      out := PutUint16(out, 4, totalLen - hdr.csumStart);
    } else {
      out := out[10 := 0][11 := 0];
      out := PutUint16(out, 4, (Uint16At(out, 4) + i) % 0x1_0000);
      assert out[10] == 0 && out[11] == 0;
      out := PutUint16(out, 2, totalLen);
      var c := ComputeChecksum(out, 0, little);
      ComplementValid(out, 10, 0);
      out := PutUint16(out, 10, 0xFFFF - c);
      assert out[..hdr.csumStart] == out;
    }
  }

  /** The transport header and payload of segment `i`, before its checksum is known. */
  predicate TransportOk(input: seq<Byte>, hdr: VirtioHdr, i: nat, payload: seq<Byte>, last: bool, t: seq<Byte>)
    requires Splittable(input, hdr, true) || Splittable(input, hdr, false)
  {
    var n := hdr.hdrLen - hdr.csumStart;
    && |t| == n + |payload| && t[n..] == payload
    && (if hdr.isTcp then
          && Uint32At(t, 4) == (Uint32At(input, hdr.csumStart + 4) + i * hdr.gsoSize) % B32
          && t[13] == (if last then input[hdr.csumStart + 13] else ClearFinPsh(input[hdr.csumStart + 13]))
          && (forall k :: 0 <= k < n && !(4 <= k < 8) && k !in {13, 16, 17} ==> t[k] == input[hdr.csumStart + k])
        else
          && Uint16At(t, 4) == (|payload| + n) % 0x1_0000
          && (forall k :: 0 <= k < 4 ==> t[k] == input[hdr.csumStart + k]))
  }

  /** Where segment `i` begins. */
  function StartOf(hdr: VirtioHdr, i: nat): nat {
    hdr.hdrLen + i * hdr.gsoSize
  }

  lemma StartNext(hdr: VirtioHdr, i: nat)
    ensures StartOf(hdr, i + 1) == StartOf(hdr, i) + hdr.gsoSize && StartOf(hdr, 0) == hdr.hdrLen
  {
  }

  /** The source multiplies in 16 bits, which is enough as segments begin within the input. */
  method Transport(input: seq<Byte>, hdr: VirtioHdr, i: nat, payload: seq<Byte>, last: bool) returns (t: seq<Byte>)
    requires (Splittable(input, hdr, true) || Splittable(input, hdr, false)) && StartOf(hdr, i) < |input|
    ensures TransportOk(input, hdr, i, payload, last, t) && t[hdr.csumOffset] == 0 && t[hdr.csumOffset + 1] == 0
  {
    hide PutUint16, PutUint32, Word16, ClearFinPsh;
    var h := input[hdr.csumStart..hdr.hdrLen][hdr.csumOffset := 0][hdr.csumOffset + 1 := 0];
    if hdr.isTcp {
      var first := Uint32At(input, hdr.csumStart + 4);
      h := PutUint32(h, 4, (first + hdr.gsoSize * i % 0x1_0000) % B32);
      SmallProduct(i, hdr.gsoSize);
      if !last {
        h := h[13 := ClearFinPsh(h[13])];
      }
    } else {
      h := PutUint16(h, 4, (|payload| + |h|) % 0x1_0000);
    }
    t := h + payload;
    HeaderReads(h, payload);
  }

  lemma SmallProduct(i: nat, g: nat)
    requires i * g < 0x1_0000
    ensures g * i % 0x1_0000 == i * g
  {
  }

  lemma HeaderReads(h: seq<Byte>, payload: seq<Byte>)
    requires |h| >= 8
    ensures Uint32At(h + payload, 4) == Uint32At(h, 4) && Uint16At(h + payload, 4) == Uint16At(h, 4)
    ensures (h + payload)[|h|..] == payload
    ensures forall k :: 0 <= k < |h| ==> (h + payload)[k] == h[k]
  {
  }

  /** Segment `i` of `input`, carrying `payload`. */
  predicate SegmentOk(input: seq<Byte>, hdr: VirtioHdr, isV6: bool, i: nat, payload: seq<Byte>, last: bool, out: seq<Byte>)
    requires Splittable(input, hdr, isV6)
  {
    && |out| == hdr.hdrLen + |payload|
    && IpHeaderOk(input, hdr, isV6, i, |out|, out)
    && TransportOk(input, hdr, i, payload, last, out[hdr.csumStart..])
    && TransportValid(out, hdr.csumStart, if hdr.isTcp then TCP else UDP, isV6)
  }

  method Segment(input: seq<Byte>, hdr: VirtioHdr, isV6: bool, i: nat, payload: seq<Byte>, last: bool, little: bool) returns (out: seq<Byte>)
    requires Splittable(input, hdr, isV6) && hdr.hdrLen + |payload| < 0x1_0000 && StartOf(hdr, i) < |input|
    ensures SegmentOk(input, hdr, isV6, i, payload, last, out)
  {
    hide PutUint16, Word16, Valid, Sum16, OnesSum, IpHeaderOk, TransportOk, TransportValid, InputPseudo, StartOf;
    var totalLen := hdr.hdrLen + |payload|;
    var ip := IpHeader(input, hdr, isV6, i, totalLen, little);
    var t := Transport(input, hdr, i, payload, last);
    TransportLength(input, hdr, i, payload, last, t);
    var t' := FillChecksum(input, hdr, isV6, t, little);
    TransportKept(input, hdr, i, payload, last, t, t');
    out := ip + t';
    Assembled(input, hdr, isV6, i, ip, t');
  }

  /** The pseudo-header sum for a transport part of `n` bytes with the addresses of `input`. */
  function InputPseudo(input: seq<Byte>, hdr: VirtioHdr, isV6: bool, n: nat): nat
    requires Splittable(input, hdr, isV6)
  {
    var at, len := AddrAt(isV6), AddrLen(isV6);
    PseudoSum(if hdr.isTcp then TCP else UDP, input[at..at + len], input[at + len..at + 2 * len], n)
  }

  method FillChecksum(input: seq<Byte>, hdr: VirtioHdr, isV6: bool, t: seq<Byte>, little: bool) returns (t': seq<Byte>)
    requires Splittable(input, hdr, isV6) && hdr.hdrLen - hdr.csumStart <= |t| < 0x1_0000
    requires t[hdr.csumOffset] == 0 && t[hdr.csumOffset + 1] == 0
    ensures |t'| == |t| && Valid(t', InputPseudo(input, hdr, isV6, |t|))
    ensures forall k :: 0 <= k < |t| && k != hdr.csumOffset && k != hdr.csumOffset + 1 ==> t'[k] == t[k]
  {
    hide PutUint16, Word16, Valid, Sum16, OnesSum;
    var at, n := AddrAt(isV6), AddrLen(isV6);
    var proto := if hdr.isTcp then TCP else UDP;
    var src, dst := input[at..at + n], input[at + n..at + 2 * n];
    var pseudo := PseudoHeaderChecksumNoFold(proto, src, dst, |t|, little);
    var c := ComputeChecksum(t, pseudo, little);
    ContinuedSum(pseudo, InputPseudo(input, hdr, isV6, |t|), Sum16(t));
    ComplementValid(t, hdr.csumOffset, InputPseudo(input, hdr, isV6, |t|));
    t' := PutUint16(t, hdr.csumOffset, 0xFFFF - c);
  }

  lemma TransportLength(input: seq<Byte>, hdr: VirtioHdr, i: nat, payload: seq<Byte>, last: bool, t: seq<Byte>)
    requires Splittable(input, hdr, true) || Splittable(input, hdr, false)
    requires TransportOk(input, hdr, i, payload, last, t)
    ensures |t| == hdr.hdrLen - hdr.csumStart + |payload|
  {
  }

  /** Filling in the checksum changes nothing else that is promised of the transport part. */
  lemma TransportKept(input: seq<Byte>, hdr: VirtioHdr, i: nat, payload: seq<Byte>, last: bool, t: seq<Byte>, t': seq<Byte>)
    requires Splittable(input, hdr, true) || Splittable(input, hdr, false)
    requires TransportOk(input, hdr, i, payload, last, t) && |t'| == |t|
    requires forall k :: 0 <= k < |t| && k != hdr.csumOffset && k != hdr.csumOffset + 1 ==> t'[k] == t[k]
    ensures TransportOk(input, hdr, i, payload, last, t')
  {
    var n := hdr.hdrLen - hdr.csumStart;
    assert t'[n..] == t[n..];
  }

  /** An IP header and a transport part put together still are what they were. */
  lemma Assembled(input: seq<Byte>, hdr: VirtioHdr, isV6: bool, i: nat, ip: seq<Byte>, t: seq<Byte>)
    requires Splittable(input, hdr, isV6) && |ip| == hdr.csumStart && |ip| + |t| < 0x1_0000
    requires IpHeaderOk(input, hdr, isV6, i, |ip| + |t|, ip)
    requires Valid(t, InputPseudo(input, hdr, isV6, |t|))
    ensures IpHeaderOk(input, hdr, isV6, i, |ip + t|, ip + t) && (ip + t)[hdr.csumStart..] == t
    ensures TransportValid(ip + t, hdr.csumStart, if hdr.isTcp then TCP else UDP, isV6)
  {
    hide Sum16, Valid, Word16, OnesSum, PseudoSum;
    var out := ip + t;
    assert out[..hdr.csumStart] == ip && ip[..hdr.csumStart] == ip;
    var at, n := AddrAt(isV6), AddrLen(isV6);
    assert out[at..at + n] == input[at..at + n] && out[at + n..at + 2 * n] == input[at + n..at + 2 * n];
  }

  lemma Times(i: nat, size: nat)
    ensures 0 * size == 0
    ensures i > 0 ==> i * size == (i - 1) * size + size && i * size >= size
  {
  }

  /** Piece `i` lies between its start and the next one's, or the end. */
  lemma {:induction false} ChunkAt(p: seq<Byte>, size: nat, i: nat, start: nat)
    requires size > 0 && start == i * size
    ensures var all := Chunks(p, size);
      && (i < |all| <==> start < |p|)
      && (i < |all| ==> var end := if start + size > |p| then |p| else start + size; all[i] == p[start..end] && (end == |p| <==> i == |all| - 1))
    decreases i
  {
    Times(i, size);
    if i > 0 && |p| > size {
      ChunkAt(p[size..], size, i - 1, start - size);
      var end := if start + size > |p| then |p| else start + size;
      assert start < |p| ==> p[size..][start - size..end - size] == p[start..end];
    } else if i == 0 && |p| > size {
      assert Chunks(p[size..], size) != [];
    }
  }

  /** What segment `i` carries, by its place in the input. */
  lemma PieceAt(input: seq<Byte>, hdr: VirtioHdr, i: nat)
    requires hdr.gsoSize > 0 && hdr.hdrLen <= |input|
    ensures var all, at := Chunks(input[hdr.hdrLen..], hdr.gsoSize), StartOf(hdr, i);
      && (i < |all| <==> at < |input|)
      && (i < |all| ==>
            var end := if at + hdr.gsoSize > |input| then |input| else at + hdr.gsoSize;
            all[i] == input[at..end] && (end == |input| <==> i == |all| - 1))
  {
    hide Chunks;
    var at := StartOf(hdr, i);
    ChunkAt(input[hdr.hdrLen..], hdr.gsoSize, i, at - hdr.hdrLen);
    var end := if at + hdr.gsoSize > |input| then |input| else at + hdr.gsoSize;
    assert at < |input| ==> input[hdr.hdrLen..][at - hdr.hdrLen..end - hdr.hdrLen] == input[at..end];
  }

  /**
   Split `input` into at most `room` segments.  When they run out the source reports one less than
   it has filled, along with an error.
   */
  method GsoSplit(input: seq<Byte>, hdr: VirtioHdr, isV6: bool, room: nat, little: bool)
    returns (outs: seq<seq<Byte>>, n: int, tooMany: bool)
    requires Splittable(input, hdr, isV6)
    ensures var all := Chunks(input[hdr.hdrLen..], hdr.gsoSize);
      && (tooMany <==> |all| > room)
      && (!tooMany ==> n == |outs| == |all|) && (tooMany ==> |outs| == room && n == room - 1)
      && forall i :: 0 <= i < |outs| ==> SegmentOk(input, hdr, isV6, i, all[i], i == |all| - 1, outs[i])
  {
    hide SegmentOk, Chunks, StartOf;
    StartNext(hdr, 0);
    PieceAt(input, hdr, 0);
    outs, tooMany := [], false;
    var at := hdr.hdrLen;
    ghost var all := Chunks(input[hdr.hdrLen..], hdr.gsoSize);
    while at < |input|
      invariant hdr.hdrLen <= at == StartOf(hdr, |outs|) && |outs| <= room && |outs| <= |all|
      invariant at < |input| <==> |outs| < |all|
      invariant forall i :: 0 <= i < |outs| ==> SegmentOk(input, hdr, isV6, i, all[i], i == |all| - 1, outs[i])
      decreases room - |outs|, |input| - at
    {
      if |outs| == room {
        n, tooMany := room - 1, true;
        return;
      }
      var end := at + hdr.gsoSize;
      if end > |input| {
        end := |input|;
      }
      PieceAt(input, hdr, |outs|);
      var out := Segment(input, hdr, isV6, |outs|, input[at..end], end == |input|, little);
      StartNext(hdr, |outs|);
      PieceAt(input, hdr, |outs| + 1);
      outs := outs + [out];
      at := at + hdr.gsoSize;
    }
    n := |outs|;
  }
}
