/** Coalescing received TCP and UDP packets into large offloaded ones, and what splitting gives back. */
module Gro {
  import opened Basics
  import opened Checksum
  import opened Gso
  import opened GroLedger

  datatype Item = Item(
    idx: nat,       // the buffer it grows in
    merged: nat,    // how many packets have been merged into it
    gso: nat,       // payload size of all its packets but the last
    iphLen: nat,
    thLen: nat,
    seqNo: nat,     // TCP sequence number of its first packet
    psh: bool,      // TCP push flag
    badCsum: bool)  // UDP: checksum known to be wrong

  // ---------------------------------------------------------------- what an item stands for

  /** Payload size of packet `p` behind `h` bytes of headers. */
  function Size(orig: seq<Buf>, p: nat, h: nat): int
    requires p < |orig|
  {
    |orig[p].data| - h
  }

  /** The first packet carries `gso` bytes, and so do all but the last, which carries no more. */
  ghost predicate Sized(orig: seq<Buf>, ps: seq<nat>, h: nat, gso: nat) {
    Tapered(orig, ps, h, gso) && Size(orig, ps[0], h) == gso
  }

  ghost predicate Tapered(orig: seq<Buf>, ps: seq<nat>, h: nat, gso: nat) {
    && Fit(orig, ps, h) && ps != []
    && (forall k :: 0 <= k < |ps| - 1 ==> Size(orig, ps[k], h) == gso)
    && 0 < Size(orig, ps[|ps| - 1], h) <= gso
  }

  /** TCP sequence number of packet `p`. */
  function SeqNo(orig: seq<Buf>, p: nat, iphLen: nat): nat
    requires p < |orig| && iphLen + 8 <= |orig[p].data|
  {
    Uint32At(orig[p].data, iphLen + 4)
  }

  /** Sequence numbers advance by `gso` from one packet to the next, starting from `first`. */
  ghost predicate Sequenced(orig: seq<Buf>, ps: seq<nat>, iphLen: nat, first: nat, gso: nat) {
    && Fit(orig, ps, iphLen + 8) && ps != []
    && SeqNo(orig, ps[0], iphLen) == first
    && (forall k :: 0 <= k < |ps| - 1 ==> SeqNo(orig, ps[k + 1], iphLen) == (SeqNo(orig, ps[k], iphLen) + gso) % B32)
  }

  lemma {:induction false} JoinedLength(orig: seq<Buf>, ps: seq<nat>, h: nat, gso: nat)
    requires Tapered(orig, ps, h, gso)
    ensures |Joined(orig, ps, h)| == (|ps| - 1) * gso + Size(orig, ps[|ps| - 1], h)
  {
    if |ps| == 1 {
      assert Joined(orig, ps[1..], h) == [];
    } else {
      JoinedLength(orig, ps[1..], h, gso);
      assert (|ps| - 1) * gso == gso + (|ps[1..]| - 1) * gso;
    }
  }

  lemma ModAdd32(a: nat, b: nat)
    ensures (a % B32 + b) % B32 == (a + b) % B32
  {
  }

  lemma SmallMod(x: nat)
    ensures x < B16 ==> x % B16 == x
  {
  }

  lemma {:induction false} SeqNoAt(orig: seq<Buf>, ps: seq<nat>, iphLen: nat, first: nat, gso: nat, k: nat)
    requires Sequenced(orig, ps, iphLen, first, gso) && k < |ps| && first < B32
    ensures SeqNo(orig, ps[k], iphLen) == (first + k * gso) % B32
  {
    hide SeqNo;
    if k > 0 {
      var j := k - 1;
      SeqNoAt(orig, ps, iphLen, first, gso, j);
      assert SeqNo(orig, ps[j + 1], iphLen) == (SeqNo(orig, ps[j], iphLen) + gso) % B32;
      ModAdd32(first + j * gso, gso);
      assert k * gso == j * gso + gso;
    }
  }

  /** A multiple of `g` plus something in (0, g] that is again a multiple of `g`. */
  lemma LastPiece(m: nat, g: nat, r: nat)
    requires 0 < r <= g && (m * g + r) % g == 0
    ensures r == g
  {
    var x := m * g + r;
    var q := x / g;
    assert x == q * g;
    var d := q - m;
    assert d * g == r;
    assert d <= 0 ==> d * g <= 0;
    assert d >= 2 ==> d * g >= 2 * g;
  }

  /** When the joined payload is a multiple of `gso`, the last packet is full. */
  lemma LastFull(orig: seq<Buf>, ps: seq<nat>, h: nat, gso: nat)
    requires Sized(orig, ps, h, gso) && |Joined(orig, ps, h)| % gso == 0
    ensures Size(orig, ps[|ps| - 1], h) == gso && |Joined(orig, ps, h)| == |ps| * gso
  {
    JoinedLength(orig, ps, h, gso);
    hide Joined;
    var m := |ps| - 1;
    LastPiece(m, gso, Size(orig, ps[m], h));
    assert |ps| * gso == m * gso + gso;
  }

  lemma SizedAppend(orig: seq<Buf>, ps: seq<nat>, p: nat, h: nat, gso: nat)
    requires Sized(orig, ps, h, gso) && |Joined(orig, ps, h)| % gso == 0
    requires p < |orig| && 0 < Size(orig, p, h) <= gso
    ensures Sized(orig, ps + [p], h, gso)
  {
    LastFull(orig, ps, h, gso);
    hide Joined;
    AppendFull(orig, ps, p, h, gso);
  }

  lemma AppendFull(orig: seq<Buf>, ps: seq<nat>, p: nat, h: nat, gso: nat)
    requires Sized(orig, ps, h, gso) && Size(orig, ps[|ps| - 1], h) == gso && p < |orig| && 0 < Size(orig, p, h) <= gso
    ensures Sized(orig, ps + [p], h, gso)
  {
    var qs := ps + [p];
    forall k | 0 <= k < |qs| - 1 ensures Size(orig, qs[k], h) == gso {
      assert qs[k] == ps[k];
    }
  }

  lemma SizedPrepend(orig: seq<Buf>, ps: seq<nat>, p: nat, h: nat, gso: nat)
    requires Sized(orig, ps, h, gso) && p < |orig| && Size(orig, p, h) >= gso && (|ps| > 1 ==> Size(orig, p, h) == gso)
    ensures Sized(orig, [p] + ps, h, Size(orig, p, h))
  {
  }

  /** The 16-bit length the code adds to the first sequence number is right, as the payload is below 2^16. */
  lemma SequencedAppend(orig: seq<Buf>, ps: seq<nat>, p: nat, h: nat, iphLen: nat, first: nat, gso: nat)
    requires Sized(orig, ps, h, gso) && |Joined(orig, ps, h)| % gso == 0 && |Joined(orig, ps, h)| < B16
    requires Sequenced(orig, ps, iphLen, first, gso) && first < B32 && p < |orig| && iphLen + 8 <= |orig[p].data|
    requires SeqNo(orig, p, iphLen) == (first + (gso + (|ps| - 1) * gso) % B16) % B32
    ensures Sequenced(orig, ps + [p], iphLen, first, gso)
  {
    hide SeqNo, Joined, Sized, Sequenced, Fit, Size;
    SequencedOne(orig, ps, iphLen, first, gso);
    FullLength(orig, ps, h, gso);
    NextSeqNo(first, gso, |ps| - 1);
    SeqNoAt(orig, ps, iphLen, first, gso, |ps| - 1);
    AppendSeqNo(orig, ps, p, iphLen, first, gso);
  }

  lemma FullLength(orig: seq<Buf>, ps: seq<nat>, h: nat, gso: nat)
    requires Sized(orig, ps, h, gso) && |Joined(orig, ps, h)| % gso == 0
    ensures |ps| > 0 && |Joined(orig, ps, h)| == (|ps| - 1 + 1) * gso
  {
    hide Joined;
    LastFull(orig, ps, h, gso);
  }

  lemma SequencedOne(orig: seq<Buf>, ps: seq<nat>, iphLen: nat, first: nat, gso: nat)
    requires Sequenced(orig, ps, iphLen, first, gso)
    ensures |ps| > 0 && forall k :: 0 <= k < |ps| ==> ps[k] < |orig| && iphLen + 8 <= |orig[ps[k]].data|
  {
  }

  lemma NextSeqNo(first: nat, gso: nat, m: nat)
    requires (m + 1) * gso < B16
    ensures (first + (gso + m * gso) % B16) % B32 == ((first + m * gso) % B32 + gso) % B32
  {
    assert gso + m * gso == (m + 1) * gso;
    SmallMod(gso + m * gso);
    ModAdd32(first + m * gso, gso);
  }

  lemma AppendSeqNo(orig: seq<Buf>, ps: seq<nat>, p: nat, iphLen: nat, first: nat, gso: nat)
    requires Sequenced(orig, ps, iphLen, first, gso) && p < |orig| && iphLen + 8 <= |orig[p].data|
    requires SeqNo(orig, p, iphLen) == (SeqNo(orig, ps[|ps| - 1], iphLen) + gso) % B32
    ensures Sequenced(orig, ps + [p], iphLen, first, gso)
  {
    hide SeqNo;
    var qs := ps + [p];
    forall k | 0 <= k < |qs| - 1 ensures SeqNo(orig, qs[k + 1], iphLen) == (SeqNo(orig, qs[k], iphLen) + gso) % B32 {
      assert qs[k] == ps[k];
      if k < |ps| - 1 {
        assert qs[k + 1] == ps[k + 1];
      }
    }
  }

  lemma SequencedPrepend(orig: seq<Buf>, ps: seq<nat>, p: nat, iphLen: nat, first: nat, gso: nat, gso': nat)
    requires Sequenced(orig, ps, iphLen, first, gso) && p < |orig| && iphLen + 8 <= |orig[p].data|
    requires (SeqNo(orig, p, iphLen) + gso') % B32 == first && (|ps| > 1 ==> gso' == gso)
    ensures Sequenced(orig, [p] + ps, iphLen, SeqNo(orig, p, iphLen), gso')
  {
    hide SeqNo;
    var qs := [p] + ps;
    forall k | 0 <= k < |qs| - 1 ensures SeqNo(orig, qs[k + 1], iphLen) == (SeqNo(orig, qs[k], iphLen) + gso') % B32 {
      assert qs[k + 1] == ps[k];
      if k > 0 {
        assert qs[k] == ps[k - 1];
        assert SeqNo(orig, ps[k - 1 + 1], iphLen) == (SeqNo(orig, ps[k - 1], iphLen) + gso) % B32;
      }
    }
  }

  /** `item` describes the buffer it grows in. */
  ghost predicate ItemOk(l: Ledger, key: FlowKey, item: Item) {
    && Carries(l, item.idx) && item.idx < l.n && item.idx in l.tag && l.tag[item.idx] == key
    && item.iphLen == IphLen(key.isV6) && (if key.isTcp then 20 <= item.thLen <= 60 else item.thLen == 8)
    && l.hlen[item.idx] == item.iphLen + item.thLen
    && |l.bufs[item.idx].data| < B16
    && |l.parts[item.idx]| == item.merged + 1 && Early(l.parts[item.idx], l.n)
    && Sized(l.orig, l.parts[item.idx], item.iphLen + item.thLen, item.gso)
    && Alike(l.orig, l.parts[item.idx], l.bufs[item.idx].data, key, item.thLen)
    && (key.isTcp ==>
          && item.seqNo < B32
          && Sequenced(l.orig, l.parts[item.idx], item.iphLen, item.seqNo, item.gso)
          && Uint32At(l.bufs[item.idx].data, item.iphLen + 4) == item.seqNo
          && Pushed(l.orig, l.parts[item.idx], l.bufs[item.idx].data, item.iphLen, item.psh))
  }

  function IphLen(isV6: bool): nat { if isV6 then 40 else 20 }

  // ---------------------------------------------------------------- packets of one flow

  /** An IP header of this version, without options, and room for the header of this protocol. */
  predicate Headed(pkt: seq<Byte>, isTcp: bool, isV6: bool) {
    && |pkt| >= IphLen(isV6) + (if isTcp then 20 else 8)
    && var proto := if isTcp then TCP else UDP;
       if isV6 then pkt[0] / 16 == 6 && pkt[6] == proto else pkt[0] == 0x45 && pkt[9] == proto
  }

  predicate NoFragment(pkt: seq<Byte>, isV6: bool)
    requires |pkt| >= 28
  {
    isV6 || (pkt[6] % 32 == 0 && pkt[7] == 0)
  }

  function KeyOf(pkt: seq<Byte>, isTcp: bool, isV6: bool): FlowKey
    requires |pkt| >= IphLen(isV6) + if isTcp then 12 else 4
  {
    var at, n, t := AddrAt(isV6), AddrLen(isV6), IphLen(isV6);
    FlowKey(pkt[at..at + n], pkt[at + n..at + 2 * n], pkt[t..t + 4], if isTcp then pkt[t + 8..t + 12] else [], isTcp, isV6)
  }

  /** A packet of the flow `key`. */
  ghost predicate InFlow(pkt: seq<Byte>, key: FlowKey) {
    Headed(pkt, key.isTcp, key.isV6) && NoFragment(pkt, key.isV6) && KeyOf(pkt, key.isTcp, key.isV6) == key
  }

  /**
   The header bytes in which packets that are merged agree: of IPv4 all but length, identification and checksum; of IPv6
   all but flow label and length; of TCP the ports, the acknowledgement and the options; of UDP the ports.
   */
  predicate Stays(key: FlowKey, thLen: nat, k: nat) {
    var t := IphLen(key.isV6);
    if k < t then (if key.isV6 then k == 0 || 6 <= k else k in {0, 1, 6, 7, 8, 9} || 12 <= k)
    else k < t + 4 || (key.isTcp && (t + 8 <= k < t + 12 || t + 20 <= k < t + thLen))
  }

  /** Packets that agree in these bytes, in the rest of the IPv6 traffic class and in the length of a TCP header. */
  ghost predicate Twin(a: seq<Byte>, b: seq<Byte>, key: FlowKey, thLen: nat) {
    var t := IphLen(key.isV6);
    && t + thLen <= |a| && t + thLen <= |b| && (forall k :: 0 <= k < t + thLen && Stays(key, thLen, k) ==> a[k] == b[k])
    && (key.isV6 ==> a[1] / 16 == b[1] / 16)
    && (key.isTcp && thLen >= 20 ==> a[t + 12] / 16 == b[t + 12] / 16)
  }

  /** The packets `ps` are of the flow `key`, and `host` has a header of that flow and agrees with them. */
  ghost predicate Alike(orig: seq<Buf>, ps: seq<nat>, host: seq<Byte>, key: FlowKey, thLen: nat) {
    && InFlow(host, key) && (key.isTcp ==> DataOffset(host, IphLen(key.isV6)) == thLen)
    && forall k :: 0 <= k < |ps| ==> ps[k] < |orig| && InFlow(orig[ps[k]].data, key) && Twin(orig[ps[k]].data, host, key, thLen)
  }

  /** The flags of a TCP packet whose push flag is `psh`. */
  function Flags(psh: bool): Byte { if psh then 0x18 else 0x10 }

  /**
   Of the packets `ps` only the last can have the push flag, and has it if `psh` says so.  The header in front has the same
   flag, unless the packet in front came after the last one.
   */
  ghost predicate Pushed(orig: seq<Buf>, ps: seq<nat>, host: seq<Byte>, iphLen: nat, psh: bool) {
    && ps != [] && iphLen + 13 < |host| && host[iphLen + 13] == Flags(psh && ps[0] <= ps[|ps| - 1])
    && forall k :: 0 <= k < |ps| ==>
         ps[k] < |orig| && iphLen + 13 < |orig[ps[k]].data| && orig[ps[k]].data[iphLen + 13] == Flags(psh && k == |ps| - 1)
  }

  /** The last of the packets `ps` pushes, and the one in front of all came after it. */
  predicate PushOvertaken(orig: seq<Buf>, ps: seq<nat>, iphLen: nat) {
    && ps != [] && ps[|ps| - 1] < ps[0]
    && ps[|ps| - 1] < |orig| && iphLen + 13 < |orig[ps[|ps| - 1]].data| && orig[ps[|ps| - 1]].data[iphLen + 13] == Flags(true)
  }

  /** All of the packets `ps` are among the first `n`. */
  ghost predicate Early(ps: seq<nat>, n: nat) {
    forall k :: 0 <= k < |ps| ==> ps[k] < n
  }

  /** The bytes that tell the flow of a packet. */
  predicate KeyByte(key: FlowKey, k: nat) {
    var at, t := AddrAt(key.isV6), IphLen(key.isV6);
    k in {0, 6} || (!key.isV6 && k in {7, 9}) || at <= k < t + 4 || (key.isTcp && t + 8 <= k < t + 12)
  }

  /** Same bytes, same flow. */
  lemma TwinFlow(a: seq<Byte>, b: seq<Byte>, key: FlowKey, thLen: nat)
    requires Twin(a, b, key, thLen) && InFlow(a, key) && (if key.isTcp then thLen >= 20 else thLen == 8)
    ensures InFlow(b, key)
  {
    var at, n, t := AddrAt(key.isV6), AddrLen(key.isV6), IphLen(key.isV6);
    forall k | 0 <= k < t + thLen && KeyByte(key, k) ensures a[k] == b[k] {
      assert Stays(key, thLen, k);
    }
    hide Twin, Stays;
    assert a[at..at + n] == b[at..at + n] && a[at + n..at + 2 * n] == b[at + n..at + 2 * n] && a[t..t + 4] == b[t..t + 4];
    assert key.isTcp ==> a[t + 8..t + 12] == b[t + 8..t + 12];
  }

  lemma TwinTrans(a: seq<Byte>, b: seq<Byte>, c: seq<Byte>, key: FlowKey, thLen: nat)
    requires Twin(a, b, key, thLen) && Twin(b, c, key, thLen)
    ensures Twin(a, c, key, thLen) && Twin(b, a, key, thLen)
  {
    hide Stays;
  }

  /** Another header in front that agrees with the old one. */
  lemma AlikeHost(orig: seq<Buf>, ps: seq<nat>, host: seq<Byte>, host': seq<Byte>, key: FlowKey, thLen: nat)
    requires Alike(orig, ps, host, key, thLen) && Twin(host, host', key, thLen) && (if key.isTcp then thLen >= 20 else thLen == 8)
    ensures Alike(orig, ps, host', key, thLen)
  {
    TwinFlow(host, host', key, thLen);
    assert key.isTcp ==> DataOffset(host', IphLen(key.isV6)) == thLen;
    hide Twin, InFlow;
    forall k | 0 <= k < |ps| ensures Twin(orig[ps[k]].data, host', key, thLen) {
      TwinTrans(orig[ps[k]].data, host, host', key, thLen);
    }
  }

  lemma AlikeMore(orig: seq<Buf>, ps: seq<nat>, p: nat, host: seq<Byte>, key: FlowKey, thLen: nat)
    requires Alike(orig, ps, host, key, thLen) && p < |orig| && InFlow(orig[p].data, key) && Twin(orig[p].data, host, key, thLen)
    ensures Alike(orig, ps + [p], host, key, thLen) && Alike(orig, [p] + ps, host, key, thLen)
  {
    hide Twin, InFlow;
  }

  lemma PushedAppend(orig: seq<Buf>, ps: seq<nat>, p: nat, host: seq<Byte>, host': seq<Byte>, t: nat, psh: bool)
    requires Pushed(orig, ps, host, t, false) && Early(ps, p) && p < |orig| && t + 13 < |orig[p].data| && orig[p].data[t + 13] == Flags(psh)
    requires t + 13 < |host'| && host'[t + 13] == Flags(psh)
    ensures Pushed(orig, ps + [p], host', t, psh)
  {
  }

  lemma PushedPrepend(orig: seq<Buf>, ps: seq<nat>, p: nat, host: seq<Byte>, host': seq<Byte>, t: nat, psh: bool)
    requires Pushed(orig, ps, host, t, psh) && Early(ps, p) && p < |orig| && t + 13 < |orig[p].data| && orig[p].data[t + 13] == Flags(false)
    requires t + 13 < |host'| && host'[t + 13] == Flags(false)
    ensures Pushed(orig, [p] + ps, host', t, psh)
  {
    var qs := [p] + ps;
    forall k | 0 <= k < |qs| ensures orig[qs[k]].data[t + 13] == Flags(psh && k == |qs| - 1) && qs[k] < |orig| && t + 13 < |orig[qs[k]].data| {
      assert k > 0 ==> qs[k] == ps[k - 1];
    }
  }

  ghost predicate FlowOk(l: Ledger, key: FlowKey, items: seq<Item>) {
    && (forall i :: 0 <= i < |items| ==> ItemOk(l, key, items[i]))
    && (forall i, j :: 0 <= i < j < |items| ==> items[i].idx != items[j].idx)
  }

  type Table = map<FlowKey, seq<Item>>

  ghost predicate TableOk(l: Ledger, table: Table, isTcp: bool) {
    forall key :: key in table ==> key.isTcp == isTcp && key.src != [] && FlowOk(l, key, table[key])
  }

  /** Items of other buffers are not affected by what happens to buffer `w`. */
  lemma ItemSame(l: Ledger, l': Ledger, w: nat, key: FlowKey, item: Item)
    requires OthersSame(l, l', w) && l'.n >= l.n && ItemOk(l, key, item) && item.idx != w
    ensures ItemOk(l', key, item)
  {
    CarriesSame(l, l', w, item.idx);
  }

  lemma FlowSame(l: Ledger, l': Ledger, w: nat, key: FlowKey, items: seq<Item>)
    requires OthersSame(l, l', w) && l'.n >= l.n && FlowOk(l, key, items)
    requires forall i :: 0 <= i < |items| ==> items[i].idx != w
    ensures FlowOk(l', key, items)
  {
    hide ItemOk, OthersSame;
    forall i | 0 <= i < |items| ensures ItemOk(l', key, items[i]) {
      ItemSame(l, l', w, key, items[i]);
    }
  }

  lemma ItemTag(l: Ledger, key: FlowKey, item: Item)
    requires ItemOk(l, key, item)
    ensures item.idx in l.tag && l.tag[item.idx] == key && item.idx < l.n && item.idx in l.parts && item.idx < |l.bufs|
    ensures item.idx in l.hlen && l.hlen[item.idx] == item.iphLen + item.thLen <= |l.bufs[item.idx].data| < B16
    ensures item.gso > 0 && item.iphLen == IphLen(key.isV6) && (if key.isTcp then 20 <= item.thLen <= 60 else item.thLen == 8)
    ensures l.bufs[item.idx].data[item.iphLen + item.thLen..] == Joined(l.orig, l.parts[item.idx], item.iphLen + item.thLen)
  {
  }

  lemma ItemParts(l: Ledger, key: FlowKey, item: Item)
    requires ItemOk(l, key, item)
    ensures item.idx in l.parts && item.idx < |l.bufs|
    ensures var ps, host := l.parts[item.idx], l.bufs[item.idx].data;
      && |ps| == item.merged + 1 && Early(ps, l.n) && Sized(l.orig, ps, item.iphLen + item.thLen, item.gso) && Alike(l.orig, ps, host, key, item.thLen)
      && (key.isTcp ==>
            && item.seqNo < B32 && Sequenced(l.orig, ps, item.iphLen, item.seqNo, item.gso)
            && item.iphLen + 8 <= |host| && Uint32At(host, item.iphLen + 4) == item.seqNo
            && Pushed(l.orig, ps, host, item.iphLen, item.psh))
  {
  }

  /** What happens to the buffer of one flow leaves the tables of all others as they were. */
  lemma TableSame(l: Ledger, l': Ledger, w: nat, table: Table, isTcp: bool, key: FlowKey, items: seq<Item>)
    requires OthersSame(l, l', w) && l'.n >= l.n && TableOk(l, table, isTcp)
    requires w == l.n || (w in l.tag && l.tag[w] == key)
    requires key.isTcp == isTcp ==> key.src != [] && FlowOk(l', key, items)
    ensures TableOk(l', if key.isTcp == isTcp then table[key := items] else table, isTcp)
  {
    hide ItemOk, OthersSame;
    forall k | k in table && k != key ensures FlowOk(l', k, table[k]) {
      forall i | 0 <= i < |table[k]| ensures table[k][i].idx != w {
        ItemTag(l, k, table[k][i]);
      }
      FlowSame(l, l', w, k, table[k]);
    }
  }

  // ---------------------------------------------------------------- reading packets

  datatype Kind = NotCandidate | Tcp4 | Tcp6 | Udp4 | Udp6

  function PacketKind(b: seq<Byte>, canUdp: bool): (k: Kind)
    ensures k != NotCandidate ==> Headed(b, k in {Tcp4, Tcp6}, k in {Tcp6, Udp6})
  {
    if |b| < 28 then NotCandidate
    else if b[0] / 16 == 4 then
      if b[0] % 16 != 5 then NotCandidate
      else if b[9] == TCP && |b| >= 40 then Tcp4
      else if b[9] == UDP && canUdp then Udp4
      else NotCandidate
    else if b[0] / 16 == 6 then
      if b[6] == TCP && |b| >= 60 then Tcp6
      else if b[6] == UDP && |b| >= 48 && canUdp then Udp6
      else NotCandidate
    else NotCandidate
  }

  /** Exactly the packets that have the headers of a protocol are of its kind, UDP only if that is wanted. */
  lemma PacketKindIff(b: seq<Byte>, canUdp: bool)
    ensures PacketKind(b, canUdp) == Tcp4 <==> Headed(b, true, false)
    ensures PacketKind(b, canUdp) == Tcp6 <==> Headed(b, true, true)
    ensures PacketKind(b, canUdp) == Udp4 <==> canUdp && Headed(b, false, false)
    ensures PacketKind(b, canUdp) == Udp6 <==> canUdp && Headed(b, false, true)
  {
  }

  /** A packet that may be coalesced, as its headers describe it. */
  datatype Candidate = NoCandidate | Candidate(thLen: nat, gso: nat, seqNo: nat, psh: bool, key: FlowKey)

  /** The length field of the IP header is right, and the packet is no fragment. */
  predicate WholePacket(pkt: seq<Byte>, isV6: bool)
    requires |pkt| >= 28
  {
    && |pkt| < B16
    && (if isV6 then Uint16At(pkt, 4) == |pkt| - 40 else Uint16At(pkt, 2) == |pkt|)
    && (!isV6 ==> pkt[6] / 32 % 2 == 0 && pkt[6] % 32 == 0 && pkt[7] == 0)
  }

  /** The length of a TCP header, from its data offset field. */
  function DataOffset(pkt: seq<Byte>, t: nat): nat
    requires t + 12 < |pkt|
  {
    pkt[t + 12] / 16 * 4
  }

  /** `c` describes `pkt`: a whole packet with a payload, and for TCP one whose flags are an acknowledgement, pushed or not. */
  ghost predicate Describes(c: Candidate, pkt: seq<Byte>) {
    && c.Candidate? && Headed(pkt, c.key.isTcp, c.key.isV6) && WholePacket(pkt, c.key.isV6)
    && c.key == KeyOf(pkt, c.key.isTcp, c.key.isV6)
    && var t := IphLen(c.key.isV6);
       && 0 < c.gso && t + c.thLen + c.gso == |pkt|
       && if c.key.isTcp then
            c.thLen == DataOffset(pkt, t) >= 20 && c.seqNo == Uint32At(pkt, t + 4) && pkt[t + 13] == Flags(c.psh)
          else c.thLen == 8 && c.seqNo == 0 && !c.psh
  }

  function ParseTcp(pkt: seq<Byte>, isV6: bool): (c: Candidate)
    requires Headed(pkt, true, isV6)
  {
    var t := IphLen(isV6);
    var thLen, flags := DataOffset(pkt, t), pkt[t + 13];
    if !WholePacket(pkt, isV6) || thLen < 20 || thLen > 60 || |pkt| < t + thLen then NoCandidate
    else if flags != 0x10 && flags != 0x18 then NoCandidate
    else if |pkt| == t + thLen then NoCandidate
    else Candidate(thLen, |pkt| - thLen - t, Uint32At(pkt, t + 4), flags == 0x18, KeyOf(pkt, true, isV6))
  }

  function ParseUdp(pkt: seq<Byte>, isV6: bool): (c: Candidate)
    requires Headed(pkt, false, isV6)
  {
    if !WholePacket(pkt, isV6) || |pkt| == IphLen(isV6) + 8 then NoCandidate
    else Candidate(8, |pkt| - 8 - IphLen(isV6), 0, false, KeyOf(pkt, false, isV6))
  }

  /** Parsing finds the description of a packet, if it has one. */
  lemma ParseTcpIff(pkt: seq<Byte>, isV6: bool, c: Candidate)
    requires Headed(pkt, true, isV6)
    ensures c.Candidate? && ParseTcp(pkt, isV6) == c <==> Describes(c, pkt) && c.key.isTcp && c.key.isV6 == isV6
  {
    hide Uint32At;
  }

  lemma ParseUdpIff(pkt: seq<Byte>, isV6: bool, c: Candidate)
    requires Headed(pkt, false, isV6)
    ensures c.Candidate? && ParseUdp(pkt, isV6) == c <==> Describes(c, pkt) && !c.key.isTcp && c.key.isV6 == isV6
  {
  }

  lemma DescribesFlow(c: Candidate, pkt: seq<Byte>)
    requires Describes(c, pkt)
    ensures InFlow(pkt, c.key)
    ensures c.key.isTcp ==> pkt[IphLen(c.key.isV6) + 13] == Flags(c.psh) && DataOffset(pkt, IphLen(c.key.isV6)) == c.thLen
  {
  }

  lemma DescribesSize(c: Candidate, pkt: seq<Byte>)
    requires Describes(c, pkt)
    ensures c.Candidate? && IphLen(c.key.isV6) + c.thLen <= |pkt| && (if c.key.isTcp then 20 <= c.thLen <= 60 && c.seqNo < B32 else c.thLen == 8)
    ensures |pkt| < B16 && 0 < c.gso == |pkt| - (IphLen(c.key.isV6) + c.thLen)
    ensures c.key.isTcp ==> c.seqNo == Uint32At(pkt, IphLen(c.key.isV6) + 4)
    ensures c.key.src != []
  {
  }

  lemma DescribesUdp(c: Candidate, pkt: seq<Byte>)
    requires Describes(c, pkt) && !c.key.isTcp
    ensures !c.psh
  {
  }

  predicate IpHeadersCanCoalesce(a: seq<Byte>, b: seq<Byte>) {
    && |a| >= 9 && |b| >= 9
    && if a[0] / 16 == 6 then a[0] == b[0] && a[1] / 16 == b[1] / 16 && a[7] == b[7]
       else a[1] == b[1] && a[6] / 32 == b[6] / 32 && a[8] == b[8]
  }

  datatype Mode = Prepend | Unavailable | Append

  function TcpCanCoalesce(pkt: seq<Byte>, c: Candidate, item: Item, target: seq<Byte>): Mode
    requires c.Candidate? && item.gso > 0 && item.iphLen == IphLen(c.key.isV6)
    requires item.iphLen + c.thLen <= |pkt| && item.iphLen + item.thLen <= |target|
  {
    var t := item.iphLen;
    var h := t + c.thLen;
    if c.thLen != item.thLen then Unavailable
    else if c.thLen > 20 && pkt[t + 20..h] != target[t + 20..h] then Unavailable
    else if !IpHeadersCanCoalesce(pkt, target) then Unavailable
    else
      var lhsLen := (item.gso + item.merged * item.gso) % B16;
      if c.seqNo == (item.seqNo + lhsLen) % B32 then
        if item.psh then Unavailable
        else if (|target| - h) % item.gso != 0 then Unavailable
        else if c.gso > item.gso then Unavailable
        else Append
      else if (c.seqNo + c.gso) % B32 == item.seqNo then
        if c.psh then Unavailable
        else if c.gso < item.gso then Unavailable
        else if c.gso > item.gso && item.merged > 0 then Unavailable
        else Prepend
      else Unavailable
  }

  function UdpCanCoalesce(pkt: seq<Byte>, c: Candidate, item: Item, target: seq<Byte>): (m: Mode)
    requires c.Candidate? && item.gso > 0 && item.iphLen + 8 <= |target|
    ensures m != Prepend
  {
    if !IpHeadersCanCoalesce(pkt, target) then Unavailable
    else if (|target| - (item.iphLen + 8)) % item.gso != 0 then Unavailable
    else if c.gso > item.gso then Unavailable
    else Append
  }

  lemma SameHeader(pkt: seq<Byte>, c: Candidate, item: Item, target: seq<Byte>)
    requires c.Candidate? && item.gso > 0 && item.iphLen == IphLen(c.key.isV6)
    requires item.iphLen + c.thLen <= |pkt| && item.iphLen + item.thLen <= |target|
    requires TcpCanCoalesce(pkt, c, item, target) != Unavailable
    ensures c.thLen == item.thLen
  {
  }

  predicate SumOk(pkt: seq<Byte>, key: FlowKey)
    requires IphLen(key.isV6) <= |pkt|
  {
    TransportValid(pkt, IphLen(key.isV6), if key.isTcp then TCP else UDP, key.isV6)
  }

  function SetPsh(b: Byte): Byte { if b / 8 % 2 == 1 then b else b + 8 }

  // ---------------------------------------------------------------- growing an item

  /** `b` is the buffer of `item` with the payload of the next packet behind it, and pushed if that is. */
  ghost predicate Extends(l: Ledger, item: Item, psh: bool, b: Buf)
    requires l.n < |l.orig| && item.idx < |l.bufs|
  {
    var h := item.iphLen + item.thLen;
    var head := l.bufs[item.idx].data;
    && h <= |head| <= |b.data| < B16 && h <= |l.orig[l.n].data|
    && b.data[h..] == head[h..] + l.orig[l.n].data[h..]
    && (forall k :: 0 <= k < h && k != item.iphLen + 13 ==> b.data[k] == head[k])
    && (item.thLen > 13 ==> b.data[item.iphLen + 13] == if psh then SetPsh(head[item.iphLen + 13]) else head[item.iphLen + 13])
  }

  /** Headers that may be merged agree in what must not differ. */
  lemma IpTwin(pkt: seq<Byte>, host: seq<Byte>, key: FlowKey, k: nat)
    requires InFlow(pkt, key) && InFlow(host, key) && IpHeadersCanCoalesce(pkt, host) && k < IphLen(key.isV6) && Stays(key, 0, k)
    ensures pkt[k] == host[k]
  {
    var at, n := AddrAt(key.isV6), AddrLen(key.isV6);
    assert at <= k < at + n ==> pkt[k] == pkt[at..at + n][k - at] && host[k] == host[at..at + n][k - at];
    assert at + n <= k ==> pkt[k] == pkt[at + n..at + 2 * n][k - at - n] && host[k] == host[at + n..at + 2 * n][k - at - n];
  }

  lemma TransportTwin(pkt: seq<Byte>, host: seq<Byte>, key: FlowKey, k: nat)
    requires InFlow(pkt, key) && InFlow(host, key)
    requires var t := IphLen(key.isV6); t <= k < t + 4 || (key.isTcp && t + 8 <= k < t + 12)
    ensures pkt[k] == host[k]
  {
    var t := IphLen(key.isV6);
    assert k < t + 4 ==> pkt[k] == pkt[t..t + 4][k - t] && host[k] == host[t..t + 4][k - t];
    assert k >= t + 8 ==> pkt[k] == pkt[t + 8..t + 12][k - t - 8] && host[k] == host[t + 8..t + 12][k - t - 8];
  }

  lemma MergeTwin(pkt: seq<Byte>, host: seq<Byte>, key: FlowKey, thLen: nat)
    requires InFlow(pkt, key) && InFlow(host, key) && IpHeadersCanCoalesce(pkt, host) && (if key.isTcp then thLen >= 20 else thLen == 8)
    requires var t := IphLen(key.isV6); t + thLen <= |pkt| && t + thLen <= |host|
    requires var t := IphLen(key.isV6); thLen > 20 ==> pkt[t + 20..t + thLen] == host[t + 20..t + thLen]
    requires var t := IphLen(key.isV6); key.isTcp ==> DataOffset(pkt, t) == DataOffset(host, t)
    ensures Twin(pkt, host, key, thLen)
  {
    assert key.isV6 ==> pkt[1] / 16 == host[1] / 16;
    hide InFlow, IpHeadersCanCoalesce;
    var t := IphLen(key.isV6);
    forall k | 0 <= k < t + thLen && Stays(key, thLen, k) ensures pkt[k] == host[k] {
      if k < t {
        IpTwin(pkt, host, key, k);
      } else if k < t + 12 {
        TransportTwin(pkt, host, key, k);
      } else {
        assert pkt[k] == pkt[t + 20..t + thLen][k - t - 20] && host[k] == host[t + 20..t + thLen][k - t - 20];
      }
    }
  }

  /** The next packet and the buffer of an item agree when they may be merged. */
  lemma CandidateTwin(l: Ledger, key: FlowKey, item: Item, c: Candidate)
    requires l.n < |l.orig| && ItemOk(l, key, item) && Describes(c, l.orig[l.n].data) && c.key == key && c.thLen == item.thLen
    requires (if key.isTcp then TcpCanCoalesce(l.orig[l.n].data, c, item, l.bufs[item.idx].data)
              else UdpCanCoalesce(l.orig[l.n].data, c, item, l.bufs[item.idx].data)) != Unavailable
    ensures InFlow(l.orig[l.n].data, key) && Twin(l.orig[l.n].data, l.bufs[item.idx].data, key, item.thLen)
  {
    hide Describes, ItemOk, Sized, Sequenced, Pushed, InFlow, IpHeadersCanCoalesce, Joined, Fit, Uint32At, Twin;
    DescribesFlow(c, l.orig[l.n].data);
    DescribesSize(c, l.orig[l.n].data);
    ItemTag(l, key, item);
    ItemParts(l, key, item);
    MergeTwin(l.orig[l.n].data, l.bufs[item.idx].data, key, item.thLen);
  }

  /** What a successful test for appending says. */
  ghost predicate Continues(l: Ledger, item: Item)
    requires l.n < |l.orig| && item.idx < |l.bufs| && item.idx in l.parts
  {
    var h, ps := item.iphLen + item.thLen, l.parts[item.idx];
    && Fit(l.orig, ps, h) && item.gso > 0 && |Joined(l.orig, ps, h)| % item.gso == 0 && |Joined(l.orig, ps, h)| < B16
    && 0 < Size(l.orig, l.n, h) <= item.gso
  }

  lemma AppendMode(l: Ledger, key: FlowKey, item: Item, c: Candidate)
    requires l.n < |l.orig| && ItemOk(l, key, item) && Describes(c, l.orig[l.n].data) && c.key == key && c.thLen == item.thLen
    requires (if key.isTcp then TcpCanCoalesce(l.orig[l.n].data, c, item, l.bufs[item.idx].data)
              else UdpCanCoalesce(l.orig[l.n].data, c, item, l.bufs[item.idx].data)) == Append
    ensures Continues(l, item)
    ensures key.isTcp ==> !item.psh && SeqNo(l.orig, l.n, item.iphLen) == (item.seqNo + (item.gso + (|l.parts[item.idx]| - 1) * item.gso) % B16) % B32
  {
    hide Describes, ItemOk, IpHeadersCanCoalesce, Sequenced, Uint32At, Alike, Pushed, Joined;
    ItemTag(l, key, item);
    ItemParts(l, key, item);
    DescribesSize(c, l.orig[l.n].data);
    var h := item.iphLen + item.thLen;
    assert |l.bufs[item.idx].data[h..]| == |l.bufs[item.idx].data| - h;
  }

  lemma AppendParts(l: Ledger, key: FlowKey, item: Item, c: Candidate)
    requires l.n < |l.orig| && ItemOk(l, key, item) && Describes(c, l.orig[l.n].data) && c.key == key && c.thLen == item.thLen
    requires (if key.isTcp then TcpCanCoalesce(l.orig[l.n].data, c, item, l.bufs[item.idx].data)
              else UdpCanCoalesce(l.orig[l.n].data, c, item, l.bufs[item.idx].data)) == Append
    ensures Sized(l.orig, l.parts[item.idx] + [l.n], item.iphLen + item.thLen, item.gso)
    ensures key.isTcp ==> Sequenced(l.orig, l.parts[item.idx] + [l.n], item.iphLen, item.seqNo, item.gso)
  {
    hide ItemOk, Joined, SeqNo, TcpCanCoalesce, UdpCanCoalesce, Describes, Sized, Sequenced, Alike, Pushed, Fit, Size, Uint32At;
    AppendMode(l, key, item, c);
    DescribesSize(c, l.orig[l.n].data);
    ItemTag(l, key, item);
    ItemParts(l, key, item);
    var h, ps := item.iphLen + item.thLen, l.parts[item.idx];
    SizedAppend(l.orig, ps, l.n, h, item.gso);
    if key.isTcp {
      SequencedAppend(l.orig, ps, l.n, h, item.iphLen, item.seqNo, item.gso);
    }
  }

  /** The header in front, after an append. */
  lemma AppendHeader(l: Ledger, key: FlowKey, item: Item, c: Candidate, b: Buf)
    requires l.n < |l.orig| && ItemOk(l, key, item) && Describes(c, l.orig[l.n].data) && c.key == key && c.thLen == item.thLen
    requires (if key.isTcp then TcpCanCoalesce(l.orig[l.n].data, c, item, l.bufs[item.idx].data)
              else UdpCanCoalesce(l.orig[l.n].data, c, item, l.bufs[item.idx].data)) == Append
    requires Extends(l, item, c.psh, b)
    ensures Alike(l.orig, l.parts[item.idx] + [l.n], b.data, key, item.thLen)
    ensures key.isTcp ==> Pushed(l.orig, l.parts[item.idx] + [l.n], b.data, item.iphLen, c.psh) && b.data[item.iphLen + 13] == Flags(c.psh)
    ensures key.isTcp ==> Uint32At(b.data, item.iphLen + 4) == item.seqNo
  {
    hide ItemOk, TcpCanCoalesce, UdpCanCoalesce, Describes, Sized, Sequenced, Twin, InFlow, Joined, Fit, Alike, Pushed, Uint32At;
    ItemTag(l, key, item);
    ItemParts(l, key, item);
    var ps, host, pkt := l.parts[item.idx], l.bufs[item.idx].data, l.orig[l.n].data;
    CandidateTwin(l, key, item, c);
    AppendMode(l, key, item, c);
    DescribesFlow(c, pkt);
    DescribesSize(c, pkt);
    HeadTwin(host, b.data, key, item.thLen);
    hide Extends;
    AlikeMore(l.orig, ps, l.n, host, key, item.thLen);
    AlikeHost(l.orig, ps + [l.n], host, b.data, key, item.thLen);
    if key.isTcp {
      AppendFlags(l, key, item, c, b);
    }
  }

  lemma AppendFlags(l: Ledger, key: FlowKey, item: Item, c: Candidate, b: Buf)
    requires l.n < |l.orig| && item.idx in l.parts && item.idx < |l.bufs| && key.isTcp && c.Candidate? && item.thLen >= 20
    requires Pushed(l.orig, l.parts[item.idx], l.bufs[item.idx].data, item.iphLen, false) && Early(l.parts[item.idx], l.n)
    requires item.iphLen + 13 < |l.orig[l.n].data| && l.orig[l.n].data[item.iphLen + 13] == Flags(c.psh) && Extends(l, item, c.psh, b)
    ensures Pushed(l.orig, l.parts[item.idx] + [l.n], b.data, item.iphLen, c.psh) && b.data[item.iphLen + 13] == Flags(c.psh)
    ensures Uint32At(b.data, item.iphLen + 4) == Uint32At(l.bufs[item.idx].data, item.iphLen + 4)
  {
    var host := l.bufs[item.idx].data;
    assert b.data[item.iphLen + 13] == Flags(c.psh);
    PushedAppend(l.orig, l.parts[item.idx], l.n, host, b.data, item.iphLen, c.psh);
  }

  /** A push flag set in the header changes nothing else. */
  lemma HeadTwin(host: seq<Byte>, host': seq<Byte>, key: FlowKey, thLen: nat)
    requires var t := IphLen(key.isV6);
      t + thLen <= |host| && t + thLen <= |host'| && (forall k :: 0 <= k < t + thLen && k != t + 13 ==> host'[k] == host[k])
    requires if key.isTcp then thLen >= 20 else thLen == 8
    ensures Twin(host, host', key, thLen)
  {
  }

  lemma AppendItem(l: Ledger, key: FlowKey, item: Item, c: Candidate, item': Item, b: Buf)
    requires Sound(l) && l.n < |l.orig| && ItemOk(l, key, item) && Describes(c, l.orig[l.n].data) && c.key == key && c.thLen == item.thLen
    requires (if key.isTcp then TcpCanCoalesce(l.orig[l.n].data, c, item, l.bufs[item.idx].data)
              else UdpCanCoalesce(l.orig[l.n].data, c, item, l.bufs[item.idx].data)) == Append
    requires Extends(l, item, c.psh, b) && item' == item.(merged := item.merged + 1, psh := if key.isTcp then c.psh else item'.psh)
    ensures Sound(Appended(l, item.idx, b)) && OthersSame(l, Appended(l, item.idx, b), item.idx)
    ensures ItemOk(Appended(l, item.idx, b), key, item')
  {
    hide ItemOk, Joined, Sound, OthersSame, Sized, Sequenced, TcpCanCoalesce, UdpCanCoalesce, Fit, Alike, Pushed, Uint32At, Describes, Carries;
    ItemTag(l, key, item);
    ItemParts(l, key, item);
    AppendParts(l, key, item, c);
    AppendHeader(l, key, item, c, b);
    AppendedSound(l, item.idx, b);
    SoundCarries(Appended(l, item.idx, b), item.idx);
    ItemIs(Appended(l, item.idx, b), key, item');
  }

  /** What makes an item. */
  lemma ItemIs(l: Ledger, key: FlowKey, item: Item)
    requires Carries(l, item.idx) && item.idx < l.n && item.idx in l.tag && l.tag[item.idx] == key
    requires item.iphLen == IphLen(key.isV6) && (if key.isTcp then 20 <= item.thLen <= 60 else item.thLen == 8)
    requires l.hlen[item.idx] == item.iphLen + item.thLen && |l.bufs[item.idx].data| < B16
    requires var ps, host := l.parts[item.idx], l.bufs[item.idx].data;
      && |ps| == item.merged + 1 && Early(ps, l.n) && Sized(l.orig, ps, item.iphLen + item.thLen, item.gso) && Alike(l.orig, ps, host, key, item.thLen)
      && (key.isTcp ==>
            && item.seqNo < B32 && Sequenced(l.orig, ps, item.iphLen, item.seqNo, item.gso)
            && item.iphLen + 8 <= |host| && Uint32At(host, item.iphLen + 4) == item.seqNo
            && Pushed(l.orig, ps, host, item.iphLen, item.psh))
    ensures ItemOk(l, key, item)
  {
    hide Carries, Sized, Sequenced, Alike, Pushed, Uint32At, Early;
  }

  lemma SoundCarries(l: Ledger, w: nat)
    requires Sound(l) && w in l.parts
    ensures Carries(l, w)
  {
  }

  /** `b` is the next packet with the payload of the buffer of `item` behind it. */
  ghost predicate Precedes(l: Ledger, item: Item, b: Buf)
    requires l.n < |l.orig| && item.idx < |l.bufs|
  {
    var h := item.iphLen + item.thLen;
    && h <= |l.bufs[item.idx].data| && h <= |l.orig[l.n].data| <= |b.data| < B16
    && b.data == l.orig[l.n].data + l.bufs[item.idx].data[h..]
  }

  lemma PrependTcp(l: Ledger, key: FlowKey, item: Item, c: Candidate, item': Item, b: Buf)
    requires Sound(l) && l.n < |l.orig| == |l.bufs| && ItemOk(l, key, item) && key.isTcp
    requires Describes(c, l.orig[l.n].data) && c.key == key && c.thLen == item.thLen
    requires TcpCanCoalesce(l.orig[l.n].data, c, item, l.bufs[item.idx].data) == Prepend
    requires Precedes(l, item, b) && item' == item.(merged := item.merged + 1, seqNo := c.seqNo, gso := c.gso)
    ensures Sound(Prepended(l, item.idx, b)) && OthersSame(l, Prepended(l, item.idx, b), item.idx)
    ensures ItemOk(Prepended(l, item.idx, b), key, item')
  {
    hide ItemOk, Joined, Sound, OthersSame, Sized, Sequenced, TcpCanCoalesce, Fit, Uint32At, Alike, Pushed, Describes, Carries;
    ItemTag(l, key, item);
    ItemParts(l, key, item);
    PrependTcpParts(l, key, item, c);
    PrependHeader(l, key, item, c, b);
    DescribesSize(c, l.orig[l.n].data);
    var h := item.iphLen + item.thLen;
    assert b.data[h..] == l.orig[l.n].data[h..] + l.bufs[item.idx].data[h..];
    PrependedSound(l, item.idx, b);
    SoundCarries(Prepended(l, item.idx, b), item.idx);
    ItemIs(Prepended(l, item.idx, b), key, item');
  }

  /** The header in front, after a prepend: that of the new packet, which is not pushed. */
  lemma PrependHeader(l: Ledger, key: FlowKey, item: Item, c: Candidate, b: Buf)
    requires l.n < |l.orig| && ItemOk(l, key, item) && key.isTcp && Precedes(l, item, b)
    requires Describes(c, l.orig[l.n].data) && c.key == key && c.thLen == item.thLen
    requires TcpCanCoalesce(l.orig[l.n].data, c, item, l.bufs[item.idx].data) == Prepend
    ensures Alike(l.orig, [l.n] + l.parts[item.idx], b.data, key, item.thLen)
    ensures Pushed(l.orig, [l.n] + l.parts[item.idx], b.data, item.iphLen, item.psh) && b.data[item.iphLen + 13] == Flags(false)
    ensures Uint32At(b.data, item.iphLen + 4) == c.seqNo
  {
    hide ItemOk, TcpCanCoalesce, Describes, Sized, Sequenced, InFlow, Joined, Fit, Uint32At, Alike, Pushed, Twin;
    ItemTag(l, key, item);
    ItemParts(l, key, item);
    var ps, host, pkt := l.parts[item.idx], l.bufs[item.idx].data, l.orig[l.n].data;
    DescribesSize(c, pkt);
    NotPushed(pkt, c, item, host);
    CandidateTwin(l, key, item, c);
    DescribesFlow(c, pkt);
    PrefixReads(pkt, host[item.iphLen + item.thLen..], item.iphLen + 4);
    assert b.data[item.iphLen + 13] == pkt[item.iphLen + 13];
    AlikeMore(l.orig, ps, l.n, host, key, item.thLen);
    PrefixTwin(pkt, host, host[item.iphLen + item.thLen..], key, item.thLen);
    AlikeHost(l.orig, [l.n] + ps, host, b.data, key, item.thLen);
    PushedPrepend(l.orig, ps, l.n, host, b.data, item.iphLen, item.psh);
  }

  /** The header in front has the push flag that the last packet of the item came with. */
  predicate PushKept(l: Ledger, item: Item) {
    item.idx < |l.bufs| && item.iphLen + 13 < |l.bufs[item.idx].data| && l.bufs[item.idx].data[item.iphLen + 13] == Flags(item.psh)
  }

  /** Appending never loses the push flag. */
  lemma AppendKeepsPush(l: Ledger, key: FlowKey, item: Item, c: Candidate, item': Item, b: Buf)
    requires l.n < |l.orig| == |l.bufs| && item.idx < l.n && ItemOk(l, key, item) && key.isTcp
    requires Describes(c, l.orig[l.n].data) && c.key == key && c.thLen == item.thLen
    requires TcpCanCoalesce(l.orig[l.n].data, c, item, l.bufs[item.idx].data) == Append && Extends(l, item, c.psh, b)
    requires item' == item.(merged := item.merged + 1, psh := c.psh)
    ensures item.idx in l.parts && PushKept(Appended(l, item.idx, b), item')
  {
    hide ItemOk, Describes, Extends, TcpCanCoalesce, Alike, Pushed, Uint32At;
    ItemTag(l, key, item);
    DescribesSize(c, l.orig[l.n].data);
    AppendHeader(l, key, item, c, b);
    ExtendsLength(l, item, c.psh, b);
  }

  /** Prepending loses it exactly if there was one. */
  lemma PrependLosesPush(l: Ledger, key: FlowKey, item: Item, c: Candidate, item': Item, b: Buf)
    requires l.n < |l.orig| == |l.bufs| && item.idx < l.n && ItemOk(l, key, item) && key.isTcp
    requires Describes(c, l.orig[l.n].data) && c.key == key && c.thLen == item.thLen
    requires TcpCanCoalesce(l.orig[l.n].data, c, item, l.bufs[item.idx].data) == Prepend && Precedes(l, item, b)
    requires item' == item.(merged := item.merged + 1, seqNo := c.seqNo, gso := c.gso)
    ensures item.idx in l.parts && (PushKept(Prepended(l, item.idx, b), item') <==> !item.psh)
  {
    hide ItemOk, Describes, Precedes, TcpCanCoalesce, Alike, Pushed, Uint32At;
    ItemTag(l, key, item);
    PrependHeader(l, key, item, c, b);
    PrecedesLength(l, item, b);
  }

  lemma ExtendsLength(l: Ledger, item: Item, psh: bool, b: Buf)
    requires l.n < |l.orig| && item.idx < |l.bufs| && Extends(l, item, psh, b)
    ensures item.iphLen + item.thLen <= |b.data|
  {
  }

  lemma PrecedesLength(l: Ledger, item: Item, b: Buf)
    requires l.n < |l.orig| && item.idx < |l.bufs| && Precedes(l, item, b)
    ensures item.iphLen + item.thLen <= |b.data|
  {
  }

  lemma NotPushed(pkt: seq<Byte>, c: Candidate, item: Item, host: seq<Byte>)
    requires c.Candidate? && item.gso > 0 && item.iphLen == IphLen(c.key.isV6)
    requires item.iphLen + c.thLen <= |pkt| && item.iphLen + item.thLen <= |host|
    requires TcpCanCoalesce(pkt, c, item, host) == Prepend
    ensures !c.psh
  {
  }

  lemma PrefixTwin(pkt: seq<Byte>, host: seq<Byte>, tail: seq<Byte>, key: FlowKey, thLen: nat)
    requires Twin(pkt, host, key, thLen)
    ensures Twin(host, pkt + tail, key, thLen)
  {
    hide Stays;
  }

  lemma PrefixReads(a: seq<Byte>, b: seq<Byte>, at: nat)
    requires at + 4 <= |a|
    ensures Uint32At(a + b, at) == Uint32At(a, at)
  {
  }

  lemma PrependTcpParts(l: Ledger, key: FlowKey, item: Item, c: Candidate)
    requires l.n < |l.orig| && ItemOk(l, key, item) && key.isTcp
    requires Describes(c, l.orig[l.n].data) && c.key == key && c.thLen == item.thLen
    requires TcpCanCoalesce(l.orig[l.n].data, c, item, l.bufs[item.idx].data) == Prepend
    ensures Sized(l.orig, [l.n] + l.parts[item.idx], item.iphLen + item.thLen, c.gso)
    ensures Sequenced(l.orig, [l.n] + l.parts[item.idx], item.iphLen, c.seqNo, c.gso)
  {
    hide Joined, Uint32At, IpHeadersCanCoalesce, Alike, Pushed, KeyOf, WholePacket;
    var h, ps := item.iphLen + item.thLen, l.parts[item.idx];
    SizedPrepend(l.orig, ps, l.n, h, item.gso);
    SequencedPrepend(l.orig, ps, l.n, item.iphLen, item.seqNo, item.gso, c.gso);
  }

  // ---------------------------------------------------------------- which packets go together

  /**
   The next packet continues what the buffer of `item` carries: its header agrees in what is kept, nothing in front of it pushes,
   all before it are full and it is not larger, and TCP sequence numbers go on without a gap.
   */
  ghost predicate Continuing(l: Ledger, c: Candidate, item: Item) {
    && l.n < |l.orig| && item.idx in l.parts && item.idx < |l.bufs| && c.Candidate? && c.thLen == item.thLen
    && Twin(l.orig[l.n].data, l.bufs[item.idx].data, c.key, item.thLen)
    && Sized(l.orig, l.parts[item.idx] + [l.n], item.iphLen + item.thLen, item.gso)
    && (c.key.isTcp ==> !item.psh && Sequenced(l.orig, l.parts[item.idx] + [l.n], item.iphLen, item.seqNo, item.gso))
  }

  /** The next packet precedes it: likewise, with this packet in front. */
  ghost predicate Preceding(l: Ledger, c: Candidate, item: Item) {
    && l.n < |l.orig| && item.idx in l.parts && item.idx < |l.bufs| && c.Candidate? && c.thLen == item.thLen
    && Twin(l.orig[l.n].data, l.bufs[item.idx].data, c.key, item.thLen)
    && Sized(l.orig, [l.n] + l.parts[item.idx], item.iphLen + item.thLen, c.gso)
    && Sequenced(l.orig, [l.n] + l.parts[item.idx], item.iphLen, c.seqNo, c.gso)
  }

  /** Headers that agree in what is kept may be merged. */
  lemma TwinMerge(pkt: seq<Byte>, host: seq<Byte>, key: FlowKey, thLen: nat)
    requires InFlow(pkt, key) && InFlow(host, key) && Twin(pkt, host, key, thLen) && (if key.isTcp then thLen >= 20 else thLen == 8)
    ensures IpHeadersCanCoalesce(pkt, host)
    ensures var t := IphLen(key.isV6); key.isTcp ==> pkt[t + 20..t + thLen] == host[t + 20..t + thLen]
  {
    var t := IphLen(key.isV6);
    forall k | 0 <= k < t + thLen && Stays(key, thLen, k) ensures pkt[k] == host[k] {
    }
    hide Twin;
    if key.isV6 {
      assert Stays(key, thLen, 0) && Stays(key, thLen, 7);
    } else {
      assert Stays(key, thLen, 1) && Stays(key, thLen, 6) && Stays(key, thLen, 8);
    }
    if key.isTcp {
      forall k | t + 20 <= k < t + thLen ensures pkt[k] == host[k] {
        assert Stays(key, thLen, k);
      }
    }
  }

  /** All packets in front of another are full. */
  lemma FullBefore(orig: seq<Buf>, ps: seq<nat>, p: nat, h: nat, gso: nat)
    requires Tapered(orig, ps, h, gso) && Sized(orig, ps + [p], h, gso)
    ensures gso > 0 && |Joined(orig, ps, h)| == |ps| * gso && |Joined(orig, ps, h)| % gso == 0 && p < |orig| && Size(orig, p, h) <= gso
  {
    hide Joined;
    var qs, m := ps + [p], |ps| - 1;
    assert qs[m] == ps[m] && Size(orig, qs[m], h) == gso;
    assert qs[|qs| - 1] == p;
    JoinedLength(orig, ps, h, gso);
    assert m * gso + gso == |ps| * gso;
    MultipleMod(|ps|, gso);
  }

  lemma MultipleMod(m: nat, g: nat)
    requires g > 0
    ensures m * g % g == 0
  {
    var x := m * g;
    var q, r := x / g, x % g;
    assert x == q * g + r;
    assert (m - q) * g == r;
    assert m - q >= 1 ==> (m - q) * g >= g;
    assert m - q <= 0 ==> (m - q) * g <= 0;
  }

  /** What continues may be appended. */
  lemma ContinuingAppend(l: Ledger, key: FlowKey, item: Item, c: Candidate)
    requires l.n < |l.orig| && ItemOk(l, key, item) && Describes(c, l.orig[l.n].data) && c.key == key && Continuing(l, c, item)
    ensures item.gso > 0 && item.iphLen + c.thLen <= |l.orig[l.n].data|
    ensures if key.isTcp then TcpCanCoalesce(l.orig[l.n].data, c, item, l.bufs[item.idx].data) == Append
            else UdpCanCoalesce(l.orig[l.n].data, c, item, l.bufs[item.idx].data) == Append
  {
    hide ItemOk, Describes, Sized, Sequenced, Twin, InFlow, Joined, Uint32At, Pushed, IpHeadersCanCoalesce, Fit, Alike, Continuing;
    ItemTag(l, key, item);
    DescribesSize(c, l.orig[l.n].data);
    ContinuingHeader(l, key, item, c);
    ContinuingLength(l, key, item, c);
    if key.isTcp {
      SmallMod(|l.parts[item.idx]| * item.gso);
    }
  }

  lemma ContinuingHeader(l: Ledger, key: FlowKey, item: Item, c: Candidate)
    requires l.n < |l.orig| && ItemOk(l, key, item) && Describes(c, l.orig[l.n].data) && c.key == key && (Continuing(l, c, item) || Preceding(l, c, item))
    ensures c.thLen == item.thLen && item.idx < |l.bufs| && IpHeadersCanCoalesce(l.orig[l.n].data, l.bufs[item.idx].data)
    ensures var h, pkt, host := item.iphLen + item.thLen, l.orig[l.n].data, l.bufs[item.idx].data;
      h <= |pkt| && h <= |host| && (key.isTcp ==> item.thLen >= 20 && pkt[item.iphLen + 20..h] == host[item.iphLen + 20..h])
  {
    hide ItemOk, Describes, Sized, Sequenced, Twin, InFlow, Joined, Uint32At, Pushed, IpHeadersCanCoalesce, Fit;
    ItemTag(l, key, item);
    ItemParts(l, key, item);
    DescribesFlow(c, l.orig[l.n].data);
    DescribesSize(c, l.orig[l.n].data);
    TwinMerge(l.orig[l.n].data, l.bufs[item.idx].data, key, item.thLen);
  }

  lemma ContinuingLength(l: Ledger, key: FlowKey, item: Item, c: Candidate)
    requires l.n < |l.orig| && ItemOk(l, key, item) && Describes(c, l.orig[l.n].data) && c.key == key && Continuing(l, c, item)
    ensures item.gso > 0 && c.gso <= item.gso && item.idx < |l.bufs| && item.idx in l.parts && |l.parts[item.idx]| * item.gso < B16
    ensures (|l.bufs[item.idx].data| - (item.iphLen + item.thLen)) % item.gso == 0
    ensures item.gso + item.merged * item.gso == |l.parts[item.idx]| * item.gso
    ensures key.isTcp ==> !item.psh && c.seqNo == (item.seqNo + |l.parts[item.idx]| * item.gso) % B32
  {
    hide ItemOk, Describes, Sized, Sequenced, Twin, InFlow, Joined, Uint32At, Pushed, Fit, Alike, Tapered;
    var h, ps, host := item.iphLen + item.thLen, l.parts[item.idx], l.bufs[item.idx].data;
    ItemTag(l, key, item);
    ItemParts(l, key, item);
    DescribesSize(c, l.orig[l.n].data);
    SizedTapered(l.orig, ps, h, item.gso);
    FullBefore(l.orig, ps, l.n, h, item.gso);
    assert |host[h..]| == |host| - h;
    OneMore(item.merged, item.gso, |ps|);
    if key.isTcp {
      ContinuingSeqNo(l.orig, ps, l.n, item.iphLen, item.seqNo, item.gso);
    }
  }

  lemma OneMore(m: nat, g: nat, n: nat)
    requires n == m + 1
    ensures g + m * g == n * g
  {
  }

  lemma SizedTapered(orig: seq<Buf>, ps: seq<nat>, h: nat, gso: nat)
    requires Sized(orig, ps, h, gso)
    ensures Tapered(orig, ps, h, gso) && Fit(orig, ps, h)
  {
  }

  lemma ContinuingSeqNo(orig: seq<Buf>, ps: seq<nat>, p: nat, iphLen: nat, first: nat, gso: nat)
    requires Sequenced(orig, ps + [p], iphLen, first, gso) && first < B32
    ensures p < |orig| && iphLen + 8 <= |orig[p].data| && SeqNo(orig, p, iphLen) == (first + |ps| * gso) % B32
  {
    hide SeqNo;
    assert (ps + [p])[|ps|] == p;
    SeqNoAt(orig, ps + [p], iphLen, first, gso, |ps|);
  }

  /** What precedes may be prepended. */
  lemma PrecedingPrepend(l: Ledger, key: FlowKey, item: Item, c: Candidate)
    requires l.n < |l.orig| && ItemOk(l, key, item) && Describes(c, l.orig[l.n].data) && c.key == key && key.isTcp && !c.psh && Preceding(l, c, item)
    ensures item.gso > 0 && item.iphLen + c.thLen <= |l.orig[l.n].data|
    ensures TcpCanCoalesce(l.orig[l.n].data, c, item, l.bufs[item.idx].data) == Prepend
  {
    hide ItemOk, Describes, Sized, Sequenced, Twin, InFlow, Joined, Uint32At, Pushed, IpHeadersCanCoalesce, Fit, Alike;
    var h, ps := item.iphLen + item.thLen, l.parts[item.idx];
    ItemTag(l, key, item);
    ItemParts(l, key, item);
    DescribesSize(c, l.orig[l.n].data);
    ContinuingHeader(l, key, item, c);
    PrecedingSize(l.orig, ps, l.n, h, item.gso, c.gso);
    PrecedingSeqNo(l.orig, ps, l.n, item.iphLen, item.seqNo, item.gso, c.seqNo, c.gso);
    NotBoth(c.seqNo, item.seqNo, (item.gso + item.merged * item.gso) % B16, c.gso);
  }

  lemma PrecedingSize(orig: seq<Buf>, ps: seq<nat>, p: nat, h: nat, gso: nat, gso': nat)
    requires Sized(orig, ps, h, gso) && Sized(orig, [p] + ps, h, gso')
    ensures gso' >= gso && (|ps| > 1 ==> gso' == gso)
  {
    var qs := [p] + ps;
    assert qs[1] == ps[0];
  }

  lemma PrecedingSeqNo(orig: seq<Buf>, ps: seq<nat>, p: nat, iphLen: nat, first: nat, gso: nat, first': nat, gso': nat)
    requires Sequenced(orig, ps, iphLen, first, gso) && Sequenced(orig, [p] + ps, iphLen, first', gso')
    ensures first == (first' + gso') % B32
  {
    hide SeqNo;
    var qs := [p] + ps;
    assert qs[0] == p && qs[0 + 1] == ps[0];
  }

  /** No packet both continues and precedes. */
  lemma NotBoth(seqNo: nat, first: nat, len: nat, gso: nat)
    requires seqNo < B32 && first < B32 && len < B16 && 0 < gso < B16
    ensures first != (seqNo + gso) % B32 || seqNo != (first + len) % B32
  {
  }

  /** The test for coalescing tells exactly the packets that continue an item and those that precede it. */
  lemma TcpModeIff(l: Ledger, key: FlowKey, item: Item, c: Candidate)
    requires l.n < |l.orig| && ItemOk(l, key, item) && Describes(c, l.orig[l.n].data) && c.key == key && key.isTcp
    ensures item.gso > 0 && item.iphLen + c.thLen <= |l.orig[l.n].data| && item.iphLen == IphLen(c.key.isV6)
    ensures item.idx < |l.bufs| && item.iphLen + item.thLen <= |l.bufs[item.idx].data|
    ensures var mode := TcpCanCoalesce(l.orig[l.n].data, c, item, l.bufs[item.idx].data);
      (mode == Append <==> Continuing(l, c, item)) && (mode == Prepend <==> Preceding(l, c, item) && !c.psh)
  {
    hide ItemOk, Describes, Sized, Sequenced, Twin, InFlow, Joined, Uint32At, Pushed, TcpCanCoalesce, Alike, Fit;
    ItemTag(l, key, item);
    DescribesSize(c, l.orig[l.n].data);
    var mode := TcpCanCoalesce(l.orig[l.n].data, c, item, l.bufs[item.idx].data);
    if mode != Unavailable {
      SameHeader(l.orig[l.n].data, c, item, l.bufs[item.idx].data);
      CandidateTwin(l, key, item, c);
    }
    if mode == Append {
      AppendMode(l, key, item, c);
      AppendParts(l, key, item, c);
    }
    if mode == Prepend {
      NotPushed(l.orig[l.n].data, c, item, l.bufs[item.idx].data);
      PrependTcpParts(l, key, item, c);
    }
    if Continuing(l, c, item) {
      ContinuingAppend(l, key, item, c);
    }
    if Preceding(l, c, item) && !c.psh {
      PrecedingPrepend(l, key, item, c);
    }
  }

  /** What a successful test means, whether the packet pushes or not. */
  lemma TcpModeMeans(l: Ledger, key: FlowKey, item: Item, c: Candidate)
    requires l.n < |l.orig| && ItemOk(l, key, item) && Describes(c, l.orig[l.n].data) && c.key == key && key.isTcp
    ensures item.gso > 0 && item.iphLen + c.thLen <= |l.orig[l.n].data| && item.iphLen == IphLen(c.key.isV6)
    ensures item.idx < |l.bufs| && item.iphLen + item.thLen <= |l.bufs[item.idx].data|
    ensures var mode := TcpCanCoalesce(l.orig[l.n].data, c, item, l.bufs[item.idx].data);
      && (mode == Append ==> Continuing(l, c, item) && !Preceding(l, c, item))
      && (mode == Prepend ==> Preceding(l, c, item) && !Continuing(l, c, item))
  {
    hide ItemOk, Describes, Sized, Sequenced, Twin, InFlow, Joined, Uint32At, Pushed, TcpCanCoalesce, Alike, Fit, Continuing, Preceding;
    TcpModeIff(l, key, item, c);
    NeverBoth(l, key, item, c);
  }

  lemma NeverBoth(l: Ledger, key: FlowKey, item: Item, c: Candidate)
    requires l.n < |l.orig| && ItemOk(l, key, item) && Describes(c, l.orig[l.n].data) && c.key == key && key.isTcp
    ensures !Continuing(l, c, item) || !Preceding(l, c, item)
  {
    hide ItemOk, Describes, Sized, Sequenced, Twin, InFlow, Joined, Uint32At, Pushed, Alike, Fit, Continuing;
    ItemTag(l, key, item);
    ItemParts(l, key, item);
    DescribesSize(c, l.orig[l.n].data);
    ghost var len: nat := 0;
    if Continuing(l, c, item) {
      ContinuingLength(l, key, item, c);
      len := |l.parts[item.idx]| * item.gso;
    }
    assert Preceding(l, c, item) ==> item.seqNo == (c.seqNo + c.gso) % B32 by {
      if Preceding(l, c, item) {
        PrecedingSeqNo(l.orig, l.parts[item.idx], l.n, item.iphLen, item.seqNo, item.gso, c.seqNo, c.gso);
      }
    }
    hide Preceding;
    NotBoth(c.seqNo, item.seqNo, len, c.gso);
  }

  lemma UdpModeIff(l: Ledger, key: FlowKey, item: Item, c: Candidate)
    requires l.n < |l.orig| && ItemOk(l, key, item) && Describes(c, l.orig[l.n].data) && c.key == key && !key.isTcp
    ensures item.gso > 0 && item.idx < |l.bufs| && item.iphLen + 8 <= |l.bufs[item.idx].data| && c.thLen == item.thLen
    ensures UdpCanCoalesce(l.orig[l.n].data, c, item, l.bufs[item.idx].data) == Append <==> Continuing(l, c, item)
  {
    hide ItemOk, Describes, Sized, Sequenced, Twin, InFlow, Joined, Uint32At, Pushed, UdpCanCoalesce, Alike, Fit;
    ItemTag(l, key, item);
    DescribesSize(c, l.orig[l.n].data);
    if UdpCanCoalesce(l.orig[l.n].data, c, item, l.bufs[item.idx].data) == Append {
      CandidateTwin(l, key, item, c);
      AppendParts(l, key, item, c);
    }
    if Continuing(l, c, item) {
      ContinuingAppend(l, key, item, c);
    }
  }

  /** The next packet goes with `item`: behind it, or in front of it if it is of TCP and does not push, and there is room behind `offset` bytes. */
  ghost predicate Goes(l: Ledger, c: Candidate, item: Item, offset: nat) {
    && l.n < |l.orig| && item.idx < |l.bufs| && c.Candidate?
    && var len := |l.bufs[item.idx].data| + |l.orig[l.n].data| - (item.iphLen + item.thLen);
       || (Continuing(l, c, item) && len <= l.bufs[item.idx].cap - offset)
       || (c.key.isTcp && !c.psh && Preceding(l, c, item) && len <= l.orig[l.n].cap - offset)
  }

  /** It can be merged into it: it goes with it, and the checksums are right, its own and that of the one packet in the item. */
  ghost predicate Mergeable(l: Ledger, c: Candidate, item: Item, offset: nat) {
    && Goes(l, c, item, offset) && SumOk(l.orig[l.n].data, c.key)
    && (item.merged == 0 ==> (c.key.isTcp || !item.badCsum) && SumOk(l.bufs[item.idx].data, c.key))
  }

  /** It goes with it, but the checksum of the one packet in the item is wrong. */
  ghost predicate Spoilt(l: Ledger, c: Candidate, item: Item, offset: nat) {
    Goes(l, c, item, offset) && item.merged == 0 && !SumOk(l.bufs[item.idx].data, c.key)
  }

  /** It goes with it, and whether it is merged depends on its own checksum: the search for an item ends here. */
  ghost predicate Stops(l: Ledger, c: Candidate, item: Item, offset: nat) {
    Goes(l, c, item, offset) && (item.merged == 0 ==> SumOk(l.bufs[item.idx].data, c.key))
  }

  /** For UDP, where a wrong checksum of the one packet in the item may be known already. */
  ghost predicate UdpStops(l: Ledger, c: Candidate, item: Item, offset: nat) {
    Goes(l, c, item, offset) && (item.merged == 0 ==> !item.badCsum && SumOk(l.bufs[item.idx].data, c.key))
  }

  /** The next packet, which searches its flow from the end, meets a spoilt item, that of buffer `w`. */
  ghost predicate Meets(l: Ledger, table: Table, c: Candidate, offset: nat, w: nat) {
    && c.Candidate? && c.key in table
    && exists i :: 0 <= i < |table[c.key]| && table[c.key][i].idx == w && Spoilt(l, c, table[c.key][i], offset) &&
                   forall j :: i < j < |table[c.key]| ==> !Stops(l, c, table[c.key][j], offset)
  }

  /** A packet that neither continues nor precedes goes with nothing. */
  lemma GoesNot(l: Ledger, c: Candidate, item: Item, offset: nat)
    requires !Continuing(l, c, item) && (c.Candidate? && c.key.isTcp ==> !Preceding(l, c, item) || c.psh)
    ensures !Mergeable(l, c, item, offset) && !Spoilt(l, c, item, offset) && !Stops(l, c, item, offset) && !UdpStops(l, c, item, offset)
  {
    hide Continuing, Preceding;
  }

  lemma SpoiltSum(l: Ledger, c: Candidate, item: Item, offset: nat)
    requires Spoilt(l, c, item, offset)
    ensures c.Candidate? && item.merged == 0 && item.idx < |l.bufs| && IphLen(c.key.isV6) <= |l.bufs[item.idx].data| && !SumOk(l.bufs[item.idx].data, c.key)
    ensures !Stops(l, c, item, offset)
  {
    hide Sized, Sequenced;
  }

  lemma BadSumNotMergeable(l: Ledger, c: Candidate, item: Item, offset: nat)
    requires l.n < |l.orig| && c.Candidate? && IphLen(c.key.isV6) <= |l.orig[l.n].data| && !SumOk(l.orig[l.n].data, c.key)
    ensures !Mergeable(l, c, item, offset)
  {
    hide Continuing, Preceding;
  }

  // ---------------------------------------------------------------- what splitting gives back

  /** The payloads of the packets `ps`, each on its own. */
  function Pieces(orig: seq<Buf>, ps: seq<nat>, h: nat): (r: seq<seq<Byte>>)
    requires Fit(orig, ps, h)
    ensures |r| == |ps| && forall k :: 0 <= k < |ps| ==> r[k] == orig[ps[k]].data[h..]
  {
    if ps == [] then [] else [orig[ps[0]].data[h..]] + Pieces(orig, ps[1..], h)
  }

  lemma {:induction false} ConcatPieces(orig: seq<Buf>, ps: seq<nat>, h: nat)
    requires Fit(orig, ps, h)
    ensures Concat(Pieces(orig, ps, h)) == Joined(orig, ps, h)
  {
    if ps != [] {
      ConcatPieces(orig, ps[1..], h);
      assert Pieces(orig, ps, h)[1..] == Pieces(orig, ps[1..], h);
    }
  }

  /** Cutting what a buffer carries into pieces of its recorded size gives back its packets' payloads. */
  lemma ChunksOfItem(l: Ledger, key: FlowKey, item: Item)
    requires ItemOk(l, key, item)
    ensures var h := item.iphLen + item.thLen;
      Chunks(l.bufs[item.idx].data[h..], item.gso) == Pieces(l.orig, l.parts[item.idx], h)
  {
    hide Joined, Alike, Pushed, Sequenced, Chunks, Concat;
    var h, ps := item.iphLen + item.thLen, l.parts[item.idx];
    ConcatPieces(l.orig, ps, h);
    PiecesSized(l.orig, ps, h, item.gso);
    ChunksConcat(Pieces(l.orig, ps, h), item.gso);
  }

  lemma PiecesSized(orig: seq<Buf>, ps: seq<nat>, h: nat, gso: nat)
    requires Sized(orig, ps, h, gso)
    ensures var s := Pieces(orig, ps, h);
      gso > 0 && (forall k :: 0 <= k < |s| ==> 0 < |s[k]| <= gso) && (forall k :: 0 <= k < |s| - 1 ==> |s[k]| == gso)
  {
    hide Pieces;
    var s := Pieces(orig, ps, h);
    forall k | 0 <= k < |s| ensures |s[k]| == Size(orig, ps[k], h) {
      assert s[k] == orig[ps[k]].data[h..];
    }
  }

  /** The header that tells the kernel, or a splitter, how to cut the buffer of `item`. */
  function OffloadHdr(key: FlowKey, item: Item): VirtioHdr {
    VirtioHdr(key.isTcp, item.iphLen + item.thLen, item.gso, item.iphLen, if key.isTcp then 16 else 6)
  }

  /** The sequence number a splitter computes for piece `k` is the one packet `k` came with. */
  lemma SeqOfItem(l: Ledger, key: FlowKey, item: Item, k: nat)
    requires ItemOk(l, key, item) && key.isTcp && k < |l.parts[item.idx]|
    ensures var p := l.parts[item.idx][k];
      && p < |l.orig| && item.iphLen + 8 <= |l.orig[p].data|
      && SeqNo(l.orig, p, item.iphLen) == (item.seqNo + k * item.gso) % B32
  {
    hide Joined, SeqNo, Sized, Alike, Pushed;
    SeqNoAt(l.orig, l.parts[item.idx], item.iphLen, item.seqNo, item.gso, k);
  }

  /** A segment has the header bytes of the buffer that it is cut from. */
  lemma SegmentTwin(input: seq<Byte>, key: FlowKey, item: Item, k: nat, piece: seq<Byte>, last: bool, out: seq<Byte>)
    requires HeaderLens(key, item) && Splittable(input, OffloadHdr(key, item), key.isV6)
    requires SegmentOk(input, OffloadHdr(key, item), key.isV6, k, piece, last, out)
    ensures Twin(input, out, key, item.thLen)
    ensures key.isTcp ==> out[item.iphLen + 13] == if last then input[item.iphLen + 13] else ClearFinPsh(input[item.iphLen + 13])
  {
    hide TransportValid, Valid, Uint16At, Uint32At, ClearFinPsh;
    var t, tail := item.iphLen, out[item.iphLen..];
    forall j | 0 <= j < t + item.thLen && Stays(key, item.thLen, j) ensures out[j] == input[j] {
      if j >= t {
        assert tail[j - t] == out[j];
      }
    }
    assert key.isTcp ==> tail[13] == out[t + 13];
  }

  ghost predicate HeaderLens(key: FlowKey, item: Item) {
    item.iphLen == IphLen(key.isV6) && (if key.isTcp then item.thLen >= 20 else item.thLen == 8)
  }

  /** Lengths and IPv4 header checksum are right. */
  ghost predicate IpRight(pkt: seq<Byte>, isV6: bool)
    requires IphLen(isV6) <= |pkt|
  {
    if isV6 then Uint16At(pkt, 4) == |pkt| - 40 else Uint16At(pkt, 2) == |pkt| && Valid(pkt[..20], 0)
  }

  /**
   `out` carries what packet `p` carried behind its headers of `h` bytes, is of the same flow, agrees with it in all header
   bytes that stay, has its sequence number, and has right lengths and checksums.
   */
  ghost predicate GivenBack(orig: seq<Buf>, p: nat, key: FlowKey, h: nat, out: seq<Byte>) {
    var t := IphLen(key.isV6);
    && p < |orig| && InFlow(orig[p].data, key) && h == t + (if key.isTcp then DataOffset(orig[p].data, t) else 8)
    && t + 8 <= h <= |orig[p].data| && |out| == |orig[p].data| && out[h..] == orig[p].data[h..]
    && InFlow(out, key) && Twin(orig[p].data, out, key, h - t)
    && (if key.isTcp then Uint32At(out, t + 4) == Uint32At(orig[p].data, t + 4) else Uint16At(out, t + 4) == |out| - t)
    && IpRight(out, key.isV6) && TransportValid(out, t, if key.isTcp then TCP else UDP, key.isV6)
  }

  /** The TCP flags of packet `p` are those of `out`. */
  predicate FlagsBack(orig: seq<Buf>, p: nat, iphLen: nat, out: seq<Byte>) {
    p < |orig| && iphLen + 13 < |orig[p].data| && iphLen + 13 < |out| && out[iphLen + 13] == orig[p].data[iphLen + 13]
  }

  /** Of the packets `ps`, number `k` comes back with its flags exactly if it is not the last, or none overtook its push. */
  predicate FlagsAs(orig: seq<Buf>, ps: seq<nat>, k: nat, iphLen: nat, out: seq<Byte>)
    requires k < |ps|
  {
    FlagsBack(orig, ps[k], iphLen, out) <==> k < |ps| - 1 || !PushOvertaken(orig, ps, iphLen)
  }

  /** What is cut from the buffer of an item at its place `k`. */
  ghost predicate IsPiece(l: Ledger, key: FlowKey, item: Item, k: nat, out: seq<Byte>) {
    && ItemOk(l, key, item) && k < |l.parts[item.idx]| && Splittable(l.bufs[item.idx].data, OffloadHdr(key, item), key.isV6)
    && var all := Chunks(l.bufs[item.idx].data[item.iphLen + item.thLen..], item.gso);
       k < |all| == |l.parts[item.idx]| && SegmentOk(l.bufs[item.idx].data, OffloadHdr(key, item), key.isV6, k, all[k], k == |all| - 1, out)
  }

  /** Payload and sequence number come back. */
  lemma PieceContent(l: Ledger, key: FlowKey, item: Item, k: nat, out: seq<Byte>)
    requires IsPiece(l, key, item, k, out)
    ensures var h, p := item.iphLen + item.thLen, l.parts[item.idx][k];
      && p < |l.orig| && h <= |l.orig[p].data| && |out| == |l.orig[p].data|
      && out[h..] == l.orig[p].data[h..]
      && (key.isTcp ==> Uint32At(out, item.iphLen + 4) == Uint32At(l.orig[p].data, item.iphLen + 4))
  {
    hide IpHeaderOk, TransportValid, Joined, Uint16At, Uint32At, Chunks, Sized, Sequenced, Alike, Pushed, ClearFinPsh;
    ItemTag(l, key, item);
    ChunksOfItem(l, key, item);
    var t := out[item.iphLen..];
    assert t[item.thLen..] == out[item.iphLen + item.thLen..];
    if key.isTcp {
      SeqOfItem(l, key, item, k);
      SuffixReads(out, item.iphLen);
    }
  }

  /** A datagram has its length. */
  lemma PieceLength(l: Ledger, key: FlowKey, item: Item, k: nat, out: seq<Byte>)
    requires IsPiece(l, key, item, k, out) && !key.isTcp
    ensures item.iphLen + 8 <= |out| && Uint16At(out, item.iphLen + 4) == |out| - item.iphLen
  {
    hide ItemOk, IpHeaderOk, TransportValid, Joined, Uint16At, Chunks;
    ItemTag(l, key, item);
    SuffixReads(out, item.iphLen);
    ChunkShort(l.bufs[item.idx].data[item.iphLen + item.thLen..], item.gso, k);
  }

  lemma {:induction false} ChunkShort(p: seq<Byte>, size: nat, k: nat)
    requires size > 0 && k < |Chunks(p, size)|
    ensures |Chunks(p, size)[k]| <= |p|
    decreases |p|
  {
    if |p| > size && k > 0 {
      ChunkShort(p[size..], size, k - 1);
    }
  }

  /** Headers come back. */
  lemma PieceHeader(l: Ledger, key: FlowKey, item: Item, k: nat, out: seq<Byte>)
    requires IsPiece(l, key, item, k, out)
    ensures var p := l.parts[item.idx][k];
      && p < |l.orig| && InFlow(l.orig[p].data, key) && InFlow(out, key) && Twin(l.orig[p].data, out, key, item.thLen)
      && (key.isTcp ==> DataOffset(l.orig[p].data, item.iphLen) == item.thLen)
    ensures key.isTcp ==> FlagsAs(l.orig, l.parts[item.idx], k, item.iphLen, out)
  {
    hide ItemOk, SegmentOk, Splittable, Sized, Sequenced, Joined, Fit, Twin, InFlow, Chunks, ClearFinPsh;
    ItemTag(l, key, item);
    ItemParts(l, key, item);
    var host, ps := l.bufs[item.idx].data, l.parts[item.idx];
    var all := Chunks(host[item.iphLen + item.thLen..], item.gso);
    SegmentTwin(host, key, item, k, all[k], k == |all| - 1, out);
    TwinTrans(l.orig[ps[k]].data, host, out, key, item.thLen);
    TwinFlow(host, out, key, item.thLen);
    if key.isTcp {
      Unpushed(host[item.iphLen + 13]);
      TwinLength(host, out, key, item.thLen);
      TwinLength(l.orig[ps[k]].data, host, key, item.thLen);
    }
  }

  lemma TwinLength(a: seq<Byte>, b: seq<Byte>, key: FlowKey, thLen: nat)
    requires Twin(a, b, key, thLen)
    ensures IphLen(key.isV6) + thLen <= |a| && IphLen(key.isV6) + thLen <= |b|
    ensures key.isTcp && thLen >= 20 ==> DataOffset(a, IphLen(key.isV6)) == DataOffset(b, IphLen(key.isV6))
  {
  }

  lemma Unpushed(b: Byte)
    requires b == Flags(true) || b == Flags(false)
    ensures ClearFinPsh(b) == Flags(false)
  {
  }

  lemma PieceIp(l: Ledger, key: FlowKey, item: Item, k: nat, out: seq<Byte>)
    requires IsPiece(l, key, item, k, out)
    ensures IphLen(key.isV6) <= |out| && IpRight(out, key.isV6)
    ensures TransportValid(out, IphLen(key.isV6), if key.isTcp then TCP else UDP, key.isV6)
  {
    hide TransportValid, Valid, TransportOk, Joined, Fit, Sized, Sequenced, Alike, Pushed, Chunks, Uint16At;
  }

  /** Splitting gives every packet of a coalesced buffer back; its flags too, unless it pushes and the one in front came after it. */
  lemma SplitGivesBack(l: Ledger, key: FlowKey, item: Item, k: nat, out: seq<Byte>)
    requires IsPiece(l, key, item, k, out)
    ensures GivenBack(l.orig, l.parts[item.idx][k], key, item.iphLen + item.thLen, out)
    ensures key.isTcp ==> FlagsAs(l.orig, l.parts[item.idx], k, item.iphLen, out)
  {
    hide ItemOk, SegmentOk, Splittable, Chunks, TransportValid, IpRight, Twin, InFlow, Uint32At, Uint16At, FlagsAs;
    ItemTag(l, key, item);
    PieceContent(l, key, item, k, out);
    PieceHeader(l, key, item, k, out);
    PieceIp(l, key, item, k, out);
    if !key.isTcp {
      PieceLength(l, key, item, k, out);
    }
    hide IsPiece;
  }

  lemma AllGivenBack(l: Ledger, key: FlowKey, item: Item, outs: seq<seq<Byte>>)
    requires ItemOk(l, key, item) && |outs| <= |l.parts[item.idx]| && forall k :: 0 <= k < |outs| ==> IsPiece(l, key, item, k, outs[k])
    ensures forall k :: 0 <= k < |outs| ==> GivenBack(l.orig, l.parts[item.idx][k], key, item.iphLen + item.thLen, outs[k])
    ensures key.isTcp ==> forall k :: 0 <= k < |outs| ==> FlagsAs(l.orig, l.parts[item.idx], k, item.iphLen, outs[k])
  {
    hide ItemOk, IsPiece, GivenBack, FlagsAs;
    ItemTag(l, key, item);
    ItemParts(l, key, item);
    forall k | 0 <= k < |outs|
      ensures GivenBack(l.orig, l.parts[item.idx][k], key, item.iphLen + item.thLen, outs[k])
      ensures key.isTcp ==> FlagsAs(l.orig, l.parts[item.idx], k, item.iphLen, outs[k])
    {
      SplitGivesBack(l, key, item, k, outs[k]);
    }
  }

  /** Splitting the buffer of an item by the offload header that goes with it. */
  method SplitItem(ghost l: Ledger, data: seq<Byte>, ghost key: FlowKey, ghost item: Item, hdr: VirtioHdr, isV6: bool, room: nat, little: bool)
      returns (outs: seq<seq<Byte>>, n: int, tooMany: bool)
    requires ItemOk(l, key, item) && data == l.bufs[item.idx].data && hdr == OffloadHdr(key, item) && isV6 == key.isV6
    ensures (tooMany <==> |l.parts[item.idx]| > room) && (!tooMany ==> n == |outs| == |l.parts[item.idx]|) && |outs| <= |l.parts[item.idx]|
    ensures forall k :: 0 <= k < |outs| ==> GivenBack(l.orig, l.parts[item.idx][k], key, item.iphLen + item.thLen, outs[k])
    ensures key.isTcp ==> forall k :: 0 <= k < |outs| ==> FlagsAs(l.orig, l.parts[item.idx], k, item.iphLen, outs[k])
  {
    hide ItemOk, SegmentOk, Splittable, Chunks, GivenBack, FlagsAs;
    ItemTag(l, key, item);
    ItemSplittable(l, key, item);
    ChunksOfItem(l, key, item);
    outs, n, tooMany := GsoSplit(data, hdr, isV6, room, little);
    assert forall k :: 0 <= k < |outs| ==> IsPiece(l, key, item, k, outs[k]);
    hide IsPiece;
    AllGivenBack(l, key, item, outs);
  }

  lemma SuffixReads(out: seq<Byte>, at: nat)
    requires at + 8 <= |out|
    ensures Uint32At(out[at..], 4) == Uint32At(out, at + 4) && Uint16At(out[at..], 4) == Uint16At(out, at + 4)
  {
  }

  lemma ItemSplittable(l: Ledger, key: FlowKey, item: Item)
    requires ItemOk(l, key, item)
    ensures Splittable(l.bufs[item.idx].data, OffloadHdr(key, item), key.isV6)
  {
    ItemTag(l, key, item);
    hide ItemOk;
  }
}
