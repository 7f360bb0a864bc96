/** Coalescing a whole batch: where every packet ends up, in which order, and what reading the batch back gives. */
module GroBatch {
  import opened Basics
  import opened Checksum
  import opened Gso
  import opened GroLedger
  import opened Gro

  // ---------------------------------------------------------------- a batch of packets

  datatype Outcome = InsufficientCap | PshEnding | ItemInvalidCsum | PktInvalidCsum | Success

  ghost predicate Capped(bufs: seq<Buf>) {
    forall i :: 0 <= i < |bufs| ==> bufs[i].cap < B16
  }

  lemma CappedAt(bufs: seq<Buf>, i: nat)
    requires Capped(bufs) && i < |bufs|
    ensures bufs[i].cap < B16
    ensures forall b: Buf :: b.cap < B16 ==> Capped(bufs[i := b])
  {
  }

  lemma CappedSwap(bufs: seq<Buf>, i: nat, j: nat, b: Buf)
    requires Capped(bufs) && i < |bufs| && j < |bufs| && b.cap < B16
    ensures Capped(bufs[i := b][j := bufs[i]])
  {
  }

  /** What is written in front of a packet: nothing to offload, or how to cut it. */
  datatype Vhdr = Plain | Offload(hdr: VirtioHdr)

  datatype GroResult = Noop | TableInsert | Coalesced

  /** What packets that are no candidates are tagged with. */
  const NO_FLOW := FlowKey([], [], [], [], true, false)

  type Parts = map<nat, seq<nat>>

  type Tags = map<nat, FlowKey>

  /** The packets of flow `key` that buffer `w` carries. */
  function PartOf(parts: Parts, tag: Tags, key: FlowKey, w: nat): seq<nat> {
    if w in parts && w in tag && tag[w] == key then parts[w] else []
  }

  /** The packets of flow `key` that the buffers below `n` carry, in the order of the buffers. */
  ghost function SentBy(parts: Parts, tag: Tags, key: FlowKey, n: nat): seq<nat> {
    if n == 0 then [] else SentBy(parts, tag, key, n - 1) + PartOf(parts, tag, key, n - 1)
  }

  lemma {:induction false} SentSame(parts: Parts, tag: Tags, parts': Parts, tag': Tags, key: FlowKey, n: nat)
    requires forall w :: 0 <= w < n ==> PartOf(parts', tag', key, w) == PartOf(parts, tag, key, w)
    ensures SentBy(parts', tag', key, n) == SentBy(parts, tag, key, n)
  {
    if n > 0 {
      SentSame(parts, tag, parts', tag', key, n - 1);
    }
  }

  /** The last buffer of a flow that has packets gets one more. */
  lemma {:induction false} SentGrown(parts: Parts, tag: Tags, parts': Parts, tag': Tags, key: FlowKey, n: nat, w: nat, p: nat)
    requires w < n && PartOf(parts', tag', key, w) == PartOf(parts, tag, key, w) + [p]
    requires forall v :: 0 <= v < n && v != w ==> PartOf(parts', tag', key, v) == PartOf(parts, tag, key, v)
    requires forall v :: w < v < n ==> PartOf(parts, tag, key, v) == []
    ensures SentBy(parts', tag', key, n) == SentBy(parts, tag, key, n) + [p]
  {
    hide PartOf;
    if n - 1 == w {
      SentSame(parts, tag, parts', tag', key, w);
      assert SentBy(parts', tag', key, n) == SentBy(parts, tag, key, w) + (PartOf(parts, tag, key, w) + [p]);
    } else {
      SentGrown(parts, tag, parts', tag', key, n - 1, w, p);
      assert SentBy(parts', tag', key, n) == SentBy(parts', tag', key, n - 1) + [];
      assert SentBy(parts, tag, key, n) == SentBy(parts, tag, key, n - 1) + [];
    }
  }

  function ArrivedOf(arrivals: map<FlowKey, seq<nat>>, key: FlowKey): seq<nat> {
    if key in arrivals then arrivals[key] else []
  }

  /** No later buffer than `idx` has packets of the flow. */
  ghost predicate Newest(l: Ledger, key: FlowKey, idx: nat) {
    forall w :: idx < w < l.n ==> PartOf(l.parts, l.tag, key, w) == []
  }

  /** The buffers of every UDP flow carry its datagrams in the order of arrival; the last item of a flow is its last buffer. */
  ghost predicate OrderKept(l: Ledger, table: Table, arrivals: map<FlowKey, seq<nat>>) {
    && table.Keys == arrivals.Keys
    && (forall key :: key in table ==> table[key] != [] && Newest(l, key, table[key][|table[key]| - 1].idx))
    && (forall key: FlowKey :: !key.isTcp ==> SentBy(l.parts, l.tag, key, l.n) == ArrivedOf(arrivals, key))
  }

  /** What happens to a buffer that is not of the flow leaves its order alone. */
  lemma FlowOrder(l: Ledger, l': Ledger, w: nat, key: FlowKey)
    requires l'.n == l.n + 1 && l.n !in l.parts
    requires forall v :: v != w ==> PartOf(l'.parts, l'.tag, key, v) == PartOf(l.parts, l.tag, key, v)
    requires PartOf(l'.parts, l'.tag, key, w) == PartOf(l.parts, l.tag, key, w)
    ensures SentBy(l'.parts, l'.tag, key, l'.n) == SentBy(l.parts, l.tag, key, l.n)
    ensures forall idx :: Newest(l, key, idx) ==> Newest(l', key, idx)
  {
    assert PartOf(l.parts, l.tag, key, l.n) == [];
    hide PartOf;
    SentSame(l.parts, l.tag, l'.parts, l'.tag, key, l.n);
  }

  lemma PartsSame(l: Ledger, l': Ledger, w: nat, key: FlowKey)
    requires w in l'.parts && l'.parts == l.parts[w := l'.parts[w]] && w in l'.tag && l'.tag == l.tag[w := l'.tag[w]]
    ensures forall v :: v != w ==> PartOf(l'.parts, l'.tag, key, v) == PartOf(l.parts, l.tag, key, v)
  {
  }

  /** Nothing but buffer `w` changes, and that is of another flow. */
  ghost predicate Elsewhere(l: Ledger, l': Ledger, w: nat, key: FlowKey) {
    && l'.n == l.n + 1 && l.n !in l.parts
    && w in l'.parts && l'.parts == l.parts[w := l'.parts[w]] && w in l'.tag && l'.tag == l.tag[w := l'.tag[w]]
    && l'.tag[w] != key && (w in l.parts && w in l.tag ==> l.tag[w] != key)
  }

  lemma ElsewhereOrder(l: Ledger, l': Ledger, w: nat, key: FlowKey)
    requires Elsewhere(l, l', w, key)
    ensures SentBy(l'.parts, l'.tag, key, l'.n) == SentBy(l.parts, l.tag, key, l.n)
    ensures forall idx :: Newest(l, key, idx) ==> Newest(l', key, idx)
  {
    PartsSame(l, l', w, key);
    FlowOrder(l, l', w, key);
  }

  /** A TCP packet, or one that is no candidate, leaves UDP flows in order. */
  lemma OrderTcp(l: Ledger, l': Ledger, w: nat, table: Table, arrivals: map<FlowKey, seq<nat>>)
    requires OrderKept(l, table, arrivals) && (forall key :: key in table ==> !key.isTcp)
    requires forall key: FlowKey :: !key.isTcp ==> Elsewhere(l, l', w, key)
    ensures OrderKept(l', table, arrivals)
  {
    hide Newest, Elsewhere;
    forall key: FlowKey | !key.isTcp ensures SentBy(l'.parts, l'.tag, key, l'.n) == ArrivedOf(arrivals, key) {
      ElsewhereOrder(l, l', w, key);
    }
    forall key | key in table ensures Newest(l', key, table[key][|table[key]| - 1].idx) {
      ElsewhereOrder(l, l', w, key);
    }
  }

  /** A new datagram comes last in its flow, and other flows are left alone. */
  lemma OrderNext(l: Ledger, l': Ledger, w: nat, table: Table, arrivals: map<FlowKey, seq<nat>>, key: FlowKey, items: seq<Item>)
    requires OrderKept(l, table, arrivals) && items != [] && !key.isTcp
    requires forall other: FlowKey :: other != key ==> Elsewhere(l, l', w, other)
    requires SentBy(l'.parts, l'.tag, key, l'.n) == SentBy(l.parts, l.tag, key, l.n) + [l.n]
    requires Newest(l', key, items[|items| - 1].idx)
    ensures OrderKept(l', table[key := items], arrivals[key := ArrivedOf(arrivals, key) + [l.n]])
  {
    hide Newest, Elsewhere, SentBy;
    var table': Table, arrivals' := table[key := items], arrivals[key := ArrivedOf(arrivals, key) + [l.n]];
    forall k: FlowKey | !k.isTcp ensures SentBy(l'.parts, l'.tag, k, l'.n) == ArrivedOf(arrivals', k) {
      if k != key {
        ElsewhereOrder(l, l', w, k);
      }
    }
    forall k | k in table' ensures table'[k] != [] && Newest(l', k, table'[k][|table'[k]| - 1].idx) {
      if k != key {
        ElsewhereOrder(l, l', w, k);
      }
    }
  }

  /** A datagram in a buffer of its own. */
  lemma OrderOfNew(l: Ledger, key: FlowKey, h: nat)
    requires l.n !in l.parts
    ensures var l' := Alone(l, h, key);
      && SentBy(l'.parts, l'.tag, key, l'.n) == SentBy(l.parts, l.tag, key, l.n) + [l.n]
      && Newest(l', key, l.n) && forall other: FlowKey :: other != key ==> Elsewhere(l, l', l.n, other)
  {
    var l' := Alone(l, h, key);
    SentSame(l.parts, l.tag, l'.parts, l'.tag, key, l.n);
    assert PartOf(l'.parts, l'.tag, key, l.n) == [l.n];
  }

  /** A datagram at the end of the last buffer of its flow. */
  lemma OrderOfLast(l: Ledger, l': Ledger, key: FlowKey, w: nat)
    requires l.n !in l.parts && w < l.n && w in l.parts && w in l.tag && l.tag[w] == key && Newest(l, key, w)
    requires l'.n == l.n + 1 && l'.tag == l.tag && l'.parts == l.parts[w := l.parts[w] + [l.n]]
    ensures SentBy(l'.parts, l'.tag, key, l'.n) == SentBy(l.parts, l.tag, key, l.n) + [l.n]
    ensures Newest(l', key, w) && forall other: FlowKey :: other != key ==> Elsewhere(l, l', w, other)
  {
    assert l'.tag == l.tag[w := l'.tag[w]];
    PartsSame(l, l', w, key);
    assert PartOf(l'.parts, l'.tag, key, w) == PartOf(l.parts, l.tag, key, w) + [l.n];
    assert PartOf(l'.parts, l'.tag, key, l.n) == [];
    SentGrown(l.parts, l.tag, l'.parts, l'.tag, key, l.n, w, l.n);
  }

  lemma NotYet(l: Ledger)
    requires Sound(l)
    ensures l.n !in l.parts
  {
  }

  lemma OrderAt(l: Ledger, table: Table, arrivals: map<FlowKey, seq<nat>>, key: FlowKey)
    requires OrderKept(l, table, arrivals)
    ensures key in table <==> key in arrivals
    ensures key in table ==> table[key] != [] && Newest(l, key, table[key][|table[key]| - 1].idx)
  {
  }

  /** A packet on its own, as an item of its flow. */
  lemma NewItem(l: Ledger, c: Candidate, badCsum: bool)
    requires Sound(l) && l.n < |l.orig| == |l.bufs| && c.Candidate? && Describes(c, l.orig[l.n].data)
    ensures var h := IphLen(c.key.isV6) + c.thLen; var l' := Alone(l, h, c.key);
      && Sound(l') && OthersSame(l, l', l.n)
      && ItemOk(l', c.key, Item(l.n, 0, c.gso, IphLen(c.key.isV6), c.thLen, c.seqNo, c.psh, badCsum))
  {
    var h := IphLen(c.key.isV6) + c.thLen;
    assert h <= |l.orig[l.n].data|;
    hide OthersSame, Sound, Joined, Describes, ItemOk, Carries;
    StillOriginal(l);
    AloneSound(l, h, c.key);
    SoundCarries(Alone(l, h, c.key), l.n);
    NewItemOk(l, c, badCsum);
  }

  lemma StillOriginal(l: Ledger)
    requires Sound(l) && l.n < |l.orig|
    ensures |l.bufs| == |l.orig| && l.bufs[l.n] == l.orig[l.n]
  {
  }

  lemma NewItemOk(l: Ledger, c: Candidate, badCsum: bool)
    requires l.n < |l.orig| == |l.bufs| && c.Candidate? && Describes(c, l.orig[l.n].data) && l.bufs[l.n] == l.orig[l.n]
    requires Carries(Alone(l, IphLen(c.key.isV6) + c.thLen, c.key), l.n)
    ensures ItemOk(Alone(l, IphLen(c.key.isV6) + c.thLen, c.key), c.key,
                   Item(l.n, 0, c.gso, IphLen(c.key.isV6), c.thLen, c.seqNo, c.psh, badCsum))
  {
    hide Describes, InFlow, Twin, Carries, Sized, Sequenced, Alike, Pushed;
    var h, pkt, l' := IphLen(c.key.isV6) + c.thLen, l.orig[l.n].data, Alone(l, IphLen(c.key.isV6) + c.thLen, c.key);
    DescribesFlow(c, pkt);
    DescribesSize(c, pkt);
    OneAlike(l.orig, l.n, c);
    ItemIs(l', c.key, Item(l.n, 0, c.gso, IphLen(c.key.isV6), c.thLen, c.seqNo, c.psh, badCsum));
  }

  lemma OneAlike(orig: seq<Buf>, p: nat, c: Candidate)
    requires p < |orig| && Describes(c, orig[p].data)
    ensures Alike(orig, [p], orig[p].data, c.key, c.thLen) && Sized(orig, [p], IphLen(c.key.isV6) + c.thLen, c.gso)
    ensures c.key.isTcp ==> Sequenced(orig, [p], IphLen(c.key.isV6), c.seqNo, c.gso) && Pushed(orig, [p], orig[p].data, IphLen(c.key.isV6), c.psh)
  {
    hide Describes, InFlow, Twin, Uint32At, Alike, Sized, Sequenced, Pushed;
    DescribesFlow(c, orig[p].data);
    DescribesSize(c, orig[p].data);
    TwinSelf(orig[p].data, c.key, c.thLen);
    AlikeOne(orig, p, c.key, c.thLen);
    SizedOne(orig, p, IphLen(c.key.isV6) + c.thLen, c.gso);
    if c.key.isTcp {
      SequencedNew(orig, p, IphLen(c.key.isV6), c.seqNo, c.gso, c.psh);
    }
  }

  lemma SizedOne(orig: seq<Buf>, p: nat, h: nat, gso: nat)
    requires p < |orig| && 0 < gso == |orig[p].data| - h
    ensures Sized(orig, [p], h, gso)
  {
  }

  lemma SequencedNew(orig: seq<Buf>, p: nat, t: nat, seqNo: nat, gso: nat, psh: bool)
    requires p < |orig| && t + 13 < |orig[p].data| && Uint32At(orig[p].data, t + 4) == seqNo && orig[p].data[t + 13] == Flags(psh)
    ensures Sequenced(orig, [p], t, seqNo, gso) && Pushed(orig, [p], orig[p].data, t, psh)
  {
    hide Uint32At;
  }

  lemma AlikeOne(orig: seq<Buf>, p: nat, key: FlowKey, thLen: nat)
    requires p < |orig| && InFlow(orig[p].data, key) && Twin(orig[p].data, orig[p].data, key, thLen)
    requires key.isTcp ==> DataOffset(orig[p].data, IphLen(key.isV6)) == thLen
    ensures Alike(orig, [p], orig[p].data, key, thLen)
  {
    hide InFlow, Twin;
  }

  lemma TwinSelf(pkt: seq<Byte>, key: FlowKey, thLen: nat)
    requires IphLen(key.isV6) + thLen <= |pkt|
    ensures Twin(pkt, pkt, key, thLen)
  {
  }

  lemma AddedItem(l: Ledger, l': Ledger, key: FlowKey, items: seq<Item>, item: Item)
    requires FlowOk(l, key, items) && OthersSame(l, l', l.n) && l'.n >= l.n && ItemOk(l', key, item) && item.idx == l.n
    ensures FlowOk(l', key, items + [item])
  {
    hide ItemOk, OthersSame;
    forall i | 0 <= i < |items| ensures items[i].idx != l.n {
      ItemTag(l, key, items[i]);
    }
    FlowSame(l, l', l.n, key, items);
  }

  lemma GrownItem(l: Ledger, l': Ledger, key: FlowKey, items: seq<Item>, i: nat, item': Item)
    requires FlowOk(l, key, items) && i < |items| && OthersSame(l, l', items[i].idx) && l'.n >= l.n
    requires ItemOk(l', key, item') && item'.idx == items[i].idx
    ensures FlowOk(l', key, items[i := item'])
  {
    hide ItemOk, OthersSame;
    forall j | 0 <= j < |items| && j != i ensures ItemOk(l', key, items[j]) {
      ItemSame(l, l', items[i].idx, key, items[j]);
    }
  }

  lemma DroppedItem(l: Ledger, key: FlowKey, items: seq<Item>, i: nat)
    requires FlowOk(l, key, items) && i < |items|
    ensures FlowOk(l, key, items[..i] + items[i + 1..])
  {
    hide ItemOk;
  }

  lemma TableFlow(l: Ledger, table: Table, isTcp: bool, key: FlowKey)
    requires TableOk(l, table, isTcp)
    ensures FlowOk(l, key, if key in table then table[key] else [])
    ensures key in table ==> key.src != []
  {
  }

  lemma TableItem(l: Ledger, table: Table, isTcp: bool, key: FlowKey, i: nat)
    requires TableOk(l, table, isTcp) && key in table && i < |table[key]|
    ensures ItemOk(l, key, table[key][i])
  {
  }

  lemma UdpOnly(l: Ledger, table: Table)
    requires TableOk(l, table, false)
    ensures forall key :: key in table ==> !key.isTcp
  {
  }

  // ---------------------------------------------------------------- whole batches

  /** The UDP candidates among the first `n` packets, by flow, in the order of arrival. */
  ghost function UdpArrivals(orig: seq<Buf>, canUdp: bool, n: nat): map<FlowKey, seq<nat>>
    requires n <= |orig|
  {
    if n == 0 then map[]
    else
      var before, pkt := UdpArrivals(orig, canUdp, n - 1), orig[n - 1].data;
      var kind := PacketKind(pkt, canUdp);
      var c := if kind.Udp4? || kind.Udp6? then ParseUdp(pkt, kind.Udp6?) else NoCandidate;
      if c.NoCandidate? then before
      else before[c.key := ArrivedOf(before, c.key) + [n - 1]]
  }

  ghost predicate Ascending(s: seq<nat>) {
    forall i, j :: 0 <= i < j < |s| ==> s[i] < s[j]
  }

  /** There is room for an offload header in front of every packet, and no packet is empty. */
  predicate Writable(bufs: seq<Buf>, offset: nat) {
    forall i :: 0 <= i < |bufs| ==> offset >= 10 && |bufs[i].data| > 0
  }

  /** `toWrite` lists the buffers that carry packets, in ascending order. */
  ghost predicate Lists(toWrite: seq<nat>, l: Ledger) {
    && Ascending(toWrite)
    && (forall w :: w in toWrite <==> w in l.parts)
    && (forall i :: 0 <= i < |toWrite| ==> toWrite[i] < l.n)
  }

  /** The packets of flow `key` in the order in which they are written. */
  ghost function Written(parts: Parts, tag: Tags, toWrite: seq<nat>, key: FlowKey): seq<nat> {
    if toWrite == [] then []
    else Written(parts, tag, toWrite[..|toWrite| - 1], key) + PartOf(parts, tag, key, toWrite[|toWrite| - 1])
  }

  /** Buffers are written in the order of their indices. */
  lemma {:induction false} WrittenIs(parts: Parts, tag: Tags, toWrite: seq<nat>, key: FlowKey, n: nat)
    requires Ascending(toWrite) && (forall w :: w < n ==> (w in toWrite <==> w in parts)) && (forall i :: 0 <= i < |toWrite| ==> toWrite[i] < n)
    ensures Written(parts, tag, toWrite, key) == SentBy(parts, tag, key, n)
    decreases n
  {
    if n > 0 {
      if n - 1 in parts {
        var m := |toWrite| - 1;
        LastOf(toWrite, n - 1);
        var front := toWrite[..m];
        assert forall w :: w in toWrite <==> w in front || w == toWrite[m];
        WrittenIs(parts, tag, front, key, n - 1);
      } else {
        assert n - 1 !in toWrite;
        WrittenIs(parts, tag, toWrite, key, n - 1);
        assert SentBy(parts, tag, key, n) == SentBy(parts, tag, key, n - 1) + [];
      }
    }
  }

  lemma LastOf(s: seq<nat>, x: nat)
    requires Ascending(s) && x in s && forall i :: 0 <= i < |s| ==> s[i] <= x
    ensures s[|s| - 1] == x
  {
  }

  /** Every UDP flow is written in the order of arrival. */
  ghost predicate InOrder(l: Ledger, toWrite: seq<nat>, arrivals: map<FlowKey, seq<nat>>) {
    forall key: FlowKey :: !key.isTcp ==> Written(l.parts, l.tag, toWrite, key) == ArrivedOf(arrivals, key)
  }

  lemma WrittenInOrder(l: Ledger, table: Table, arrivals: map<FlowKey, seq<nat>>, toWrite: seq<nat>)
    requires OrderKept(l, table, arrivals) && Lists(toWrite, l)
    ensures InOrder(l, toWrite, arrivals)
  {
    forall key: FlowKey | !key.isTcp ensures Written(l.parts, l.tag, toWrite, key) == ArrivedOf(arrivals, key) {
      WrittenIs(l.parts, l.tag, toWrite, key, l.n);
    }
  }

  lemma ListsSame(toWrite: seq<nat>, l: Ledger, l': Ledger)
    requires Lists(toWrite, l) && l'.parts == l.parts && l'.n == l.n
    ensures Lists(toWrite, l')
  {
  }

  lemma ListsNext(toWrite: seq<nat>, l: Ledger, l': Ledger)
    requires Lists(toWrite, l) && l'.n == l.n + 1
    ensures l'.parts.Keys == l.parts.Keys ==> Lists(toWrite, l')
    ensures l'.parts.Keys == l.parts.Keys + {l.n} ==> Lists(toWrite + [l.n], l')
  {
    assert forall w :: w in l'.parts <==> w in l'.parts.Keys;
    assert forall w :: w in l.parts <==> w in l.parts.Keys;
  }

  lemma TablesAlone(l: Ledger, l': Ledger, tcpTable: Table, udpTable: Table)
    requires TableOk(l, tcpTable, true) && TableOk(l, udpTable, false)
    requires OthersSame(l, l', l.n) && l'.n == l.n + 1
    ensures TableOk(l', tcpTable, true) && TableOk(l', udpTable, false)
  {
    hide ItemOk, OthersSame;
    forall k | k in tcpTable ensures FlowOk(l', k, tcpTable[k]) {
      forall i | 0 <= i < |tcpTable[k]| ensures tcpTable[k][i].idx != l.n { ItemTag(l, k, tcpTable[k][i]); }
      FlowSame(l, l', l.n, k, tcpTable[k]);
    }
    forall k | k in udpTable ensures FlowOk(l', k, udpTable[k]) {
      forall i | 0 <= i < |udpTable[k]| ensures udpTable[k][i].idx != l.n { ItemTag(l, k, udpTable[k][i]); }
      FlowSame(l, l', l.n, k, udpTable[k]);
    }
  }

  // ---------------------------------------------------------------- accounting

  /** The bytes of a packet that accounting sets: lengths and checksums. */
  predicate Fixed(key: FlowKey, k: nat) {
    var t := IphLen(key.isV6);
    || (if key.isV6 then k in {4, 5} else k in {2, 3, 10, 11})
    || (if key.isTcp then k in {t + 16, t + 17} else t + 4 <= k < t + 8)
  }

  /** Nothing but lengths and checksums changes. */
  ghost predicate Kept(pkt: seq<Byte>, pkt': seq<Byte>, key: FlowKey) {
    |pkt'| == |pkt| && forall k :: 0 <= k < |pkt| && !Fixed(key, k) ==> pkt'[k] == pkt[k]
  }

  /** Lengths and IPv4 checksum are right, and the transport checksum holds the pseudo-header sum to start from. */
  ghost predicate HeadersRight(pkt: seq<Byte>, key: FlowKey, item: Item)
    requires HeaderLens(key, item) && item.iphLen + item.thLen <= |pkt|
  {
    var t := item.iphLen;
    && IpRight(pkt, key.isV6)
    && (!key.isTcp ==> Uint16At(pkt, t + 4) == |pkt| - t)
    && Uint16At(pkt, t + if key.isTcp then 16 else 6) == OnesSum(PacketPseudo(pkt, t, if key.isTcp then TCP else UDP, key.isV6))
  }

  method FixIpHeader(pkt: seq<Byte>, iphLen: nat, isV6: bool, little: bool) returns (r: seq<Byte>)
    requires iphLen == IphLen(isV6) <= |pkt| < B16
    ensures |r| == |pkt| && (forall k :: 0 <= k < |pkt| && !(if isV6 then k in {4, 5} else k in {2, 3, 10, 11}) ==> r[k] == pkt[k])
    ensures IpRight(r, isV6)
  {
    hide PutUint16, Word16, Valid, Sum16, OnesSum;
    if isV6 {
      r := PutUint16(pkt, 4, |pkt| - iphLen);
    } else {
      r := pkt[10 := 0][11 := 0];
      r := PutUint16(r, 2, |pkt|);
      var c := ComputeChecksum(r[..iphLen], 0, little);
      ComplementValid(r[..iphLen], 10, 0);
      ghost var head := PutUint16(r[..iphLen], 10, 0xFFFF - c);
      r := PutUint16(r, 10, 0xFFFF - c);
      assert r[..iphLen] == head by { PutPrefix(pkt[10 := 0][11 := 0], 2, |pkt|, iphLen, 10, 0xFFFF - c); }
    }
  }

  lemma PutPrefix(p: seq<Byte>, at0: nat, v0: nat, n: nat, at: nat, v: nat)
    requires at0 + 2 <= n <= |p| && at + 2 <= n && v < B16 && v0 < B16
    ensures PutUint16(PutUint16(p, at0, v0), at, v)[..n] == PutUint16(PutUint16(p, at0, v0)[..n], at, v)
  {
  }

  /** The pseudo-header sum where a checksum over the rest starts from. */
  method StartSum(pkt: seq<Byte>, t: nat, proto: Byte, isV6: bool, little: bool) returns (c: nat)
    requires AddrAt(isV6) + 2 * AddrLen(isV6) <= t <= |pkt| < B16
    ensures c < B16 && c == OnesSum(PacketPseudo(pkt, t, proto, isV6))
  {
    hide Sum16, OnesSum;
    var at, n := AddrAt(isV6), AddrLen(isV6);
    var psum := PseudoHeaderChecksumNoFold(proto, pkt[at..at + n], pkt[at + n..at + 2 * n], |pkt| - t, little);
    c := ComputeChecksum([], psum, little);
    SumOfNone();
    OnesSumRepresents(psum, PacketPseudo(pkt, t, proto, isV6));
  }

  method FixHeaders(pkt: seq<Byte>, key: FlowKey, item: Item, little: bool) returns (r: seq<Byte>)
    requires HeaderLens(key, item) && item.iphLen + item.thLen <= |pkt| < B16
    ensures |r| == |pkt| && Kept(pkt, r, key) && HeadersRight(r, key, item)
  {
    hide PutUint16, Word16, Valid, Sum16, OnesSum, IpRight, PacketPseudo;
    var t, proto := item.iphLen, if key.isTcp then TCP else UDP;
    r := FixIpHeader(pkt, t, key.isV6, little);
    ghost var ip := r;
    if !key.isTcp {
      r := PutUint16(r, t + 4, |pkt| - t);
    }
    var c := StartSum(r, t, proto, key.isV6, little);
    ghost var r0 := r;
    r := PutUint16(r, t + if key.isTcp then 16 else 6, c);
    SamePseudo(r0, r, t, proto, key.isV6);
    SameIp(ip, r, key.isV6);
  }

  lemma SameIp(p: seq<Byte>, r: seq<Byte>, isV6: bool)
    requires IphLen(isV6) <= |p| == |r| && IpRight(p, isV6) && forall k :: 0 <= k < IphLen(isV6) ==> r[k] == p[k]
    ensures IpRight(r, isV6)
  {
    hide Valid;
    assert r[..20] == p[..20];
  }

  lemma SamePseudo(p: seq<Byte>, r: seq<Byte>, t: nat, proto: Byte, isV6: bool)
    requires AddrAt(isV6) + 2 * AddrLen(isV6) <= t <= |p| == |r| && forall k :: 0 <= k < t ==> r[k] == p[k]
    ensures PacketPseudo(r, t, proto, isV6) == PacketPseudo(p, t, proto, isV6)
  {
    hide Sum16;
    var at, n := AddrAt(isV6), AddrLen(isV6);
    assert r[at..at + n] == p[at..at + n] && r[at + n..at + 2 * n] == p[at + n..at + 2 * n];
  }

  /** The headers of `item` are final. */
  ghost predicate Accounted(bufs: seq<Buf>, vhdrs: map<nat, Vhdr>, key: FlowKey, item: Item) {
    && item.idx in vhdrs && item.idx < |bufs|
    && (if item.merged > 0 then
          && vhdrs[item.idx] == Offload(OffloadHdr(key, item))
          && HeaderLens(key, item) && item.iphLen + item.thLen <= |bufs[item.idx].data|
          && HeadersRight(bufs[item.idx].data, key, item)
        else vhdrs[item.idx] == Plain)
  }

  ghost predicate FlowAccounted(table: Table, bufs: seq<Buf>, vhdrs: map<nat, Vhdr>, key: FlowKey) {
    key in table ==> forall i :: 0 <= i < |table[key]| ==> Accounted(bufs, vhdrs, key, table[key][i])
  }

  /** Other flows stay accounted for when one is dealt with. */
  lemma FlowKept(l: Ledger, table: Table, bufs: seq<Buf>, bufs': seq<Buf>, vhdrs: map<nat, Vhdr>, vhdrs': map<nat, Vhdr>, key: FlowKey, other: FlowKey)
    requires TableOk(l, table, other.isTcp) && |bufs'| == |bufs|
    requires FlowAccounted(table, bufs, vhdrs, other) && other != key
    requires forall j :: j in l.tag && l.tag[j] != key ==> (0 <= j < |bufs| ==> bufs'[j] == bufs[j]) && (j in vhdrs ==> j in vhdrs' && vhdrs'[j] == vhdrs[j])
    ensures FlowAccounted(table, bufs', vhdrs', other)
  {
    hide TableOk, HeadersRight;
    if other in table {
      forall i | 0 <= i < |table[other]| ensures Accounted(bufs', vhdrs', other, table[other][i]) {
        TableDistinct(l, table, other.isTcp, other, i);
        assert Accounted(bufs, vhdrs, other, table[other][i]);
      }
    }
  }

  lemma TableDistinct(l: Ledger, table: Table, isTcp: bool, key: FlowKey, i: nat)
    requires TableOk(l, table, isTcp) && key in table && i < |table[key]|
    ensures table[key][i].idx in l.tag && l.tag[table[key][i].idx] == key
    ensures forall k :: 0 <= k < i ==> table[key][k].idx != table[key][i].idx
  {
    TableItem(l, table, isTcp, key, i);
  }

  lemma OrderParts(l: Ledger, l': Ledger, table: Table, arrivals: map<FlowKey, seq<nat>>)
    requires OrderKept(l, table, arrivals) && l'.parts == l.parts && l'.tag == l.tag && l'.n == l.n
    ensures OrderKept(l', table, arrivals)
  {
    hide PartOf, SentBy;
    forall key | key in table ensures Newest(l', key, table[key][|table[key]| - 1].idx) {
      assert Newest(l, key, table[key][|table[key]| - 1].idx);
    }
  }

  /** Which packets the buffers carry after a merge. */
  ghost function GrownParts(l: Ledger, c: Candidate, item: Item): map<nat, seq<nat>>
    requires item.idx in l.parts
  {
    l.parts[item.idx := if Continuing(l, c, item) then l.parts[item.idx] + [l.n] else [l.n] + l.parts[item.idx]]
  }

  /** How many of the items of a flow are in front of the last one at which the search ends, itself included. */
  ghost function Reached(l: Ledger, c: Candidate, items: seq<Item>, offset: nat): (k: nat)
    ensures k <= |items|
  {
    if items == [] then 0
    else if Stops(l, c, items[|items| - 1], offset) then |items|
    else Reached(l, c, items[..|items| - 1], offset)
  }

  lemma {:induction false} ReachedIs(l: Ledger, c: Candidate, items: seq<Item>, offset: nat)
    ensures var k := Reached(l, c, items, offset);
      (k > 0 ==> Stops(l, c, items[k - 1], offset)) && forall j :: k <= j < |items| ==> !Stops(l, c, items[j], offset)
  {
    hide Stops;
    if items != [] {
      ReachedIs(l, c, items[..|items| - 1], offset);
    }
  }

  lemma ReachedAt(l: Ledger, c: Candidate, items: seq<Item>, offset: nat, k: nat)
    requires k <= |items| && (k > 0 ==> Stops(l, c, items[k - 1], offset)) && forall j :: k <= j < |items| ==> !Stops(l, c, items[j], offset)
    ensures Reached(l, c, items, offset) == k
  {
    hide Stops, Reached;
    ReachedIs(l, c, items, offset);
  }

  /** The items from `i` on that are not spoilt. */
  ghost function Unspoilt(l: Ledger, c: Candidate, items: seq<Item>, offset: nat, i: nat): seq<Item>
    requires i <= |items|
    decreases |items| - i
  {
    if i == |items| then [] else (if Spoilt(l, c, items[i], offset) then [] else [items[i]]) + Unspoilt(l, c, items, offset, i + 1)
  }

  /** What a search that has looked at the items from `i` on leaves of a flow. */
  ghost function Cleared(l: Ledger, c: Candidate, items: seq<Item>, offset: nat, i: nat): seq<Item>
    requires i <= |items|
  {
    items[..i] + Unspoilt(l, c, items, offset, i)
  }

  lemma ClearedNone(l: Ledger, c: Candidate, items: seq<Item>, offset: nat)
    ensures Cleared(l, c, items, offset, |items|) == items
  {
  }

  lemma ClearedNext(l: Ledger, c: Candidate, items: seq<Item>, offset: nat, i: nat)
    requires i < |items|
    ensures var a := Cleared(l, c, items, offset, i + 1);
      |a| > i && a[i] == items[i] && Cleared(l, c, items, offset, i) == if Spoilt(l, c, items[i], offset) then a[..i] + a[i + 1..] else a
  {
    hide Spoilt;
    TakenOut(items, i, Unspoilt(l, c, items, offset, i + 1));
  }

  lemma TakenOut(items: seq<Item>, i: nat, rest: seq<Item>)
    requires i < |items|
    ensures var a := items[..i + 1] + rest;
      |a| > i && a[i] == items[i] && a[..i] + a[i + 1..] == items[..i] + ([] + rest) && items[..i] + ([items[i]] + rest) == a
  {
    var a := items[..i + 1] + rest;
    assert items[..i + 1] == items[..i] + [items[i]];
    assert a[..i] == items[..i] && a[i + 1..] == rest && [] + rest == rest;
  }

  /** Searching from the end down to item `i`, the next packet has met the spoilt item of buffer `w`. */
  ghost predicate Met(l: Ledger, items: seq<Item>, c: Candidate, offset: nat, i: nat, w: nat) {
    exists j :: i <= j < |items| && items[j].idx == w && Spoilt(l, c, items[j], offset)
  }

  lemma MetNone(l: Ledger, items: seq<Item>, c: Candidate, offset: nat)
    ensures forall w :: !Met(l, items, c, offset, |items|, w)
  {
  }

  lemma MeetsNone(l: Ledger, table: Table, c: Candidate, offset: nat)
    requires c.NoCandidate? || c.key !in table
    ensures forall w :: !Meets(l, table, c, offset, w)
  {
  }

  lemma MetNext(l: Ledger, items: seq<Item>, c: Candidate, offset: nat, i: nat)
    requires i < |items|
    ensures forall w :: Met(l, items, c, offset, i, w) <==>
                        Met(l, items, c, offset, i + 1, w) || (items[i].idx == w && Spoilt(l, c, items[i], offset))
  {
    hide Spoilt;
  }

  /** The search has met all that it meets when it stops or has seen all items. */
  lemma MetAll(l: Ledger, table: Table, c: Candidate, offset: nat, i: nat)
    requires c.Candidate? && c.key in table && i <= |table[c.key]|
    requires forall j :: i <= j < |table[c.key]| && Stops(l, c, table[c.key][j], offset) ==> j == i
    requires i == 0 || (i < |table[c.key]| && Stops(l, c, table[c.key][i], offset))
    ensures forall w :: Met(l, table[c.key], c, offset, i, w) <==> Meets(l, table, c, offset, w)
  {
    hide Spoilt, Stops;
  }

  /** The items of one flow are `items`, but for the one that has grown, in front of which there are `grown` - 1. */
  ghost predicate ClearedTo(table: Table, table': Table, key: FlowKey, items: seq<Item>, grown: nat) {
    && grown <= |items| && key in table' && |table'[key]| == |items|
    && table' == table[key := if grown == 0 then items else items[grown - 1 := table'[key][grown - 1]]]
  }

  /** Where the search ends, only the checksum of the packet itself is left to decide. */
  lemma StopsMergeable(l: Ledger, c: Candidate, item: Item, offset: nat)
    requires l.n < |l.orig| && c.Candidate? && c.key.isTcp && IphLen(c.key.isV6) <= |l.orig[l.n].data|
    ensures Mergeable(l, c, item, offset) <==> Stops(l, c, item, offset) && SumOk(l.orig[l.n].data, c.key)
  {
    hide Continuing, Preceding;
  }

  /** So a packet can be merged into some item exactly if it can be merged into the one at which the search ends. */
  lemma MergeableReached(l: Ledger, c: Candidate, items: seq<Item>, offset: nat)
    requires l.n < |l.orig| && c.Candidate? && c.key.isTcp && IphLen(c.key.isV6) <= |l.orig[l.n].data|
    ensures var k := Reached(l, c, items, offset);
      && ((exists i :: 0 <= i < |items| && Mergeable(l, c, items[i], offset)) <==> k > 0 && SumOk(l.orig[l.n].data, c.key))
      && (k > 0 ==> (Mergeable(l, c, items[k - 1], offset) <==> SumOk(l.orig[l.n].data, c.key)))
  {
    hide Mergeable, Stops, SumOk, Reached;
    ReachedIs(l, c, items, offset);
    forall i | 0 <= i < |items| ensures Mergeable(l, c, items[i], offset) <==> Stops(l, c, items[i], offset) && SumOk(l.orig[l.n].data, c.key) {
      StopsMergeable(l, c, items[i], offset);
    }
  }

  lemma StopNotSpoilt(l: Ledger, c: Candidate, item: Item, offset: nat)
    requires Stops(l, c, item, offset)
    ensures !Spoilt(l, c, item, offset)
  {
  }

  lemma KeptSelf(pkt: seq<Byte>, key: FlowKey)
    ensures Kept(pkt, pkt, key)
  {
  }

  /** Bytes that are fixed are none of those that stay. */
  lemma KeptTwin(pkt: seq<Byte>, pkt': seq<Byte>, key: FlowKey, item: Item)
    requires HeaderLens(key, item) && item.iphLen + item.thLen <= |pkt| && Kept(pkt, pkt', key)
    ensures Twin(pkt, pkt', key, item.thLen) && pkt'[item.iphLen + item.thLen..] == pkt[item.iphLen + item.thLen..]
    ensures key.isTcp ==> Uint32At(pkt', item.iphLen + 4) == Uint32At(pkt, item.iphLen + 4) && pkt'[item.iphLen + 13] == pkt[item.iphLen + 13]
  {
    forall k | 0 <= k < item.iphLen + item.thLen && Stays(key, item.thLen, k) ensures pkt'[k] == pkt[k] {
      assert !Fixed(key, k);
    }
    forall k | item.iphLen + item.thLen <= k < |pkt| ensures pkt'[k] == pkt[k] {
      assert !Fixed(key, k);
    }
    forall k | key.isTcp && (k == item.iphLen + 12 || k == item.iphLen + 13 || item.iphLen + 4 <= k < item.iphLen + 8) ensures pkt'[k] == pkt[k] {
      assert !Fixed(key, k);
    }
  }

  /** Rewriting headers only leaves the item as it was. */
  lemma RewrittenItem(l: Ledger, key: FlowKey, item: Item, b: Buf)
    requires ItemOk(l, key, item) && HeaderLens(key, item) && Kept(l.bufs[item.idx].data, b.data, key)
    ensures ItemOk(l.(bufs := l.bufs[item.idx := b]), key, item)
  {
    hide ItemOk, Kept, Sized, Sequenced, Joined, Fit, Uint32At, Twin, InFlow, Alike, Carries;
    ItemTag(l, key, item);
    ItemParts(l, key, item);
    KeptTwin(l.bufs[item.idx].data, b.data, key, item);
    RewrittenCarries(l, key, item, b);
    AlikeHost(l.orig, l.parts[item.idx], l.bufs[item.idx].data, b.data, key, item.thLen);
    ItemIs(l.(bufs := l.bufs[item.idx := b]), key, item);
  }

  lemma RewrittenCarries(l: Ledger, key: FlowKey, item: Item, b: Buf)
    requires ItemOk(l, key, item) && |b.data| == |l.bufs[item.idx].data|
    requires b.data[item.iphLen + item.thLen..] == l.bufs[item.idx].data[item.iphLen + item.thLen..]
    ensures Carries(l.(bufs := l.bufs[item.idx := b]), item.idx)
  {
    hide Sized, Sequenced, Joined, Fit, Alike, Pushed, Uint32At;
  }

  /** And the ledger sound. */
  lemma Rewritten(l: Ledger, key: FlowKey, item: Item, b: Buf)
    requires Sound(l) && l.n == |l.orig| && ItemOk(l, key, item) && HeaderLens(key, item)
    requires Kept(l.bufs[item.idx].data, b.data, key)
    ensures var l' := l.(bufs := l.bufs[item.idx := b]); Sound(l') && OthersSame(l, l', item.idx) && ItemOk(l', key, item)
  {
    hide ItemOk, Carries, Kept;
    ItemTag(l, key, item);
    var l' := l.(bufs := l.bufs[item.idx := b]);
    RewrittenItem(l, key, item, b);
    SameSize(l.bufs[item.idx].data, b.data, key, item);
    RewrittenCarries(l, key, item, b);
    OthersKept(l, item.idx, b);
    forall v | v in l'.parts && v != item.idx ensures Carries(l', v) {
      CarriesSame(l, l', item.idx, v);
    }
    hide OthersSame;
  }

  lemma SameSize(pkt: seq<Byte>, pkt': seq<Byte>, key: FlowKey, item: Item)
    requires HeaderLens(key, item) && item.iphLen + item.thLen <= |pkt| && Kept(pkt, pkt', key)
    ensures |pkt'| == |pkt| && pkt'[item.iphLen + item.thLen..] == pkt[item.iphLen + item.thLen..]
  {
    KeptTwin(pkt, pkt', key, item);
  }

  lemma OthersKept(l: Ledger, w: nat, b: Buf)
    requires w < |l.bufs|
    ensures OthersSame(l, l.(bufs := l.bufs[w := b]), w)
  {
  }

  /** The item of a packet on its own. */
  function NewItemOf(n: nat, c: Candidate, badCsum: bool): Item
    requires c.Candidate?
  {
    Item(n, 0, c.gso, IphLen(c.key.isV6), c.thLen, c.seqNo, c.psh, badCsum)
  }

  predicate IsNew(l: Ledger, c: Candidate, item: Item) {
    c.Candidate? && item == NewItemOf(l.n, c, item.badCsum)
  }

  lemma InsertedTables(l: Ledger, c: Candidate, tcpTable: Table, udpTable: Table, items: seq<Item>, item: Item)
    requires Sound(l) && l.n < |l.orig| == |l.bufs| && c.Candidate? && Describes(c, l.orig[l.n].data) && IsNew(l, c, item)
    requires TableOk(l, tcpTable, true) && TableOk(l, udpTable, false)
    requires var table := if c.key.isTcp then tcpTable else udpTable; items == if c.key in table then table[c.key] else []
    ensures var l' := Alone(l, IphLen(c.key.isV6) + c.thLen, c.key);
      && Sound(l') && TableOk(l', if c.key.isTcp then tcpTable[c.key := items + [item]] else tcpTable, true)
      && TableOk(l', if c.key.isTcp then udpTable else udpTable[c.key := items + [item]], false)
  {
    hide Sound, ItemOk, OthersSame, Describes, FlowOk, TableOk;
    NewItem(l, c, item.badCsum);
    DescribesSize(c, l.orig[l.n].data);
    var l' := Alone(l, IphLen(c.key.isV6) + c.thLen, c.key);
    TableFlow(l, if c.key.isTcp then tcpTable else udpTable, c.key.isTcp, c.key);
    AddedItem(l, l', c.key, items, item);
    TableSame(l, l', l.n, tcpTable, true, c.key, items + [item]);
    TableSame(l, l', l.n, udpTable, false, c.key, items + [item]);
  }

  // ---------------------------------------------------------------- what becomes of each buffer

  ghost predicate HasItem(t: Table, key: FlowKey, w: nat) {
    key in t && exists i :: 0 <= i < |t[key]| && t[key][i].idx == w
  }

  function TableOf(tcpTable: Table, udpTable: Table, key: FlowKey): Table {
    if key.isTcp then tcpTable else udpTable
  }

  /** Some item of its flow describes buffer `w`. */
  ghost predicate Described(tag: Tags, tcpTable: Table, udpTable: Table, w: nat) {
    w in tag && HasItem(TableOf(tcpTable, udpTable, tag[w]), tag[w], w)
  }

  predicate BadSum(pkt: seq<Byte>, key: FlowKey) {
    IphLen(key.isV6) <= |pkt| && !SumOk(pkt, key)
  }

  /** A buffer with one packet in it holds that packet as it came. */
  ghost predicate AsItCame(l: Ledger, w: nat)
    requires w in l.parts
  {
    |l.parts[w]| == 1 ==> w < |l.orig| == |l.bufs| && l.parts[w] == [w] && l.bufs[w] == l.orig[w]
  }

  /**
   A buffer to be written is described by an item; or holds one packet that was no candidate, and has its offload header;
   or holds one packet whose item was dropped because its checksum is wrong, and has no offload header.
   */
  ghost predicate Fate(l: Ledger, tcpTable: Table, udpTable: Table, vhdrs: map<nat, Vhdr>, dropped: set<nat>, w: nat)
    requires w in l.parts
  {
    && w in l.tag
    && if Described(l.tag, tcpTable, udpTable, w) then w !in dropped
       else
         && |l.parts[w]| == 1 && l.tag[w].isTcp
         && if w in dropped then w !in vhdrs && w < |l.orig| && InFlow(l.orig[w].data, l.tag[w]) && BadSum(l.orig[w].data, l.tag[w])
            else l.tag[w] == NO_FLOW && w in vhdrs && vhdrs[w] == Plain
  }

  ghost predicate Whole(l: Ledger, tcpTable: Table, udpTable: Table, vhdrs: map<nat, Vhdr>, dropped: set<nat>) {
    && dropped <= l.parts.Keys && vhdrs.Keys <= l.parts.Keys
    && forall w :: w in l.parts ==> AsItCame(l, w) && Fate(l, tcpTable, udpTable, vhdrs, dropped, w)
  }

  /** The tables have the same items, but for those of buffer `w`. */
  ghost predicate SameBut(t: Table, t': Table, w: nat) {
    forall key, v :: v != w ==> (HasItem(t, key, v) <==> HasItem(t', key, v))
  }

  lemma SameTable(t: Table, w: nat)
    ensures SameBut(t, t, w)
  {
  }

  lemma ItemHere(t: Table, key: FlowKey, i: nat)
    requires key in t && i < |t[key]|
    ensures HasItem(t, key, t[key][i].idx)
  {
  }

  lemma AddedItems(t: Table, key: FlowKey, items: seq<Item>, item: Item)
    requires items == if key in t then t[key] else []
    ensures SameBut(t, t[key := items + [item]], item.idx) && HasItem(t[key := items + [item]], key, item.idx)
  {
    var t' := t[key := items + [item]];
    assert t'[key][|items|] == item;
    forall k, v | v != item.idx ensures HasItem(t, k, v) <==> HasItem(t', k, v) {
      if HasItem(t, k, v) {
        var i :| 0 <= i < |t[k]| && t[k][i].idx == v;
        assert t'[k][i] == t[k][i];
      }
    }
  }

  lemma UpdatedItems(t: Table, key: FlowKey, i: nat, item': Item)
    requires key in t && i < |t[key]| && item'.idx == t[key][i].idx
    ensures SameBut(t, t[key := t[key][i := item']], item'.idx) && HasItem(t[key := t[key][i := item']], key, item'.idx)
  {
    var t' := t[key := t[key][i := item']];
    assert t'[key][i] == item';
    forall k, v | v != item'.idx ensures HasItem(t, k, v) <==> HasItem(t', k, v) {
      if HasItem(t, k, v) {
        var j :| 0 <= j < |t[k]| && t[k][j].idx == v;
        assert t'[k][j] == t[k][j];
      }
    }
  }

  lemma DeletedItems(t: Table, key: FlowKey, i: nat)
    requires key in t && i < |t[key]| && forall j, k :: 0 <= j < k < |t[key]| ==> t[key][j].idx != t[key][k].idx
    ensures var t' := t[key := t[key][..i] + t[key][i + 1..]]; SameBut(t, t', t[key][i].idx) && !HasItem(t', key, t[key][i].idx)
  {
    var t' := t[key := t[key][..i] + t[key][i + 1..]];
    forall k, v | v != t[key][i].idx ensures HasItem(t, k, v) <==> HasItem(t', k, v) {
      if HasItem(t, k, v) {
        var j :| 0 <= j < |t[k]| && t[k][j].idx == v;
        assert k == key ==> t'[k][if j < i then j else j - 1] == t[k][j];
      }
    }
  }

  /** What happens to buffer `w` leaves the others as they were. */
  ghost predicate OffloadSame(vhdrs: map<nat, Vhdr>, vhdrs': map<nat, Vhdr>, dropped: set<nat>, dropped': set<nat>, w: nat) {
    && (forall v :: v != w ==> (v in vhdrs <==> v in vhdrs') && (v in dropped <==> v in dropped'))
    && (forall v :: v != w && v in vhdrs ==> vhdrs'[v] == vhdrs[v])
  }

  lemma FateSame(l: Ledger, l': Ledger, w: nat, v: nat, tcpTable: Table, udpTable: Table, tcpTable': Table, udpTable': Table,
                 vhdrs: map<nat, Vhdr>, vhdrs': map<nat, Vhdr>, dropped: set<nat>, dropped': set<nat>)
    requires Sound(l) && OthersSame(l, l', w) && v in l.parts && v != w
    requires AsItCame(l, v) && Fate(l, tcpTable, udpTable, vhdrs, dropped, v)
    requires SameBut(tcpTable, tcpTable', w) && SameBut(udpTable, udpTable', w) && OffloadSame(vhdrs, vhdrs', dropped, dropped', w)
    ensures v in l'.parts && AsItCame(l', v) && Fate(l', tcpTable', udpTable', vhdrs', dropped', v)
  {
    assert v < l.n && v < |l.bufs|;
    hide Sound, HasItem, BadSum, InFlow;
  }

  /** Whatever happens to one buffer, its item and its header, only its own fate has to be looked at. */
  lemma WholeNext(l: Ledger, l': Ledger, w: nat, tcpTable: Table, udpTable: Table, tcpTable': Table, udpTable': Table,
                  vhdrs: map<nat, Vhdr>, vhdrs': map<nat, Vhdr>, dropped: set<nat>, dropped': set<nat>)
    requires Sound(l) && OthersSame(l, l', w) && Whole(l, tcpTable, udpTable, vhdrs, dropped)
    requires SameBut(tcpTable, tcpTable', w) && SameBut(udpTable, udpTable', w) && OffloadSame(vhdrs, vhdrs', dropped, dropped', w)
    requires w in l'.parts && l'.parts.Keys == l.parts.Keys + {w}
    requires AsItCame(l', w) && Fate(l', tcpTable', udpTable', vhdrs', dropped', w)
    ensures Whole(l', tcpTable', udpTable', vhdrs', dropped')
  {
    hide Sound, OthersSame, AsItCame, Fate, SameBut;
    assert forall v :: (v in l'.parts <==> v in l'.parts.Keys) && (v in l.parts <==> v in l.parts.Keys);
    assert forall v :: v in vhdrs' <==> v in vhdrs'.Keys;
    assert forall v :: v in vhdrs <==> v in vhdrs.Keys;
    forall v | v in l'.parts ensures AsItCame(l', v) && Fate(l', tcpTable', udpTable', vhdrs', dropped', v) {
      if v != w {
        FateSame(l, l', w, v, tcpTable, udpTable, tcpTable', udpTable', vhdrs, vhdrs', dropped, dropped');
      }
    }
  }

  lemma WholeAt(l: Ledger, tcpTable: Table, udpTable: Table, vhdrs: map<nat, Vhdr>, dropped: set<nat>, w: nat)
    requires Whole(l, tcpTable, udpTable, vhdrs, dropped)
    ensures w in l.parts ==> AsItCame(l, w) && Fate(l, tcpTable, udpTable, vhdrs, dropped, w)
    ensures w !in l.parts ==> w !in dropped && w !in vhdrs
  {
  }

  /** The next packet on its own: an item, or no candidate. */
  lemma WholeAlone(l: Ledger, h: nat, key: FlowKey, tcpTable: Table, udpTable: Table, tcpTable': Table, udpTable': Table,
                   vhdrs: map<nat, Vhdr>, vhdrs': map<nat, Vhdr>, dropped: set<nat>)
    requires Sound(l) && l.n < |l.orig| && h <= |l.orig[l.n].data| && Whole(l, tcpTable, udpTable, vhdrs, dropped)
    requires SameBut(tcpTable, tcpTable', l.n) && SameBut(udpTable, udpTable', l.n)
    requires if HasItem(TableOf(tcpTable', udpTable', key), key, l.n) then vhdrs' == vhdrs else vhdrs' == vhdrs[l.n := Plain] && key == NO_FLOW
    ensures Whole(Alone(l, h, key), tcpTable', udpTable', vhdrs', dropped)
  {
    hide Sound, OthersSame, SameBut, HasItem, Whole;
    NotYet(l);
    StillOriginal(l);
    var l' := Alone(l, h, key);
    AloneSound(l, h, key);
    WholeAt(l, tcpTable, udpTable, vhdrs, dropped, l.n);
    AloneFate(l, h, key, tcpTable', udpTable', vhdrs', dropped);
    AloneOffload(vhdrs, vhdrs', dropped, l.n);
    hide AsItCame, Fate, OffloadSame;
    WholeNext(l, l', l.n, tcpTable, udpTable, tcpTable', udpTable', vhdrs, vhdrs', dropped, dropped);
  }

  lemma AloneFate(l: Ledger, h: nat, key: FlowKey, tcpTable': Table, udpTable': Table, vhdrs': map<nat, Vhdr>, dropped: set<nat>)
    requires l.n < |l.orig| == |l.bufs| && l.bufs[l.n] == l.orig[l.n] && l.n !in dropped
    requires HasItem(TableOf(tcpTable', udpTable', key), key, l.n) || (key == NO_FLOW && l.n in vhdrs' && vhdrs'[l.n] == Plain)
    ensures var l' := Alone(l, h, key); AsItCame(l', l.n) && Fate(l', tcpTable', udpTable', vhdrs', dropped, l.n)
  {
    hide HasItem;
  }

  lemma AloneOffload(vhdrs: map<nat, Vhdr>, vhdrs': map<nat, Vhdr>, dropped: set<nat>, w: nat)
    requires vhdrs' == vhdrs || (w in vhdrs' && vhdrs' == vhdrs[w := vhdrs'[w]])
    ensures OffloadSame(vhdrs, vhdrs', dropped, dropped, w)
  {
  }

  /** The next packet merged into the buffer of an item. */
  lemma WholeMerged(l: Ledger, l': Ledger, w: nat, tcpTable: Table, udpTable: Table, tcpTable': Table, udpTable': Table,
                    vhdrs: map<nat, Vhdr>, dropped: set<nat>)
    requires Sound(l) && OthersSame(l, l', w) && Whole(l, tcpTable, udpTable, vhdrs, dropped) && Described(l.tag, tcpTable, udpTable, w)
    requires SameBut(tcpTable, tcpTable', w) && SameBut(udpTable, udpTable', w) && Described(l'.tag, tcpTable', udpTable', w)
    requires w in l.parts && w in l'.parts && l'.parts.Keys == l.parts.Keys && |l'.parts[w]| > 1
    ensures Whole(l', tcpTable', udpTable', vhdrs, dropped)
  {
    hide Sound, OthersSame, SameBut, HasItem, Whole;
    WholeAt(l, tcpTable, udpTable, vhdrs, dropped, w);
    assert l.parts.Keys + {w} == l.parts.Keys;
    AloneOffload(vhdrs, vhdrs, dropped, w);
    hide OffloadSame;
    WholeNext(l, l', w, tcpTable, udpTable, tcpTable', udpTable', vhdrs, vhdrs, dropped, dropped);
  }

  /** An item without merged packets whose checksum is wrong is dropped. */
  lemma WholeDropped(l: Ledger, tcpTable: Table, udpTable: Table, tcpTable': Table, vhdrs: map<nat, Vhdr>, dropped: set<nat>, w: nat)
    requires Sound(l) && Whole(l, tcpTable, udpTable, vhdrs, dropped) && w in l.parts && w in l.tag && l.tag[w].isTcp && |l.parts[w]| == 1
    requires SameBut(tcpTable, tcpTable', w) && !HasItem(tcpTable', l.tag[w], w) && w !in vhdrs
    requires w < |l.bufs| && InFlow(l.bufs[w].data, l.tag[w]) && BadSum(l.bufs[w].data, l.tag[w])
    ensures Whole(l, tcpTable', udpTable, vhdrs, dropped + {w})
  {
    hide Sound, OthersSame, SameBut, HasItem, Whole, BadSum, InFlow;
    WholeAt(l, tcpTable, udpTable, vhdrs, dropped, w);
    SameTable(udpTable, w);
    SelfSame(l, w);
    assert l.parts.Keys + {w} == l.parts.Keys;
    assert OffloadSame(vhdrs, vhdrs, dropped, dropped + {w}, w);
    assert Fate(l, tcpTable', udpTable, vhdrs, dropped + {w}, w);
    hide OffloadSame, AsItCame, Fate;
    WholeNext(l, l, w, tcpTable, udpTable, tcpTable', udpTable, vhdrs, vhdrs, dropped, dropped + {w});
  }

  lemma SelfSame(l: Ledger, w: nat)
    ensures OthersSame(l, l, w)
  {
  }

  /** The headers of the buffer of an item are final. */
  lemma WholeAccounted(l: Ledger, l': Ledger, w: nat, tcpTable: Table, udpTable: Table, vhdrs: map<nat, Vhdr>, vhdr: Vhdr, dropped: set<nat>)
    requires Sound(l) && OthersSame(l, l', w) && Whole(l, tcpTable, udpTable, vhdrs, dropped) && Described(l.tag, tcpTable, udpTable, w)
    requires w in l.parts && l'.parts == l.parts && l'.tag == l.tag && (|l.parts[w]| == 1 ==> l' == l)
    ensures Whole(l', tcpTable, udpTable, vhdrs[w := vhdr], dropped)
  {
    hide Sound, OthersSame, SameBut, HasItem, Whole;
    WholeAt(l, tcpTable, udpTable, vhdrs, dropped, w);
    SameTable(tcpTable, w);
    SameTable(udpTable, w);
    assert l.parts.Keys + {w} == l.parts.Keys;
    AloneOffload(vhdrs, vhdrs[w := vhdr], dropped, w);
    assert AsItCame(l', w) && Fate(l', tcpTable, udpTable, vhdrs[w := vhdr], dropped, w);
    hide OffloadSame, AsItCame, Fate;
    WholeNext(l, l', w, tcpTable, udpTable, tcpTable, udpTable, vhdrs, vhdrs[w := vhdr], dropped, dropped);
  }

  /** While packets are being looked at, only those that are no candidates have their offload headers. */
  ghost predicate PlainOnly(l: Ledger, vhdrs: map<nat, Vhdr>) {
    forall w :: w in vhdrs ==> w in l.tag && l.tag[w] == NO_FLOW
  }

  lemma PlainOnlyNext(l: Ledger, l': Ledger, tcpTable: Table, udpTable: Table, vhdrs: map<nat, Vhdr>, dropped: set<nat>)
    requires PlainOnly(l, vhdrs) && Whole(l, tcpTable, udpTable, vhdrs, dropped) && l.n !in l.parts
    requires l'.tag == l.tag || (l.n in l'.tag && l'.tag == l.tag[l.n := l'.tag[l.n]])
    ensures PlainOnly(l', vhdrs)
  {
    WholeAt(l, tcpTable, udpTable, vhdrs, dropped, l.n);
    hide Whole;
  }

  /** No flow is tagged like a packet that is no candidate. */
  lemma NoItems(l: Ledger, tcpTable: Table, w: nat)
    requires TableOk(l, tcpTable, true)
    ensures !HasItem(tcpTable, NO_FLOW, w)
  {
  }

  // ---------------------------------------------------------------- what each step keeps

  /** What holds of the ledger, the tables and the offload headers between two packets. */
  ghost predicate Between(l: Ledger, tcpTable: Table, udpTable: Table, arrivals: map<FlowKey, seq<nat>>, vhdrs: map<nat, Vhdr>, dropped: set<nat>) {
    && |l.orig| == |l.bufs| && Sound(l) && TableOk(l, tcpTable, true) && TableOk(l, udpTable, false) && OrderKept(l, udpTable, arrivals)
    && Whole(l, tcpTable, udpTable, vhdrs, dropped)
  }

  lemma InsertedTcp(l: Ledger, c: Candidate, tcpTable: Table, udpTable: Table, arrivals: map<FlowKey, seq<nat>>,
                    vhdrs: map<nat, Vhdr>, dropped: set<nat>, items: seq<Item>, item: Item)
    requires Between(l, tcpTable, udpTable, arrivals, vhdrs, dropped) && PlainOnly(l, vhdrs)
    requires l.n < |l.orig| && c.Candidate? && Describes(c, l.orig[l.n].data) && IsNew(l, c, item) && c.key.isTcp
    requires items == if c.key in tcpTable then tcpTable[c.key] else []
    ensures var l' := Alone(l, IphLen(c.key.isV6) + c.thLen, c.key);
      Between(l', tcpTable[c.key := items + [item]], udpTable, arrivals, vhdrs, dropped) && PlainOnly(l', vhdrs)
  {
    hide Sound, Describes, TableOk, OrderKept, Whole, PlainOnly, HasItem, SameBut;
    var h := IphLen(c.key.isV6) + c.thLen;
    InsertedTables(l, c, tcpTable, udpTable, items, item);
    DescribesSize(c, l.orig[l.n].data);
    NotYet(l);
    UdpOnly(l, udpTable);
    OrderTcp(l, Alone(l, h, c.key), l.n, udpTable, arrivals);
    AddedItems(tcpTable, c.key, items, item);
    SameTable(udpTable, l.n);
    WholeAlone(l, h, c.key, tcpTable, udpTable, tcpTable[c.key := items + [item]], udpTable, vhdrs, vhdrs, dropped);
    PlainOnlyNext(l, Alone(l, h, c.key), tcpTable, udpTable, vhdrs, dropped);
  }

  lemma InsertedUdp(l: Ledger, c: Candidate, tcpTable: Table, udpTable: Table, arrivals: map<FlowKey, seq<nat>>,
                    vhdrs: map<nat, Vhdr>, dropped: set<nat>, items: seq<Item>, item: Item)
    requires Between(l, tcpTable, udpTable, arrivals, vhdrs, dropped) && PlainOnly(l, vhdrs)
    requires l.n < |l.orig| && c.Candidate? && Describes(c, l.orig[l.n].data) && IsNew(l, c, item) && !c.key.isTcp
    requires items == if c.key in udpTable then udpTable[c.key] else []
    ensures var l' := Alone(l, IphLen(c.key.isV6) + c.thLen, c.key);
      && Between(l', tcpTable, udpTable[c.key := items + [item]], arrivals[c.key := ArrivedOf(arrivals, c.key) + [l.n]], vhdrs, dropped)
      && PlainOnly(l', vhdrs)
  {
    hide Sound, Describes, TableOk, OrderKept, Newest, Elsewhere, Whole, PlainOnly, HasItem, SameBut;
    var h := IphLen(c.key.isV6) + c.thLen;
    InsertedTables(l, c, tcpTable, udpTable, items, item);
    DescribesSize(c, l.orig[l.n].data);
    NotYet(l);
    OrderOfNew(l, c.key, h);
    OrderNext(l, Alone(l, h, c.key), l.n, udpTable, arrivals, c.key, items + [item]);
    AddedItems(udpTable, c.key, items, item);
    SameTable(tcpTable, l.n);
    WholeAlone(l, h, c.key, tcpTable, udpTable, tcpTable, udpTable[c.key := items + [item]], vhdrs, vhdrs, dropped);
    PlainOnlyNext(l, Alone(l, h, c.key), tcpTable, udpTable, vhdrs, dropped);
  }

  lemma LeftAsIs(l: Ledger, tcpTable: Table, udpTable: Table, arrivals: map<FlowKey, seq<nat>>, vhdrs: map<nat, Vhdr>, dropped: set<nat>)
    requires Between(l, tcpTable, udpTable, arrivals, vhdrs, dropped) && PlainOnly(l, vhdrs) && l.n < |l.orig|
    ensures var l' := Alone(l, 0, NO_FLOW);
      Between(l', tcpTable, udpTable, arrivals, vhdrs[l.n := Plain], dropped) && PlainOnly(l', vhdrs[l.n := Plain])
  {
    hide Sound, TableOk, OrderKept, Whole, HasItem, SameBut, OthersSame;
    AloneSound(l, 0, NO_FLOW);
    var l' := Alone(l, 0, NO_FLOW);
    TablesAlone(l, l', tcpTable, udpTable);
    NotYet(l);
    UdpOnly(l, udpTable);
    OrderTcp(l, l', l.n, udpTable, arrivals);
    NoItems(l, tcpTable, l.n);
    SameTable(tcpTable, l.n);
    SameTable(udpTable, l.n);
    WholeAlone(l, 0, NO_FLOW, tcpTable, udpTable, tcpTable, udpTable, vhdrs, vhdrs[l.n := Plain], dropped);
    PlainOnlyNext(l, l', tcpTable, udpTable, vhdrs, dropped);
  }

  /** The next packet has been merged into the buffer of `item`, now described by `item'`. */
  ghost predicate MergedInto(l: Ledger, l': Ledger, key: FlowKey, item: Item, item': Item) {
    && Sound(l') && OthersSame(l, l', item.idx) && l'.n == l.n + 1
    && l'.parts.Keys == l.parts.Keys && l'.orig == l.orig && |l'.bufs| == |l.bufs|
    && item.idx in l.parts && item.idx in l'.parts
    && l'.tag == l.tag && l'.parts == l.parts[item.idx := l'.parts[item.idx]]
    && ItemOk(l', key, item') && item'.idx == item.idx && item'.merged == item.merged + 1
  }

  lemma MergedWhole(l: Ledger, l': Ledger, tcpTable: Table, udpTable: Table, arrivals: map<FlowKey, seq<nat>>,
                    vhdrs: map<nat, Vhdr>, dropped: set<nat>, key: FlowKey, i: nat, item': Item)
    requires Between(l, tcpTable, udpTable, arrivals, vhdrs, dropped) && PlainOnly(l, vhdrs)
    requires var t := TableOf(tcpTable, udpTable, key); key in t && i < |t[key]| && MergedInto(l, l', key, t[key][i], item')
    ensures var t := TableOf(tcpTable, udpTable, key); var t' := t[key := t[key][i := item']];
      && Whole(l', if key.isTcp then t' else tcpTable, if key.isTcp then udpTable else t', vhdrs, dropped) && PlainOnly(l', vhdrs)
  {
    hide Sound, ItemOk, OthersSame, TableOk, OrderKept, Whole, PlainOnly, HasItem, SameBut;
    var t: Table := TableOf(tcpTable, udpTable, key);
    var w := t[key][i].idx;
    TableItem(l, t, key.isTcp, key, i);
    ItemTag(l, key, t[key][i]);
    ItemParts(l', key, item');
    ItemHere(t, key, i);
    UpdatedItems(t, key, i, item');
    SameTable(tcpTable, w);
    SameTable(udpTable, w);
    var t' := t[key := t[key][i := item']];
    WholeMerged(l, l', w, tcpTable, udpTable, if key.isTcp then t' else tcpTable, if key.isTcp then udpTable else t', vhdrs, dropped);
    NotYet(l);
    PlainOnlyNext(l, l', tcpTable, udpTable, vhdrs, dropped);
  }

  lemma MergedTables(l: Ledger, l': Ledger, tcpTable: Table, udpTable: Table, key: FlowKey, i: nat, item': Item)
    requires TableOk(l, tcpTable, true) && TableOk(l, udpTable, false)
    requires var t := TableOf(tcpTable, udpTable, key); key in t && i < |t[key]| && MergedInto(l, l', key, t[key][i], item')
    ensures var t := TableOf(tcpTable, udpTable, key); var t' := t[key := t[key][i := item']];
      TableOk(l', if key.isTcp then t' else tcpTable, true) && TableOk(l', if key.isTcp then udpTable else t', false)
  {
    hide Sound, ItemOk, OthersSame, TableOk, FlowOk;
    var t: Table := TableOf(tcpTable, udpTable, key);
    TableFlow(l, t, key.isTcp, key);
    TableItem(l, t, key.isTcp, key, i);
    ItemTag(l, key, t[key][i]);
    GrownItem(l, l', key, t[key], i, item');
    TableSame(l, l', item'.idx, tcpTable, true, key, t[key][i := item']);
    TableSame(l, l', item'.idx, udpTable, false, key, t[key][i := item']);
  }

  lemma MergedTcp(l: Ledger, l': Ledger, tcpTable: Table, udpTable: Table, arrivals: map<FlowKey, seq<nat>>,
                  vhdrs: map<nat, Vhdr>, dropped: set<nat>, key: FlowKey, i: nat, item': Item)
    requires Between(l, tcpTable, udpTable, arrivals, vhdrs, dropped) && PlainOnly(l, vhdrs) && key.isTcp
    requires key in tcpTable && i < |tcpTable[key]| && MergedInto(l, l', key, tcpTable[key][i], item')
    ensures Between(l', tcpTable[key := tcpTable[key][i := item']], udpTable, arrivals, vhdrs, dropped) && PlainOnly(l', vhdrs)
  {
    hide Sound, ItemOk, OthersSame, TableOk, OrderKept, Whole, PlainOnly;
    MergedWhole(l, l', tcpTable, udpTable, arrivals, vhdrs, dropped, key, i, item');
    MergedTables(l, l', tcpTable, udpTable, key, i, item');
    TableItem(l, tcpTable, true, key, i);
    ItemTag(l, key, tcpTable[key][i]);
    NotYet(l);
    UdpOnly(l, udpTable);
    assert l'.tag == l.tag[item'.idx := l'.tag[item'.idx]];
    OrderTcp(l, l', item'.idx, udpTable, arrivals);
  }

  lemma MergedUdp(l: Ledger, l': Ledger, tcpTable: Table, udpTable: Table, arrivals: map<FlowKey, seq<nat>>,
                  vhdrs: map<nat, Vhdr>, dropped: set<nat>, key: FlowKey, item': Item)
    requires Between(l, tcpTable, udpTable, arrivals, vhdrs, dropped) && PlainOnly(l, vhdrs) && !key.isTcp
    requires key in udpTable && udpTable[key] != [] && MergedInto(l, l', key, udpTable[key][|udpTable[key]| - 1], item')
    requires l'.parts == l.parts[item'.idx := l.parts[item'.idx] + [l.n]]
    ensures var items' := udpTable[key][|udpTable[key]| - 1 := item'];
      Between(l', tcpTable, udpTable[key := items'], arrivals[key := ArrivedOf(arrivals, key) + [l.n]], vhdrs, dropped) && PlainOnly(l', vhdrs)
  {
    hide Sound, ItemOk, OthersSame, TableOk, OrderKept, Whole, PlainOnly, Newest, Elsewhere;
    var items := udpTable[key];
    var m := |items| - 1;
    MergedWhole(l, l', tcpTable, udpTable, arrivals, vhdrs, dropped, key, m, item');
    MergedTables(l, l', tcpTable, udpTable, key, m, item');
    TableItem(l, udpTable, false, key, m);
    ItemTag(l, key, items[m]);
    OrderAt(l, udpTable, arrivals, key);
    NotYet(l);
    OrderOfLast(l, l', key, items[m].idx);
    OrderNext(l, l', item'.idx, udpTable, arrivals, key, items[m := item']);
  }

  /** Item `i` of a TCP flow, which has one packet with a wrong checksum, is dropped. */
  lemma DroppedTcp(l: Ledger, tcpTable: Table, udpTable: Table, arrivals: map<FlowKey, seq<nat>>,
                   vhdrs: map<nat, Vhdr>, dropped: set<nat>, key: FlowKey, i: nat)
    requires Between(l, tcpTable, udpTable, arrivals, vhdrs, dropped) && PlainOnly(l, vhdrs) && key.isTcp && key in tcpTable && i < |tcpTable[key]|
    requires var item := tcpTable[key][i]; item.merged == 0 && item.idx < |l.bufs| && BadSum(l.bufs[item.idx].data, key)
    ensures Between(l, tcpTable[key := tcpTable[key][..i] + tcpTable[key][i + 1..]], udpTable, arrivals, vhdrs, dropped + {tcpTable[key][i].idx})
  {
    hide Sound, ItemOk, TableOk, OrderKept, Whole, HasItem, SameBut, BadSum, PlainOnly, InFlow, Twin;
    var items, item := tcpTable[key], tcpTable[key][i];
    var tcpTable' := tcpTable[key := items[..i] + items[i + 1..]];
    DeletedTable(l, tcpTable, key, i);
    TableItem(l, tcpTable, true, key, i);
    ItemTag(l, key, item);
    ItemParts(l, key, item);
    DeletedItems(tcpTable, key, i);
    NotPlain(l, vhdrs, item.idx);
    WholeDropped(l, tcpTable, udpTable, tcpTable', vhdrs, dropped, item.idx);
  }

  lemma NotPlain(l: Ledger, vhdrs: map<nat, Vhdr>, w: nat)
    requires PlainOnly(l, vhdrs) && w in l.tag && l.tag[w] != NO_FLOW
    ensures w !in vhdrs
  {
  }

  lemma DeletedTable(l: Ledger, table: Table, key: FlowKey, i: nat)
    requires TableOk(l, table, true) && key in table && i < |table[key]|
    ensures TableOk(l, table[key := table[key][..i] + table[key][i + 1..]], true)
    ensures forall j, k :: 0 <= j < k < |table[key]| ==> table[key][j].idx != table[key][k].idx
    ensures key != NO_FLOW
  {
    hide ItemOk;
    DroppedItem(l, key, table[key], i);
  }

  lemma TablesRewritten(l: Ledger, l': Ledger, tcpTable: Table, udpTable: Table, key: FlowKey, i: nat)
    requires TableOk(l, tcpTable, true) && TableOk(l, udpTable, false)
    requires key in TableOf(tcpTable, udpTable, key) && i < |TableOf(tcpTable, udpTable, key)[key]|
    requires var item := TableOf(tcpTable, udpTable, key)[key][i]; ItemOk(l', key, item) && OthersSame(l, l', item.idx) && l'.n == l.n
    ensures TableOk(l', tcpTable, true) && TableOk(l', udpTable, false)
  {
    hide ItemOk, OthersSame, TableOk, FlowOk;
    var t: Table := TableOf(tcpTable, udpTable, key);
    var item := t[key][i];
    TableFlow(l, t, key.isTcp, key);
    TableItem(l, t, key.isTcp, key, i);
    ItemTag(l, key, item);
    GrownItem(l, l', key, t[key], i, item);
    assert t[key][i := item] == t[key] && t[key := t[key]] == t;
    TableSame(l, l', item.idx, tcpTable, true, key, t[key]);
    TableSame(l, l', item.idx, udpTable, false, key, t[key]);
  }

  /** The headers of item `i` of a flow have been brought up to date. */
  lemma AccountedFor(l: Ledger, tcpTable: Table, udpTable: Table, arrivals: map<FlowKey, seq<nat>>,
                     vhdrs: map<nat, Vhdr>, dropped: set<nat>, key: FlowKey, i: nat, b: Buf, vhdr: Vhdr)
    requires Between(l, tcpTable, udpTable, arrivals, vhdrs, dropped) && l.n == |l.orig|
    requires key in TableOf(tcpTable, udpTable, key) && i < |TableOf(tcpTable, udpTable, key)[key]|
    requires var item := TableOf(tcpTable, udpTable, key)[key][i];
      item.idx < |l.bufs| && HeaderLens(key, item) && Kept(l.bufs[item.idx].data, b.data, key) && (item.merged == 0 ==> b == l.bufs[item.idx])
    ensures var item := TableOf(tcpTable, udpTable, key)[key][i];
      Between(l.(bufs := l.bufs[item.idx := b]), tcpTable, udpTable, arrivals, vhdrs[item.idx := vhdr], dropped)
  {
    hide Sound, ItemOk, OthersSame, TableOk, OrderKept, Whole, HasItem, Kept, HeaderLens, Sized, Sequenced, Alike, Pushed;
    var t: Table := TableOf(tcpTable, udpTable, key);
    var item := t[key][i];
    var l' := l.(bufs := l.bufs[item.idx := b]);
    TableItem(l, t, key.isTcp, key, i);
    ItemTag(l, key, item);
    ItemParts(l, key, item);
    ItemHere(t, key, i);
    Rewritten(l, key, item, b);
    TablesRewritten(l, l', tcpTable, udpTable, key, i);
    OrderParts(l, l', udpTable, arrivals);
    assert item.merged == 0 ==> l' == l;
    WholeAccounted(l, l', item.idx, tcpTable, udpTable, vhdrs, vhdr, dropped);
  }

  // ---------------------------------------------------------------- what is dropped

  /** What a packet finds: what the buffers carry, and the TCP items. */
  datatype Moment = Moment(l: Ledger, tcpTable: Table)

  /** Before the first packet. */
  function Nothing(orig: seq<Buf>): Ledger {
    Ledger(orig, orig, 0, map[], map[], map[], map[])
  }

  /** How a packet is described if it is a TCP candidate. */
  function TcpCandidate(pkt: seq<Byte>, canUdp: bool): Candidate {
    var kind := PacketKind(pkt, canUdp);
    if kind.Tcp4? || kind.Tcp6? then ParseTcp(pkt, kind.Tcp6?) else NoCandidate
  }

  /** It is one exactly if it has a description as a TCP packet. */
  lemma TcpCandidateIff(pkt: seq<Byte>, canUdp: bool, c: Candidate)
    ensures c.Candidate? && TcpCandidate(pkt, canUdp) == c <==> Describes(c, pkt) && c.key.isTcp
  {
    PacketKindIff(pkt, canUdp);
    hide PacketKind, ParseTcp, KeyOf, WholePacket, Uint32At;
    if Headed(pkt, true, false) { ParseTcpIff(pkt, false, c); }
    if Headed(pkt, true, true) { ParseTcpIff(pkt, true, c); }
  }

  /** What is no TCP candidate leaves the TCP items alone, and the first packet of a flow becomes its item. */
  predicate Follows(m: Moment, m': Moment, c: Candidate) {
    && m.l.n < |m.l.bufs|
    && if c.NoCandidate? then m'.tcpTable == m.tcpTable
       else c.key !in m.tcpTable ==>
              && m'.l == Alone(m.l, IphLen(c.key.isV6) + c.thLen, c.key)
              && m'.tcpTable == m.tcpTable[c.key := [NewItemOf(m.l.n, c, false)]]
  }

  /** A packet of a flow that has items may still be left as it is. */
  lemma FollowsStill(m: Moment, m': Moment, l: Ledger, c: Candidate)
    requires Follows(m, m', c) && m'.l == m.l
    ensures Follows(m, m'.(l := l), c)
  {
  }

  /** Packet `i` meets the spoilt item of buffer `w`. */
  ghost predicate MeetsAt(seen: seq<Moment>, canUdp: bool, offset: nat, i: nat, w: nat)
    requires i < |seen|
  {
    var m := seen[i];
    m.l.n < |m.l.orig| && Meets(m.l, m.tcpTable, TcpCandidate(m.l.orig[m.l.n].data, canUdp), offset, w)
  }

  /** `ms` is what the packets found one after the other, and what is left; what has been dropped is what they met. */
  ghost predicate Recorded(orig: seq<Buf>, ms: seq<Moment>, dropped: set<nat>, canUdp: bool, offset: nat) {
    && ms != [] && ms[0] == Moment(Nothing(orig), map[]) && |ms| - 1 <= |orig| && (forall i :: 0 <= i < |ms| ==> ms[i].l.orig == orig && ms[i].l.n == i)
    && (forall i :: 0 <= i < |ms| - 1 ==> Follows(ms[i], ms[i + 1], TcpCandidate(orig[i].data, canUdp)))
    && (forall w :: w in dropped <==> exists i :: 0 <= i < |ms| - 1 && MeetsAt(ms, canUdp, offset, i, w))
  }

  lemma RecordedStart(orig: seq<Buf>, canUdp: bool, offset: nat)
    ensures Recorded(orig, [Moment(Nothing(orig), map[])], {}, canUdp, offset)
  {
  }

  lemma RecordedNext(orig: seq<Buf>, ms: seq<Moment>, m: Moment, dropped: set<nat>, dropped': set<nat>, canUdp: bool, offset: nat)
    requires Recorded(orig, ms, dropped, canUdp, offset) && |ms| <= |orig| && m.l.orig == orig && m.l.n == |ms|
    requires var n := |ms| - 1;
      && Follows(ms[n], m, TcpCandidate(orig[n].data, canUdp))
      && forall w :: w in dropped' <==> w in dropped || Meets(ms[n].l, ms[n].tcpTable, TcpCandidate(orig[n].data, canUdp), offset, w)
    ensures Recorded(orig, ms + [m], dropped', canUdp, offset)
  {
    hide Follows, Meets, TcpCandidate;
    var n, ms' := |ms| - 1, ms + [m];
    assert forall i :: 0 <= i < |ms| ==> ms'[i] == ms[i];
    assert ms'[n + 1] == m;
    forall i | 0 <= i < |ms'| - 1 ensures Follows(ms'[i], ms'[i + 1], TcpCandidate(orig[i].data, canUdp)) {
      if i < n {
        assert Follows(ms[i], ms[i + 1], TcpCandidate(orig[i].data, canUdp));
      }
    }
    forall w ensures w in dropped' <==> exists i :: 0 <= i < |ms'| - 1 && MeetsAt(ms', canUdp, offset, i, w) {
      assert forall i :: 0 <= i < |ms| ==> MeetsAt(ms', canUdp, offset, i, w) == MeetsAt(ms, canUdp, offset, i, w);
      if w in dropped' && w !in dropped {
        assert MeetsAt(ms', canUdp, offset, n, w);
      }
    }
  }

  /** Nothing is dropped exactly if no packet meets a spoilt item. */
  lemma NoneDroppedIff(orig: seq<Buf>, seen: seq<Moment>, m: Moment, dropped: set<nat>, canUdp: bool, offset: nat)
    requires Recorded(orig, seen + [m], dropped, canUdp, offset)
    ensures dropped == {} <==> forall i, w :: 0 <= i < |seen| ==> !MeetsAt(seen, canUdp, offset, i, w)
  {
    hide Follows, Meets, TcpCandidate;
    var ms := seen + [m];
    assert forall i, w :: 0 <= i < |seen| ==> MeetsAt(ms, canUdp, offset, i, w) == MeetsAt(seen, canUdp, offset, i, w);
    hide MeetsAt;
    if dropped != {} {
      var w :| w in dropped;
      var i :| 0 <= i < |ms| - 1 && MeetsAt(ms, canUdp, offset, i, w);
      assert MeetsAt(seen, canUdp, offset, i, w);
    } else {
      forall i, w | 0 <= i < |seen| ensures !MeetsAt(seen, canUdp, offset, i, w) {
        assert w in dropped || !MeetsAt(ms, canUdp, offset, i, w);
      }
    }
  }

  // ---------------------------------------------------------------- what is written

  /**
   What is written of buffer `w`: its one packet as it came, with a plain offload header, unless it is a TCP packet with a
   wrong checksum whose item was dropped, which has none; or several packets, with the offload header of their item.
   */
  ghost predicate Ready(l: Ledger, vhdrs: map<nat, Vhdr>, dropped: set<nat>, w: nat)
    requires w in l.parts
  {
    && w in l.tag
    && if |l.parts[w]| == 1 then
         && w < |l.orig| == |l.bufs| && l.parts[w] == [w] && l.bufs[w] == l.orig[w]
         && if w in dropped then w !in vhdrs && l.tag[w].isTcp && InFlow(l.orig[w].data, l.tag[w]) && BadSum(l.orig[w].data, l.tag[w])
            else w in vhdrs && vhdrs[w] == Plain
       else
         && w !in dropped && w in vhdrs
         && exists item :: ItemOk(l, l.tag[w], item) && item.idx == w && vhdrs[w] == Offload(OffloadHdr(l.tag[w], item))
  }

  lemma AllReady(l: Ledger, tcpTable: Table, udpTable: Table, arrivals: map<FlowKey, seq<nat>>, vhdrs: map<nat, Vhdr>, dropped: set<nat>, w: nat)
    requires Between(l, tcpTable, udpTable, arrivals, vhdrs, dropped) && w in l.parts
    requires w in l.tag ==> FlowAccounted(TableOf(tcpTable, udpTable, l.tag[w]), l.bufs, vhdrs, l.tag[w])
    ensures Ready(l, vhdrs, dropped, w)
  {
    hide Sound, ItemOk, TableOk, OrderKept, Whole, BadSum, InFlow, HeadersRight;
    WholeAt(l, tcpTable, udpTable, vhdrs, dropped, w);
    SoundCarries(l, w);
    if Described(l.tag, tcpTable, udpTable, w) {
      var t: Table, key := TableOf(tcpTable, udpTable, l.tag[w]), l.tag[w];
      var i :| 0 <= i < |t[key]| && t[key][i].idx == w;
      TableItem(l, t, key.isTcp, key, i);
      ItemParts(l, key, t[key][i]);
      assert Accounted(l.bufs, vhdrs, key, t[key][i]);
    }
  }

  lemma ReadyOne(l: Ledger, vhdrs: map<nat, Vhdr>, dropped: set<nat>, w: nat)
    requires w in l.parts && Ready(l, vhdrs, dropped, w)
    ensures w in vhdrs <==> w !in dropped
    ensures w in vhdrs ==> Ready(l, map[w := vhdrs[w]], dropped, w)
  {
    hide ItemOk, InFlow, BadSum;
  }

  /** If all TCP packets have right checksums, nothing is dropped. */
  lemma NothingDropped(l: Ledger, tcpTable: Table, udpTable: Table, arrivals: map<FlowKey, seq<nat>>, vhdrs: map<nat, Vhdr>, dropped: set<nat>)
    requires Between(l, tcpTable, udpTable, arrivals, vhdrs, dropped)
    requires forall p, key: FlowKey :: 0 <= p < |l.orig| && key.isTcp && InFlow(l.orig[p].data, key) ==> !BadSum(l.orig[p].data, key)
    ensures dropped == {}
  {
    hide Sound, TableOk, OrderKept, BadSum, InFlow, HasItem;
    forall w | w in dropped ensures false {
      WholeAt(l, tcpTable, udpTable, vhdrs, dropped, w);
    }
  }

  /** A small TCP packet with a wrong checksum. */
  function BadPacket(seqNo: Byte): (r: seq<Byte>)
    ensures |r| == 42 && r[0] == 0x45 && r[3] == 42 && r[9] == TCP && r[27] == seqNo && r[32] == 0x50 && r[33] == 0x10
    ensures forall k :: 0 <= k < 42 && k !in {0, 3, 9, 27, 32, 33} ==> r[k] == 0
  {
    [0x45, 0, 0, 42, 0, 0, 0, 0, 0, 6, 0, 0, 0, 0, 0, 0, 0, 0, 0, 0,
     0, 0, 0, 0, 0, 0, 0, seqNo, 0, 0, 0, 0, 0x50, 0x10, 0, 0, 0, 0, 0, 0,
     0, 0]
  }

  /** What the second of them finds. */
  function BadLedger(key: FlowKey): Ledger {
    Alone(Nothing(BadBatch()), 40, key)
  }

  lemma BadSpoilt()
    ensures var c0, c1 := TcpCandidate(BadPacket(0), false), TcpCandidate(BadPacket(2), false);
      c0.Candidate? && c1.Candidate? && c0.key == c1.key && c0.thLen == 20 && !c0.key.isV6 && Spoilt(BadLedger(c0.key), c1, NewItemOf(0, c0, false), 10)
  {
    hide BadPacket, SumOk, KeyOf, TcpCandidate, Continuing, Preceding;
    BadCandidate(0);
    BadCandidate(2);
    BadKeys();
    var key := KeyOf(BadPacket(0), true, false);
    assert key.isTcp && !key.isV6 by { KeyKind(BadPacket(0)); }
    BadPacketSum(BadPacket(0), key);
    BadContinues(key);
  }

  lemma KeyKind(pkt: seq<Byte>)
    requires |pkt| >= 32
    ensures KeyOf(pkt, true, false).isTcp && !KeyOf(pkt, true, false).isV6
  {
  }

  lemma BadContinues(key: FlowKey)
    requires key.isTcp && !key.isV6
    ensures Continuing(BadLedger(key), Candidate(20, 2, 2, false, key), Item(0, 0, 2, 20, 20, 0, false, false))
  {
    hide BadPacket, Sized, Sequenced, Twin, Uint32At;
    assert [0] + [1] == [0, 1];
    BadSeqNo(0);
    BadSeqNo(2);
    BadTwin(BadPacket(2), BadPacket(0), key);
    BadInRow(BadBatch());
  }

  lemma BadSeqNo(seqNo: Byte)
    ensures Uint32At(BadPacket(seqNo), 24) == seqNo
  {
    hide BadPacket;
  }

  lemma BadTwin(a: seq<Byte>, b: seq<Byte>, key: FlowKey)
    requires key.isTcp && !key.isV6 && |a| == |b| == 42 && forall k :: 0 <= k < 42 && k != 27 ==> a[k] == b[k]
    ensures Twin(a, b, key, 20)
  {
    assert !Stays(key, 20, 27);
  }

  lemma BadInRow(orig: seq<Buf>)
    requires |orig| == 2 && |orig[0].data| == |orig[1].data| == 42
    requires Uint32At(orig[0].data, 24) == 0 && Uint32At(orig[1].data, 24) == 2
    ensures Sized(orig, [0, 1], 40, 2) && Sequenced(orig, [0, 1], 20, 0, 2)
  {
    hide Uint32At;
  }

  /** Two of them, the second continuing the first. */
  function BadBatch(): seq<Buf> {
    [Buf(BadPacket(0), 100), Buf(BadPacket(2), 100)]
  }

  lemma BadKeys()
    ensures KeyOf(BadPacket(0), true, false) == KeyOf(BadPacket(2), true, false)
  {
    hide BadPacket;
    var a, b := BadPacket(0), BadPacket(2);
    assert a[12..16] == b[12..16] && a[16..20] == b[16..20] && a[20..24] == b[20..24] && a[28..32] == b[28..32];
  }

  lemma BadCandidate(seqNo: Byte)
    ensures var c := TcpCandidate(BadPacket(seqNo), false);
      c == Candidate(20, 2, seqNo, false, KeyOf(BadPacket(seqNo), true, false))
  {
    hide BadPacket, KeyOf;
    var pkt := BadPacket(seqNo);
    assert Headed(pkt, true, false) && PacketKind(pkt, false) == Tcp4;
    assert Uint16At(pkt, 2) == 42 && Uint32At(pkt, 24) == seqNo && DataOffset(pkt, 20) == 20;
  }

  lemma BadPacketSum(pkt: seq<Byte>, key: FlowKey)
    requires |pkt| == 42 && pkt[32] == 0x50 && pkt[33] == 0x10 && (forall k :: 12 <= k < 42 && k !in {32, 33} ==> pkt[k] == 0)
    requires key.isTcp && !key.isV6
    ensures !SumOk(pkt, key)
  {
    FlagsSum(pkt[20..]);
    Zeros(pkt[12..16]);
    Zeros(pkt[16..20]);
    hide Sum16;
  }

  lemma FlagsSum(t: seq<Byte>)
    requires |t| == 22 && t[12] == 0x50 && t[13] == 0x10 && forall k :: 0 <= k < 22 && k !in {12, 13} ==> t[k] == 0
    ensures Sum16(t) == 0x5010
  {
    hide Sum16, PutUint16, Word16, LittleEndian, BigEndian;
    var rest := PutUint16(t, 12, 0);
    Sum16Put(t, 12, 0);
    FlagsWord();
    forall k | 0 <= k < 22 ensures rest[k] == 0 {
      ZeroWords(rest[12], rest[13]);
    }
    Zeros(rest);
  }

  lemma FlagsWord()
    ensures Word16(0x50, 0x10) == 0x5010
  {
  }

  lemma ZeroWords(a: Byte, b: Byte)
    ensures Word16(a, b) == 0 ==> a == 0 && b == 0
  {
  }

  /** Packet `k` of buffer `w` comes back as `out`: as it came, or as splitting gives it back, behind headers of the length on record. */
  ghost predicate BackAs(l: Ledger, w: nat, k: nat, out: seq<Byte>)
    requires w in l.parts && k < |l.parts[w]|
  {
    var p := l.parts[w][k];
    && p < |l.orig|
    && if |l.parts[w]| == 1 then out == l.orig[p].data
       else
         && w in l.tag && w in l.hlen && GivenBack(l.orig, p, l.tag[w], l.hlen[w], out)
         && (l.tag[w].isTcp ==> FlagsAs(l.orig, l.parts[w], k, IphLen(l.tag[w].isV6), out))
  }

  /** The packets of buffer `w` come back, in order, and nothing else. */
  ghost predicate AllBackAs(l: Ledger, w: nat, outs: seq<seq<Byte>>) {
    w in l.parts && |outs| == |l.parts[w]| && forall k :: 0 <= k < |outs| ==> BackAs(l, w, k, outs[k])
  }

  /** Reading what is written of a buffer that has an offload header. */
  method ReadBuffer(ghost l: Ledger, ghost dropped: set<nat>, w: nat, data: seq<Byte>, vhdr: Vhdr, room: nat, little: bool)
      returns (outs: seq<seq<Byte>>)
    requires w in l.parts && Ready(l, map[w := vhdr], dropped, w) && w < |l.bufs| && data == l.bufs[w].data
    requires |l.parts[w]| <= room
    ensures AllBackAs(l, w, outs)
  {
    hide ItemOk, GivenBack, InFlow, BadSum, FlagsAs, Flags;
    if vhdr == Plain {
      return [data];
    }
    ghost var key := l.tag[w];
    ghost var item :| ItemOk(l, key, item) && item.idx == w && vhdr == Offload(OffloadHdr(key, item));
    ItemTag(l, key, item);
    ItemParts(l, key, item);
    HostVersion(l.orig, l.parts[w], data, key, item.thLen);
    var n, tooMany;
    outs, n, tooMany := SplitItem(l, data, key, item, vhdr.hdr, data[0] / 16 == 6, room, little);
  }

  lemma AllFlags(orig: seq<Buf>, ps: seq<nat>, iphLen: nat, outs: seq<seq<Byte>>)
    requires ps != [] && |outs| == |ps| && forall k :: 0 <= k < |outs| ==> FlagsAs(orig, ps, k, iphLen, outs[k])
    ensures (forall k :: 0 <= k < |outs| ==> FlagsBack(orig, ps[k], iphLen, outs[k])) <==> !PushOvertaken(orig, ps, iphLen)
  {
    hide FlagsBack, PushOvertaken;
    assert FlagsAs(orig, ps, |ps| - 1, iphLen, outs[|ps| - 1]);
  }

  /** The version in the header in front is that of the flow. */
  lemma HostVersion(orig: seq<Buf>, ps: seq<nat>, host: seq<Byte>, key: FlowKey, thLen: nat)
    requires Alike(orig, ps, host, key, thLen)
    ensures |host| > 0 && (host[0] / 16 == 6 <==> key.isV6)
  {
  }

  /** Different numbers below `n` are at most `n` many. */
  lemma {:induction false} AtMost(ps: seq<nat>, n: nat)
    requires NoDuplicates(ps) && Early(ps, n)
    ensures |ps| <= n
    decreases n
  {
    if ps != [] {
      assert ps[0] < n;
      if n - 1 in ps {
        var i :| 0 <= i < |ps| && ps[i] == n - 1;
        var rest := ps[..i] + ps[i + 1..];
        assert forall k :: 0 <= k < |rest| ==> rest[k] == ps[if k < i then k else k + 1];
        AtMost(rest, n - 1);
      } else {
        forall k | 0 <= k < |ps| ensures ps[k] < n - 1 {
          assert ps[k] in ps;
        }
        AtMost(ps, n - 1);
      }
    }
  }

  lemma PartsFew(l: Ledger, w: nat)
    requires Sound(l) && w in l.parts
    ensures |l.parts[w]| <= l.n && w < |l.bufs|
  {
    assert AtHome(l, w);
    AtMost(l.parts[w], l.n);
  }

  /** Packet `p` is among what has been read. */
  ghost predicate CameBack(l: Ledger, toWrite: seq<nat>, outs: seq<seq<seq<Byte>>>, p: nat) {
    exists i, k :: 0 <= i < |toWrite| == |outs| && toWrite[i] in l.parts && 0 <= k < |outs[i]| == |l.parts[toWrite[i]]| &&
                   l.parts[toWrite[i]][k] == p && BackAs(l, toWrite[i], k, outs[i][k])
  }

  /** Every packet looked at comes back, unless its item was dropped. */
  lemma AllCameBack(l: Ledger, toWrite: seq<nat>, outs: seq<seq<seq<Byte>>>, dropped: set<nat>, p: nat)
    requires Sound(l) && Lists(toWrite, l) && |outs| == |toWrite| && p < l.n
    requires forall i :: 0 <= i < |toWrite| && toWrite[i] !in dropped ==> AllBackAs(l, toWrite[i], outs[i])
    ensures p in l.home && (l.home[p] in dropped || CameBack(l, toWrite, outs, p))
  {
    hide Carries, BackAs;
    var w := l.home[p];
    if w !in dropped {
      assert w in toWrite;
      var i :| 0 <= i < |toWrite| && toWrite[i] == w;
      var k :| 0 <= k < |l.parts[w]| && l.parts[w][k] == p;
      assert AllBackAs(l, toWrite[i], outs[i]);
      assert BackAs(l, toWrite[i], k, outs[i][k]);
    }
  }

  class Batch {
    var bufs: seq<Buf>
    var tcpTable: Table
    var udpTable: Table
    var toWrite: seq<nat>
    var vhdrs: map<nat, Vhdr>
    const offset: nat
    const little: bool
    ghost var l: Ledger
    ghost var arrivals: map<FlowKey, seq<nat>>
    ghost var dropped: set<nat>  // buffers whose item was dropped for a wrong checksum
    ghost var seen: seq<Moment>  // what each packet has found

    ghost predicate Tables()
      reads this
    {
      l.bufs == bufs && |l.orig| == |bufs| && Capped(bufs) && Between(l, tcpTable, udpTable, arrivals, vhdrs, dropped)
    }

    /** What the two merging methods and their caller know of the packet and the item. */
    ghost predicate Matching(n: nat, c: Candidate, key: FlowKey, item: Item)
      reads this
    {
      && l.bufs == bufs && n == l.n < |l.orig| == |bufs| && bufs[l.n] == l.orig[l.n] && Sound(l) && Capped(bufs)
      && ItemOk(l, key, item) && Describes(c, bufs[n].data) && c.Candidate? && c.key == key
      && item.idx < |bufs| && item.idx in l.parts && item.gso > 0
      && item.iphLen == IphLen(key.isV6) && c.thLen == item.thLen && (if key.isTcp then 20 <= item.thLen else item.thLen == 8)
      && item.iphLen + item.thLen <= |bufs[item.idx].data| && item.iphLen + item.thLen <= |bufs[n].data|
    }

    /** The packet has been merged into the buffer of `item`, now described by `item'`. */
    ghost predicate Merged(l0: Ledger, key: FlowKey, item: Item, item': Item)
      reads this
    {
      l.bufs == bufs && Capped(bufs) && MergedInto(l0, l, key, item, item')
    }

    method MergeFront(n: nat, c: Candidate, key: FlowKey, item: Item) returns (item': Item)
      requires Matching(n, c, key, item) && key.isTcp
      requires TcpCanCoalesce(bufs[n].data, c, item, bufs[item.idx].data) == Prepend
      requires |bufs[item.idx].data| + |bufs[n].data| - (item.iphLen + item.thLen) <= bufs[n].cap
      modifies this`bufs, this`l
      ensures Merged(old(l), key, item, item')
      ensures l.parts == old(l.parts)[item.idx := [n] + old(l.parts)[item.idx]]
      ensures item'.psh == item.psh && item.iphLen + 13 < |bufs[item.idx].data| && bufs[item.idx].data[item.iphLen + 13] == Flags(false)
    {
      hide Sound, ItemOk, Capped, OthersSame, Describes, TcpCanCoalesce, Carries;
      var pkt, target := bufs[n].data, bufs[item.idx].data;
      var h := item.iphLen + item.thLen;
      item' := item.(merged := item.merged + 1, seqNo := c.seqNo, gso := c.gso);
      var b := Buf(pkt + target[h..], bufs[n].cap);
      CappedAt(bufs, n);
      PrependTcp(l, key, item, c, item', b);
      PrependHeader(l, key, item, c, b);
      CappedSwap(bufs, item.idx, n, b);
      bufs := bufs[item.idx := b][n := bufs[item.idx]];
      l := Prepended(l, item.idx, b);
    }

    method MergeBack(n: nat, c: Candidate, key: FlowKey, item: Item) returns (item': Item)
      requires Matching(n, c, key, item)
      requires (if key.isTcp then TcpCanCoalesce(bufs[n].data, c, item, bufs[item.idx].data)
                else UdpCanCoalesce(bufs[n].data, c, item, bufs[item.idx].data)) == Append
      requires |bufs[item.idx].data| + |bufs[n].data| - (item.iphLen + item.thLen) <= bufs[item.idx].cap
      modifies this`bufs, this`l
      ensures Merged(old(l), key, item, item')
      ensures l.parts == old(l.parts)[item.idx := old(l.parts)[item.idx] + [n]]
    {
      hide Sound, ItemOk, Capped, OthersSame, Describes, TcpCanCoalesce, UdpCanCoalesce, Carries, SetPsh;
      var pkt: seq<Byte>, target: seq<Byte> := bufs[n].data, bufs[item.idx].data;
      var h := item.iphLen + item.thLen;
      item' := item.(merged := item.merged + 1);
      if key.isTcp && c.psh {
        item' := item'.(psh := true);
        target := target[item.iphLen + 13 := SetPsh(target[item.iphLen + 13])];
      }
      var tail: seq<Byte> := pkt[h..];
      var b := Buf(target + tail, bufs[item.idx].cap);
      CappedAt(bufs, item.idx);
      assert b.data[h..] == target[h..] + tail;
      AppendMode(l, key, item, c);
      if !key.isTcp { DescribesUdp(c, pkt); }
      AppendItem(l, key, item, c, item', b);
      bufs := bufs[item.idx := b];
      l := Appended(l, item.idx, b);
    }

    /** Try to merge the next packet into `item`. */
    method CoalesceTcp(mode: Mode, n: nat, c: Candidate, key: FlowKey, item: Item) returns (r: Outcome, item': Item)
      requires Matching(n, c, key, item) && key.isTcp
      requires mode == TcpCanCoalesce(bufs[n].data, c, item, bufs[item.idx].data) != Unavailable
      modifies this`bufs, this`l
      ensures r != Success ==> bufs == old(bufs) && l == old(l)
      ensures r == Success ==> Merged(old(l), key, item, item') && l.parts == GrownParts(old(l), c, item)
      ensures r == Success <==> Mergeable(old(l), c, item, offset)
      ensures r == PktInvalidCsum ==> !SumOk(old(bufs)[n].data, key)
      ensures r == ItemInvalidCsum <==> Spoilt(old(l), c, item, offset)
      ensures r in {Success, PktInvalidCsum} <==> Stops(old(l), c, item, offset)
    {
      hide Sound, ItemOk, Capped, OthersSame, Describes, TcpCanCoalesce, Merged, TransportValid, Continuing, Preceding;
      item' := item;
      TcpModeMeans(l, key, item, c);
      var coalescedLen := |bufs[item.idx].data| + |bufs[n].data| - (item.iphLen + item.thLen);
      if mode == Prepend {
        if bufs[n].cap - offset < coalescedLen { return InsufficientCap, item; }
        if c.psh { return PshEnding, item; }
      } else {
        if bufs[item.idx].cap - offset < coalescedLen { return InsufficientCap, item; }
      }
      if item.merged == 0 {
        var ok := ChecksumValid(bufs[item.idx].data, item.iphLen, TCP, key.isV6, little);
        if !ok { return ItemInvalidCsum, item; }
      }
      var ok := ChecksumValid(bufs[n].data, item.iphLen, TCP, key.isV6, little);
      if !ok { return PktInvalidCsum, item; }
      if mode == Prepend {
        item' := MergeFront(n, c, key, item);
      } else {
        item' := MergeBack(n, c, key, item);
      }
      r := Success;
    }

    ghost predicate Next(n: nat)
      reads this
    {
      Tables() && PlainOnly(l, vhdrs) && n == l.n < |bufs| && bufs[n] == l.orig[n]
    }

    /** Packet `n` has been dealt with: it has a buffer of its own, or shares one, as `res` says. */
    ghost predicate Done(l0: Ledger, n: nat, res: GroResult)
      reads this
    {
      && Tables() && PlainOnly(l, vhdrs) && l.orig == l0.orig && l0.n == n
      && match res
         case Noop => l == l0
         case TableInsert => l.n == n + 1 && l.parts.Keys == l0.parts.Keys + {n} && bufs == l0.bufs
         case Coalesced => l.n == n + 1 && l.parts.Keys == l0.parts.Keys
    }

    method InsertTcp(n: nat, c: Candidate)
      requires Next(n) && c.Candidate? && Describes(c, bufs[n].data) && c.key.isTcp
      modifies this`tcpTable, this`l
      ensures Done(old(l), n, TableInsert) && l == Alone(old(l), IphLen(c.key.isV6) + c.thLen, c.key)
      ensures tcpTable == old(tcpTable)[c.key := (if c.key in old(tcpTable) then old(tcpTable)[c.key] else []) + [NewItemOf(n, c, false)]]
    {
      hide Between, Capped, Describes, PlainOnly;
      var iphLen, item := IphLen(c.key.isV6), NewItemOf(n, c, false);
      var items := if c.key in tcpTable then tcpTable[c.key] else [];
      InsertedTcp(l, c, tcpTable, udpTable, arrivals, vhdrs, dropped, items, item);
      tcpTable := tcpTable[c.key := items + [item]];
      l := Alone(l, iphLen + c.thLen, c.key);
    }

    /** Try to merge packet `n` into item `i` of its flow; an item whose checksum turns out wrong is dropped. */
    method TryItem(n: nat, c: Candidate, i: nat) returns (r: Outcome)
      requires Next(n) && c.Candidate? && Describes(c, bufs[n].data) && c.key.isTcp && c.key in tcpTable && i < |tcpTable[c.key]|
      modifies this`bufs, this`l, this`tcpTable, this`dropped
      ensures r == Success <==> Mergeable(old(l), c, old(tcpTable)[c.key][i], offset)
      ensures var item := old(tcpTable)[c.key][i];
        dropped == old(dropped) + if Spoilt(old(l), c, item, offset) then {item.idx} else {}
      ensures if r == Success then Done(old(l), n, Coalesced) else Next(n) && l == old(l) && bufs == old(bufs)
      ensures r == PktInvalidCsum ==> !SumOk(bufs[n].data, c.key)
      ensures r in {Success, PktInvalidCsum} <==> Stops(old(l), c, old(tcpTable)[c.key][i], offset)
      ensures var items := old(tcpTable)[c.key];
        && (r == Success ==> items[i].idx in old(l.parts) && l.parts == GrownParts(old(l), c, items[i]))
        && (r == Success ==> ClearedTo(old(tcpTable), tcpTable, c.key, items, i + 1))
        && (r != Success ==>
              tcpTable == old(tcpTable)[c.key := if Spoilt(old(l), c, items[i], offset) then items[..i] + items[i + 1..] else items])
    {
      hide Sound, ItemOk, Capped, Describes, OrderKept, TableOk, TcpCanCoalesce, Mergeable, SumOk, Spoilt, Stops, Whole, PlainOnly, MergedInto, Continuing, Preceding;
      var item := tcpTable[c.key][i];
      TableItem(l, tcpTable, true, c.key, i);
      ItemTag(l, c.key, item);
      DescribesSize(c, bufs[n].data);
      var can := TcpCanCoalesce(bufs[n].data, c, item, bufs[item.idx].data);
      if can == Unavailable {
        TcpModeIff(l, c.key, item, c);
        GoesNot(l, c, item, offset);
        return InsufficientCap;
      }
      SameHeader(bufs[n].data, c, item, bufs[item.idx].data);
      ghost var l0 := l;
      var item';
      r, item' := CoalesceTcp(can, n, c, c.key, item);
      if r == Success {
        UpdateAt(l0, c.key, i, item');
      } else if r == ItemInvalidCsum {
        SpoiltSum(l, c, item, offset);
        DeleteAt(c.key, i);
      }
    }

    /** Search the items of the flow of packet `n` from the end for one that it goes with. */
    method SearchItems(n: nat, c: Candidate) returns (found: bool, res: GroResult)
      requires Next(n) && c.Candidate? && Describes(c, bufs[n].data) && c.key.isTcp && c.key in tcpTable && IphLen(c.key.isV6) <= |bufs[n].data|
      modifies this`bufs, this`l, this`tcpTable, this`dropped
      ensures if found then Done(old(l), n, res) else Next(n) && l == old(l)
      ensures !(found && res == Coalesced) ==> bufs == old(bufs)
      ensures forall w :: w in dropped <==> w in old(dropped) || Meets(old(l), old(tcpTable), c, offset, w)
      ensures var items := old(tcpTable)[c.key];
        var k := Reached(old(l), c, items, offset);
        && (found <==> k > 0) && (found ==> res == if SumOk(old(bufs)[n].data, c.key) then Coalesced else Noop)
        && (found && res == Coalesced ==> items[k - 1].idx in old(l.parts) && l.parts == GrownParts(old(l), c, items[k - 1]))
        && ClearedTo(old(tcpTable), tcpTable, c.key, Cleared(old(l), c, items, offset, k), if found && res == Coalesced then k else 0)
    {
      hide Between, Capped, PlainOnly, Describes, Mergeable, SumOk, Spoilt, Stops, Met, Meets, Cleared, Continuing, Reached;
      var items := tcpTable[c.key];
      ghost var l0, table0 := l, tcpTable;
      var i := |items|;
      MetNone(l, items, c, offset);
      ClearedNone(l, c, items, offset);
      while i > 0
        invariant 0 <= i <= |items| && Next(n) && l == old(l) && bufs == old(bufs)
        invariant tcpTable == table0[c.key := Cleared(l0, c, items, offset, i)]
        invariant forall j :: i <= j < |items| ==> !Stops(l0, c, items[j], offset)
        invariant forall w :: w in dropped <==> w in old(dropped) || Met(l0, items, c, offset, i, w)
      {
        i := i - 1;
        ClearedNext(l0, c, items, offset, i);
        MetNext(l0, items, c, offset, i);
        var r := TryItem(n, c, i);
        if r in {Success, PktInvalidCsum} {
          StopNotSpoilt(l0, c, items[i], offset);
          StopsMergeable(l0, c, items[i], offset);
          MetAll(l0, table0, c, offset, i);
          ReachedAt(l0, c, items, offset, i + 1);
          return true, if r == Success then Coalesced else Noop;
        }
      }
      MetAll(l0, table0, c, offset, 0);
      ReachedAt(l0, c, items, offset, 0);
      return false, Noop;
    }

    /**
     A TCP candidate is merged if the search ends at an item and its checksum is right, left as it is if it is wrong, and
     becomes a new item if the search does not end; items found spoilt on the way are dropped.
     */
    method TcpGro(n: nat, isV6: bool) returns (res: GroResult)
      requires Next(n) && Headed(bufs[n].data, true, isV6)
      modifies this
      ensures Done(old(l), n, res) && toWrite == old(toWrite) && arrivals == old(arrivals) && seen == old(seen)
      ensures res != Coalesced ==> bufs == old(bufs)
      ensures var c := ParseTcp(old(bufs)[n].data, isV6);
        res == Coalesced <==> c.Candidate? && c.key in old(tcpTable) &&
                              exists i :: 0 <= i < |old(tcpTable)[c.key]| && Mergeable(old(l), c, old(tcpTable)[c.key][i], offset)
      ensures var c := ParseTcp(old(bufs)[n].data, isV6);
        forall w :: w in dropped <==> w in old(dropped) || Meets(old(l), old(tcpTable), c, offset, w)
      ensures Follows(Moment(old(l), old(tcpTable)), Moment(l, tcpTable), ParseTcp(old(bufs)[n].data, isV6))
      ensures var c := ParseTcp(old(bufs)[n].data, isV6);
        if c.NoCandidate? then res == Noop && tcpTable == old(tcpTable)
        else
          var items := if c.key in old(tcpTable) then old(tcpTable)[c.key] else [];
          var k := Reached(old(l), c, items, offset);
          var left := Cleared(old(l), c, items, offset, k);
          if k == 0 then res == TableInsert && tcpTable == old(tcpTable)[c.key := left + [NewItemOf(n, c, false)]]
          else if Mergeable(old(l), c, items[k - 1], offset) then
            && res == Coalesced && items[k - 1].idx in old(l.parts) && l.parts == GrownParts(old(l), c, items[k - 1])
            && ClearedTo(old(tcpTable), tcpTable, c.key, left, k)
          else res == Noop && ClearedTo(old(tcpTable), tcpTable, c.key, left, 0)
    {
      hide Between, Capped, PlainOnly, Describes, ParseTcp, Mergeable, Meets, Stops, SumOk, Cleared, GrownParts;
      var c := ParseTcp(bufs[n].data, isV6);
      ParseTcpIff(bufs[n].data, isV6, c);
      if c.NoCandidate? || c.key !in tcpTable {
        MeetsNone(l, tcpTable, c, offset);
      }
      if c.NoCandidate? {
        return Noop;
      }
      DescribesSize(c, bufs[n].data);
      if c.key !in tcpTable {
        ClearedNone(l, c, [], offset);
        InsertTcp(n, c);
        assert [] + [NewItemOf(n, c, false)] == [NewItemOf(n, c, false)];
        return TableInsert;
      }
      MergeableReached(l, c, tcpTable[c.key], offset);
      var found;
      found, res := SearchItems(n, c);
      if !found {
        InsertTcp(n, c);
        res := TableInsert;
      }
    }

    method UpdateAt(ghost l0: Ledger, key: FlowKey, i: nat, item': Item)
      requires Between(l0, tcpTable, udpTable, arrivals, vhdrs, dropped) && PlainOnly(l0, vhdrs) && |l0.orig| == |l0.bufs|
      requires key.isTcp && key in tcpTable && i < |tcpTable[key]| && Merged(l0, key, tcpTable[key][i], item')
      modifies this`tcpTable
      ensures Done(l0, l0.n, Coalesced) && tcpTable == old(tcpTable)[key := old(tcpTable)[key][i := item']]
    {
      hide Between, Capped, PlainOnly, Sound, OthersSame, ItemOk;
      MergedTcp(l0, l, tcpTable, udpTable, arrivals, vhdrs, dropped, key, i, item');
      tcpTable := tcpTable[key := tcpTable[key][i := item']];
    }

    method DeleteAt(key: FlowKey, i: nat)
      requires Tables() && PlainOnly(l, vhdrs) && key.isTcp && key in tcpTable && i < |tcpTable[key]|
      requires var item := tcpTable[key][i]; item.merged == 0 && item.idx < |bufs| && BadSum(bufs[item.idx].data, key)
      modifies this`tcpTable, this`dropped
      ensures Tables() && dropped == old(dropped) + {old(tcpTable)[key][i].idx}
      ensures tcpTable == old(tcpTable)[key := old(tcpTable)[key][..i] + old(tcpTable)[key][i + 1..]]
    {
      hide Between, Capped, PlainOnly, BadSum;
      DroppedTcp(l, tcpTable, udpTable, arrivals, vhdrs, dropped, key, i);
      dropped := dropped + {tcpTable[key][i].idx};
      tcpTable := tcpTable[key := tcpTable[key][..i] + tcpTable[key][i + 1..]];
    }

    method InsertUdp(n: nat, c: Candidate, badCsum: bool)
      requires Next(n) && c.Candidate? && Describes(c, bufs[n].data) && !c.key.isTcp
      modifies this`udpTable, this`l, this`arrivals
      ensures Done(old(l), n, TableInsert)
      ensures arrivals == old(arrivals)[c.key := ArrivedOf(old(arrivals), c.key) + [n]]
      ensures udpTable == old(udpTable)[c.key := (if c.key in old(udpTable) then old(udpTable)[c.key] else []) + [NewItemOf(n, c, badCsum)]]
    {
      hide Between, Capped, Describes, PlainOnly;
      var iphLen, item := IphLen(c.key.isV6), NewItemOf(n, c, badCsum);
      var items := if c.key in udpTable then udpTable[c.key] else [];
      InsertedUdp(l, c, tcpTable, udpTable, arrivals, vhdrs, dropped, items, item);
      arrivals := arrivals[c.key := ArrivedOf(arrivals, c.key) + [n]];
      udpTable := udpTable[c.key := items + [item]];
      l := Alone(l, iphLen + c.thLen, c.key);
    }

    method CoalesceUdp(n: nat, c: Candidate, key: FlowKey, item: Item) returns (r: Outcome, item': Item)
      requires Matching(n, c, key, item) && !key.isTcp
      requires UdpCanCoalesce(bufs[n].data, c, item, bufs[item.idx].data) == Append
      modifies this`bufs, this`l
      ensures r != Success ==> bufs == old(bufs) && l == old(l)
      ensures r == Success ==> Merged(old(l), key, item, item') && l.parts == old(l.parts)[item.idx := old(l.parts)[item.idx] + [n]]
      ensures r == Success <==> Mergeable(old(l), c, item, offset)
      ensures r in {Success, PktInvalidCsum} <==> UdpStops(old(l), c, item, offset)
    {
      hide Sound, ItemOk, Capped, OthersSame, Describes, UdpCanCoalesce, Merged, TransportValid, Continuing, Preceding;
      item' := item;
      UdpModeIff(l, key, item, c);
      var coalescedLen := |bufs[item.idx].data| + |bufs[n].data| - (item.iphLen + item.thLen);
      if bufs[item.idx].cap - offset < coalescedLen { return InsufficientCap, item; }
      if item.merged == 0 {
        var ok := ChecksumValid(bufs[item.idx].data, item.iphLen, UDP, key.isV6, little);
        if item.badCsum || !ok { return ItemInvalidCsum, item; }
      }
      var ok := ChecksumValid(bufs[n].data, item.iphLen, UDP, key.isV6, little);
      if !ok { return PktInvalidCsum, item; }
      item' := MergeBack(n, c, key, item);
      r := Success;
    }

    method UpdateLast(ghost l0: Ledger, key: FlowKey, item': Item)
      requires Between(l0, tcpTable, udpTable, arrivals, vhdrs, dropped) && PlainOnly(l0, vhdrs) && |l0.orig| == |l0.bufs|
      requires !key.isTcp && key in udpTable && udpTable[key] != []
      requires var last := udpTable[key][|udpTable[key]| - 1];
        Merged(l0, key, last, item') && last.idx in l0.parts && l.parts == l0.parts[last.idx := l0.parts[last.idx] + [l0.n]]
      modifies this`udpTable, this`arrivals
      ensures Done(l0, l0.n, Coalesced) && arrivals == old(arrivals)[key := ArrivedOf(old(arrivals), key) + [l0.n]]
      ensures udpTable == old(udpTable)[key := old(udpTable)[key][|old(udpTable)[key]| - 1 := item']]
    {
      hide Between, Capped, PlainOnly, Sound, OthersSame, ItemOk;
      MergedUdp(l0, l, tcpTable, udpTable, arrivals, vhdrs, dropped, key, item');
      var items := udpTable[key];
      arrivals := arrivals[key := ArrivedOf(arrivals, key) + [l0.n]];
      udpTable := udpTable[key := items[|items| - 1 := item']];
    }

    method UdpGro(n: nat, isV6: bool) returns (res: GroResult)
      requires Next(n) && Headed(bufs[n].data, false, isV6)
      modifies this
      ensures Done(old(l), n, res) && toWrite == old(toWrite) && dropped == old(dropped) && (res != Coalesced ==> bufs == old(bufs))
      ensures tcpTable == old(tcpTable) && seen == old(seen)
      ensures var c := ParseUdp(old(bufs)[n].data, isV6);
        if c.NoCandidate? then res == Noop && arrivals == old(arrivals)
        else res != Noop && arrivals == old(arrivals)[c.key := ArrivedOf(old(arrivals), c.key) + [n]]
      ensures var c := ParseUdp(old(bufs)[n].data, isV6);
        res == Coalesced <==> c.Candidate? && c.key in old(udpTable) && old(udpTable)[c.key] != [] &&
                              Mergeable(old(l), c, old(udpTable)[c.key][|old(udpTable)[c.key]| - 1], offset)
      ensures var c := ParseUdp(old(bufs)[n].data, isV6);
        if c.NoCandidate? then udpTable == old(udpTable)
        else
          var items := if c.key in old(udpTable) then old(udpTable)[c.key] else [];
          if res == Coalesced then
            && items != [] && items[|items| - 1].idx in old(l.parts) && ClearedTo(old(udpTable), udpTable, c.key, items, |items|)
            && l.parts == old(l.parts)[items[|items| - 1].idx := old(l.parts)[items[|items| - 1].idx] + [n]]
          else
            udpTable == old(udpTable)[c.key := items + [NewItemOf(n, c, items != [] && UdpStops(old(l), c, items[|items| - 1], offset))]]
    {
      hide Sound, ItemOk, Capped, OthersSame, Describes, FlowOk, TableOk, OrderKept, ParseUdp, UdpCanCoalesce, Mergeable, SumOk, Whole, PlainOnly, MergedInto, UdpStops, Continuing, Preceding;
      var c := ParseUdp(bufs[n].data, isV6);
      ParseUdpIff(bufs[n].data, isV6, c);
      if c.NoCandidate? {
        return Noop;
      }
      OrderAt(l, udpTable, arrivals, c.key);
      if c.key !in udpTable {
        InsertUdp(n, c, false);
        return TableInsert;
      }
      var items := udpTable[c.key];
      var item := items[|items| - 1];
      TableItem(l, udpTable, false, c.key, |items| - 1);
      ItemTag(l, c.key, item);
      DescribesSize(c, bufs[n].data);
      var can := UdpCanCoalesce(bufs[n].data, c, item, bufs[item.idx].data);
      var pktBad := false;
      if can == Append {
        var r, item' := CoalesceUdp(n, c, c.key, item);
        if r == Success {
          UpdateLast(old(l), c.key, item');
          return Coalesced;
        }
        pktBad := r == PktInvalidCsum;
      } else {
        UdpModeIff(l, c.key, item, c);
        GoesNot(l, c, item, offset);
      }
      InsertUdp(n, c, pktBad);
      return TableInsert;
    }

    /** No packet has been looked at. */
    ghost predicate Untouched()
      reads this
    {
      && Tables() && PlainOnly(l, vhdrs) && l == Nothing(bufs) && toWrite == [] && Lists(toWrite, l) && arrivals == map[]
      && tcpTable == map[] && udpTable == map[] && dropped == {} && seen == []
    }

    constructor (input: seq<Buf>, offset: nat, little: bool)
      requires Capped(input)
      ensures Untouched() && bufs == input && this.offset == offset && this.little == little
    {
      bufs, tcpTable, udpTable, toWrite, vhdrs := input, map[], map[], [], map[];
      this.offset, this.little := offset, little;
      l := Nothing(input);
      arrivals := map[];
      dropped, seen := {}, [];
    }

    /** Packet `n` is no candidate: it is written as it is. */
    method WriteAsIs(n: nat)
      requires Next(n)
      modifies this`l, this`vhdrs
      ensures Tables() && PlainOnly(l, vhdrs) && l.orig == old(l.orig) && l.n == n + 1 && l.parts.Keys == old(l.parts.Keys) + {n}
    {
      hide Between, Capped, PlainOnly;
      LeftAsIs(l, tcpTable, udpTable, arrivals, vhdrs, dropped);
      l := Alone(l, 0, NO_FLOW);
      vhdrs := vhdrs[n := Plain];
    }

    /** Look at every packet in turn. */
    method Evaluate(canUdp: bool) returns (ok: bool)
      requires Untouched()
      modifies this
      ensures Tables() && l.orig == old(l.orig) && Lists(toWrite, l)
      ensures ok <==> Writable(old(bufs), offset)
      ensures ok ==> l.n == |l.orig|
      ensures arrivals == UdpArrivals(l.orig, canUdp, l.n)
      ensures |seen| == l.n && Recorded(l.orig, seen + [Moment(l, tcpTable)], dropped, canUdp, offset)
    {
      hide Sound, ItemOk, Capped, OthersSame, OrderKept, FlowOk, TableOk, PacketKind, ParseUdp, Lists, Whole, PlainOnly, Recorded, Follows, Meets, TcpCandidate;
      RecordedStart(bufs, canUdp, offset);
      assert [] + [Moment(l, tcpTable)] == [Moment(Nothing(bufs), map[])];
      var i := 0;
      while i < |bufs|
        invariant 0 <= i <= |bufs| == |old(bufs)| && Tables() && PlainOnly(l, vhdrs) && l.n == i && l.orig == old(l.orig) && Lists(toWrite, l)
        invariant arrivals == UdpArrivals(l.orig, canUdp, i)
        invariant |seen| == i && Recorded(l.orig, seen + [Moment(l, tcpTable)], dropped, canUdp, offset)
        invariant forall j :: 0 <= j < i ==> offset >= 10 && |old(bufs)[j].data| > 0
      {
        StillOriginal(l);
        if offset < 10 || |bufs[i].data| == 0 {
          return false;
        }
        ghost var before, dropped0 := seen + [Moment(l, tcpTable)], dropped;
        Process(i, canUdp);
        RecordedNext(l.orig, before, Moment(l, tcpTable), dropped0, dropped, canUdp, offset);
        i := i + 1;
      }
      ok := true;
    }

    /** Deal with packet `n` and list its buffer for writing unless it was merged into another. */
    method Process(n: nat, canUdp: bool)
      requires Next(n) && Lists(toWrite, l) && arrivals == UdpArrivals(l.orig, canUdp, n)
      modifies this
      ensures Tables() && PlainOnly(l, vhdrs) && l.orig == old(l.orig) && |bufs| == |old(bufs)| && Lists(toWrite, l) && l.n == n + 1
      ensures arrivals == UdpArrivals(l.orig, canUdp, n + 1)
      ensures var m, c := Moment(old(l), old(tcpTable)), TcpCandidate(old(bufs)[n].data, canUdp);
        && seen == old(seen) + [m] && Follows(m, Moment(l, tcpTable), c)
        && forall w :: w in dropped <==> w in old(dropped) || Meets(m.l, m.tcpTable, c, offset, w)
    {
      hide Sound, ItemOk, Capped, OthersSame, OrderKept, FlowOk, TableOk, PacketKind, ParseUdp, Lists, Whole, PlainOnly, Follows, Meets, TcpCandidate;
      ghost var l0, m := l, Moment(l, tcpTable);
      var result := Dispatch(n, canUdp);
      if result == Noop {
        ghost var m' := Moment(l, tcpTable);
        WriteAsIs(n);
        FollowsStill(m, m', l, TcpCandidate(m.l.orig[n].data, canUdp));
      }
      ListsNext(toWrite, l0, l);
      if result != Coalesced {
        toWrite := toWrite + [n];
      }
      seen := seen + [m];
    }

    method Dispatch(n: nat, canUdp: bool) returns (result: GroResult)
      requires Next(n) && arrivals == UdpArrivals(l.orig, canUdp, n)
      modifies this
      ensures Done(old(l), n, result) && |bufs| == |old(bufs)| && toWrite == old(toWrite)
      ensures result == Noop ==> bufs == old(bufs)
      ensures arrivals == UdpArrivals(l.orig, canUdp, n + 1)
      ensures var m, c := Moment(old(l), old(tcpTable)), TcpCandidate(old(bufs)[n].data, canUdp);
        && seen == old(seen) && Follows(m, Moment(l, tcpTable), c)
        && forall w :: w in dropped <==> w in old(dropped) || Meets(m.l, m.tcpTable, c, offset, w)
    {
      hide Sound, ItemOk, Capped, OthersSame, OrderKept, FlowOk, TableOk, PacketKind, ParseUdp, ParseTcp, Whole, PlainOnly;
      result := Noop;
      match PacketKind(bufs[n].data, canUdp) {
        case NotCandidate =>
        case Tcp4 => result := TcpGro(n, false);
        case Tcp6 => result := TcpGro(n, true);
        case Udp4 => result := UdpGro(n, false);
        case Udp6 => result := UdpGro(n, true);
      }
    }

    ghost predicate Final()
      reads this
    {
      Tables() && l.n == |bufs|
    }

    /** Bring the headers of item `i` of a flow up to date. */
    method AccountItem(key: FlowKey, item: Item, ghost i: nat)
      requires Final()
      requires var table := if key.isTcp then tcpTable else udpTable; key in table && i < |table[key]| && table[key][i] == item
      modifies this`bufs, this`l, this`vhdrs
      ensures Final() && l == old(l).(bufs := bufs) && |bufs| == |old(bufs)| && item.idx < |bufs|
      ensures Accounted(bufs, vhdrs, key, item)
      ensures forall j :: 0 <= j < |bufs| && j != item.idx ==> bufs[j] == old(bufs)[j]
      ensures vhdrs == old(vhdrs)[item.idx := vhdrs[item.idx]]
    {
      hide Sound, ItemOk, Capped, OrderKept, TableOk, HeadersRight, Kept, Whole;
      ghost var table := TableOf(tcpTable, udpTable, key);
      TableItem(l, table, key.isTcp, key, i);
      ItemTag(l, key, item);
      var b, vhdr := bufs[item.idx], Plain;
      KeptSelf(b.data, key);
      if item.merged > 0 {
        var data := FixHeaders(b.data, key, item, little);
        b, vhdr := b.(data := data), Offload(OffloadHdr(key, item));
      }
      CappedAt(bufs, item.idx);
      AccountedFor(l, tcpTable, udpTable, arrivals, vhdrs, dropped, key, i, b, vhdr);
      bufs := bufs[item.idx := b];
      l := l.(bufs := bufs);
      vhdrs := vhdrs[item.idx := vhdr];
      hide Between;
    }

    /** Bring the headers of every item of a flow up to date. */
    method AccountFlow(key: FlowKey)
      requires Final()
      requires key in if key.isTcp then tcpTable else udpTable
      modifies this`bufs, this`l, this`vhdrs
      ensures Final() && l == old(l).(bufs := bufs) && |bufs| == |old(bufs)|
      ensures var items := (if key.isTcp then tcpTable else udpTable)[key]; forall i :: 0 <= i < |items| ==> Accounted(bufs, vhdrs, key, items[i])
      ensures forall j :: j in l.tag && l.tag[j] != key ==>
                            && (0 <= j < |bufs| ==> bufs[j] == old(bufs)[j])
                            && (j in old(vhdrs) ==> j in vhdrs && vhdrs[j] == old(vhdrs)[j])
    {
      hide Sound, ItemOk, Capped, OrderKept, TableOk, HeadersRight, Whole;
      var items := (if key.isTcp then tcpTable else udpTable)[key];
      for i := 0 to |items|
        invariant Final() && l == old(l).(bufs := bufs) && |bufs| == |old(bufs)|
        invariant forall k :: 0 <= k < i ==> Accounted(bufs, vhdrs, key, items[k])
        invariant forall j :: j in l.tag && l.tag[j] != key ==>
                                && (0 <= j < |bufs| ==> bufs[j] == old(bufs)[j])
                                && (j in old(vhdrs) ==> j in vhdrs && vhdrs[j] == old(vhdrs)[j])
      {
        TableDistinct(l, if key.isTcp then tcpTable else udpTable, key.isTcp, key, i);
        AccountItem(key, items[i], i);
      }
    }

    ghost predicate AllAccounted()
      reads this
    {
      forall key: FlowKey :: FlowAccounted(if key.isTcp then tcpTable else udpTable, bufs, vhdrs, key)
    }

    /** Bring the headers of all flows up to date. */
    method Account()
      requires Final()
      modifies this`bufs, this`l, this`vhdrs
      ensures Final() && l == old(l).(bufs := bufs)
      ensures AllAccounted()
    {
      hide Sound, ItemOk, Capped, OrderKept, TableOk, Accounted, Whole;
      var todo := TableKeys();
      while todo != {}
        invariant Final() && l == old(l).(bufs := bufs) && |bufs| == |old(bufs)|
        invariant forall key :: key in todo ==> key in if key.isTcp then tcpTable else udpTable
        invariant forall key: FlowKey :: key !in todo ==> FlowAccounted(if key.isTcp then tcpTable else udpTable, bufs, vhdrs, key)
        decreases |todo|
      {
        var key :| key in todo;
        ghost var bufs0, vhdrs0 := bufs, vhdrs;
        AccountFlow(key);
        forall other: FlowKey | other !in todo ensures FlowAccounted(if other.isTcp then tcpTable else udpTable, bufs, vhdrs, other) {
          FlowKept(l, if other.isTcp then tcpTable else udpTable, bufs0, bufs, vhdrs0, vhdrs, key, other);
        }
        todo := todo - {key};
      }
    }

    method TableKeys() returns (keys: set<FlowKey>)
      requires TableOk(l, tcpTable, true) && TableOk(l, udpTable, false)
      ensures forall key :: key in keys <==> key in if key.isTcp then tcpTable else udpTable
    {
      keys := tcpTable.Keys + udpTable.Keys;
    }

    /**
     Coalesce a batch.  Every packet ends up, once, in exactly one of the buffers listed for writing,
     which carry their packets' payloads in order; the datagrams of a UDP flow are written in the order of arrival.
     */
    method HandleGro(canUdp: bool) returns (ok: bool)
      requires Untouched()
      modifies this
      ensures Tables() && l.orig == old(l.orig) && Lists(toWrite, l)
      ensures ok <==> Writable(old(bufs), offset)
      ensures InOrder(l, toWrite, UdpArrivals(l.orig, canUdp, l.n))
      ensures |seen| == l.n && (dropped == {} <==> forall i, w :: 0 <= i < |seen| ==> !MeetsAt(seen, canUdp, offset, i, w))
      ensures exists m :: Recorded(l.orig, seen + [m], dropped, canUdp, offset)
      ensures ok ==> l.n == |l.orig| && AllAccounted() && forall w :: w in toWrite ==> w in l.parts && Ready(l, vhdrs, dropped, w)
    {
      hide Sound, ItemOk, Capped, OrderKept, TableOk, Whole, PlainOnly, FlowAccounted, Lists, InOrder, UdpArrivals, Writable, Recorded, MeetsAt;
      ok := Evaluate(canUdp);
      NoneDroppedIff(l.orig, seen, Moment(l, tcpTable), dropped, canUdp, offset);
      ghost var l0 := l;
      if ok {
        Account();
      }
      ListsSame(toWrite, l0, l);
      WrittenInOrder(l, udpTable, arrivals, toWrite);
      if ok {
        WrittenReady();
      }
    }

    lemma WrittenReady()
      requires Final() && AllAccounted() && Lists(toWrite, l)
      ensures forall w :: w in toWrite ==> w in l.parts && Ready(l, vhdrs, dropped, w)
    {
      hide Between, Capped, Ready, FlowAccounted;
      forall w | w in toWrite ensures w in l.parts && Ready(l, vhdrs, dropped, w) {
        assert w in l.tag ==> FlowAccounted(TableOf(tcpTable, udpTable, l.tag[w]), bufs, vhdrs, l.tag[w]);
        AllReady(l, tcpTable, udpTable, arrivals, vhdrs, dropped, w);
      }
    }

    /** Reading back all that has been written: every packet comes back, unless its item was dropped. */
    method ReadBatch() returns (outs: seq<seq<seq<Byte>>>)
      requires Final() && AllAccounted() && Lists(toWrite, l)
      ensures |outs| == |toWrite|
      ensures forall i :: 0 <= i < |toWrite| && toWrite[i] !in dropped ==> AllBackAs(l, toWrite[i], outs[i])
      ensures forall p :: 0 <= p < |bufs| ==> p in l.home && (l.home[p] in dropped || CameBack(l, toWrite, outs, p))
    {
      hide Sound, TableOk, OrderKept, Whole, Capped, Ready, FlowAccounted, AllBackAs, CameBack;
      WrittenReady();
      outs := [];
      for i := 0 to |toWrite|
        invariant |outs| == i
        invariant forall j :: 0 <= j < i && toWrite[j] !in dropped ==> AllBackAs(l, toWrite[j], outs[j])
      {
        var w := toWrite[i];
        assert w in toWrite;
        PartsFew(l, w);
        var packets := [];
        if w in vhdrs {
          ReadyOne(l, vhdrs, dropped, w);
          packets := ReadBuffer(l, dropped, w, bufs[w].data, vhdrs[w], |bufs|, little);
        } else {
          ReadyOne(l, vhdrs, dropped, w);
        }
        outs := outs + [packets];
      }
      forall p | 0 <= p < |bufs| ensures p in l.home && (l.home[p] in dropped || CameBack(l, toWrite, outs, p)) {
        AllCameBack(l, toWrite, outs, dropped, p);
      }
    }

    /** Splitting a merged buffer of the batch gives its packets back; TCP flags too, unless the last pushes and the one in front came after it. */
    method SplitBuffer(key: FlowKey, item: Item, ghost i: nat, room: nat) returns (outs: seq<seq<Byte>>, n: int, tooMany: bool)
      requires Final()
      requires var table := TableOf(tcpTable, udpTable, key); key in table && i < |table[key]| && table[key][i] == item
      ensures item.idx in l.parts && (tooMany <==> |l.parts[item.idx]| > room) && (!tooMany ==> n == |outs| == |l.parts[item.idx]|)
      ensures forall k :: 0 <= k < |outs| && k < |l.parts[item.idx]| ==> GivenBack(l.orig, l.parts[item.idx][k], key, item.iphLen + item.thLen, outs[k])
      ensures key.isTcp && !tooMany ==>
        ((forall k :: 0 <= k < |outs| ==> FlagsBack(l.orig, l.parts[item.idx][k], item.iphLen, outs[k])) <==>
         !PushOvertaken(l.orig, l.parts[item.idx], item.iphLen))
    {
      hide Sound, ItemOk, Capped, OrderKept, TableOk, Whole, GivenBack, FlagsBack, PushOvertaken;
      TableItem(l, TableOf(tcpTable, udpTable, key), key.isTcp, key, i);
      ItemTag(l, key, item);
      ItemParts(l, key, item);
      outs, n, tooMany := SplitItem(l, bufs[item.idx].data, key, item, OffloadHdr(key, item), key.isV6, room, little);
      if key.isTcp && !tooMany {
        AllFlags(l.orig, l.parts[item.idx], item.iphLen, outs);
      }
    }
  }

  /** Coalescing the two: the item of the first is dropped, and it is written as it came, without an offload header. */
  method DroppedOne(little: bool) returns (written: seq<nat>, bufs: seq<Buf>, vhdrs: map<nat, Vhdr>)
    ensures 0 in written && 0 < |bufs| && bufs[0] == BadBatch()[0] && 0 !in vhdrs
  {
    hide BadPacket, TcpCandidate, Ready, Between, Lists, MeetsAt, Meets, Follows;
    assert Capped(BadBatch());
    var b := new Batch(BadBatch(), 10, little);
    var ok := b.HandleGro(false);
    assert Writable(BadBatch(), 10);
    ghost var m :| Recorded(b.l.orig, b.seen + [m], b.dropped, false, 10);
    BadMeets(b.seen + [m], b.dropped);
    hide Recorded;
    DroppedReady(b.l, b.tcpTable, b.udpTable, b.arrivals, b.vhdrs, b.dropped, b.toWrite);
    written, bufs, vhdrs := b.toWrite, b.bufs, b.vhdrs;
  }

  lemma BadMeets(ms: seq<Moment>, dropped: set<nat>)
    requires |ms| == 3 && Recorded(BadBatch(), ms, dropped, false, 10)
    ensures 0 in dropped
  {
    hide BadPacket, TcpCandidate, Spoilt, Stops;
    BadSpoilt();
    var c0, c1 := TcpCandidate(BadPacket(0), false), TcpCandidate(BadPacket(2), false);
    assert Follows(ms[0], ms[0 + 1], c0);
    var t1: Table := ms[1].tcpTable;
    assert ms[1].l == BadLedger(c0.key) && t1 == map[c0.key := [NewItemOf(0, c0, false)]];
    assert t1[c1.key][0].idx == 0;
    assert MeetsAt(ms, false, 10, 1, 0);
  }

  lemma DroppedReady(l: Ledger, tcpTable: Table, udpTable: Table, arrivals: map<FlowKey, seq<nat>>, vhdrs: map<nat, Vhdr>, dropped: set<nat>, toWrite: seq<nat>)
    requires Between(l, tcpTable, udpTable, arrivals, vhdrs, dropped) && Lists(toWrite, l) && 0 in dropped
    requires forall w :: w in toWrite ==> w in l.parts && Ready(l, vhdrs, dropped, w)
    ensures 0 in toWrite && 0 !in vhdrs && 0 < |l.orig| == |l.bufs| && l.bufs[0] == l.orig[0]
  {
    hide Sound, TableOk, OrderKept, ItemOk, InFlow, BadSum;
    assert 0 in l.parts.Keys;
    assert Ready(l, vhdrs, dropped, 0);
  }
}
