/** Several datagrams in one message: coalescing before a batched send, and splitting in place after a batched receive. */
module Bind {
  import opened Basics
  import opened Gso

  const MAX_DATAGRAMS: nat := 64
  const MAX_V4_PAYLOAD: nat := 0x1_0000 - 1 - 20 - 8
  const MAX_V6_PAYLOAD: nat := 0x1_0000 - 1 - 8

  type Datagram = seq<Byte>

  /** A datagram in a buffer of some capacity. */
  datatype Buf = Buf(data: Datagram, cap: nat)

  /** A message to be sent; `gso` lists the segment sizes that have been set in its control data. */
  datatype OutMessage = OutMessage(data: seq<Byte>, cap: nat, addr: int, gso: seq<nat>)

  /** With its headers, as far as an IP length field counts them, the payload of a datagram has a length of 16 bits. */
  function PayloadLimit(isV6: bool): (limit: nat)
    ensures limit + 8 + (if isV6 then 0 else 20) == 65535
  {
    if isV6 then MAX_V6_PAYLOAD else MAX_V4_PAYLOAD
  }

  function Datagrams(bufs: seq<Buf>): (r: seq<Datagram>)
    ensures |r| == |bufs| && forall i :: 0 <= i < |bufs| ==> r[i] == bufs[i].data
  {
    seq(|bufs|, i requires 0 <= i < |bufs| => bufs[i].data)
  }

  /** Groups of datagrams, one after the other. */
  function Flat(groups: seq<seq<Datagram>>): seq<Datagram> {
    if groups == [] then [] else Flat(groups[..|groups| - 1]) + groups[|groups| - 1]
  }

  function NonEmpty(s: seq<Datagram>): seq<Datagram> {
    if s == [] then []
    else NonEmpty(s[..|s| - 1]) + (if s[|s| - 1] == [] then [] else [s[|s| - 1]])
  }

  /** What the receiver of a message gets. */
  function Delivered(m: OutMessage): seq<Datagram> {
    if m.data == [] then [] else if m.gso == [] then [m.data] else if m.gso[0] == 0 then [] else Chunks(m.data, m.gso[0])
  }

  function DeliveredAll(ms: seq<OutMessage>): seq<Datagram> {
    if ms == [] then [] else DeliveredAll(ms[..|ms| - 1]) + Delivered(ms[|ms| - 1])
  }

  /** Datagrams that may travel together: equally long, but for a shorter last one, and within the limits. */
  ghost predicate GroupOk(g: seq<Datagram>, limit: nat) {
    && g != []
    && (|g| > 1 ==> |g| <= 64 && |Concat(g)| <= limit)
    && (forall j :: 0 <= j < |g| ==> |g[j]| <= |g[0]|)
    && (forall j :: 0 <= j < |g| - 1 ==> |g[j]| == |g[0]|)
  }

  /** `m` carries the datagrams of `g`; how to split it has been set if `last` says that no more will come. */
  ghost predicate Holding(m: OutMessage, g: seq<Datagram>, addr: int, last: bool) {
    && g != [] && m.data == Concat(g) && m.addr == addr
    && m.gso == if last && |g| > 1 then [|g[0]|] else []
  }

  lemma {:induction false} ConcatAppend(g: seq<Datagram>, d: Datagram)
    ensures Concat(g + [d]) == Concat(g) + d
  {
    if g == [] {
      assert (g + [d])[1..] == [];
    } else {
      assert (g + [d])[1..] == g[1..] + [d];
      ConcatAppend(g[1..], d);
    }
  }

  lemma FirstFits(g: seq<Datagram>)
    requires g != []
    ensures |g[0]| <= |Concat(g)|
  {
  }

  // ---------------------------------------------------------------- what is sent arrives

  lemma {:induction false} NonEmptyAll(s: seq<Datagram>)
    requires forall k :: 0 <= k < |s| ==> s[k] != []
    ensures NonEmpty(s) == s
  {
    if s != [] {
      NonEmptyAll(s[..|s| - 1]);
      assert s == s[..|s| - 1] + [s[|s| - 1]];
    }
  }

  lemma {:induction false} NonEmptyNone(s: seq<Datagram>)
    requires forall k :: 0 <= k < |s| ==> s[k] == []
    ensures NonEmpty(s) == [] && Concat(s) == []
  {
    if s != [] {
      NonEmptyNone(s[..|s| - 1]);
      ConcatAppend(s[..|s| - 1], s[|s| - 1]);
      assert s == s[..|s| - 1] + [s[|s| - 1]];
    }
  }

  lemma {:induction false} NonEmptyAppend(a: seq<Datagram>, b: seq<Datagram>)
    ensures NonEmpty(a + b) == NonEmpty(a) + NonEmpty(b)
  {
    if b == [] {
      assert a + b == a;
    } else {
      assert (a + b)[..|a + b| - 1] == a + b[..|b| - 1];
      NonEmptyAppend(a, b[..|b| - 1]);
    }
  }

  /** A message delivers the datagrams that went into it, except empty ones, in order. */
  lemma DeliversGroup(m: OutMessage, g: seq<Datagram>, addr: int, limit: nat)
    requires Holding(m, g, addr, true) && GroupOk(g, limit)
    ensures Delivered(m) == NonEmpty(g)
  {
    var size, last := |g[0]|, g[|g| - 1];
    if |g| == 1 {
      assert g[1..] == [] && g[..0] == [];
      assert g[0] + [] == g[0];
      assert m.data == g[0] + Concat([]);
    } else if size == 0 {
      NonEmptyNone(g);
    } else if last != [] {
      ChunksConcat(g, size);
      NonEmptyAll(g);
    } else {
      var front := g[..|g| - 1];
      assert g == front + [last];
      ConcatAppend(front, last);
      assert Concat(g) == Concat(front);
      ChunksConcat(front, size);
      NonEmptyAll(front);
      FirstFits(front);
    }
  }

  lemma {:induction false} DeliversAll(ms: seq<OutMessage>, groups: seq<seq<Datagram>>, addr: int, limit: nat)
    requires |ms| == |groups|
    requires forall k :: 0 <= k < |ms| ==> Holding(ms[k], groups[k], addr, true) && GroupOk(groups[k], limit)
    ensures DeliveredAll(ms) == NonEmpty(Flat(groups))
  {
    if ms != [] {
      var n := |ms| - 1;
      DeliversAll(ms[..n], groups[..n], addr, limit);
      DeliversGroup(ms[n], groups[n], addr, limit);
      NonEmptyAppend(Flat(groups[..n]), groups[n]);
    }
  }

  // ---------------------------------------------------------------- coalescing

  /** `d` cannot join `g`: one of the limits is reached, or `g` has had its shorter last datagram. */
  predicate Closed(cap: nat, g: seq<Datagram>, d: Datagram, limit: nat)
    requires g != []
  {
    || |d| + |Concat(g)| > limit || |d| > |g[0]| || |d| > cap - |Concat(g)|
    || |g| >= 64 || |g[|g| - 1]| < |g[0]|
  }

  /** Each group was closed when the next one was started. */
  ghost predicate Greedy(msgs: seq<OutMessage>, groups: seq<seq<Datagram>>, limit: nat) {
    |groups| <= |msgs| &&
    forall k, l :: 0 <= k < l < |groups| && l == k + 1 ==> groups[k] != [] && groups[l] != [] && Closed(msgs[k].cap, groups[k], groups[l][0], limit)
  }

  /** Each message is in the buffer of the first datagram of its group. */
  ghost predicate InBuffersOf(msgs: seq<OutMessage>, groups: seq<seq<Datagram>>, bufs: seq<Buf>) {
    |groups| <= |msgs| && forall k :: 0 <= k < |groups| ==> |Flat(groups[..k])| < |bufs| && msgs[k].cap == bufs[|Flat(groups[..k])|].cap
  }

  lemma InBuffersGrown(msgs: seq<OutMessage>, msgs': seq<OutMessage>, groups: seq<seq<Datagram>>, d: Datagram, bufs: seq<Buf>)
    requires InBuffersOf(msgs, groups, bufs) && groups != [] && |msgs'| == |msgs| && forall k :: 0 <= k < |msgs| ==> msgs'[k].cap == msgs[k].cap
    ensures var b := |groups| - 1; InBuffersOf(msgs', groups[b := groups[b] + [d]], bufs)
  {
    hide Flat;
    var b := |groups| - 1;
    var groups' := groups[b := groups[b] + [d]];
    assert forall k :: 0 <= k <= b ==> groups'[..k] == groups[..k];
  }

  lemma InBuffersNew(msgs: seq<OutMessage>, msgs': seq<OutMessage>, groups: seq<seq<Datagram>>, d: Datagram, bufs: seq<Buf>, i: nat)
    requires InBuffersOf(msgs, groups, bufs) && |groups| < |msgs| == |msgs'| && i < |bufs| && |Flat(groups)| == i
    requires forall k :: 0 <= k < |msgs| ==> msgs'[k].cap == if k == |groups| then bufs[i].cap else msgs[k].cap
    ensures InBuffersOf(msgs', groups + [[d]], bufs)
  {
    hide Flat;
    var groups' := groups + [[d]];
    assert forall k :: 0 <= k <= |groups| ==> groups'[..k] == groups[..k];
    assert groups[..|groups|] == groups;
  }

  /** Where the loop stands: all groups but the last one are finished. */
  ghost predicate Coalesced(msgs: seq<OutMessage>, groups: seq<seq<Datagram>>, addr: int, limit: nat, last: bool) {
    && Greedy(msgs, groups, limit)
    && (forall k :: 0 <= k < |groups| ==> GroupOk(groups[k], limit))
    && (forall k :: 0 <= k < |groups| ==> Holding(msgs[k], groups[k], addr, last || k < |groups| - 1))
    && (forall k :: |groups| <= k < |msgs| ==> msgs[k].gso == [])
  }

  lemma GrowGroup(g: seq<Datagram>, d: Datagram, limit: nat)
    requires GroupOk(g, limit) && |d| + |Concat(g)| <= limit && |d| <= |g[0]| && |g| < MAX_DATAGRAMS && |g[|g| - 1]| == |g[0]|
    ensures GroupOk(g + [d], limit) && |g[0]| <= limit
  {
    ConcatAppend(g, d);
    FirstFits(g);
  }

  lemma GrowLast(groups: seq<seq<Datagram>>, d: Datagram)
    requires groups != []
    ensures var k := |groups| - 1; Flat(groups[k := groups[k] + [d]]) == Flat(groups) + [d]
  {
    var k := |groups| - 1;
    assert groups[k := groups[k] + [d]][..k] == groups[..k];
    assert Flat(groups[..k]) + (groups[k] + [d]) == Flat(groups[..k]) + groups[k] + [d];
  }

  lemma NewGroup(groups: seq<seq<Datagram>>, d: Datagram)
    ensures Flat(groups + [[d]]) == Flat(groups) + [d]
  {
    assert (groups + [[d]])[..|groups|] == groups;
  }

  lemma HoldsGrown(m: OutMessage, g: seq<Datagram>, d: Datagram, addr: int, last: bool)
    requires Holding(m, g, addr, false)
    ensures Holding(m.(data := m.data + d, gso := if last then [|g[0]|] else []), g + [d], addr, last)
  {
    ConcatAppend(g, d);
  }

  lemma HoldsOne(d: Datagram, cap: nat, addr: int, last: bool, limit: nat)
    ensures Holding(OutMessage(d, cap, addr, []), [d], addr, last) && GroupOk([d], limit)
  {
    assert [d][1..] == [];
    assert Concat([d]) == d;
  }

  /** A datagram joins the last group. */
  lemma AppendStep(msgs: seq<OutMessage>, groups: seq<seq<Datagram>>, d: Datagram, addr: int, limit: nat, last: bool)
    requires Coalesced(msgs, groups, addr, limit, false) && groups != []
    requires var g := groups[|groups| - 1];
             |d| + |Concat(g)| <= limit && |d| <= |g[0]| && |g| < MAX_DATAGRAMS && |g[|g| - 1]| == |g[0]|
    ensures var k := |groups| - 1;
            var m := msgs[k].(data := msgs[k].data + d, gso := if last then [|groups[k][0]|] else []);
            Coalesced(msgs[k := m], groups[k := groups[k] + [d]], addr, limit, last)
  {
    var k := |groups| - 1;
    assert groups[k] != [];
    hide GroupOk, Holding, Concat, Closed;
    GrowGroup(groups[k], d, limit);
    HoldsGrown(msgs[k], groups[k], d, addr, last);
  }

  /** A datagram starts a group of its own, and the one before it is finished. */
  lemma NewStep(msgs: seq<OutMessage>, groups: seq<seq<Datagram>>, d: Datagram, cap: nat, addr: int, limit: nat, last: bool)
    requires Coalesced(msgs, groups, addr, limit, false) && |groups| < |msgs|
    requires groups != [] ==> groups[|groups| - 1] != [] && Closed(msgs[|groups| - 1].cap, groups[|groups| - 1], d, limit)
    ensures Coalesced(Finished(msgs, groups)[|groups| := OutMessage(d, cap, addr, [])], groups + [[d]], addr, limit, last)
  {
    hide GroupOk, Holding, Closed;
    HoldsOne(d, cap, addr, last, limit);
    if groups != [] {
      Finish(msgs[|groups| - 1], groups[|groups| - 1], addr);
    }
    Unfinished(groups, limit);
  }

  lemma Finish(m: OutMessage, g: seq<Datagram>, addr: int)
    requires Holding(m, g, addr, false)
    ensures Holding(if |g| > 1 then m.(gso := [|g[0]|]) else m, g, addr, true)
  {
  }

  /** The segment size is set on the last group, if there is something to split. */
  ghost function Finished(msgs: seq<OutMessage>, groups: seq<seq<Datagram>>): seq<OutMessage>
    requires |groups| <= |msgs| && forall k :: 0 <= k < |groups| ==> groups[k] != []
  {
    var k := |groups| - 1;
    if groups != [] && |groups[k]| > 1 then msgs[k := msgs[k].(gso := [|groups[k][0]|])] else msgs
  }

  function Uint16(n: nat): nat {
    n % 0x1_0000
  }

  /** A size that is set fits 16 bits. */
  lemma SizeFits(g: seq<Datagram>, limit: nat)
    requires GroupOk(g, limit) && limit < 0x1_0000 && (|g| > 1 || |Concat(g)| <= limit)
    ensures Uint16(|g[0]|) == |g[0]|
  {
    FirstFits(g);
  }

  lemma Unfinished(groups: seq<seq<Datagram>>, limit: nat)
    requires forall k :: 0 <= k < |groups| ==> GroupOk(groups[k], limit)
    ensures forall k :: 0 <= k < |groups| ==> groups[k] != []
  {
  }

  method AppendTo(msgs: array<OutMessage>, base: nat, buf: Datagram, gsoSize: nat, last: bool,
                  ghost groups: seq<seq<Datagram>>, ghost addr: int, ghost limit: nat)
    requires Coalesced(msgs[..], groups, addr, limit, false) && base == |groups| - 1 && limit < 0x1_0000
    requires var g := groups[base];
             |buf| + |Concat(g)| <= limit && |buf| <= |g[0]| == gsoSize && |g| < MAX_DATAGRAMS && |g[|g| - 1]| == |g[0]|
    modifies msgs
    ensures Coalesced(msgs[..], groups[base := groups[base] + [buf]], addr, limit, last)
    ensures forall k :: 0 <= k < msgs.Length ==> msgs[k].cap == old(msgs[k].cap)
  {
    AppendStep(msgs[..], groups, buf, addr, limit, last);
    SizeFits(groups[base], limit);
    DataOf(msgs[base], groups[base], addr);
    hide GroupOk, Holding, Concat, Coalesced;
    ghost var m := msgs[base].(data := msgs[base].data + buf, gso := if last then [gsoSize] else []);
    ghost var none: seq<nat> := [];
    assert none + [gsoSize] == [gsoSize];
    ghost var after := msgs[..][base := m];
    msgs[base] := msgs[base].(data := msgs[base].data + buf);
    if last {
      msgs[base] := msgs[base].(gso := msgs[base].gso + [Uint16(gsoSize)]);
    }
    assert forall k :: 0 <= k < msgs.Length ==> msgs[k] == after[k];
    assert msgs[..] == after;
  }

  method StartMessage(msgs: array<OutMessage>, base: int, buf: Datagram, cap: nat, gsoSize: nat, dgramCnt: nat, last: bool,
                      ghost groups: seq<seq<Datagram>>, addr: int, ghost limit: nat)
    requires Coalesced(msgs[..], groups, addr, limit, false) && base == |groups| - 1 && base + 1 < msgs.Length && limit < 0x1_0000
    requires if base >= 0 then groups[base] != [] && dgramCnt == |groups[base]| && gsoSize == |groups[base][0]| else dgramCnt == 0
    requires base >= 0 ==> Closed(msgs[base].cap, groups[base], buf, limit)
    modifies msgs
    ensures Coalesced(msgs[..], groups + [[buf]], addr, limit, last)
    ensures forall k :: 0 <= k < msgs.Length ==> msgs[k].cap == if k == base + 1 then cap else old(msgs[k].cap)
  {
    NewStep(msgs[..], groups, buf, cap, addr, limit, last);
    Unfinished(groups, limit);
    if dgramCnt > 1 {
      SizeFits(groups[base], limit);
      DataOf(msgs[base], groups[base], addr);
    }
    assert msgs[base + 1].gso == [];
    ghost var none: seq<nat> := [];
    assert none + [gsoSize] == [gsoSize];
    ghost var before := msgs[..];
    ghost var finished := Finished(before, groups);
    assert finished == if dgramCnt > 1 then before[base := before[base].(gso := [gsoSize])] else before;
    hide GroupOk, Holding, Concat, Coalesced, Finished, Closed, Greedy;
    if dgramCnt > 1 {
      msgs[base] := msgs[base].(gso := msgs[base].gso + [Uint16(gsoSize)]);
    }
    assert msgs[..] == finished;
    msgs[base + 1] := OutMessage(buf, cap, addr, msgs[base + 1].gso);
    assert msgs[..] == finished[base + 1 := OutMessage(buf, cap, addr, [])];
  }

  /** The messages come blank from the pool, and there is one for each datagram if need be. */
  method CoalesceMessages(addr: int, isV6: bool, bufs: seq<Buf>, msgs: array<OutMessage>) returns (n: nat, ghost groups: seq<seq<Datagram>>)
    requires msgs.Length >= |bufs| && forall k :: 0 <= k < msgs.Length ==> msgs[k].gso == []
    modifies msgs
    ensures n == |groups| <= |bufs| && Flat(groups) == Datagrams(bufs)
    ensures forall k :: 0 <= k < n ==> GroupOk(groups[k], PayloadLimit(isV6)) && Holding(msgs[k], groups[k], addr, true)
    ensures Greedy(msgs[..], groups, PayloadLimit(isV6)) && InBuffersOf(msgs[..], groups, bufs)
    ensures DeliveredAll(msgs[..n]) == NonEmpty(Datagrams(bufs))
  {
    hide GroupOk, Holding, Concat, NonEmpty, DeliveredAll, Coalesced, Flat, Greedy, InBuffersOf;
    InBuffersNone(msgs[..], bufs);
    BlankCoalesced(msgs[..], addr, PayloadLimit(isV6), |bufs| == 0);
    var base: int, gsoSize: nat, dgramCnt: nat, endBatch := -1, 0, 0, false;
    var maxPayloadLen := PayloadLimit(isV6);
    groups := [];
    var i := 0;
    while i < |bufs|
      invariant i <= |bufs| && base == |groups| - 1 < i && (i > 0 ==> base >= 0)
      invariant InBuffersOf(msgs[..], groups, bufs)
      invariant Flat(groups) == Datagrams(bufs)[..i] && (base < 0 ==> dgramCnt == 0)
      invariant Coalesced(msgs[..], groups, addr, maxPayloadLen, i == |bufs|)
      invariant base >= 0 ==> groups[base] != [] && dgramCnt == |groups[base]| && gsoSize == |groups[base][0]|
      invariant base >= 0 ==> |groups[base][dgramCnt - 1]| <= gsoSize && endBatch == (|groups[base][dgramCnt - 1]| < gsoSize)
    {
      var buf, last := bufs[i].data, i == |bufs| - 1;
      i := i + 1;
      assert Datagrams(bufs)[..i] == Datagrams(bufs)[..i - 1] + [buf];
      if base >= 0 {
        CoalescedData(msgs[..], groups, addr, maxPayloadLen);
        var msgLen, baseLenBefore := |buf|, |msgs[base].data|;
        var freeBaseCap := msgs[base].cap - baseLenBefore;
        if msgLen + baseLenBefore <= maxPayloadLen && msgLen <= gsoSize && msgLen <= freeBaseCap && dgramCnt < MAX_DATAGRAMS && !endBatch {
          GrowLast(groups, buf);
          ghost var before := msgs[..];
          AppendTo(msgs, base, buf, gsoSize, last, groups, addr, maxPayloadLen);
          InBuffersGrown(before, msgs[..], groups, buf, bufs);
          dgramCnt := dgramCnt + 1;
          if msgLen < gsoSize {
            endBatch := true;
          }
          groups := groups[base := groups[base] + [buf]];
          continue;
        }
      }
      NewGroup(groups, buf);
      ghost var before := msgs[..];
      StartMessage(msgs, base, buf, bufs[i - 1].cap, gsoSize, dgramCnt, last, groups, addr, maxPayloadLen);
      InBuffersNew(before, msgs[..], groups, buf, bufs, i - 1);
      endBatch := false;
      base := base + 1;
      gsoSize := |buf|;
      dgramCnt := 1;
      groups := groups + [[buf]];
    }
    n := base + 1;
    assert Datagrams(bufs)[..i] == Datagrams(bufs);
    CoalescedDone(msgs[..], groups, addr, maxPayloadLen);
    assert msgs[..n] == msgs[..][..n];
    DeliversAll(msgs[..n], groups, addr, maxPayloadLen);
  }

  lemma InBuffersNone(msgs: seq<OutMessage>, bufs: seq<Buf>)
    ensures InBuffersOf(msgs, [], bufs)
  {
  }

  lemma BlankCoalesced(msgs: seq<OutMessage>, addr: int, limit: nat, last: bool)
    requires forall k :: 0 <= k < |msgs| ==> msgs[k].gso == []
    ensures Coalesced(msgs, [], addr, limit, last) && Flat([]) == []
  {
  }

  lemma CoalescedData(msgs: seq<OutMessage>, groups: seq<seq<Datagram>>, addr: int, limit: nat)
    requires Coalesced(msgs, groups, addr, limit, false) && groups != []
    ensures |groups| <= |msgs| && msgs[|groups| - 1].data == Concat(groups[|groups| - 1])
  {
    assert Holding(msgs[|groups| - 1], groups[|groups| - 1], addr, false);
  }

  lemma CoalescedDone(msgs: seq<OutMessage>, groups: seq<seq<Datagram>>, addr: int, limit: nat)
    requires Coalesced(msgs, groups, addr, limit, true)
    ensures Greedy(msgs, groups, limit)
    ensures forall k :: 0 <= k < |groups| ==> GroupOk(groups[k], limit) && Holding(msgs[k], groups[k], addr, true)
  {
  }

  lemma DataOf(m: OutMessage, g: seq<Datagram>, addr: int)
    requires Holding(m, g, addr, false)
    ensures m.data == Concat(g) && m.gso == []
  {
  }

  // ---------------------------------------------------------------- splitting in place

  /** The segment size found in control data, 0 if there is none. */
  datatype Control = Size(gso: nat) | Malformed

  /** A received message: `n` bytes of its buffer count. */
  datatype InMessage = InMessage(buf: seq<Byte>, n: nat, addr: int, control: Control)

  datatype Outcome = Done | Overflow | BadControl

  /** The bytes that the message claims to have are there. */
  predicate Fits(m: InMessage) {
    m.n <= |m.buf| && (m.control.Size? ==> m.control.gso <= |m.buf|)
  }

  /** There is something to split, and control data say how. */
  predicate Splittable(m: InMessage) {
    Fits(m) && m.control.Size? && m.n > 0
  }

  /** The datagrams a message is split into. */
  function Segments(m: InMessage): (r: seq<Datagram>)
    requires Splittable(m)
  {
    if m.control.gso == 0 then [m.buf[..m.n]]
    else if m.control.gso > m.n then [m.buf[..m.control.gso]]
    else Chunks(m.buf[..m.n], m.control.gso)
  }

  /** They are the pieces of what was received exactly if the segment size is not larger than that. */
  lemma SegmentsExact(m: InMessage)
    requires Splittable(m)
    ensures Concat(Segments(m)) == m.buf[..m.n] <==> m.control.gso <= m.n
  {
    if m.control.gso == 0 || m.control.gso > m.n {
      var all := Segments(m);
      assert all[1..] == [];
      assert Concat(all) == all[0] + [] == all[0];
    } else {
      ConcatChunks(m.buf[..m.n], m.control.gso);
    }
  }

  lemma ShiftDiv(n: nat, g: nat)
    requires g > 0
    ensures (n + g) / g == n / g + 1
  {
    var q, q' := n / g, (n + g) / g;
    assert q * g <= n < q * g + g && q' * g <= n + g < q' * g + g;
    Apart(q' - q, g);
    assert (q' - q) * g == q' * g - q * g;
  }

  lemma Apart(d: int, g: nat)
    requires g > 0
    ensures d <= 0 ==> d * g <= 0
    ensures d >= 2 ==> d * g >= 2 * g
  {
  }

  lemma {:induction false} ChunksCount(p: seq<Byte>, size: nat)
    requires size > 0
    ensures |Chunks(p, size)| == (|p| + size - 1) / size
    decreases |p|
  {
    if |p| > size {
      ChunksCount(p[size..], size);
      ShiftDiv(|p| - 1, size);
    } else if p != [] {
      ShiftDiv(|p| - 1, size);
      SmallDiv(|p| - 1, size);
    } else {
      SmallDiv(size - 1, size);
    }
  }

  lemma SmallDiv(n: nat, g: nat)
    requires n < g
    ensures n / g == 0
  {
  }

  /** `m` has become a message with the datagram `d`, as far as its buffer of `len` bytes holds it. */
  ghost predicate Placed(m: InMessage, d: Datagram, addr: int, len: nat) {
    && |m.buf| == len && m.n == (if |d| <= len then |d| else len)
    && m.buf[..m.n] == d[..m.n] && m.addr == addr
  }

  /** Copying as `copy` does, as far as the destination reaches. */
  function Copied(m: InMessage, d: Datagram, addr: int): (r: InMessage)
    ensures Placed(r, d, addr, |m.buf|)
    ensures forall k :: |d| <= k < |m.buf| ==> r.buf[k] == m.buf[k]
  {
    var n := if |d| <= |m.buf| then |d| else |m.buf|;
    m.(buf := d[..n] + m.buf[n..], n := n, addr := addr)
  }

  /** Segment `j` is the piece from `start` to `end`, and what follows is still to be split. */
  ghost predicate Unread(m: InMessage, start: nat, end: nat, j: nat) {
    && Splittable(m) && start <= end <= |m.buf| && j < |Segments(m)|
    && (m.control.gso > m.n || m.control.gso == 0 ==> j == 0 && Segments(m) == [m.buf[start..end]])
    && (0 < m.control.gso <= m.n ==>
          && start < m.n && end == Clamp(start + m.control.gso, m.n)
          && Segments(m)[j..] == Chunks(m.buf[..m.n][start..], m.control.gso))
  }

  function Clamp(end: nat, n: nat): nat {
    if end > n then n else end
  }

  lemma UnreadFirst(m: InMessage)
    requires Splittable(m)
    ensures Unread(m, 0, if m.control.gso > 0 then m.control.gso else m.n, 0)
    ensures |Segments(m)| == if m.control.gso > 0 then (m.n + m.control.gso - 1) / m.control.gso else 1
  {
    if 0 < m.control.gso <= m.n {
      ChunksCount(m.buf[..m.n], m.control.gso);
    } else if m.control.gso > m.n {
      ShiftDiv(m.n - 1, m.control.gso);
      SmallDiv(m.n - 1, m.control.gso);
    }
  }

  lemma UnreadNext(m: InMessage, start: nat, end: nat, j: nat)
    requires Unread(m, start, end, j)
    ensures m.buf[start..end] == Segments(m)[j]
    ensures j + 1 < |Segments(m)| ==> Unread(m, end, Clamp(end + m.control.gso, m.n), j + 1)
  {
    var segs, g, p := Segments(m), m.control.gso, m.buf[..m.n];
    if 0 < g <= m.n {
      var rest := p[start..];
      assert segs[j..][0] == segs[j] && segs[j..][1..] == segs[j + 1..];
      if |rest| <= g {
        assert rest == m.buf[start..end];
      } else {
        assert rest[..g] == m.buf[start..end];
        assert rest[g..] == p[end..];
        assert Chunks(rest, g)[1..] == Chunks(p[end..], g);
      }
    }
  }

  /** Messages from `lo` on that are placed hold the segments `segs`. */
  ghost predicate PlacedAll(msgs: seq<InMessage>, before: seq<InMessage>, lo: nat, segs: seq<Datagram>, addr: int) {
    && |msgs| == |before| && lo + |segs| <= |msgs|
    && forall k :: lo <= k < lo + |segs| ==> Placed(msgs[k], segs[k - lo], addr, |before[k].buf|)
  }

  ghost predicate SameOutside(msgs: seq<InMessage>, before: seq<InMessage>, lo: nat, hi: nat) {
    |msgs| == |before| && forall k :: 0 <= k < |msgs| && !(lo <= k < hi) ==> msgs[k] == before[k]
  }

  lemma PlacedNone(msgs: seq<InMessage>, lo: nat, addr: int)
    requires lo <= |msgs|
    ensures PlacedAll(msgs, msgs, lo, [], addr)
  {
  }

  lemma PlacedKeep(msgs: seq<InMessage>, msgs': seq<InMessage>, before: seq<InMessage>, lo: nat, segs: seq<Datagram>, addr: int)
    requires PlacedAll(msgs, before, lo, segs, addr) && |msgs'| == |msgs|
    requires forall k :: lo <= k < lo + |segs| && k < |msgs| ==> msgs'[k] == msgs[k]
    ensures PlacedAll(msgs', before, lo, segs, addr)
  {
  }

  lemma PlacedStep(msgs: seq<InMessage>, before: seq<InMessage>, lo: nat, segs: seq<Datagram>, j: nat, addr: int)
    requires j < |segs| && lo + j < |msgs| && PlacedAll(msgs, before, lo, segs[..j], addr) && SameOutside(msgs, before, lo, lo + j)
    ensures var msgs' := msgs[lo + j := Copied(msgs[lo + j], segs[j], addr)];
            PlacedAll(msgs', before, lo, segs[..j + 1], addr) && SameOutside(msgs', before, lo, lo + j + 1)
  {
    hide Placed;
    var msgs' := msgs[lo + j := Copied(msgs[lo + j], segs[j], addr)];
    forall k | lo <= k < lo + j + 1 ensures Placed(msgs'[k], segs[..j + 1][k - lo], addr, |before[k].buf|) {
      if k < lo + j {
        assert segs[..j][k - lo] == segs[..j + 1][k - lo];
      }
    }
  }

  /** The segments of message `i` go to slots `n0`, `n0 + 1`, ..., and it overflows exactly if they would go beyond slot `i`. */
  method SplitOne(msgs: array<InMessage>, i: nat, n0: nat) returns (n: nat, ok: bool)
    requires n0 <= i < msgs.Length && Splittable(msgs[i])
    modifies msgs
    ensures ok <==> n0 + |Segments(old(msgs[i]))| <= i + 1
    ensures n == if ok then n0 + |Segments(old(msgs[i]))| else i + 1
    ensures n0 <= n && n - n0 <= |Segments(old(msgs[i]))|
    ensures PlacedAll(msgs[..], old(msgs[..]), n0, Segments(old(msgs[i]))[..n - n0], old(msgs[i]).addr)
    ensures if n == i + 1 then SameOutside(msgs[..], old(msgs[..]), n0, n)
            else SameOutside(msgs[..], old(msgs[..])[i := old(msgs[i]).(n := 0)], n0, n)
  {
    hide Segments, Placed, PlacedAll, Copied;
    ghost var m, before := msgs[i], msgs[..];
    ghost var segs := Segments(m);
    UnreadFirst(m);
    var gsoSize, start, end, numToSplit := msgs[i].control.gso, 0, msgs[i].n, 1;
    if gsoSize > 0 {
      numToSplit := (msgs[i].n + gsoSize - 1) / gsoSize;
      end := gsoSize;
    }
    hide Unread;
    n := n0;
    var j := 0;
    PlacedNone(before, n0, m.addr);
    assert segs[..0] == [];
    while j < numToSplit
      invariant numToSplit == |segs| && j <= |segs| && n == n0 + j <= i + 1 && start >= 0 && end >= 0
      invariant j < |segs| && n <= i ==> Unread(m, start, end, j)
      invariant PlacedAll(msgs[..], before, n0, segs[..j], m.addr)
      invariant SameOutside(msgs[..], before, n0, n)
    {
      if n > i {
        return n, false;
      }
      PieceBounds(m, start, end, j);
      UnreadNext(m, start, end, j);
      assert msgs[i] == m;
      PlacedStep(msgs[..], before, n0, segs, j, m.addr);
      msgs[n] := Copied(msgs[n], msgs[i].buf[start..end], msgs[i].addr);
      start := end;
      end := end + gsoSize;
      if end > msgs[i].n {
        end := msgs[i].n;
      }
      n := n + 1;
      j := j + 1;
    }
    ok := true;
    assert segs[..j] == segs;
    ghost var placed := msgs[..];
    if i != n - 1 {
      msgs[i] := msgs[i].(n := 0);
      PlacedKeep(placed, msgs[..], before, n0, segs, m.addr);
    }
  }

  lemma PieceBounds(m: InMessage, start: nat, end: nat, j: nat)
    requires Unread(m, start, end, j)
    ensures start <= end <= |m.buf|
  {
  }

  function Tagged(segs: seq<Datagram>, addr: int): (r: seq<(Datagram, int)>)
    ensures |r| == |segs| && forall k :: 0 <= k < |segs| ==> r[k] == (segs[k], addr)
  {
    seq(|segs|, k requires 0 <= k < |segs| => (segs[k], addr))
  }

  /** All segments of the messages from `first` up to `upto`, with the addresses they came from. */
  ghost function AllSegments(ms: seq<InMessage>, first: nat, upto: nat): seq<(Datagram, int)>
    requires first <= upto <= |ms| && forall i :: first <= i < upto ==> Splittable(ms[i])
  {
    if upto == first then []
    else
      assert Splittable(ms[upto - 1]);
      AllSegments(ms, first, upto - 1) + Tagged(Segments(ms[upto - 1]), ms[upto - 1].addr)
  }

  /** Slots `0..n` hold the first `n` segments. */
  ghost predicate Arrived(msgs: seq<InMessage>, before: seq<InMessage>, segs: seq<(Datagram, int)>, n: nat) {
    && |msgs| == |before| && n <= |segs| && n <= |msgs|
    && forall k :: 0 <= k < n ==> Placed(msgs[k], segs[k].0, segs[k].1, |before[k].buf|)
  }

  /** Messages that have been split are empty unless they have become slots; the others are as they were. */
  ghost predicate Rest(msgs: seq<InMessage>, before: seq<InMessage>, first: nat, n: nat, at: nat) {
    && |msgs| == |before| && at <= |msgs|
    && (forall k :: first <= k < at && n <= k ==> msgs[k].n == 0)
    && (forall k :: 0 <= k < |msgs| && n <= k && (k < first || at <= k) ==> msgs[k] == before[k])
    && (forall k :: 0 <= k < |msgs| ==> |msgs[k].buf| == |before[k].buf|)
  }

  /** One more message has been split. */
  lemma ArrivedStep(msgs: seq<InMessage>, msgs': seq<InMessage>, before: seq<InMessage>, segs: seq<(Datagram, int)>, n: nat, n': nat,
                    i: nat, more: seq<Datagram>, addr: int)
    requires Arrived(msgs, before, segs, n) && n == |segs| <= n' <= i + 1 && n <= i < |msgs| && n' - n <= |more|
    requires PlacedAll(msgs', msgs, n, more[..n' - n], addr)
    requires forall k :: 0 <= k < |msgs| ==> |msgs[k].buf| == |before[k].buf|
    requires forall k :: 0 <= k < n ==> msgs'[k] == msgs[k]
    ensures Arrived(msgs', before, segs + Tagged(more, addr), n')
  {
    hide Placed;
    var all := segs + Tagged(more, addr);
    forall k | 0 <= k < n' ensures Placed(msgs'[k], all[k].0, all[k].1, |before[k].buf|) {
      if k >= n {
        assert more[..n' - n][k - n] == more[k - n];
      }
    }
  }

  lemma RestStep(msgs: seq<InMessage>, msgs': seq<InMessage>, before: seq<InMessage>, first: nat, n: nat, n': nat, i: nat, segs: seq<Datagram>, addr: int)
    requires Rest(msgs, before, first, n, i) && first <= i < |msgs| && n <= n' <= i + 1 && PlacedAll(msgs', msgs, n, segs, addr) && |segs| == n' - n
    requires if n' == i + 1 then SameOutside(msgs', msgs, n, n') else SameOutside(msgs', msgs[i := msgs[i].(n := 0)], n, n')
    ensures Rest(msgs', before, first, n', i + 1)
  {
  }

  /**
   Where the run ends decides the outcome: at the end or at an empty message, at control data that cannot be read,
   or at the first message one of whose segments has no slot at or before the message itself.
   */
  method SplitCoalescedMessages(msgs: array<InMessage>, firstMsgAt: nat) returns (n: nat, r: Outcome, ghost at: nat)
    requires firstMsgAt <= msgs.Length && forall i :: firstMsgAt <= i < msgs.Length ==> Fits(msgs[i])
    modifies msgs
    ensures firstMsgAt <= at <= msgs.Length && forall i :: firstMsgAt <= i < at ==> Splittable(old(msgs[..])[i])
    ensures forall i :: firstMsgAt < i <= at ==> |AllSegments(old(msgs[..]), firstMsgAt, i)| <= i
    ensures r.Done? ==> at == msgs.Length || old(msgs[..])[at].n == 0
    ensures r.BadControl? ==> at < msgs.Length && old(msgs[..])[at].n > 0 && old(msgs[..])[at].control.Malformed?
    ensures r.Overflow? ==> at < msgs.Length && Splittable(old(msgs[..])[at])
                            && |AllSegments(old(msgs[..]), firstMsgAt, at + 1)| > at + 1 == n
                            && Arrived(msgs[..], old(msgs[..]), AllSegments(old(msgs[..]), firstMsgAt, at + 1), n)
    ensures !r.Overflow? ==> n == |AllSegments(old(msgs[..]), firstMsgAt, at)|
                             && Arrived(msgs[..], old(msgs[..]), AllSegments(old(msgs[..]), firstMsgAt, at), n)
                             && Rest(msgs[..], old(msgs[..]), firstMsgAt, n, at)
  {
    hide Placed, Segments, PlacedAll, SameOutside, AllSegments, Arrived, Rest;
    ghost var before := msgs[..];
    AllNone(before, firstMsgAt);
    n := 0;
    var i := firstMsgAt;
    at := i;
    while i < msgs.Length
      invariant firstMsgAt <= i <= msgs.Length && at == i && n <= i
      invariant forall k :: firstMsgAt <= k < i ==> Splittable(before[k])
      invariant forall k :: firstMsgAt < k <= i ==> |AllSegments(before, firstMsgAt, k)| <= k
      invariant n == |AllSegments(before, firstMsgAt, i)| && Arrived(msgs[..], before, AllSegments(before, firstMsgAt, i), n)
      invariant Rest(msgs[..], before, firstMsgAt, n, i)
    {
      RestKeeps(msgs[..], before, firstMsgAt, n, i);
      if msgs[i].n == 0 {
        return n, Done, i;
      }
      if msgs[i].control.Malformed? {
        return n, BadControl, i;
      }
      ghost var now, segs, n0 := msgs[..], Segments(msgs[i]), n;
      AllStep(before, firstMsgAt, i);
      var ok;
      n, ok := SplitOne(msgs, i, n);
      SlotsKept(msgs[..], now, n0, n, i);
      ArrivedStep(now, msgs[..], before, AllSegments(before, firstMsgAt, i), n0, n, i, segs, before[i].addr);
      if !ok {
        return n, Overflow, i;
      }
      RestStep(now, msgs[..], before, firstMsgAt, n0, n, i, segs[..n - n0], before[i].addr);
      i := i + 1;
      at := i;
    }
    return n, Done, i;
  }

  lemma AllNone(ms: seq<InMessage>, first: nat)
    requires first <= |ms|
    ensures AllSegments(ms, first, first) == [] && Arrived(ms, ms, [], 0) && Rest(ms, ms, first, 0, first)
  {
  }

  lemma AllStep(ms: seq<InMessage>, first: nat, i: nat)
    requires first <= i < |ms| && forall k :: first <= k <= i ==> Splittable(ms[k])
    ensures AllSegments(ms, first, i + 1) == AllSegments(ms, first, i) + Tagged(Segments(ms[i]), ms[i].addr)
  {
  }

  lemma RestKeeps(msgs: seq<InMessage>, before: seq<InMessage>, first: nat, n: nat, i: nat)
    requires Rest(msgs, before, first, n, i) && n <= i < |msgs|
    ensures |msgs| == |before| && msgs[i] == before[i] && forall k :: 0 <= k < |msgs| ==> |msgs[k].buf| == |before[k].buf|
  {
  }

  lemma SlotsKept(msgs': seq<InMessage>, msgs: seq<InMessage>, n: nat, n': nat, i: nat)
    requires n <= i < |msgs| && |msgs'| == |msgs|
    requires if n' == i + 1 then SameOutside(msgs', msgs, n, n') else SameOutside(msgs', msgs[i := msgs[i].(n := 0)], n, n')
    ensures forall k :: 0 <= k < n ==> msgs'[k] == msgs[k]
  {
  }
}
