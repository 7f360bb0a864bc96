/**
 The bookkeeping behind coalescing.  A `Ledger` records, next to the buffers, which input packets
 each written buffer now carries; it is what lets one say that no payload is lost, duplicated or
 reordered.
 */
module GroLedger {
  import opened Basics

  /** A packet in a buffer with room for `cap` bytes. */
  datatype Buf = Buf(data: seq<Byte>, cap: nat)

  datatype FlowKey = FlowKey(src: seq<Byte>, dst: seq<Byte>, ports: seq<Byte>, rxAck: seq<Byte>, isTcp: bool, isV6: bool)

  datatype Ledger = Ledger(
    orig: seq<Buf>,             // the buffers as they came in
    bufs: seq<Buf>,             // the buffers now
    n: nat,                     // how many packets have been looked at
    parts: map<nat, seq<nat>>,  // for each buffer to be written, the packets it carries, in order
    hlen: map<nat, nat>,        // for each buffer to be written, how long its own headers are
    home: map<nat, nat>,        // for each packet looked at, the buffer that carries it
    tag: map<nat, FlowKey>)     // for each buffer to be written that may grow, its flow

  /** All of the packets `ps` have at least `h` bytes. */
  predicate Fit(orig: seq<Buf>, ps: seq<nat>, h: nat) {
    forall i :: 0 <= i < |ps| ==> ps[i] < |orig| && h <= |orig[ps[i]].data|
  }

  /** The bytes after the first `h` of each of the packets `ps`, one after the other. */
  function Joined(orig: seq<Buf>, ps: seq<nat>, h: nat): seq<Byte>
    requires Fit(orig, ps, h)
  {
    if ps == [] then [] else orig[ps[0]].data[h..] + Joined(orig, ps[1..], h)
  }

  /** Buffer `w` carries its packets' payloads, in order, behind headers of `hlen[w]` bytes. */
  ghost predicate Carries(l: Ledger, w: nat) {
    && w in l.parts && w in l.hlen && w < |l.bufs|
    && l.parts[w] != [] && Fit(l.orig, l.parts[w], l.hlen[w])
    && l.hlen[w] <= |l.bufs[w].data|
    && l.bufs[w].data[l.hlen[w]..] == Joined(l.orig, l.parts[w], l.hlen[w])
  }

  ghost predicate AtHome(l: Ledger, w: nat)
    requires w in l.parts
  {
    forall k :: 0 <= k < |l.parts[w]| ==> l.parts[w][k] < l.n && l.parts[w][k] in l.home && l.home[l.parts[w][k]] == w
  }

  /** Every packet looked at is in exactly one written buffer, once. */
  ghost predicate Placed(l: Ledger) {
    && (forall i :: 0 <= i < l.n ==> i in l.home && l.home[i] in l.parts && i in l.parts[l.home[i]])
    && (forall w :: w in l.parts ==> NoDuplicates(l.parts[w]) && AtHome(l, w))
  }

  ghost predicate Sound(l: Ledger) {
    && l.n <= |l.orig| == |l.bufs|
    && (forall i :: l.n <= i < |l.orig| ==> l.bufs[i] == l.orig[i])
    && (forall w :: w in l.parts ==> w < l.n && Carries(l, w))
    && Placed(l)
  }

  lemma {:induction false} JoinedAppend(orig: seq<Buf>, ps: seq<nat>, p: nat, h: nat)
    requires Fit(orig, ps, h) && p < |orig| && h <= |orig[p].data|
    ensures Fit(orig, ps + [p], h) && Joined(orig, ps + [p], h) == Joined(orig, ps, h) + orig[p].data[h..]
  {
    var qs := ps + [p];
    if ps == [] {
      assert qs == [p] && [p][1..] == [];
    } else {
      JoinedAppend(orig, ps[1..], p, h);
      assert qs[1..] == ps[1..] + [p] && qs[0] == ps[0];
      assert forall i :: 0 <= i < |qs| ==> qs[i] == if i < |ps| then ps[i] else p;
      Assoc(orig[ps[0]].data[h..], Joined(orig, ps[1..], h), orig[p].data[h..]);
    }
  }

  lemma Assoc(a: seq<Byte>, b: seq<Byte>, c: seq<Byte>)
    ensures a + (b + c) == (a + b) + c
  {
  }

  // ---------------------------------------------------------------- what happens to a packet

  /** The next packet is written in its own buffer, behind headers of `h` bytes. */
  function Alone(l: Ledger, h: nat, key: FlowKey): Ledger {
    l.(n := l.n + 1, parts := l.parts[l.n := [l.n]], hlen := l.hlen[l.n := h], home := l.home[l.n := l.n], tag := l.tag[l.n := key])
  }

  /** The payload of the next packet goes to the end of buffer `w`, which becomes `b`. */
  function Appended(l: Ledger, w: nat, b: Buf): Ledger
    requires w < |l.bufs| && w in l.parts
  {
    l.(n := l.n + 1, bufs := l.bufs[w := b], parts := l.parts[w := l.parts[w] + [l.n]], home := l.home[l.n := w])
  }

  /** The next packet takes over slot `w` as `b`, with the payload of the buffer that was there behind its own. */
  function Prepended(l: Ledger, w: nat, b: Buf): Ledger
    requires w < |l.bufs| && l.n < |l.bufs| && w in l.parts
  {
    l.(n := l.n + 1, bufs := l.bufs[w := b][l.n := l.bufs[w]], parts := l.parts[w := [l.n] + l.parts[w]], home := l.home[l.n := w])
  }

  /** Buffers other than `w` are as before. */
  ghost predicate OthersSame(l: Ledger, l': Ledger, w: nat) {
    && l'.orig == l.orig && |l'.bufs| == |l.bufs|
    && (forall v :: v in l.parts && v != w && v < |l.bufs| && v != l.n ==>
          && v in l'.parts && l'.parts[v] == l.parts[v] && l'.bufs[v] == l.bufs[v]
          && (v in l.hlen ==> v in l'.hlen && l'.hlen[v] == l.hlen[v])
          && (v in l.tag ==> v in l'.tag && l'.tag[v] == l.tag[v]))
  }

  lemma CarriesSame(l: Ledger, l': Ledger, w: nat, v: nat)
    requires OthersSame(l, l', w) && Carries(l, v) && v != w && v != l.n
    ensures Carries(l', v)
  {
  }

  /** The next packet finds a place when it joins the packets of one buffer. */
  lemma PlacedNext(l: Ledger, l': Ledger, w: nat, ps: seq<nat>)
    requires Placed(l) && l'.n == l.n + 1 && l'.parts == l.parts[w := ps] && l'.home == l.home[l.n := w]
    requires NoDuplicates(ps)
    requires forall p :: p in ps <==> p == l.n || (w in l.parts && p in l.parts[w])
    ensures Placed(l')
  {
    forall v | v in l'.parts ensures NoDuplicates(l'.parts[v]) && AtHome(l', v) {
      if v == w {
        forall k | 0 <= k < |ps| ensures ps[k] < l'.n && ps[k] in l'.home && l'.home[ps[k]] == w {
          assert ps[k] in ps;
          assert w in l.parts ==> AtHome(l, w);
        }
      } else {
        assert AtHome(l, v);
      }
    }
  }

  lemma AloneSound(l: Ledger, h: nat, key: FlowKey)
    requires Sound(l) && l.n < |l.orig| && h <= |l.orig[l.n].data|
    ensures Sound(Alone(l, h, key)) && OthersSame(l, Alone(l, h, key), l.n)
  {
    hide Placed, Carries;
    var l' := Alone(l, h, key);
    PlacedNext(l, l', l.n, [l.n]);
    AloneCarries(l, h, key);
    SoundNext(l, l', l.n);
  }

  /** Soundness after the next packet, given what has happened to buffer `w`. */
  lemma SoundNext(l: Ledger, l': Ledger, w: nat)
    requires Sound(l) && l.n < |l.orig| && l'.n == l.n + 1 && OthersSame(l, l', w) && w <= l.n && w in l'.parts && Carries(l', w) && Placed(l')
    requires (forall v :: v in l'.parts ==> v == w || v in l.parts) && forall i :: l.n < i < |l.orig| ==> l'.bufs[i] == l.bufs[i]
    ensures Sound(l')
  {
    hide Placed, Carries;
    assert forall v :: v in l.parts ==> v < l.n && Carries(l, v);
    hide OthersSame;
    forall v | v in l'.parts && v != w ensures v < l'.n && Carries(l', v) {
      CarriesSame(l, l', w, v);
    }
    SameOrig(l, l', w);
  }

  lemma SameOrig(l: Ledger, l': Ledger, w: nat)
    requires OthersSame(l, l', w)
    ensures l'.orig == l.orig && |l'.bufs| == |l.bufs|
  {
  }

  lemma AloneCarries(l: Ledger, h: nat, key: FlowKey)
    requires l.n < |l.orig| == |l.bufs| && l.bufs[l.n] == l.orig[l.n] && h <= |l.orig[l.n].data|
    ensures Carries(Alone(l, h, key), l.n)
  {
    assert [l.n][1..] == [];
    assert Joined(l.orig, [l.n], h) == l.orig[l.n].data[h..] + Joined(l.orig, [], h);
  }

  lemma AppendedSound(l: Ledger, w: nat, b: Buf)
    requires Sound(l) && l.n < |l.orig| && w in l.parts && w in l.hlen && w < |l.bufs| && l.hlen[w] <= |l.bufs[w].data|
    requires l.hlen[w] <= |l.orig[l.n].data| && l.hlen[w] <= |b.data|
    requires b.data[l.hlen[w]..] == l.bufs[w].data[l.hlen[w]..] + l.orig[l.n].data[l.hlen[w]..]
    ensures Sound(Appended(l, w, b)) && OthersSame(l, Appended(l, w, b), w)
  {
    hide Placed, Carries;
    var l' := Appended(l, w, b);
    FreshLast(l, w);
    PlacedNext(l, l', w, l.parts[w] + [l.n]);
    AppendedCarries(l, w, b);
    SoundNext(l, l', w);
  }

  lemma AppendedCarries(l: Ledger, w: nat, b: Buf)
    requires Carries(l, w) && l.n < |l.orig| && l.hlen[w] <= |l.orig[l.n].data| && l.hlen[w] <= |b.data|
    requires b.data[l.hlen[w]..] == l.bufs[w].data[l.hlen[w]..] + l.orig[l.n].data[l.hlen[w]..]
    ensures Carries(Appended(l, w, b), w)
  {
    JoinedAppend(l.orig, l.parts[w], l.n, l.hlen[w]);
  }

  /** The next packet is in no buffer yet. */
  lemma FreshLast(l: Ledger, w: nat)
    requires Placed(l) && w in l.parts
    ensures l.n !in l.parts[w] && NoDuplicates(l.parts[w] + [l.n]) && NoDuplicates([l.n] + l.parts[w])
  {
    assert AtHome(l, w);
  }

  lemma PrependedSound(l: Ledger, w: nat, b: Buf)
    requires Sound(l) && l.n < |l.orig| && w in l.parts && w in l.hlen && w < |l.bufs| && l.hlen[w] <= |l.bufs[w].data|
    requires l.hlen[w] <= |l.orig[l.n].data| && l.hlen[w] <= |b.data|
    requires b.data[l.hlen[w]..] == l.orig[l.n].data[l.hlen[w]..] + l.bufs[w].data[l.hlen[w]..]
    ensures Sound(Prepended(l, w, b)) && OthersSame(l, Prepended(l, w, b), w)
  {
    hide Placed, Carries;
    var l' := Prepended(l, w, b);
    FreshLast(l, w);
    PlacedNext(l, l', w, [l.n] + l.parts[w]);
    PrependedCarries(l, w, b);
    SoundNext(l, l', w);
  }

  lemma PrependedCarries(l: Ledger, w: nat, b: Buf)
    requires Carries(l, w) && w < l.n < |l.orig| == |l.bufs| && l.hlen[w] <= |l.orig[l.n].data| && l.hlen[w] <= |b.data|
    requires b.data[l.hlen[w]..] == l.orig[l.n].data[l.hlen[w]..] + l.bufs[w].data[l.hlen[w]..]
    ensures Carries(Prepended(l, w, b), w)
  {
    assert ([l.n] + l.parts[w])[1..] == l.parts[w];
  }
}
