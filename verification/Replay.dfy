/**
 The anti-replay window of RFC 6479: a ring of 128 blocks of 64 bits that remembers which counters
 have been seen.  A block is written out as its 64 bits, least significant first.
 */
module Replay {
  const BLOCK_BITS: nat := 64
  const RING_BLOCKS: nat := 128
  const WINDOW_SIZE: nat := (RING_BLOCKS - 1) * BLOCK_BITS

  type Block = b: seq<bool> | |b| == BLOCK_BITS witness seq(BLOCK_BITS, _ => false)

  const EMPTY: Block := seq(BLOCK_BITS, _ => false)

  // ---------------------------------------------------------------- reference

  /** What a receiver with unlimited memory knows: every counter it has accepted. */
  datatype History = History(accepted: set<nat>, last: nat) {
    /** `last` is the largest accepted counter, or 0 if there is none. */
    ghost predicate Ok() {
      (forall c :: c in accepted ==> c <= last) && if accepted == {} then last == 0 else last in accepted
    }

    predicate Admits(counter: nat, limit: nat) {
      counter < limit && counter !in accepted && counter + WINDOW_SIZE >= last
    }

    function Accept(counter: nat): History {
      History(accepted + {counter}, if counter > last then counter else last)
    }

    function Receive(counter: nat, limit: nat): History {
      if Admits(counter, limit) then Accept(counter) else this
    }
  }

  const NOTHING := History({}, 0)

  /** The history after receiving `cs` in turn. */
  function ReceiveAll(h: History, cs: seq<(nat, nat)>): History {
    if cs == [] then h else ReceiveAll(h, cs[..|cs| - 1]).Receive(cs[|cs| - 1].0, cs[|cs| - 1].1)
  }

  /** Whether the `i`th of the messages `cs` is accepted. */
  predicate Accepts(h: History, cs: seq<(nat, nat)>, i: nat)
    requires i < |cs|
  {
    ReceiveAll(h, cs[..i]).Admits(cs[i].0, cs[i].1)
  }

  lemma {:induction false} AcceptedExactly(h: History, cs: seq<(nat, nat)>, c: nat)
    ensures c in ReceiveAll(h, cs).accepted <==> c in h.accepted || exists i :: 0 <= i < |cs| && cs[i].0 == c && Accepts(h, cs, i)
  {
    if cs != [] {
      var n := |cs| - 1;
      AcceptedExactly(h, cs[..n], c);
      assert forall i :: 0 <= i < n ==> cs[..n][..i] == cs[..i];
      assert Accepts(h, cs, n) <==> ReceiveAll(h, cs[..n]).Admits(cs[n].0, cs[n].1);
      forall i | 0 <= i < n ensures Accepts(h, cs[..n], i) == Accepts(h, cs, i) {
      }
    }
  }

  /** No counter is accepted twice in a run. */
  lemma NoReplay(h: History, cs: seq<(nat, nat)>, i: nat, j: nat)
    requires i < j < |cs| && Accepts(h, cs, i) && Accepts(h, cs, j)
    ensures cs[i].0 != cs[j].0
  {
    var front := cs[..j];
    AcceptedExactly(h, front, cs[i].0);
    assert front[..i] == cs[..i];
    assert Accepts(h, front, i);
  }

  lemma {:induction false} HistoryOk(h: History, cs: seq<(nat, nat)>)
    requires h.Ok()
    ensures ReceiveAll(h, cs).Ok()
  {
    if cs != [] {
      HistoryOk(h, cs[..|cs| - 1]);
    }
  }

  lemma AcceptedBefore(h: History, cs: seq<(nat, nat)>, i: nat, c: nat)
    requires i <= |cs|
    ensures c in ReceiveAll(h, cs[..i]).accepted <==> c in h.accepted || exists j :: 0 <= j < i && cs[j].0 == c && Accepts(h, cs, j)
  {
    hide ReceiveAll;
    AcceptedExactly(h, cs[..i], c);
    forall j | 0 <= j < i ensures Accepts(h, cs[..i], j) == Accepts(h, cs, j) && cs[..i][j] == cs[j] {
      assert cs[..i][..j] == cs[..j];
    }
    hide Accepts;
  }

  /** In every run a message is accepted exactly if its counter is below the limit, new, and at most 127 blocks behind all that were accepted. */
  lemma AcceptsIff(cs: seq<(nat, nat)>, i: nat)
    requires i < |cs|
    ensures Accepts(NOTHING, cs, i) <==>
            && cs[i].0 < cs[i].1
            && forall j :: 0 <= j < i && Accepts(NOTHING, cs, j) ==> cs[j].0 != cs[i].0 && cs[j].0 <= cs[i].0 + 127 * 64
  {
    hide ReceiveAll;
    var h, c := ReceiveAll(NOTHING, cs[..i]), cs[i].0;
    HistoryOk(NOTHING, cs[..i]);
    assert Accepts(NOTHING, cs, i) <==> h.Admits(c, cs[i].1);
    hide Accepts;
    forall j | 0 <= j < i && Accepts(NOTHING, cs, j) ensures cs[j].0 in h.accepted {
      AcceptedBefore(NOTHING, cs, i, cs[j].0);
    }
    AcceptedBefore(NOTHING, cs, i, c);
    AcceptedBefore(NOTHING, cs, i, h.last);
  }

  // ---------------------------------------------------------------- the filter

  /** Counter `c` has a bit of its own in the ring while `last` is the largest counter seen. */
  predicate InRing(c: nat, last: nat) {
    c / BLOCK_BITS <= last / BLOCK_BITS < c / BLOCK_BITS + RING_BLOCKS
  }

  lemma RingIndexUnique(i: nat, j: nat)
    requires i % RING_BLOCKS == j % RING_BLOCKS && i < j + RING_BLOCKS && j < i + RING_BLOCKS
    ensures i == j
  {
  }

  /** Every block after `current` up to `target` has its slot among the `diff` that are cleared. */
  lemma ClearedSlot(k: nat, current: nat, diff: nat, target: nat) returns (k': nat)
    requires current < k <= target && diff == if target - current > RING_BLOCKS then RING_BLOCKS else target - current
    ensures current < k' <= current + diff && k' % RING_BLOCKS == k % RING_BLOCKS
  {
    if k <= current + diff {
      k' := k;
    } else {
      var m := k - current - 1;
      k' := current + 1 + m % RING_BLOCKS;
      assert k == k' + RING_BLOCKS * (m / RING_BLOCKS);
    }
  }

  class Filter {
    var last: nat
    var ring: array<Block>
    ghost var history: History

    ghost predicate Valid()
      reads this, ring
    {
      && ring.Length == RING_BLOCKS
      && last == history.last && history.Ok()
      && Remembers(last, history.accepted)
    }

    predicate Bit(c: nat)
      requires ring.Length == RING_BLOCKS
      reads this`ring, ring
    {
      ring[c / BLOCK_BITS % RING_BLOCKS][c % BLOCK_BITS]
    }

    /** Every counter that has a bit has it set exactly if it was accepted. */
    ghost predicate Remembers(last: nat, accepted: set<nat>)
      requires ring.Length == RING_BLOCKS
      reads this`ring, ring
    {
      forall c: nat :: InRing(c, last) ==> (Bit(c) <==> c in accepted)
    }

    /** Only the first block is cleared: the others come back into use one by one, cleared on the way. */
    method Reset()
      requires ring.Length == RING_BLOCKS
      modifies this, ring
      ensures Valid() && history == NOTHING && ring == old(ring)
    {
      last := 0;
      ring[0] := EMPTY;
      history := NOTHING;
    }

    /** Clear the blocks after `current` up to `current + diff`. */
    method Clear(current: nat, diff: nat)
      requires ring.Length == RING_BLOCKS && diff <= RING_BLOCKS
      modifies ring
      ensures forall k :: current < k <= current + diff ==> ring[k % RING_BLOCKS] == EMPTY
      ensures forall k :: 0 <= k <= current && current + diff < k + RING_BLOCKS ==> ring[k % RING_BLOCKS] == old(ring[k % RING_BLOCKS])
    {
      var i := current + 1;
      while i <= current + diff
        invariant current < i <= current + diff + 1
        invariant forall k :: current < k < i ==> ring[k % RING_BLOCKS] == EMPTY
        invariant forall k :: 0 <= k <= current && current + diff < k + RING_BLOCKS ==> ring[k % RING_BLOCKS] == old(ring[k % RING_BLOCKS])
      {
        forall k | 0 <= k && k % RING_BLOCKS == i % RING_BLOCKS && k <= current && current + diff < k + RING_BLOCKS ensures false {
          RingIndexUnique(k, i);
        }
        ring[i % RING_BLOCKS] := EMPTY;
        i := i + 1;
      }
    }

    /** Move the window forward to `counter`. */
    method Advance(counter: nat)
      requires Valid() && counter > last
      modifies this`last, ring
      ensures last == counter && ring.Length == RING_BLOCKS && Remembers(counter, history.accepted)
    {
      var current := last / BLOCK_BITS;
      var diff := counter / BLOCK_BITS - current;
      if diff > RING_BLOCKS {
        diff := RING_BLOCKS;
      }
      Clear(current, diff);
      forall c: nat | InRing(c, counter) ensures Bit(c) <==> c in history.accepted {
        var k := c / BLOCK_BITS;
        if k <= current {
          assert ring[k % RING_BLOCKS] == old(ring[k % RING_BLOCKS]);
          assert old(Bit(c)) <==> c in history.accepted;
        } else {
          var k' := ClearedSlot(k, current, diff, counter / BLOCK_BITS);
          assert ring[k' % RING_BLOCKS] == EMPTY;
        }
      }
      last := counter;
    }

    /** Set the bit of `counter` and say whether it was clear. */
    method Mark(counter: nat, ghost accepted: set<nat>) returns (ok: bool)
      requires ring.Length == RING_BLOCKS && Remembers(last, accepted) && InRing(counter, last)
      modifies ring
      ensures ok <==> counter !in accepted
      ensures Remembers(last, accepted + {counter})
    {
      var indexBlock := counter / BLOCK_BITS % RING_BLOCKS;
      var indexBit := counter % BLOCK_BITS;
      var before := ring[indexBlock];
      var after := before[indexBit := true];
      ring[indexBlock] := after;
      ok := before != after;
      assert old(Bit(counter)) <==> counter in accepted;
      forall c: nat | InRing(c, last) ensures Bit(c) <==> c in accepted + {counter} {
        assert old(Bit(c)) <==> c in accepted;
        if c / BLOCK_BITS % RING_BLOCKS == indexBlock {
          RingIndexUnique(c / BLOCK_BITS, counter / BLOCK_BITS);
        }
      }
    }

    method ValidateCounter(counter: nat, limit: nat) returns (ok: bool)
      requires Valid()
      modifies this, ring
      ensures Valid() && ring == old(ring)
      ensures ok == old(history).Admits(counter, limit)
      ensures history == old(history).Receive(counter, limit)
    {
      if counter >= limit {
        return false;
      }
      if counter > last {
        Advance(counter);
      } else if last - counter > WINDOW_SIZE {
        return false;
      }
      ok := Mark(counter, history.accepted);
      assert !ok ==> history.accepted + {counter} == history.accepted;
      history := history.Receive(counter, limit);
    }
  }
}
