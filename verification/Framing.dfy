/** Control messages as frames on a byte stream: a length, then the sealed type and body under a counter of its own for each direction. */
module Framing {
  import opened Basics
  import opened Text
  import opened Codec

  const MAX_FRAME: nat := 64 * 1024
  const TAG: nat := 16

  /** Sealing under a key that both ends share, by counter. */
  type Seal = (nat, Bytes) -> Bytes
  type Unseal = (nat, Bytes) -> Option<Bytes>

  /** Sealing adds a tag, and what was sealed under a counter opens under it. */
  ghost predicate Cipher(seal: Seal, unseal: Unseal) {
    forall ctr, plain :: |seal(ctr, plain)| == |plain| + TAG && unseal(ctr, seal(ctr, plain)) == Some(plain)
  }

  function Plain(m: Message): Bytes {
    [TypeOf(m)] + Encode(m)
  }

  function Frame(seal: Seal, ctr: nat, m: Message): Bytes {
    var ct := seal(ctr, Plain(m));
    PutUint(|ct| % B32, 4) + ct
  }

  /** A frame is the length of what is sealed, in four bytes, and that: the type in one byte and the body. */
  lemma FrameLaid(seal: Seal, unseal: Unseal, ctr: nat, m: Message)
    requires Cipher(seal, unseal) && Typed(m) && |Encode(m)| + 1 + TAG < B32
    ensures var b := Frame(seal, ctr, m);
      && |b| == 4 + 1 + |Encode(m)| + TAG && Number(b, 0, 4) == |b| - 4
      && var plain := unseal(ctr, b[4..]);
         plain.Some? && |plain.value| > 0 && Laid(m, plain.value[0], plain.value[1..])
  {
    LaidOut(m);
    Powers();
    hide PutUint, BigEndian, Pow256, Encode, Laid, Typed;
    var ct := seal(ctr, Plain(m));
    assert |ct| == |Plain(m)| + TAG && unseal(ctr, ct) == Some(Plain(m));
    assert Plain(m)[1..] == Encode(m);
    SmallModulus(|ct|, B32);
    var b := Frame(seal, ctr, m);
    assert b == [] + PutUint(|ct|, 4) + ct && b[4..] == ct;
    PutAt([], |ct|, 4, ct);
  }

  datatype Received = Received(m: Option<Message>, rest: Bytes, ctr: nat)

  /** One frame off the stream; the counter moves on once a frame has been read. */
  function Next(unseal: Unseal, ctr: nat, wire: Bytes): Received {
    var n := Get(wire, 4);
    if n.None? || n.value.0 > MAX_FRAME || |n.value.1| < n.value.0 then Received(None, wire, ctr)
    else
      var plain := unseal(ctr, n.value.1[..n.value.0]);
      Received(if plain.None? || plain.value == [] then None else Decode(plain.value[0], plain.value[1..]), n.value.1[n.value.0..], ctr + 1)
  }

  /** A message short enough for a frame that the other end reads. */
  predicate Fits(m: Message) {
    1 + |Encode(m)| + 16 <= 0x1_0000
  }

  /** A message arrives, and nothing behind it is touched, exactly if its frame is short enough and its encoding can express it. */
  lemma FrameRoundTrip(seal: Seal, unseal: Unseal, ctr: nat, m: Message, rest: Bytes)
    requires Cipher(seal, unseal) && Typed(m) && |Plain(m)| + TAG < B32
    ensures Next(unseal, ctr, Frame(seal, ctr, m) + rest).m == Some(m) <==> Fits(m) && Faithful(m)
    ensures Fits(m) ==> Next(unseal, ctr, Frame(seal, ctr, m) + rest).rest == rest && Next(unseal, ctr, Frame(seal, ctr, m) + rest).ctr == ctr + 1
  {
    hide Plain, PutUint, Get, Encode, Decode, Faithful, Typed;
    PlainSize(m);
    var ct := seal(ctr, Plain(m));
    assert |ct| == |Plain(m)| + TAG && unseal(ctr, ct) == Some(Plain(m));
    PutFrame(ct, rest);
    assert Frame(seal, ctr, m) + rest == PutUint(|ct|, 4) + (ct + rest);
    assert (ct + rest)[..|ct|] == ct && (ct + rest)[|ct|..] == rest;
    PlainRoundTrip(m);
  }

  lemma PlainSize(m: Message)
    ensures |Plain(m)| == 1 + |Encode(m)|
  {
    hide Encode;
  }

  lemma PutFrame(ct: Bytes, rest: Bytes)
    requires |ct| < B32
    ensures Get(PutUint(|ct|, 4) + (ct + rest), 4) == Some((|ct|, ct + rest)) && |ct| % B32 == |ct|
  {
    hide Pow256, PutUint, BigEndian, Get;
    Powers();
    GetPut(|ct|, 4, ct + rest);
  }

  lemma PlainRoundTrip(m: Message)
    requires Typed(m)
    ensures Plain(m) != [] && (Decode(Plain(m)[0], Plain(m)[1..]) == Some(m) <==> Faithful(m))
  {
    RoundTrip(m, []);
    hide Encode, Decode, Faithful, Typed;
    assert Encode(m) + [] == Encode(m);
    assert Plain(m)[0] == TypeOf(m) && Plain(m)[1..] == Encode(m);
  }

  function Stream(seal: Seal, ctr: nat, ms: seq<Message>): Bytes
    decreases |ms|
  {
    if ms == [] then [] else Frame(seal, ctr, ms[0]) + Stream(seal, ctr + 1, ms[1..])
  }

  /** The messages read from a stream, as many as asked for, up to the first that fails. */
  function ReadAll(unseal: Unseal, ctr: nat, wire: Bytes, n: nat): seq<Message>
    decreases n
  {
    if n == 0 then []
    else
      var r := Next(unseal, ctr, wire);
      if r.m.None? then [] else [r.m.value] + ReadAll(unseal, r.ctr, r.rest, n - 1)
  }

  ghost predicate AllArrive(ms: seq<Message>) {
    forall i :: 0 <= i < |ms| ==> Faithful(ms[i]) && Fits(ms[i])
  }

  /** All that is sent is received, in order, whatever follows on the stream, exactly if each message would arrive on its own. */
  lemma {:induction false} StreamRoundTrip(seal: Seal, unseal: Unseal, ctr: nat, ms: seq<Message>, rest: Bytes)
    requires Cipher(seal, unseal) && forall i :: 0 <= i < |ms| ==> Typed(ms[i]) && |Plain(ms[i])| + TAG < B32
    ensures ReadAll(unseal, ctr, Stream(seal, ctr, ms) + rest, |ms|) == ms <==> AllArrive(ms)
    decreases |ms|
  {
    hide Next, Frame, Faithful, Typed, Fits, Cipher, Plain;
    if ms != [] {
      var tail := Stream(seal, ctr + 1, ms[1..]) + rest;
      var wire := Stream(seal, ctr, ms) + rest;
      assert wire == Frame(seal, ctr, ms[0]) + tail;
      FrameRoundTrip(seal, unseal, ctr, ms[0], tail);
      assert forall i :: 0 <= i < |ms| - 1 ==> ms[1..][i] == ms[i + 1];
      StreamRoundTrip(seal, unseal, ctr + 1, ms[1..], rest);
      AllArriveCons(ms);
      hide AllArrive;
      var r := Next(unseal, ctr, wire);
      if r.m == Some(ms[0]) {
        var got := ReadAll(unseal, r.ctr, r.rest, |ms| - 1);
        assert ReadAll(unseal, ctr, wire, |ms|) == [ms[0]] + got;
        assert ([ms[0]] + got)[1..] == got;
        assert [ms[0]] + ms[1..] == ms;
      }
    }
  }

  lemma AllArriveCons(ms: seq<Message>)
    requires ms != []
    ensures AllArrive(ms) <==> Faithful(ms[0]) && Fits(ms[0]) && AllArrive(ms[1..])
  {
    hide Faithful, Fits;
    assert forall i :: 0 <= i < |ms| - 1 ==> ms[1..][i] == ms[i + 1];
    assert forall i :: 1 <= i < |ms| ==> ms[i] == ms[1..][i - 1];
  }

  lemma FitsSize(m: Message)
    ensures Fits(m) ==> |Plain(m)| + TAG < B32
  {
  }

  /** One end of a connection: what it has written, what it has yet to read, and a counter for each direction. */
  class Conn {
    const seal: Seal
    const unseal: Unseal
    var sendCtr: nat
    var recvCtr: nat
    var written: Bytes
    var pending: Bytes

    constructor (seal: Seal, unseal: Unseal)
      ensures this.seal == seal && this.unseal == unseal && sendCtr == 0 && recvCtr == 0 && written == [] && pending == []
    {
      this.seal, this.unseal, sendCtr, recvCtr, written, pending := seal, unseal, 0, 0, [], [];
    }

    method Send(m: Message)
      modifies this
      ensures written == old(written) + Frame(seal, old(sendCtr), m) && sendCtr == old(sendCtr) + 1
      ensures recvCtr == old(recvCtr) && pending == old(pending)
    {
      hide Encode, PutUint;
      var plain: Bytes := [TypeOf(m)] + Encode(m);
      var ct := seal(sendCtr, plain);
      sendCtr := sendCtr + 1;
      var written0 := written;
      written := written + PutUint(|ct| % B32, 4);
      written := written + ct;
      assert written == written0 + (PutUint(|ct| % B32, 4) + ct);
    }

    method Recv() returns (m: Option<Message>)
      modifies this
      ensures Received(m, pending, recvCtr) == Next(unseal, old(recvCtr), old(pending))
      ensures sendCtr == old(sendCtr) && written == old(written)
    {
      var n := Get(pending, 4);
      if n.None? || n.value.0 > MAX_FRAME || |n.value.1| < n.value.0 {
        return None;
      }
      var ct := n.value.1[..n.value.0];
      pending := n.value.1[n.value.0..];
      var plain := unseal(recvCtr, ct);
      recvCtr := recvCtr + 1;
      if plain.None? || |plain.value| < 1 {
        return None;
      }
      m := Decode(plain.value[0], plain.value[1..]);
    }
  }

  /** A whole conversation in one direction: what one end sends, the other receives, message by message. */
  method Converse(a: Conn, b: Conn, ms: seq<Message>) returns (got: seq<Message>)
    requires a != b && Cipher(a.seal, b.unseal) && a.sendCtr == b.recvCtr && b.pending == []
    requires forall i :: 0 <= i < |ms| ==> Typed(ms[i]) && Faithful(ms[i]) && Fits(ms[i])
    modifies a, b
    ensures got == ms && a.sendCtr == b.recvCtr && b.pending == []
  {
    hide Next, Frame, Faithful, Typed, Fits, Cipher, Plain;
    got := [];
    for i := 0 to |ms|
      invariant got == ms[..i] && a.sendCtr == b.recvCtr && b.pending == []
    {
      var before, ctr := a.written, a.sendCtr;
      a.Send(ms[i]);
      b.pending := a.written[|before|..];
      assert b.pending == Frame(a.seal, ctr, ms[i]) + [];
      FitsSize(ms[i]);
      FrameRoundTrip(a.seal, b.unseal, ctr, ms[i], []);
      var m := b.Recv();
      got := got + [m.value];
    }
  }
}
