/**
 The Internet checksum of RFC 1071, computed 64 bits at a time in the byte order of the host and
 folded at the end, against its definition as a one's-complement sum of big-endian 16-bit words.
 */
module Checksum {
  import opened Basics

  type Uint64 = x: int | 0 <= x < B64

  // ---------------------------------------------------------------- reference

  function Word16(hi: Byte, lo: Byte): nat {
    256 * hi + lo
  }

  /** Sum of the big-endian 16-bit words of `b`; an odd last byte is the high byte of a word. */
  function Sum16(b: seq<Byte>): nat {
    if b == [] then 0
    else if |b| == 1 then 256 * b[0]
    else Word16(b[0], b[1]) + Sum16(b[2..])
  }

  /** A sum reduced to 16 bits with end-around carry. */
  function OnesSum(total: nat): (r: nat)
    ensures r <= 0xFFFF && (r == 0 <==> total == 0)
  {
    if total == 0 then 0 else 1 + (total - 1) % 0xFFFF
  }

  lemma {:induction false} Sum16Append(a: seq<Byte>, b: seq<Byte>)
    requires |a| % 2 == 0
    ensures Sum16(a + b) == Sum16(a) + Sum16(b)
  {
    if a == [] {
      assert a + b == b;
    } else {
      assert (a + b)[2..] == a[2..] + b;
      Sum16Append(a[2..], b);
    }
  }

  // ---------------------------------------------------------------- congruence modulo 65535

  predicate Cong(a: int, b: int) {
    (a - b) % 0xFFFF == 0
  }

  lemma CongMultiple(a: int, b: int, q: int)
    requires a == b + 0xFFFF * q
    ensures Cong(a, b) && Cong(b, a)
  {
  }

  lemma CongAdd(a: int, b: int, c: int, d: int)
    requires Cong(a, b) && Cong(c, d)
    ensures Cong(a + c, b + d)
  {
  }

  lemma CongTrans(a: int, b: int, c: int)
    requires Cong(a, b) && Cong(b, c)
    ensures Cong(a, c)
  {
    CongAdd(a, b, b, c);
  }

  lemma CongSwap(a: int, b: int)
    requires Cong(a, b)
    ensures Cong(256 * a, 256 * b)
  {
    var q := (a - b) / 0xFFFF;
    assert 256 * a - 256 * b == 0xFFFF * (256 * q);
  }

  /** `x` and the one's-complement sum of `total` are the same 16-bit value. */
  predicate Represents(x: int, total: nat) {
    x >= 0 && Cong(x, total) && (x == 0 <==> total == 0)
  }

  lemma RepresentsOnesSum(x: nat, total: nat)
    requires Represents(x, total) && x <= 0xFFFF
    ensures x == OnesSum(total)
  {
  }

  // ---------------------------------------------------------------- words in host byte order

  function LittleEndian(b: seq<Byte>): nat {
    if b == [] then 0 else b[0] + 256 * LittleEndian(b[1..])
  }

  function Native(b: seq<Byte>, little: bool): nat {
    if little then LittleEndian(b) else BigEndian(b)
  }

  /** A sum as it looks in the accumulator: in host byte order. */
  function Scale(x: int, little: bool): int {
    if little then 256 * x else x
  }

  lemma {:induction false} LittleEndianSum(b: seq<Byte>)
    requires |b| % 2 == 0
    ensures Cong(LittleEndian(b), 256 * Sum16(b))
  {
    hide Cong;
    if b == [] {
      CongMultiple(0, 0, 0);
    } else {
      LittleEndianSum(b[2..]);
      assert b[1..][1..] == b[2..];
      var w, rest := Word16(b[0], b[1]), LittleEndian(b[2..]);
      var lo: int, hi: int := b[0], b[1];
      assert LittleEndian(b) == lo + 256 * hi + 65536 * rest == 256 * w + rest - 0xFFFF * lo + 0xFFFF * rest;
      CongMultiple(LittleEndian(b), 256 * w + rest, rest - lo);
      CongMultiple(256 * w, 256 * w, 0);
      CongAdd(256 * w, 256 * w, rest, 256 * Sum16(b[2..]));
      CongTrans(LittleEndian(b), 256 * w + rest, 256 * Sum16(b));
    }
  }

  lemma {:induction false} BigEndianSum(b: seq<Byte>)
    requires |b| % 2 == 0
    ensures Cong(BigEndian(b), Sum16(b))
  {
    hide Cong;
    if b == [] {
      CongMultiple(0, 0, 0);
    } else {
      var n := |b| - 2;
      BigEndianSum(b[..n]);
      assert b[..n + 1][..n] == b[..n] && b == b[..n] + b[n..];
      Sum16Append(b[..n], b[n..]);
      var w := Word16(b[n], b[n + 1]);
      var front := BigEndian(b[..n]);
      assert BigEndian(b) == 65536 * front + w == front + w + 0xFFFF * front;
      CongMultiple(BigEndian(b), front + w, front);
      CongMultiple(w, w, 0);
      CongAdd(front, Sum16(b[..n]), w, w);
      CongTrans(BigEndian(b), front + w, Sum16(b));
    }
  }

  ghost predicate AllZero(b: seq<Byte>) {
    forall i :: 0 <= i < |b| ==> b[i] == 0
  }

  lemma {:induction false} Zeros(b: seq<Byte>)
    ensures LittleEndian(b) == 0 <==> AllZero(b)
    ensures BigEndian(b) == 0 <==> AllZero(b)
    ensures Sum16(b) == 0 <==> AllZero(b)
    decreases |b|
  {
    if b != [] {
      var n := |b| - 1;
      Zeros(b[1..]);
      Zeros(b[..n]);
      ZeroParts(b, 1);
      ZeroParts(b, n);
      if |b| > 1 {
        Zeros(b[2..]);
        ZeroParts(b, 2);
      }
      hide AllZero;
    }
  }

  lemma ZeroParts(b: seq<Byte>, n: nat)
    requires n <= |b|
    ensures AllZero(b) <==> AllZero(b[..n]) && AllZero(b[n..])
    ensures n == 1 ==> (AllZero(b[..n]) <==> b[0] == 0)
    ensures n == 2 ==> (AllZero(b[..n]) <==> b[0] == 0 && b[1] == 0)
    ensures n == |b| - 1 ==> (AllZero(b[n..]) <==> b[n] == 0)
  {
    assert forall i :: 0 <= i < |b| ==> b[i] == if i < n then b[..n][i] else b[n..][i - n];
    assert forall i :: 0 <= i < |b| - n ==> b[n..][i] == b[n + i];
    assert n == |b| - 1 ==> b[n..][0] == b[n];
  }

  lemma {:induction false} WordBound(b: seq<Byte>)
    ensures LittleEndian(b) < Pow256(|b|) && BigEndian(b) < Pow256(|b|)
  {
    if b != [] {
      WordBound(b[1..]);
      WordBound(b[..|b| - 1]);
    }
  }

  lemma Pow256Is()
    ensures Pow256(2) == 0x1_0000 && Pow256(4) == 0x1_0000_0000 && Pow256(8) == B64
  {
    assert Pow256(2) == 256 * Pow256(1) == 0x1_0000;
    assert Pow256(4) == 256 * Pow256(3) == 0x1_0000 * Pow256(2) == 0x1_0000_0000;
    assert Pow256(6) == 256 * Pow256(5) == 0x1_0000 * Pow256(4);
    assert Pow256(8) == 256 * Pow256(7) == 0x1_0000 * Pow256(6) == B64;
  }

  /** A word read in host byte order stands for the sum of its 16-bit words. */
  lemma NativeWord(b: seq<Byte>, little: bool)
    requires |b| in {2, 4, 8}
    ensures 0 <= Native(b, little) < B64
    ensures Cong(Native(b, little), Scale(Sum16(b), little)) && (Native(b, little) == 0 <==> Sum16(b) == 0)
  {
    LittleEndianSum(b);
    BigEndianSum(b);
    Zeros(b);
    WordBound(b);
    Pow256Is();
  }

  // ---------------------------------------------------------------- bytes of a 64-bit value

  function ToLittleEndian(x: nat, n: nat): (b: seq<Byte>)
    ensures |b| == n
    ensures x < Pow256(n) ==> LittleEndian(b) == x
  {
    if n == 0 then [] else [x % 256] + ToLittleEndian(x / 256, n - 1)
  }

  /** What `binary.BigEndian.Uint64` reads from `x` put down in host byte order. */
  function Swap(x: Uint64, little: bool): nat {
    if little then BigEndian(ToLittleEndian(x, 8)) else x
  }

  lemma SwapScales(x: Uint64, little: bool)
    ensures 0 <= Swap(x, little) < B64 && Cong(Swap(x, little), Scale(x, little)) && (Swap(x, little) == 0 <==> x == 0)
  {
    if little {
      var b := ToLittleEndian(x, 8);
      NativeWord(b, true);
      NativeWord(b, false);
      Pow256Is();
      SwapCong(x, Sum16(b), BigEndian(b));
    }
  }

  lemma SwapCong(x: int, s: int, y: int)
    requires Cong(x, 256 * s) && Cong(y, s)
    ensures Cong(y, 256 * x)
  {
    hide Cong;
    Square(s);
    CongSwap(x, 256 * s);
    CongSym(256 * x, 256 * (256 * s));
    CongTrans(y, s, 256 * (256 * s));
    CongTrans(y, 256 * (256 * s), 256 * x);
  }

  lemma CongSym(a: int, b: int)
    requires Cong(a, b)
    ensures Cong(b, a)
  {
  }

  /** 256 squared is 1 modulo 65535. */
  lemma Square(s: int)
    ensures Cong(256 * (256 * s), s) && Cong(s, 256 * (256 * s))
  {
    CongMultiple(256 * (256 * s), s, s);
  }

  // ---------------------------------------------------------------- the accumulator

  function Add64(x: Uint64, y: Uint64, carry: nat): (r: (Uint64, nat))
    requires carry <= 1
    ensures r.1 <= 1 && r.0 + B64 * r.1 == x + y + carry
  {
    ((x + y + carry) % B64, (x + y + carry) / B64)
  }

  /** `ac` is, in host byte order, the one's-complement sum of `total`. */
  predicate Tracks(ac: int, total: nat, little: bool) {
    ac >= 0 && Cong(ac, Scale(total, little)) && (ac == 0 <==> total == 0)
  }

  /** A chain of additions that has come to `ac` and a pending `carry`, which fit in 64 bits together. */
  predicate Chained(ac: Uint64, carry: nat, total: nat, little: bool) {
    carry <= 1 && ac + carry < B64 && Tracks(ac + carry, total, little)
  }

  /** One more addition with carry keeps the chain going. */
  lemma AddTracks(ac: Uint64, carry: nat, total: nat, w: Uint64, sum: nat, little: bool)
    requires Chained(ac, carry, total, little)
    requires Cong(w, Scale(sum, little)) && (w == 0 <==> sum == 0)
    ensures var r := Add64(ac, w, carry); Chained(r.0, r.1, total + sum, little)
  {
    hide Cong;
    var r := Add64(ac, w, carry);
    CongAdd(ac + carry, Scale(total, little), w, Scale(sum, little));
    assert B64 == 1 + 0xFFFF * 0x1_0001_0001_0001;
    CongMultiple(ac + carry + w, r.0 + r.1, 0x1_0001_0001_0001 * r.1);
    CongTrans(r.0 + r.1, ac + carry + w, Scale(total + sum, little));
  }

  /** One step of a chain: the word at the front of `b`. */
  method AddWord(ac0: Uint64, carry0: nat, b: seq<Byte>, ghost total: nat, little: bool) returns (ac: Uint64, carry: nat)
    requires |b| in {2, 4, 8} && Chained(ac0, carry0, total, little)
    ensures Chained(ac, carry, total + Sum16(b), little)
  {
    NativeWord(b, little);
    AddTracks(ac0, carry0, total, Native(b, little), Sum16(b), little);
    var r := Add64(ac0, Native(b, little), carry0);
    ac, carry := r.0, r.1;
  }

  /** A chain of additions with carry, ended by adding the last carry, which never overflows. */
  method AddChain(ac0: Uint64, b: seq<Byte>, ghost total: nat, little: bool) returns (ac: Uint64)
    requires |b| % 8 == 0 && Tracks(ac0, total, little)
    ensures Tracks(ac, total + Sum16(b), little)
  {
    ac := ac0;
    var carry, i := 0, 0;
    ChainStart(ac0, total, little);
    SumTo(b, 0);
    hide Sum16, Chained, Tracks;
    ghost var sum := total;
    while i < |b|
      invariant i <= |b| && i % 8 == 0
      invariant sum == total + Sum16(b[..i]) && Chained(ac, carry, sum, little)
    {
      SumTo(b, i);
      ac, carry := AddWord(ac, carry, b[i..i + 8], sum, little);
      sum := sum + Sum16(b[i..i + 8]);
      i := i + 8;
    }
    assert b[..i] == b;
    ChainEnd(ac, carry, sum, little);
    ac := ac + carry;
  }

  lemma SumTo(b: seq<Byte>, i: nat)
    requires i <= |b| && i % 8 == 0 && |b| % 8 == 0
    ensures Sum16(b[..0]) == 0
    ensures i < |b| ==> i + 8 <= |b| && Sum16(b[..i + 8]) == Sum16(b[..i]) + Sum16(b[i..i + 8])
  {
    hide Sum16;
    SumOfNone();
    Eights(i, |b|);
    if i < |b| {
      assert b[..i] + b[i..i + 8] == b[..i + 8];
      Sum16Append(b[..i], b[i..i + 8]);
    }
  }

  lemma SumOfNone()
    ensures Sum16([]) == 0
  {
  }

  lemma Eights(i: nat, n: nat)
    requires i % 8 == 0 && n % 8 == 0 && i <= n
    ensures i % 2 == 0 && (i < n ==> i + 8 <= n)
  {
  }

  lemma ChainStart(ac: Uint64, total: nat, little: bool)
    requires Tracks(ac, total, little)
    ensures Chained(ac, 0, total + Sum16([]), little)
  {
  }

  lemma ChainEnd(ac: Uint64, carry: nat, total: nat, little: bool)
    requires Chained(ac, carry, total, little)
    ensures ac + carry < B64 && Tracks(ac + carry, total, little)
  {
  }

  method AddShort(ac0: Uint64, b: seq<Byte>, ghost total: nat, little: bool) returns (ac: Uint64)
    requires |b| in {2, 4} && Tracks(ac0, total, little)
    ensures Tracks(ac, total + Sum16(b), little)
  {
    var r, carry := AddWord(ac0, 0, b, total, little);
    ac := r + carry;
  }

  /** The accumulator accounts for all of `data` but the rest `b`. */
  ghost predicate Summed(data: seq<Byte>, b: seq<Byte>, ac: Uint64, initial: nat, little: bool) {
    && |b| <= |data| && (|data| - |b|) % 2 == 0 && b == data[|data| - |b|..]
    && Tracks(ac, initial + Sum16(data[..|data| - |b|]), little)
  }

  method Consume(data: seq<Byte>, b: seq<Byte>, ac: Uint64, n: nat, ghost initial: nat, little: bool) returns (rest: seq<Byte>, ac': Uint64)
    requires n in {2, 4, 8, 16, 32, 64, 128} && n <= |b| && Summed(data, b, ac, initial, little)
    ensures rest == b[n..] && Summed(data, rest, ac', initial, little)
  {
    hide Tracks, Sum16;
    ghost var done := data[..|data| - |b|];
    assert |b[..n]| == n;
    if n < 8 {
      ac' := AddShort(ac, b[..n], initial + Sum16(done), little);
    } else {
      ac' := AddChain(ac, b[..n], initial + Sum16(done), little);
    }
    rest := b[n..];
    Sum16Append(done, b[..n]);
    assert data[..|data| - |rest|] == done + b[..n];
  }

  method ConsumeOnce(data: seq<Byte>, b: seq<Byte>, ac: Uint64, n: nat, ghost initial: nat, little: bool) returns (rest: seq<Byte>, ac': Uint64)
    requires n in {2, 4, 8, 16, 32, 64} && |b| < 2 * n && Summed(data, b, ac, initial, little)
    ensures |rest| < n && Summed(data, rest, ac', initial, little)
  {
    rest, ac' := b, ac;
    if |b| >= n {
      rest, ac' := Consume(data, b, ac, n, initial, little);
    }
  }

  /** The sum of `initial` and the 16-bit words of `data`, not yet folded to 16 bits. */
  method ChecksumNoFold(data: seq<Byte>, initial: Uint64, little: bool) returns (r: Uint64)
    ensures Represents(r, initial + Sum16(data))
  {
    SwapScales(initial, little);
    var ac: Uint64 := Swap(initial, little);
    var b := data;
    assert Summed(data, b, ac, initial, little);
    hide Summed, Cong, Represents, Tracks;
    while |b| >= 128
      invariant Summed(data, b, ac, initial, little)
    {
      b, ac := Consume(data, b, ac, 128, initial, little);
    }
    b, ac := ConsumeOnce(data, b, ac, 64, initial, little);
    b, ac := ConsumeOnce(data, b, ac, 32, initial, little);
    b, ac := ConsumeOnce(data, b, ac, 16, initial, little);
    b, ac := ConsumeOnce(data, b, ac, 8, initial, little);
    b, ac := ConsumeOnce(data, b, ac, 4, initial, little);
    b, ac := ConsumeOnce(data, b, ac, 2, initial, little);
    r := Finish(data, b, ac, initial, little);
  }

  /** Add an odd last byte, and give the sum in the byte order of the network. */
  method Finish(data: seq<Byte>, b: seq<Byte>, ac0: Uint64, ghost initial: nat, little: bool) returns (r: Uint64)
    requires |b| <= 1 && Summed(data, b, ac0, initial, little)
    ensures Represents(r, initial + Sum16(data))
  {
    hide Summed, Cong, Represents, Tracks;
    SummedTail(data, b, ac0, initial, little);
    var ac := ac0;
    if |b| == 1 {
      ac := AddShort(ac0, [b[0], 0], initial + Sum16(data[..|data| - 1]), little);
    }
    assert Tracks(ac, initial + Sum16(data), little);
    SwapScales(ac, little);
    r := Swap(ac, little);
    UnscaleSum(ac, r, initial + Sum16(data), little);
  }

  lemma SummedTail(data: seq<Byte>, b: seq<Byte>, ac: Uint64, initial: nat, little: bool)
    requires |b| <= 1 && Summed(data, b, ac, initial, little)
    ensures |b| <= |data| && Tracks(ac, initial + Sum16(data[..|data| - |b|]), little)
    ensures Sum16(data) == Sum16(data[..|data| - |b|]) + if |b| == 1 then Sum16([b[0], 0]) else 0
  {
    var done := data[..|data| - |b|];
    Sum16Append(done, b);
    assert data == done + b;
  }

  lemma UnscaleSum(ac: Uint64, r: int, total: nat, little: bool)
    requires Tracks(ac, total, little) && Cong(r, Scale(ac, little)) && (r == 0 <==> ac == 0) && r >= 0
    ensures Represents(r, total)
  {
    hide Cong;
    if little {
      CongSwap(ac, 256 * total);
      Square(total);
      CongTrans(256 * ac, 256 * (256 * total), total);
      CongTrans(r, 256 * ac, total);
    } else {
      CongTrans(r, ac, total);
    }
  }

  function Fold(x: nat): nat {
    x / 0x1_0000 + x % 0x1_0000
  }

  lemma FoldRepresents(x: nat, total: nat)
    requires Represents(x, total)
    ensures Represents(Fold(x), total)
  {
    hide Cong;
    CongMultiple(x, Fold(x), x / 0x1_0000);
    CongTrans(Fold(x), x, total);
  }

  /** Four folds take any 64-bit sum to 16 bits. */
  lemma FourFolds(x: Uint64)
    ensures Fold(Fold(Fold(Fold(x)))) <= 0xFFFF
  {
    var x1 := Fold(x);
    assert x1 <= 0x1_0000_0000_FFFE;
    var x2 := Fold(x1);
    assert x2 <= 0x1_0000_FFFE;
    var x3 := Fold(x2);
    assert x3 <= 0x1_FFFE;
  }

  method ComputeChecksum(b: seq<Byte>, initial: Uint64, little: bool) returns (r: nat)
    ensures r == OnesSum(initial + Sum16(b))
  {
    var ac: nat := ChecksumNoFold(b, initial, little);
    FourFolds(ac);
    FoldRepresents(ac, initial + Sum16(b));
    ac := Fold(ac);
    FoldRepresents(ac, initial + Sum16(b));
    ac := Fold(ac);
    FoldRepresents(ac, initial + Sum16(b));
    ac := Fold(ac);
    FoldRepresents(ac, initial + Sum16(b));
    ac := Fold(ac);
    RepresentsOnesSum(ac, initial + Sum16(b));
    r := ac;
  }

  // ---------------------------------------------------------------- pseudo-header and validity

  /** The words of a pseudo-header: addresses, protocol and length. */
  function PseudoSum(protocol: Byte, src: seq<Byte>, dst: seq<Byte>, totalLen: nat): nat {
    Sum16(src) + Sum16(dst) + protocol + totalLen
  }

  method PseudoHeaderChecksumNoFold(protocol: Byte, src: seq<Byte>, dst: seq<Byte>, totalLen: nat, little: bool) returns (r: Uint64)
    requires totalLen < 0x1_0000
    ensures Represents(r, PseudoSum(protocol, src, dst, totalLen))
  {
    hide Cong;
    r := ChecksumNoFold(src, 0, little);
    ghost var t0 := r;
    r := ChecksumNoFold(dst, r, little);
    RepresentsAdd(r, t0, Sum16(src), Sum16(dst));
    ghost var t1 := r;
    r := ChecksumNoFold([0, protocol], r, little);
    assert Sum16([0, protocol]) == protocol;
    RepresentsAdd(r, t1, Sum16(src) + Sum16(dst), protocol);
    ghost var t2 := r;
    r := ChecksumNoFold([totalLen / 256, totalLen % 256], r, little);
    assert Sum16([totalLen / 256, totalLen % 256]) == totalLen;
    RepresentsAdd(r, t2, Sum16(src) + Sum16(dst) + protocol, totalLen);
  }

  /** Sums can be continued from an unfolded partial sum. */
  lemma RepresentsAdd(r: int, x: nat, total: nat, more: nat)
    requires Represents(x, total) && Represents(r, x + more)
    ensures Represents(r, total + more)
  {
    hide Cong;
    CongMultiple(more, more, 0);
    CongAdd(x, total, more, more);
    CongTrans(r, x + more, total + more);
  }

  lemma OnesSumRepresents(x: nat, total: nat)
    requires Represents(x, total)
    ensures OnesSum(x) == OnesSum(total)
  {
  }

  /** The check a receiver makes: all words, the checksum's own included, add up to minus zero. */
  predicate Valid(segment: seq<Byte>, pseudo: nat) {
    OnesSum(pseudo + Sum16(segment)) == 0xFFFF
  }

  function PutUint16(b: seq<Byte>, at: nat, v: nat): (r: seq<Byte>)
    requires at + 2 <= |b| && v < 0x1_0000
    ensures |r| == |b| && Word16(r[at], r[at + 1]) == v
    ensures forall k :: 0 <= k < |b| && k != at && k != at + 1 ==> r[k] == b[k]
  {
    b[at := v / 256][at + 1 := v % 256]
  }

  /** Writing an aligned 16-bit field replaces its word in the sum. */
  lemma Sum16Put(b: seq<Byte>, at: nat, v: nat)
    requires at % 2 == 0 && at + 2 <= |b| && v < 0x1_0000
    ensures Sum16(PutUint16(b, at, v)) == Sum16(b) - Word16(b[at], b[at + 1]) + v
  {
    var r := PutUint16(b, at, v);
    Sum16Split(b, at);
    Sum16Split(r, at);
    assert r[..at] == b[..at] && r[at + 2..] == b[at + 2..];
  }

  lemma Sum16Split(b: seq<Byte>, at: nat)
    requires at % 2 == 0 && at + 2 <= |b|
    ensures Sum16(b) == Sum16(b[..at]) + Word16(b[at], b[at + 1]) + Sum16(b[at + 2..])
  {
    assert b[at..][2..] == b[at + 2..];
    assert Sum16(b[at..]) == Word16(b[at], b[at + 1]) + Sum16(b[at + 2..]);
    hide Sum16;
    assert b == b[..at] + b[at..];
    Sum16Append(b[..at], b[at..]);
  }

  /** Complementing the sum into a field that was zero makes the whole valid. */
  lemma ComplementValid(b: seq<Byte>, at: nat, pseudo: nat)
    requires at % 2 == 0 && at + 2 <= |b| && b[at] == 0 && b[at + 1] == 0
    ensures Valid(PutUint16(b, at, 0xFFFF - OnesSum(pseudo + Sum16(b))), pseudo)
  {
    hide OnesSum, Sum16, PutUint16, Word16;
    var x := pseudo + Sum16(b);
    ComplementSum(x);
    ZeroWord();
    Sum16Put(b, at, 0xFFFF - OnesSum(x));
    assert pseudo + Sum16(PutUint16(b, at, 0xFFFF - OnesSum(x))) == x + (0xFFFF - OnesSum(x));
  }

  lemma ZeroWord()
    ensures Word16(0, 0) == 0
  {
  }

  lemma ComplementSum(x: nat)
    ensures OnesSum(x + (0xFFFF - OnesSum(x))) == 0xFFFF
  {
    if x > 0 {
      var q, r := (x - 1) / 0xFFFF, (x - 1) % 0xFFFF;
      assert x + (0xFFFF - OnesSum(x)) - 1 == 0xFFFF * q + 0xFFFE;
    }
  }
}
