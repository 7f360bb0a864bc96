/** Addresses as bytes: the machine arithmetic that finds common bits, picks a bit and clears the bits behind a prefix. */
module AddressBytes {
  import opened Basics
  import opened AddressBits

  // ---------------------------------------------------------------- numbers and their bits

  function Bit(b: bool): nat { if b then 1 else 0 }

  function Pow2(n: nat): (r: nat)
    ensures r > 0
  {
    if n == 0 then 1 else 2 * Pow2(n - 1)
  }

  /** The number a bit string stands for, most significant bit first. */
  function Num(s: Bits): nat {
    if s == [] then 0 else 2 * Num(s[..|s| - 1]) + Bit(s[|s| - 1])
  }

  /** The last `n` bits of a number. */
  function ToBits(v: nat, n: nat): (r: Bits)
    ensures |r| == n
  {
    if n == 0 then [] else ToBits(v / 2, n - 1) + [v % 2 == 1]
  }

  lemma {:induction false} NumToBits(v: nat, n: nat)
    requires v < Pow2(n)
    ensures Num(ToBits(v, n)) == v
  {
    if n > 0 {
      NumToBits(v / 2, n - 1);
      assert ToBits(v, n)[..n - 1] == ToBits(v / 2, n - 1);
    }
  }

  lemma {:induction false} NumAppend(a: Bits, b: Bits)
    ensures Num(a + b) == Num(a) * Pow2(|b|) + Num(b)
  {
    if b == [] {
      assert a + b == a;
    } else {
      var front := b[..|b| - 1];
      NumAppend(a, front);
      assert (a + b)[..|a + b| - 1] == a + front;
      Twice(Num(a), Pow2(|front|));
    }
  }

  lemma Twice(x: nat, p: nat)
    ensures 2 * (x * p) == x * (2 * p)
  {
  }

  // ---------------------------------------------------------------- machine operations

  /** Exclusive or, bit by bit. */
  function Xor(a: nat, b: nat): nat {
    if a == 0 && b == 0 then 0 else 2 * Xor(a / 2, b / 2) + Bit(a % 2 != b % 2)
  }

  function And(a: nat, b: nat): nat {
    if a == 0 || b == 0 then 0 else 2 * And(a / 2, b / 2) + Bit(a % 2 == 1 && b % 2 == 1)
  }

  lemma {:induction false} XorTwice(a: nat, b: nat)
    ensures Xor(Xor(a, b), b) == a
  {
    if a != 0 || b != 0 {
      XorTwice(a / 2, b / 2);
      Halve(Xor(a / 2, b / 2), a % 2 != b % 2);
    }
  }

  lemma {:induction false} XorBound(a: nat, b: nat, n: nat)
    requires a < Pow2(n) && b < Pow2(n)
    ensures Xor(a, b) < Pow2(n)
  {
    if n > 0 && (a != 0 || b != 0) {
      XorBound(a / 2, b / 2, n - 1);
    }
  }

  /** Exclusive or of two bytes. */
  function Xor8(a: Byte, b: Byte): (r: Byte)
    ensures b == 0 ==> r == a
  {
    Pow2Eight();
    XorBound(a, b, 8);
    XorZero(a);
    Xor(a, b)
  }

  lemma {:induction false} XorZero(a: nat)
    ensures Xor(a, 0) == a
  {
    if a != 0 {
      XorZero(a / 2);
    }
  }

  /** The number of bits that are needed to write a number. */
  function Len(x: nat): nat {
    if x == 0 then 0 else 1 + Len(x / 2)
  }

  function LeadingZeros(x: nat, width: nat): int {
    width - Len(x)
  }

  function XorBits(a: Bits, b: Bits): (r: Bits)
    requires |a| == |b|
    ensures |r| == |a| && forall k :: 0 <= k < |a| ==> r[k] == (a[k] != b[k])
  {
    seq(|a|, k requires 0 <= k < |a| => a[k] != b[k])
  }

  function AndBits(a: Bits, b: Bits): (r: Bits)
    requires |a| == |b|
    ensures |r| == |a| && forall k :: 0 <= k < |a| ==> r[k] == (a[k] && b[k])
  {
    seq(|a|, k requires 0 <= k < |a| => a[k] && b[k])
  }

  lemma Halve(n: nat, b: bool)
    ensures (2 * n + Bit(b)) / 2 == n && (2 * n + Bit(b)) % 2 == Bit(b)
  {
  }

  lemma {:induction false} XorNum(a: Bits, b: Bits)
    requires |a| == |b|
    ensures Xor(Num(a), Num(b)) == Num(XorBits(a, b))
  {
    if a == [] {
    } else {
      var n := |a| - 1;
      XorNum(a[..n], b[..n]);
      assert XorBits(a, b)[..n] == XorBits(a[..n], b[..n]);
      Halve(Num(a[..n]), a[n]);
      Halve(Num(b[..n]), b[n]);
    }
  }

  lemma {:induction false} AndNum(a: Bits, b: Bits)
    requires |a| == |b|
    ensures And(Num(a), Num(b)) == Num(AndBits(a, b))
  {
    if a == [] {
    } else {
      var n := |a| - 1;
      AndNum(a[..n], b[..n]);
      assert AndBits(a, b)[..n] == AndBits(a[..n], b[..n]);
      Halve(Num(a[..n]), a[n]);
      Halve(Num(b[..n]), b[n]);
    }
  }

  /** The position of the first bit that is set. */
  function FirstSet(s: Bits): (r: nat)
    ensures r <= |s| && (r < |s| ==> s[r]) && forall k :: 0 <= k < r ==> !s[k]
  {
    if s == [] || s[0] then 0 else 1 + FirstSet(s[1..])
  }

  lemma {:induction false} LenNum(s: Bits)
    ensures Len(Num(s)) == |s| - FirstSet(s)
    ensures Num(s) == 0 <==> FirstSet(s) == |s|
  {
    if s != [] {
      var n := |s| - 1;
      LenNum(s[..n]);
      Halve(Num(s[..n]), s[n]);
      var f, g := FirstSet(s), FirstSet(s[..n]);
      assert forall k :: 0 <= k < n ==> s[..n][k] == s[k];
      assert g < n ==> f == g;
    }
  }

  lemma FirstDifference(a: Bits, b: Bits)
    requires |a| == |b|
    ensures FirstSet(XorBits(a, b)) == CommonBits(a, b)
  {
    var f, c := FirstSet(XorBits(a, b)), CommonBits(a, b);
    assert forall k :: 0 <= k < c ==> a[..c][k] == a[k] && b[..c][k] == b[k];
  }

  // ---------------------------------------------------------------- bytes

  function ByteBits(b: Byte): (r: Bits)
    ensures |r| == 8
  {
    ToBits(b, 8)
  }

  lemma Pow2Eight()
    ensures Pow2(8) == 256
  {
    assert Pow2(1) == 2 && Pow2(2) == 4 && Pow2(3) == 8 && Pow2(4) == 16;
    assert Pow2(5) == 32 && Pow2(6) == 64 && Pow2(7) == 128;
  }

  function BitsOf(ip: seq<Byte>): (r: Bits)
    ensures |r| == 8 * |ip|
  {
    if ip == [] then [] else BitsOf(ip[..|ip| - 1]) + ByteBits(ip[|ip| - 1])
  }

  lemma ByteAppend(a: Bits, b: Byte)
    ensures Num(a + ByteBits(b)) == 256 * Num(a) + b
  {
    hide Num, ToBits, Pow2;
    Pow2Eight();
    NumToBits(b, 8);
    NumAppend(a, ByteBits(b));
  }

  lemma {:induction false} UintBits(ip: seq<Byte>)
    ensures BigEndian(ip) == Num(BitsOf(ip))
  {
    if ip != [] {
      var n := |ip| - 1;
      UintBits(ip[..n]);
      ByteAppend(BitsOf(ip[..n]), ip[n]);
      hide Num, ByteBits;
    }
  }

  lemma {:induction false} BitsAppend(a: seq<Byte>, b: seq<Byte>)
    ensures BitsOf(a + b) == BitsOf(a) + BitsOf(b)
  {
    if b == [] {
      assert a + b == a;
    } else {
      assert (a + b)[..|a + b| - 1] == a + b[..|b| - 1];
      BitsAppend(a, b[..|b| - 1]);
    }
  }

  lemma {:induction false} CommonBitsAppend(a: Bits, b: Bits, c: Bits, d: Bits)
    requires |a| == |c| && |b| == |d|
    ensures CommonBits(a + b, c + d) == if a == c then |a| + CommonBits(b, d) else CommonBits(a, c)
  {
    if a == [] {
      assert a + b == b && c + d == d;
    } else {
      assert (a + b)[1..] == a[1..] + b && (c + d)[1..] == c[1..] + d;
      assert a == [a[0]] + a[1..] && c == [c[0]] + c[1..];
      CommonBitsAppend(a[1..], b, c[1..], d);
    }
  }

  /** Common bits of one machine word. */
  lemma WordCommon(a: seq<Byte>, b: seq<Byte>)
    requires |a| == |b|
    ensures LeadingZeros(Xor(BigEndian(a), BigEndian(b)), 8 * |a|) == CommonBits(BitsOf(a), BitsOf(b))
    ensures Xor(BigEndian(a), BigEndian(b)) == 0 <==> BitsOf(a) == BitsOf(b)
  {
    UintBits(a);
    UintBits(b);
    XorNum(BitsOf(a), BitsOf(b));
    LenNum(XorBits(BitsOf(a), BitsOf(b)));
    FirstDifference(BitsOf(a), BitsOf(b));
    var c := CommonBits(BitsOf(a), BitsOf(b));
    assert c == |BitsOf(a)| ==> BitsOf(a)[..c] == BitsOf(a) && BitsOf(b)[..c] == BitsOf(b);
  }

  /** Addresses have 4 or 16 bytes; long ones are compared by halves. */
  function CommonBitsOfBytes(ip1: seq<Byte>, ip2: seq<Byte>): int
    requires |ip1| == |ip2| && |ip1| in {4, 16}
  {
    if |ip1| == 4 then LeadingZeros(Xor(BigEndian(ip1), BigEndian(ip2)), 32)
    else
      var x := Xor(BigEndian(ip1[..8]), BigEndian(ip2[..8]));
      if x != 0 then LeadingZeros(x, 64) else 64 + LeadingZeros(Xor(BigEndian(ip1[8..]), BigEndian(ip2[8..])), 64)
  }

  lemma CommonBitsAre(ip1: seq<Byte>, ip2: seq<Byte>)
    requires |ip1| == |ip2| && |ip1| in {4, 16}
    ensures CommonBitsOfBytes(ip1, ip2) == CommonBits(BitsOf(ip1), BitsOf(ip2))
  {
    hide BigEndian, Xor, LeadingZeros, CommonBits;
    if |ip1| == 4 {
      WordCommon(ip1, ip2);
    } else {
      WordCommon(ip1[..8], ip2[..8]);
      WordCommon(ip1[8..], ip2[8..]);
      assert ip1[..8] + ip1[8..] == ip1 && ip2[..8] + ip2[8..] == ip2;
      BitsAppend(ip1[..8], ip1[8..]);
      BitsAppend(ip2[..8], ip2[8..]);
      CommonBitsAppend(BitsOf(ip1[..8]), BitsOf(ip1[8..]), BitsOf(ip2[..8]), BitsOf(ip2[8..]));
    }
  }

  // ---------------------------------------------------------------- picking a bit

  lemma {:induction false} BitsAt(ip: seq<Byte>, k: nat)
    requires k < 8 * |ip|
    ensures BitsOf(ip)[k] == ByteBits(ip[k / 8])[k % 8]
  {
    hide ByteBits;
    var n := |ip| - 1;
    if k < 8 * n {
      BitsAt(ip[..n], k);
    }
  }

  lemma DivTwice(v: nat, p: nat)
    requires p > 0
    ensures v / (2 * p) == v / 2 / p
  {
    var q, r := v / 2 / p, v / 2 % p;
    assert v / 2 == q * p + r;
    Twice(q, p);
    assert v == q * (2 * p) + (2 * r + v % 2);
    var q' := v / (2 * p);
    assert (q' - q) * (2 * p) == q' * (2 * p) - q * (2 * p);
    Multiples(q' - q, 2 * p);
  }

  lemma Multiples(d: int, g: nat)
    requires g > 0
    ensures d >= 1 ==> d * g >= g
    ensures d <= -1 ==> d * g <= 0 - g
  {
  }

  lemma {:induction false} ToBitsAt(v: nat, n: nat, j: nat)
    requires j < n
    ensures ToBits(v, n)[j] == (v / Pow2(n - 1 - j) % 2 == 1)
  {
    if j < n - 1 {
      ToBitsAt(v / 2, n - 1, j);
      DivTwice(v, Pow2(n - 2 - j));
    }
  }

  /** The bit at position `cidr`: a shift of the byte it is in. */
  function Choose(ip: seq<Byte>, cidr: nat): nat
    requires cidr < 8 * |ip|
  {
    ip[cidr / 8] / Pow2(7 - cidr % 8) % 2
  }

  lemma ChooseIs(ip: seq<Byte>, cidr: nat)
    requires cidr < 8 * |ip|
    ensures Choose(ip, cidr) == Bit(BitsOf(ip)[cidr])
  {
    BitsAt(ip, cidr);
    ToBitsAt(ip[cidr / 8], 8, cidr % 8);
  }

  // ---------------------------------------------------------------- clearing bits

  /** The first `n` of eight bits. */
  function MaskByte(n: nat): (r: nat)
    ensures r < 256
  {
    if n >= 8 then 255 else 255 - 255 / Pow2(n)
  }

  function Trues(n: nat): (r: Bits)
    ensures |r| == n && forall k :: 0 <= k < n ==> r[k]
  {
    seq(n, _ => true)
  }

  function Falses(n: nat): (r: Bits)
    ensures |r| == n && forall k :: 0 <= k < n ==> !r[k]
  {
    seq(n, _ => false)
  }

  lemma {:induction false} NumTrues(n: nat)
    ensures Num(Trues(n)) == Pow2(n) - 1 && Num(Falses(n)) == 0
  {
    if n > 0 {
      NumTrues(n - 1);
      assert Trues(n)[..n - 1] == Trues(n - 1) && Falses(n)[..n - 1] == Falses(n - 1);
    }
  }

  lemma MaskNum(n: nat)
    requires n <= 8
    ensures Num(Trues(n) + Falses(8 - n)) == MaskByte(n)
  {
    NumTrues(n);
    NumTrues(8 - n);
    NumAppend(Trues(n), Falses(8 - n));
    hide Num;
    Powers();
    MaskProducts(n);
  }

  lemma Powers()
    ensures Pow2(0) == 1 && Pow2(1) == 2 && Pow2(2) == 4 && Pow2(3) == 8 && Pow2(4) == 16
    ensures Pow2(5) == 32 && Pow2(6) == 64 && Pow2(7) == 128 && Pow2(8) == 256
  {
    Pow2Eight();
    assert Pow2(1) == 2 && Pow2(2) == 4 && Pow2(3) == 8 && Pow2(4) == 16;
    assert Pow2(5) == 32 && Pow2(6) == 64 && Pow2(7) == 128;
  }

  lemma MaskProducts(n: nat)
    requires n <= 8
    ensures (Pow2(n) - 1) * Pow2(8 - n) == MaskByte(n)
  {
    Powers();
    hide Pow2;
    assert n in {0, 1, 2, 3, 4, 5, 6, 7, 8};
  }

  lemma {:induction false} ToBitsNum(s: Bits)
    ensures ToBits(Num(s), |s|) == s
  {
    if s != [] {
      var n := |s| - 1;
      ToBitsNum(s[..n]);
      Halve(Num(s[..n]), s[n]);
      assert s == s[..n] + [s[n]];
    }
  }

  lemma {:induction false} NumBound(s: Bits)
    ensures Num(s) < Pow2(|s|)
  {
    if s != [] {
      NumBound(s[..|s| - 1]);
    }
  }

  /** Masking a byte keeps its first `n` bits. */
  lemma MaskedByte(b: Byte, n: nat)
    requires n <= 8
    ensures And(b, MaskByte(n)) < 256
    ensures forall j :: 0 <= j < 8 ==> ToBits(And(b, MaskByte(n)), 8)[j] == (j < n && ByteBits(b)[j])
  {
    var m := Trues(n) + Falses(8 - n);
    var kept := AndBits(ByteBits(b), m);
    Pow2Eight();
    NumToBits(b, 8);
    MaskNum(n);
    AndNum(ByteBits(b), m);
    ToBitsNum(kept);
    NumBound(kept);
    hide Num, And, ToBits, Pow2;
  }

  /** How many bits of byte `i` a prefix covers. */
  function Covered(cidr: nat, i: nat): (n: nat)
    ensures n <= 8
  {
    if cidr >= 8 * i + 8 then 8 else if cidr <= 8 * i then 0 else cidr - 8 * i
  }

  /** Clears the bits behind a prefix in place, byte by byte. */
  method MaskSelf(bits: array<Byte>, cidr: nat)
    requires cidr <= 8 * bits.Length
    modifies bits
    ensures BitsOf(bits[..]) == Mask(BitsOf(old(bits[..])), cidr)
  {
    hide And, MaskByte;
    ghost var before := bits[..];
    var n, i := cidr, 0;
    while i < bits.Length
      invariant i <= bits.Length && n == (if cidr >= 8 * i then cidr - 8 * i else 0)
      invariant forall k :: i <= k < bits.Length ==> bits[k] == before[k]
      invariant forall k :: 0 <= k < i ==> And(before[k], MaskByte(Covered(cidr, k))) == bits[k]
    {
      MaskedByte(bits[i], Covered(cidr, i));
      if n >= 8 {
        bits[i] := And(bits[i], MaskByte(8));
        n := n - 8;
      } else {
        bits[i] := And(bits[i], MaskByte(n));
        n := 0;
      }
      i := i + 1;
    }
    MaskedAll(before, bits[..], cidr);
  }

  lemma MaskedAll(before: seq<Byte>, after: seq<Byte>, cidr: nat)
    requires |before| == |after| && cidr <= 8 * |before|
    requires forall k :: 0 <= k < |before| ==> And(before[k], MaskByte(Covered(cidr, k))) == after[k]
    ensures BitsOf(after) == Mask(BitsOf(before), cidr)
  {
    hide And, MaskByte, BitsOf, ToBits;
    var a, b := BitsOf(before), BitsOf(after);
    forall k | 0 <= k < |a| ensures b[k] == Mask(a, cidr)[k] {
      BitsAt(before, k);
      BitsAt(after, k);
      MaskedByte(before[k / 8], Covered(cidr, k / 8));
      assert k < cidr ==> a[..cidr][k] == a[k] && Mask(a, cidr)[..cidr][k] == Mask(a, cidr)[k];
    }
  }
}
