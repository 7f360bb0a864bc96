/** Addresses as bit strings, most significant bit first: 32 bits for IPv4, 128 for IPv6. */
module AddressBits {
  type Bits = seq<bool>

  /** Length of the longest common prefix. */
  function CommonBits(a: Bits, b: Bits): (r: nat)
    requires |a| == |b|
    ensures r <= |a|
    ensures a[..r] == b[..r]
    ensures r < |a| ==> a[r] != b[r]
  {
    if a == [] || a[0] != b[0] then 0
    else
      var r := CommonBits(a[1..], b[1..]);
      assert a[..1 + r] == [a[0]] + a[1..][..r] && b[..1 + r] == [b[0]] + b[1..][..r];
      1 + r
  }

  /** `a` with every bit from position `cidr` on cleared. */
  function Mask(a: Bits, cidr: nat): (r: Bits)
    requires cidr <= |a|
    ensures |r| == |a|
    ensures r[..cidr] == a[..cidr]
    ensures forall k :: cidr <= k < |r| ==> !r[k]
  {
    a[..cidr] + seq(|a| - cidr, _ => false)
  }

  /** A prefix of `n` bits is shared exactly when the common prefix is at least that long. */
  lemma CommonBitsAtLeast(a: Bits, b: Bits, n: nat)
    requires |a| == |b| && n <= |a|
    ensures CommonBits(a, b) >= n <==> a[..n] == b[..n]
  {
    var r := CommonBits(a, b);
    if r >= n {
      assert a[..n] == a[..r][..n] && b[..n] == b[..r][..n];
    } else {
      assert a[..n][r] == a[r] && b[..n][r] == b[r];
    }
  }

  /** An address masked to `n` bits depends only on those bits. */
  lemma MaskOfCovered(a: Bits, b: Bits, n: nat)
    requires |a| == |b| && n <= |a| && a == Mask(a, n) && a[..n] == b[..n]
    ensures a == Mask(b, n)
  {
  }

  lemma AgreeShorter(a: Bits, b: Bits, n: nat, m: nat)
    requires n <= |a| && n <= |b| && a[..n] == b[..n]
    ensures m <= n ==> a[..m] == b[..m]
  {
    assert m <= n ==> a[..m] == a[..n][..m] && b[..m] == b[..n][..m];
  }

  lemma AgreeBefore(a: Bits, b: Bits, n: nat, k: nat)
    requires n <= |a| && n <= |b| && a[..n] == b[..n]
    ensures k < n ==> a[k] == b[k]
  {
    assert k < n ==> a[k] == a[..n][k] && b[k] == b[..n][k];
  }
}
