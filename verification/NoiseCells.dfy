/** Key derivation and mixing on cells that may be the same one: outputs overwrite the cell the key is read from. */
module NoiseCells {
  import opened Basics
  import opened Noise

  /** A 32-byte array that others may point to. */
  class Cell {
    var v: Term

    constructor (v: Term)
      ensures this.v == v
    {
      this.v := v;
    }
  }

  method Hmac1(sum: Cell, key: Cell, data: Term, suffix: nat)
    modifies sum
    ensures sum.v == Hmac(old(key.v), data, suffix)
  {
    sum.v := Hmac(key.v, data, suffix);
  }

  /** `t0` and `key` may be the same cell. */
  method Kdf1(t0: Cell, key: Cell, input: Term)
    modifies t0
    ensures t0.v == Kdf(old(key.v), input, 1)
  {
    Hmac1(t0, key, input, 0);
    Hmac1(t0, t0, Empty, 1);
  }

  /** `key` may be the same cell as either output. */
  method Kdf2(t0: Cell, t1: Cell, key: Cell, input: Term)
    requires t0 != t1
    modifies t0, t1
    ensures t0.v == Kdf(old(key.v), input, 1) && t1.v == Kdf(old(key.v), input, 2)
  {
    var prk := new Cell(Empty);
    Hmac1(prk, key, input, 0);
    Hmac1(t0, prk, Empty, 1);
    Hmac1(t1, prk, t0.v, 2);
    prk.v := Empty;
  }

  method Kdf3(t0: Cell, t1: Cell, t2: Cell, key: Cell, input: Term)
    requires t0 != t1 && t1 != t2 && t0 != t2
    modifies t0, t1, t2
    ensures t0.v == Kdf(old(key.v), input, 1) && t1.v == Kdf(old(key.v), input, 2) && t2.v == Kdf(old(key.v), input, 3)
  {
    var prk := new Cell(Empty);
    Hmac1(prk, key, input, 0);
    Hmac1(t0, prk, Empty, 1);
    Hmac1(t1, prk, t0.v, 2);
    Hmac1(t2, prk, t1.v, 3);
    prk.v := Empty;
  }

  method MixHashCell(dst: Cell, h: Cell, data: Term)
    modifies dst
    ensures dst.v == Digest(old(h.v), data)
  {
    dst.v := Digest(h.v, data);
  }

  method MixKeyCell(dst: Cell, c: Cell, data: Term)
    modifies dst
    ensures dst.v == Kdf(old(c.v), data, 1)
  {
    Kdf1(dst, c, data);
  }
}
