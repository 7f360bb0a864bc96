/** The obfuscation settings of a device: how they are read from configuration text and merged into the device. */
module Uapi {
  import opened Basics
  import opened Text

  const KEY_SIZE: nat := 32
  const NONCE_SIZE: nat := 12

  // ---------------------------------------------------------------- ranges

  /** Message headers from `lo` to `hi`, both 32-bit numbers. */
  datatype Range = Range(lo: nat, hi: nat)

  predicate RangeOk(r: Range) {
    r.lo <= r.hi < B32
  }

  function FromString(s: string): Option<Range> {
    var parts := Split(s, '-');
    if |parts| > 2 then None
    else
      var lo := ParseUint(parts[0], B32);
      if lo.None? then None
      else
        var hi := if |parts| > 1 then ParseUint(parts[1], B32) else lo;
        if hi.None? || hi.value < lo.value then None else Some(Range(lo.value, hi.value))
  }

  function ToString(r: Range): string {
    if r.lo == r.hi then Decimal(r.lo) else Decimal(r.lo) + ['-'] + Decimal(r.hi)
  }

  /** What is written is read back, and refused exactly if it is not a range. */
  lemma FromToString(r: Range)
    requires r.lo < B32 && r.hi < B32
    ensures FromString(ToString(r)) == if r.lo <= r.hi then Some(r) else None
    ensures OneLine(ToString(r))
  {
    hide Split, ParseUint, Decimal;
    ParseDecimal(r.lo, B32);
    ParseDecimal(r.hi, B32);
    if r.lo == r.hi {
      SplitOne(Decimal(r.lo), '-');
    } else {
      SplitTwo(Decimal(r.lo), '-', Decimal(r.hi));
    }
  }

  predicate Contains(r: Range, v: nat) {
    r.lo <= v <= r.hi
  }

  predicate Overlap(a: Range, b: Range) {
    a.lo <= b.hi && b.lo <= a.hi
  }

  /** Ranges overlap exactly if they have something in common. */
  lemma OverlapIff(a: Range, b: Range)
    requires RangeOk(a) && RangeOk(b)
    ensures Overlap(a, b) <==> exists v :: Contains(a, v) && Contains(b, v)
  {
    var v := if a.lo >= b.lo then a.lo else b.lo;
    assert Overlap(a, b) ==> Contains(a, v) && Contains(b, v);
  }

  /** A header from the range, given a random 32-bit number. */
  function PickOne(r: Range, random: nat): (v: nat)
    requires RangeOk(r) && random < B32
    ensures Contains(r, v)
  {
    var n := (r.hi - r.lo + 1) % B32;
    Scaled(random, n);
    r.lo + random * n / B32
  }

  lemma Scaled(random: nat, n: nat)
    requires random < B32
    ensures n > 0 ==> random * n / B32 < n
    ensures n == 0 ==> random * n / B32 == 0
  {
    assert n > 0 ==> random * n < B32 * n;
  }

  /** Some random number scales to any given value below `n`. */
  lemma Scales(n: nat, d: nat) returns (random: nat)
    requires 0 < n < B32 && d < n
    ensures random < B32 && random * n / B32 == d
  {
    var x := d * B32 + n - 1;
    random := x / n;
    var y := random * n;
    assert y <= x < y + n by { assert x == random * n + x % n; }
    assert d * B32 <= y < d * B32 + B32;
    Quotient(y, d);
    assert y < B32 * n by { assert B32 * (d + 1) <= B32 * n; }
    Below(random, n);
  }

  lemma Below(a: nat, n: nat)
    requires a * n < B32 * n
    ensures a < B32
  {
  }

  lemma Quotient(y: nat, d: nat)
    requires d * B32 <= y < d * B32 + B32
    ensures y / B32 == d
  {
  }

  /** Every header of the range can be picked, except that of the range of all headers only 0 is. */
  lemma PickedIff(r: Range, v: nat)
    requires RangeOk(r)
    ensures (exists random: nat :: random < B32 && PickOne(r, random) == v) <==> Contains(r, v) && (r == Range(0, B32 - 1) ==> v == 0)
  {
    if Contains(r, v) {
      if r == Range(0, B32 - 1) {
        assert PickOne(r, 0) == 0;
        forall random: nat | random < B32 ensures PickOne(r, random) == 0 {
        }
      } else {
        var random := Scales(r.hi - r.lo + 1, v - r.lo);
        assert PickOne(r, random) == v;
      }
    }
  }

  // ---------------------------------------------------------------- settings

  type Key = seq<Byte>

  const NO_KEY: Key := [0, 0, 0, 0, 0, 0, 0, 0, 0, 0, 0, 0, 0, 0, 0, 0, 0, 0, 0, 0, 0, 0, 0, 0, 0, 0, 0, 0, 0, 0, 0, 0]

  /** Header ranges and paddings for initiations, responses, cookie replies and transport messages, in this order. */
  datatype Config = Config(headers: seq<Range>, paddings: seq<nat>, key: Key)

  const FRESH := Config([Range(1, 1), Range(2, 2), Range(3, 3), Range(4, 4)], [0, 0, 0, 0], NO_KEY)

  ghost predicate Shaped(c: Config) {
    && |c.headers| == 4 && |c.paddings| == 4 && |c.key| == KEY_SIZE
    && (forall i :: 0 <= i < 4 ==> RangeOk(c.headers[i]))
    && (forall i :: 0 <= i < 4 ==> c.paddings[i] < B16)
  }

  predicate Disjoint(headers: seq<Range>) {
    forall i, j :: 0 <= i < j < |headers| ==> !Overlap(headers[i], headers[j])
  }

  predicate Padded(c: Config) {
    c.key != NO_KEY ==> forall i :: 0 <= i < |c.paddings| ==> c.paddings[i] >= NONCE_SIZE
  }

  /** What makes packets recognizable: disjoint headers, and room for the nonce if headers are protected. */
  predicate Safe(c: Config) {
    Disjoint(c.headers) && Padded(c)
  }

  // ---------------------------------------------------------------- reading a line

  const KEYS: seq<string> := ["s1", "s2", "s3", "s4", "h1", "h2", "h3", "h4", "header_protection_key"]

  /** Which setting a key names; 9 if none of these. */
  function FieldOf(key: string): (k: nat)
    ensures k <= 9 && (k < 9 ==> KEYS[k] == key)
    ensures k == 9 ==> key !in KEYS
  {
    if key == KEYS[0] then 0 else if key == KEYS[1] then 1 else if key == KEYS[2] then 2
    else if key == KEYS[3] then 3 else if key == KEYS[4] then 4 else if key == KEYS[5] then 5
    else if key == KEYS[6] then 6 else if key == KEYS[7] then 7 else if key == KEYS[8] then 8 else 9
  }

  /** Sets field `k` from text. */
  function SetField(c: Config, k: nat, value: string): Option<Config>
    requires k < 9 && |c.headers| == 4 && |c.paddings| == 4
  {
    if k < 4 then
      var v := ParseUint(value, B16);
      if v.None? then None else Some(c.(paddings := c.paddings[k := v.value]))
    else if k < 8 then
      var r := FromString(value);
      if r.None? then None else Some(c.(headers := c.headers[k - 4 := r.value]))
    else
      var key := DecodeHex(value);
      if key.None? || |key.value| != KEY_SIZE then None else Some(c.(key := key.value))
  }

  lemma FromStringOk(s: string)
    ensures FromString(s).Some? ==> RangeOk(FromString(s).value)
  {
  }

  lemma SetFieldShaped(c: Config, k: nat, value: string)
    requires k < 9 && Shaped(c)
    ensures SetField(c, k, value).Some? ==> Shaped(SetField(c, k, value).value)
  {
    FromStringOk(value);
  }

  /** Which other settings a device accepts. */
  type Others = (string, string) -> bool

  function HandleDeviceLine(c: Config, key: string, value: string, others: Others): Option<Config>
    requires |c.headers| == 4 && |c.paddings| == 4
  {
    var k := FieldOf(key);
    if k < 9 then SetField(c, k, value) else if others(key, value) then Some(c) else None
  }

  /** The settings that the lines stage; nothing if one of them is refused.  Whether the peers' lines are accepted is an input. */
  function ReadLines(c: Config, lines: seq<string>, others: Others, peersOk: bool): (r: Option<Config>)
    requires |c.headers| == 4 && |c.paddings| == 4
    ensures r.Some? ==> |r.value.headers| == 4 && |r.value.paddings| == 4
    decreases |lines|
  {
    if lines == [] || lines[0] == "" then Some(c)
    else
      var kv := Cut(lines[0], '=');
      if kv.None? then None
      else if kv.value.0 == "public_key" then (if peersOk then Some(c) else None)
      else
        var c' := HandleDeviceLine(c, kv.value.0, kv.value.1, others);
        if c'.None? then None else ReadLines(c'.value, lines[1..], others, peersOk)
  }

  lemma {:induction false} ReadLinesShaped(c: Config, lines: seq<string>, others: Others, peersOk: bool)
    requires Shaped(c)
    ensures ReadLines(c, lines, others, peersOk).Some? ==> Shaped(ReadLines(c, lines, others, peersOk).value)
    decreases |lines|
  {
    if lines != [] && lines[0] != "" && Cut(lines[0], '=').Some? {
      var (key, value) := Cut(lines[0], '=').value;
      if FieldOf(key) < 9 {
        SetFieldShaped(c, FieldOf(key), value);
      }
      var c' := HandleDeviceLine(c, key, value, others);
      if c'.Some? {
        ReadLinesShaped(c'.value, lines[1..], others, peersOk);
      }
    }
  }

  // ---------------------------------------------------------------- merging

  datatype Merged = Merged(config: Config, ok: bool)

  /** Headers are stored before paddings are checked. */
  function Merge(device: Config, staged: Config): Merged {
    if !Disjoint(staged.headers) then Merged(device, false)
    else if !Padded(staged) then Merged(device.(headers := staged.headers), false)
    else Merged(staged, true)
  }

  function IpcSet(device: Config, text: string, others: Others, peersOk: bool): Merged
    requires |device.headers| == 4 && |device.paddings| == 4
  {
    var staged := ReadLines(device, Lines(text), others, peersOk);
    if staged.None? then Merged(device, false) else Merge(device, staged.value)
  }

  /** Whatever is staged, a safe device stays safe, even if the merge fails half-way; it succeeds exactly if that is safe. */
  lemma MergeSafe(device: Config, staged: Config)
    requires Safe(device)
    ensures Safe(Merge(device, staged).config)
    ensures Merge(device, staged).ok <==> Safe(staged)
    ensures Merge(device, staged).ok ==> Merge(device, staged).config == staged
    ensures !Merge(device, staged).ok ==>
              Merge(device, staged).config == device.(headers := if Disjoint(staged.headers) then staged.headers else device.headers)
  {
  }

  datatype Op = Op(text: string, others: Others, peersOk: bool)

  /** The device after a run of set operations, whether they succeed or not. */
  function Run(ops: seq<Op>): (c: Config)
    ensures |c.headers| == 4 && |c.paddings| == 4
  {
    if ops == [] then FRESH
    else
      var op := ops[|ops| - 1];
      IpcSet(Run(ops[..|ops| - 1]), op.text, op.others, op.peersOk).config
  }

  lemma {:induction false} RunSafe(ops: seq<Op>)
    ensures Safe(Run(ops)) && Shaped(Run(ops))
  {
    if ops != [] {
      var before, op := ops[..|ops| - 1], ops[|ops| - 1];
      RunSafe(before);
      var staged := ReadLines(Run(before), Lines(op.text), op.others, op.peersOk);
      ReadLinesShaped(Run(before), Lines(op.text), op.others, op.peersOk);
      if staged.Some? {
        MergeSafe(Run(before), staged.value);
      }
    }
  }

  class Device {
    var headers: seq<Range>
    var paddings: seq<nat>
    var key: Key

    ghost function Value(): Config
      reads this
    {
      Config(headers, paddings, key)
    }

    constructor ()
      ensures Value() == FRESH
    {
      headers, paddings, key := FRESH.headers, FRESH.paddings, FRESH.key;
    }

    method MergeWith(staged: Config) returns (ok: bool)
      requires |staged.headers| == 4 && |staged.paddings| == 4
      modifies this
      ensures Merged(Value(), ok) == Merge(old(Value()), staged)
    {
      var i := 0;
      while i < |staged.headers|
        invariant i <= 4
        invariant forall a, b :: 0 <= a < b < 4 && a < i ==> !Overlap(staged.headers[a], staged.headers[b])
      {
        var j := i + 1;
        while j < |staged.headers|
          invariant i < j <= 4
          invariant forall b :: i < b < j ==> !Overlap(staged.headers[i], staged.headers[b])
        {
          if Overlap(staged.headers[i], staged.headers[j]) {
            return false;
          }
          j := j + 1;
        }
        i := i + 1;
      }
      headers := staged.headers;
      if staged.key != NO_KEY {
        i := 0;
        while i < |staged.paddings|
          invariant i <= 4 && forall a :: 0 <= a < i ==> staged.paddings[a] >= NONCE_SIZE
        {
          if staged.paddings[i] < NONCE_SIZE {
            return false;
          }
          i := i + 1;
        }
      }
      paddings := staged.paddings;
      key := staged.key;
      return true;
    }
  }
}
