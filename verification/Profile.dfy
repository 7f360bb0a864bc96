/** An obfuscation profile on its way from one device to another: as settings of the first, as a control message, and as settings of the second. */
module Profile {
  import opened Basics
  import opened Text
  import opened Uapi
  import Codec

  /** What both ends must agree on. */
  datatype Core = Core(s: seq<nat>, h: seq<Range>, hasKey: bool, key: Key)

  datatype Profile = Profile(core: Core, jc: nat, jmin: nat, jmax: nat, specs: seq<string>, addition: Range)

  /** Fields are 32-bit numbers, except for the key. */
  predicate CoreTyped(f: Core) {
    && |f.s| == 4 && |f.h| == 4 && |f.key| == KEY_SIZE
    && (forall i :: 0 <= i < 4 ==> f.s[i] < B32)
    && (forall i :: 0 <= i < 4 ==> f.h[i].lo < B32 && f.h[i].hi < B32)
  }

  /** What a device is set to: a range whose upper end is 0, or no key, means the default. */
  ghost function ConfigOf(f: Core): Config
    requires CoreTyped(f)
  {
    Config([HeaderOf(f, 0), HeaderOf(f, 1), HeaderOf(f, 2), HeaderOf(f, 3)], f.s, if f.hasKey then f.key else NO_KEY)
  }

  function HeaderOf(f: Core, i: nat): Range
    requires CoreTyped(f) && i < 4
  {
    if f.h[i].hi != 0 then f.h[i] else FRESH.headers[i]
  }

  /** All numbers can be read: paddings of 16 bits, and ranges in order. */
  predicate Readable(f: Core)
    requires CoreTyped(f)
  {
    (forall i :: 0 <= i < 4 ==> f.s[i] < B16) && (forall i :: 0 <= i < 4 ==> f.h[i].hi != 0 ==> f.h[i].lo <= f.h[i].hi)
  }

  // ---------------------------------------------------------------- as text

  function Line(key: string, value: string): string {
    key + ['='] + value
  }

  function Present(f: Core, k: nat): bool
    requires CoreTyped(f) && k < 9
  {
    if k < 4 then f.s[k] != 0 else if k < 8 then f.h[k - 4].hi != 0 else f.hasKey
  }

  function Written(f: Core, k: nat): string
    requires CoreTyped(f) && k < 9
  {
    if k < 4 then Decimal(f.s[k]) else if k < 8 then ToString(f.h[k - 4]) else EncodeHex(f.key)
  }

  /** The first `n` of the nine settings, those that are not the default. */
  function CoreLines(f: Core, n: nat): seq<string>
    requires CoreTyped(f) && n <= 9
  {
    if n == 0 then []
    else CoreLines(f, n - 1) + if Present(f, n - 1) then [Line(KEYS[n - 1], Written(f, n - 1))] else []
  }

  function NumberLine(key: string, v: nat): seq<string> {
    if v != 0 then [Line(key, Decimal(v))] else []
  }

  function SpecLines(specs: seq<string>, n: nat): seq<string>
    requires n <= |specs|
  {
    if n == 0 then []
    else SpecLines(specs, n - 1) + if specs[n - 1] != "" then [Line(['i'] + Decimal(n), specs[n - 1])] else []
  }

  const ADDITION := "content_padding_addition"

  function Before(p: Profile): seq<string> {
    NumberLine("jc", p.jc) + NumberLine("jmin", p.jmin) + NumberLine("jmax", p.jmax)
  }

  function After(p: Profile): seq<string> {
    SpecLines(p.specs, |p.specs|) + if p.addition.hi != 0 then [Line(ADDITION, ToString(p.addition))] else []
  }

  function ProfileLines(p: Profile): seq<string>
    requires CoreTyped(p.core)
  {
    Before(p) + CoreLines(p.core, 9) + After(p)
  }

  // ---------------------------------------------------------------- as a message

  function ToWire(f: Core, endpoint: Codec.AddrPort): Codec.Message
    requires CoreTyped(f)
  {
    Codec.CloakedParams(f.s + [f.h[0].lo, f.h[0].hi, f.h[1].lo, f.h[1].hi, f.h[2].lo, f.h[2].hi, f.h[3].lo, f.h[3].hi], f.hasKey, f.key, endpoint)
  }

  function FromWire(m: Codec.Message): Core
    requires m.CloakedParams? && |m.numbers| == 12
  {
    var n := m.numbers;
    Core(n[..4], [Range(n[4], n[5]), Range(n[6], n[7]), Range(n[8], n[9]), Range(n[10], n[11])], m.hasKey, m.key)
  }

  lemma WireRoundTrip(f: Core, endpoint: Codec.AddrPort)
    requires CoreTyped(f) && Codec.AddrPortTyped(endpoint)
    ensures var m := Codec.Decode(9, Codec.Encode(ToWire(f, endpoint)));
            m.Some? && m.value.CloakedParams? && |m.value.numbers| == 12 && FromWire(m.value) == f
  {
    var m := ToWire(f, endpoint);
    Codec.DecodeCloakedEncoded(m, []);
    assert Codec.Encode(m) + [] == Codec.Encode(m);
    assert m.numbers[..4] == f.s;
    var h := FromWire(m).h;
    assert forall i :: 0 <= i < 4 ==> h[i] == f.h[i];
    assert h == f.h;
  }

  /** Where the settings are in the message: paddings, then headers from lower to upper end, then the key. */
  lemma WireLaid(f: Core, endpoint: Codec.AddrPort, i: nat)
    requires CoreTyped(f) && Codec.AddrPortTyped(endpoint) && i < 4
    ensures var b := Codec.Encode(ToWire(f, endpoint));
      && |b| >= 81 && Codec.Number(b, 4 * i, 4 * i + 4) == f.s[i]
      && Codec.Number(b, 16 + 8 * i, 20 + 8 * i) == f.h[i].lo && Codec.Number(b, 20 + 8 * i, 24 + 8 * i) == f.h[i].hi
      && b[48] == (if f.hasKey then 1 else 0) && b[49..81] == f.key
  {
    hide Codec.Number, Codec.Encode, Codec.AddrAt;
    var m := ToWire(f, endpoint);
    Codec.LaidOut(m);
    var b, j := Codec.Encode(m), 4 + 2 * i;
    assert m.numbers[i] == f.s[i] && m.numbers[j] == f.h[i].lo && m.numbers[j + 1] == f.h[i].hi;
    assert Codec.Number(b, 4 * i, 4 * i + 4) == m.numbers[i];
    assert Codec.Number(b, 4 * j, 4 * j + 4) == m.numbers[j];
    assert Codec.Number(b, 4 * (j + 1), 4 * (j + 1) + 4) == m.numbers[j + 1];
  }

  // ---------------------------------------------------------------- reading the lines

  /** A line that sets something of the device. */
  ghost predicate Plain(line: string) {
    line != "" && Cut(line, '=').Some? && Cut(line, '=').value.0 != "public_key"
  }

  lemma {:induction false} ReadAppend(c: Config, a: seq<string>, b: seq<string>, others: Others, peersOk: bool)
    requires |c.headers| == 4 && |c.paddings| == 4 && forall i :: 0 <= i < |a| ==> Plain(a[i])
    ensures var r := ReadLines(c, a, others, peersOk);
            ReadLines(c, a + b, others, peersOk) == if r.None? then None else ReadLines(r.value, b, others, peersOk)
    decreases |a|
  {
    if a == [] {
      assert a + b == b;
    } else {
      assert Plain(a[0]);
      assert (a + b)[1..] == a[1..] + b;
      var kv := Cut(a[0], '=').value;
      var c' := HandleDeviceLine(c, kv.0, kv.1, others);
      if c'.Some? {
        ReadAppend(c'.value, a[1..], b, others, peersOk);
      }
    }
  }

  lemma ReadOne(c: Config, key: string, value: string, others: Others, peersOk: bool)
    requires |c.headers| == 4 && |c.paddings| == 4 && '=' !in key && key != "public_key"
    ensures ReadLines(c, [Line(key, value)], others, peersOk) == HandleDeviceLine(c, key, value, others)
    ensures Plain(Line(key, value))
  {
    CutAfter(key, '=', value);
    assert [Line(key, value)][1..] == [];
    assert |Line(key, value)| > 0;
  }

  lemma KeysPlain(k: nat)
    requires k < 9
    ensures '=' !in KEYS[k] && KEYS[k] != "public_key" && OneLine(KEYS[k]) && FieldOf(KEYS[k]) == k
  {
    assert KEYS[k] in ["s1", "s2", "s3", "s4", "h1", "h2", "h3", "h4", "header_protection_key"];
  }

  /** The effect of the first `n` settings. */
  ghost function Applied(c: Config, f: Core, n: nat): (r: Option<Config>)
    requires CoreTyped(f) && n <= 9 && |c.headers| == 4 && |c.paddings| == 4
    ensures r.Some? ==> |r.value.headers| == 4 && |r.value.paddings| == 4
  {
    if n == 0 then Some(c)
    else
      var r := Applied(c, f, n - 1);
      if r.None? || !Present(f, n - 1) then r else SetField(r.value, n - 1, Written(f, n - 1))
  }

  lemma {:induction false} CoreRead(c: Config, f: Core, n: nat, others: Others, peersOk: bool)
    requires CoreTyped(f) && n <= 9 && |c.headers| == 4 && |c.paddings| == 4
    ensures ReadLines(c, CoreLines(f, n), others, peersOk) == Applied(c, f, n)
    ensures forall i :: 0 <= i < |CoreLines(f, n)| ==> Plain(CoreLines(f, n)[i]) && OneLine(CoreLines(f, n)[i])
  {
    hide ReadLines, SetField, Plain, OneLine, Line, Written;
    if n == 0 {
      ReadNone(c, others, peersOk);
    } else {
      var before, key, value := CoreLines(f, n - 1), KEYS[n - 1], Written(f, n - 1);
      CoreRead(c, f, n - 1, others, peersOk);
      KeysPlain(n - 1);
      WrittenOneLine(f, n - 1);
      var last := if Present(f, n - 1) then [Line(key, value)] else [];
      ReadAppend(c, before, last, others, peersOk);
      var r := Applied(c, f, n - 1);
      if r.Some? {
        ReadOne(r.value, key, value, others, peersOk);
        ReadNone(r.value, others, peersOk);
      } else {
        ReadOne(c, key, value, others, peersOk);
      }
      LineOneLine(key, value);
    }
  }

  lemma ReadNone(c: Config, others: Others, peersOk: bool)
    requires |c.headers| == 4 && |c.paddings| == 4
    ensures ReadLines(c, [], others, peersOk) == Some(c)
  {
  }

  lemma LineOneLine(key: string, value: string)
    requires OneLine(key) && OneLine(value)
    ensures OneLine(Line(key, value))
  {
  }

  lemma DigitsOneLine(s: string)
    requires AllDigits(s)
    ensures OneLine(s)
  {
  }

  lemma WrittenOneLine(f: Core, k: nat)
    requires CoreTyped(f) && k < 9
    ensures OneLine(Written(f, k))
  {
    hide Decimal, ToString, EncodeHex;
    if k < 4 {
      ParseDecimal(f.s[k], 0);
      DigitsOneLine(Decimal(f.s[k]));
    } else if k < 8 {
      FromToString(f.h[k - 4]);
    } else {
      DecodeEncodedHex(f.key);
    }
  }

  /** Each setting is read as it was meant, or refused if it cannot be. */
  lemma FieldRead(c: Config, f: Core, k: nat)
    requires CoreTyped(f) && k < 9 && |c.headers| == 4 && |c.paddings| == 4
    ensures SetField(c, k, Written(f, k)) ==
              if k < 4 then (if f.s[k] < B16 then Some(c.(paddings := c.paddings[k := f.s[k]])) else None)
              else if k < 8 then (if f.h[k - 4].lo <= f.h[k - 4].hi then Some(c.(headers := c.headers[k - 4 := f.h[k - 4]])) else None)
              else Some(c.(key := f.key))
  {
    hide Decimal, ToString, EncodeHex, ParseUint, FromString, DecodeHex;
    if k < 4 {
      ParseDecimal(f.s[k], B16);
    } else if k < 8 {
      FromToString(f.h[k - 4]);
    } else {
      DecodeEncodedHex(f.key);
    }
  }

  /** Settings up to field `n`, on a fresh device. */
  ghost function Prefix(f: Core, n: nat): Config
    requires CoreTyped(f) && n <= 9
  {
    var full := ConfigOf(f);
    Config(if n >= 8 then full.headers else if n >= 4 then full.headers[..n - 4] + FRESH.headers[n - 4..] else FRESH.headers,
           if n >= 4 then f.s else f.s[..n] + FRESH.paddings[n..],
           if n == 9 then full.key else NO_KEY)
  }

  ghost predicate ReadableTo(f: Core, n: nat)
    requires CoreTyped(f) && n <= 9
  {
    && (forall i :: 0 <= i < 4 && i < n ==> f.s[i] < B16)
    && (forall i :: 0 <= i < 4 && i + 4 < n && f.h[i].hi != 0 ==> f.h[i].lo <= f.h[i].hi)
  }

  /** Setting `k` alone can be read. */
  predicate FieldReadable(f: Core, k: nat)
    requires CoreTyped(f) && k < 9
  {
    if k < 4 then f.s[k] < B16 else if k < 8 then f.h[k - 4].hi != 0 ==> f.h[k - 4].lo <= f.h[k - 4].hi else true
  }

  lemma ReadableNext(f: Core, k: nat)
    requires CoreTyped(f) && k < 9
    ensures ReadableTo(f, k + 1) <==> ReadableTo(f, k) && FieldReadable(f, k)
  {
  }

  /** One more setting. */
  lemma PrefixNext(f: Core, k: nat)
    requires CoreTyped(f) && k < 9
    ensures |Prefix(f, k).headers| == 4 && |Prefix(f, k).paddings| == 4
    ensures (if Present(f, k) then SetField(Prefix(f, k), k, Written(f, k)) else Some(Prefix(f, k)))
            == if FieldReadable(f, k) then Some(Prefix(f, k + 1)) else None
  {
    hide SetField, Written, Prefix;
    PrefixLengths(f, k);
    FieldRead(Prefix(f, k), f, k);
    if k < 4 { PrefixPadding(f, k); } else if k < 8 { PrefixHeader(f, k); } else { PrefixKey(f); }
  }

  lemma PrefixLengths(f: Core, k: nat)
    requires CoreTyped(f) && k <= 9
    ensures |Prefix(f, k).headers| == 4 && |Prefix(f, k).paddings| == 4
  {
  }

  lemma {:induction false} AppliedIs(f: Core, n: nat)
    requires CoreTyped(f) && n <= 9
    ensures Applied(FRESH, f, n) == if ReadableTo(f, n) then Some(Prefix(f, n)) else None
  {
    if n == 0 {
      assert Prefix(f, 0) == FRESH;
    } else {
      hide SetField, Written, Prefix, Present, ReadableTo, FieldReadable;
      AppliedIs(f, n - 1);
      PrefixNext(f, n - 1);
      ReadableNext(f, n - 1);
    }
  }

  lemma PrefixPadding(f: Core, k: nat)
    requires CoreTyped(f) && k < 4
    ensures Prefix(f, k + 1) == Prefix(f, k).(paddings := Prefix(f, k).paddings[k := f.s[k]])
    ensures f.s[k] == 0 ==> Prefix(f, k + 1) == Prefix(f, k)
  {
    var a, b := Prefix(f, k).paddings, Prefix(f, k + 1).paddings;
    hide ConfigOf;
    assert b == a[k := f.s[k]];
    assert a[k] == 0;
  }

  lemma PrefixHeader(f: Core, k: nat)
    requires CoreTyped(f) && 4 <= k < 8
    ensures Prefix(f, k + 1) == Prefix(f, k).(headers := Prefix(f, k).headers[k - 4 := HeaderOf(f, k - 4)])
    ensures f.h[k - 4].hi == 0 ==> Prefix(f, k + 1) == Prefix(f, k)
  {
    var a, b, full := Prefix(f, k).headers, Prefix(f, k + 1).headers, ConfigOf(f).headers;
    assert full[k - 4] == HeaderOf(f, k - 4);
    hide ConfigOf, HeaderOf;
    assert b == a[k - 4 := full[k - 4]];
    assert a[k - 4] == FRESH.headers[k - 4];
  }

  lemma PrefixKey(f: Core)
    requires CoreTyped(f)
    ensures Prefix(f, 9) == ConfigOf(f) == if f.hasKey then Prefix(f, 8).(key := f.key) else Prefix(f, 8)
  {
  }

  /** The second device: what the settings say, unless they cannot be read or are not safe. */
  lemma CoreConfigures(f: Core, others: Others)
    requires CoreTyped(f)
    ensures IpcSet(FRESH, Render(CoreLines(f, 9)), others, true) ==
              if Readable(f) then Merge(FRESH, ConfigOf(f)) else Merged(FRESH, false)
  {
    var lines := CoreLines(f, 9);
    CoreRead(FRESH, f, 9, others, true);
    AppliedIs(f, 9);
    PrefixKey(f);
    hide CoreLines, ReadLines, Applied, Prefix, Merge, ConfigOf, Render, Lines;
    assert forall i :: 0 <= i < |lines| ==> '\n' !in lines[i];
    LinesRendered(lines);
    forall i | 0 <= i < |lines| ensures DropCr(lines[i]) == lines[i] {
      NoCr(lines[i]);
    }
    assert Lines(Render(lines)) == lines;
  }

  lemma NoCr(s: string)
    requires OneLine(s)
    ensures DropCr(s) == s
  {
    assert s != "" ==> s[|s| - 1] in s;
  }

  // ---------------------------------------------------------------- lines that name settings

  /** Lines behind a blank one, or behind the first peer, set nothing of the device. */
  predicate Stops(line: string) {
    line == "" || (Cut(line, '=').Some? && Cut(line, '=').value.0 == "public_key")
  }

  predicate Names(line: string, k: nat) {
    Cut(line, '=').Some? && FieldOf(Cut(line, '=').value.0) == k
  }

  /** What the last line that names setting `k` says. */
  function LastValue(lines: seq<string>, k: nat): Option<string>
    decreases |lines|
  {
    if lines == [] || Stops(lines[0]) then None
    else
      var rest := LastValue(lines[1..], k);
      if rest.Some? then rest else if Names(lines[0], k) then Some(Cut(lines[0], '=').value.1) else None
  }

  /** The text is one for the value that setting `k` has. */
  predicate Says(c: Config, k: nat, value: string)
    requires k < 9 && |c.headers| == 4 && |c.paddings| == 4
  {
    if k < 4 then ParseUint(value, B16) == Some(c.paddings[k])
    else if k < 8 then FromString(value) == Some(c.headers[k - 4])
    else DecodeHex(value) == Some(c.key)
  }

  predicate SameField(c: Config, d: Config, k: nat)
    requires k < 9 && |c.headers| == |c.paddings| == |d.headers| == |d.paddings| == 4
  {
    if k < 4 then c.paddings[k] == d.paddings[k] else if k < 8 then c.headers[k - 4] == d.headers[k - 4] else c.key == d.key
  }

  /** Setting a field makes it what the text says and leaves the others alone. */
  lemma SetFieldSays(c: Config, k: nat, value: string)
    requires k < 9 && |c.headers| == 4 && |c.paddings| == 4 && SetField(c, k, value).Some?
    ensures |SetField(c, k, value).value.headers| == 4 && |SetField(c, k, value).value.paddings| == 4
    ensures Says(SetField(c, k, value).value, k, value)
    ensures forall l :: 0 <= l < 9 && l != k ==> SameField(c, SetField(c, k, value).value, l)
  {
    hide ParseUint, FromString, DecodeHex;
  }

  /** The last line decides. */
  lemma {:induction false} LastWins(c: Config, lines: seq<string>, others: Others, peersOk: bool, k: nat)
    requires |c.headers| == 4 && |c.paddings| == 4 && k < 9 && ReadLines(c, lines, others, peersOk).Some?
    ensures var d, v := ReadLines(c, lines, others, peersOk).value, LastValue(lines, k);
            if v.Some? then Says(d, k, v.value) else SameField(c, d, k)
    decreases |lines|
  {
    hide Says, SetField, Cut, FieldOf;
    if lines != [] && !Stops(lines[0]) {
      var (key, value) := Cut(lines[0], '=').value;
      var l, c' := FieldOf(key), HandleDeviceLine(c, key, value, others).value;
      if l < 9 {
        SetFieldSays(c, l, value);
      }
      LastWins(c', lines[1..], others, peersOk, k);
      var d, rest := ReadLines(c, lines, others, peersOk).value, LastValue(lines[1..], k);
      if rest.None? && l == k {
        SameSays(c', d, k, value);
      } else if rest.None? {
        assert SameField(c, c', k) && SameField(c', d, k);
      }
    }
  }

  lemma SameSays(c: Config, d: Config, k: nat, value: string)
    requires k < 9 && |c.headers| == |c.paddings| == |d.headers| == |d.paddings| == 4
    ensures SameField(c, d, k) && Says(c, k, value) ==> Says(d, k, value)
    ensures Says(c, k, value) && Says(d, k, value) ==> SameField(c, d, k)
  {
    hide ParseUint, FromString, DecodeHex;
  }

  /** Whatever settings the lines name last, they say what is set already. */
  predicate Repeats(c: Config, lines: seq<string>)
    requires |c.headers| == 4 && |c.paddings| == 4
  {
    forall k :: 0 <= k < 9 && LastValue(lines, k).Some? ==> Says(c, k, LastValue(lines, k).value)
  }

  lemma UnchangedIff(c: Config, lines: seq<string>, others: Others, peersOk: bool)
    requires |c.headers| == 4 && |c.paddings| == 4 && ReadLines(c, lines, others, peersOk).Some?
    ensures ReadLines(c, lines, others, peersOk) == Some(c) <==> Repeats(c, lines)
  {
    hide ReadLines, LastValue, Says;
    var d := ReadLines(c, lines, others, peersOk).value;
    forall k | 0 <= k < 9 ensures
        var v := LastValue(lines, k); if v.Some? then Says(d, k, v.value) && (Says(c, k, v.value) ==> SameField(c, d, k)) else SameField(c, d, k)
    {
      LastWins(c, lines, others, peersOk, k);
      var v := LastValue(lines, k);
      if v.Some? {
        SameSays(c, d, k, v.value);
      }
    }
    if Repeats(c, lines) {
      AllSame(c, d);
    }
  }

  lemma AllSame(c: Config, d: Config)
    requires |c.headers| == |c.paddings| == |d.headers| == |d.paddings| == 4
    requires forall k :: 0 <= k < 9 ==> SameField(c, d, k)
    ensures c == d
  {
    forall i | 0 <= i < 4 ensures c.paddings[i] == d.paddings[i] && c.headers[i] == d.headers[i] {
      assert SameField(c, d, i) && SameField(c, d, i + 4);
    }
    assert c.paddings == d.paddings && c.headers == d.headers && SameField(c, d, 8);
  }

  // ---------------------------------------------------------------- the first device

  /** A line that sets something else. */
  ghost predicate Other(line: string) {
    Plain(line) && FieldOf(Cut(line, '=').value.0) == 9
  }

  lemma {:induction false} OthersRead(c: Config, lines: seq<string>, others: Others, peersOk: bool)
    requires |c.headers| == 4 && |c.paddings| == 4 && forall i :: 0 <= i < |lines| ==> Other(lines[i])
    ensures ReadLines(c, lines, others, peersOk) in {None, Some(c)}
    decreases |lines|
  {
    if lines != [] {
      assert Other(lines[0]);
      OthersRead(c, lines[1..], others, peersOk);
    }
  }

  lemma OtherLine(key: string, value: string)
    requires '=' !in key && key != "" && key != "public_key" && key !in KEYS && OneLine(key)
    ensures Other(Line(key, value)) && Other(DropCr(Line(key, value)))
  {
    CutAfter(key, '=', value);
    var line := Line(key, value);
    if DropCr(line) != line {
      assert value != "";
      assert DropCr(line) == Line(key, value[..|value| - 1]);
      CutAfter(key, '=', value[..|value| - 1]);
    }
  }

  /** Lines of other settings, without line ends inside. */
  ghost predicate OtherLines(lines: seq<string>) {
    forall i :: 0 <= i < |lines| ==> Other(DropCr(lines[i])) && '\n' !in lines[i]
  }

  lemma NumberOther(key: string, v: nat)
    requires key in {"jc", "jmin", "jmax"}
    ensures OtherLines(NumberLine(key, v))
  {
    NumberKey(key);
    ParseDecimal(v, 0);
    DigitsOneLine(Decimal(v));
    hide Other, Line, DropCr, Decimal, OneLine;
    OtherLine(key, Decimal(v));
    OneLineNewline(Decimal(v));
    OneLineNewline(key);
    NewlineFree(key, Decimal(v));
  }

  lemma NumberKey(key: string)
    requires key in {"jc", "jmin", "jmax"}
    ensures '=' !in key && key != "" && key != "public_key" && key !in KEYS && OneLine(key)
  {
    assert key[0] == 'j' && "public_key"[0] == 'p';
    forall k | 0 <= k < 9 ensures KEYS[k][0] != 'j' {
      assert KEYS[k][0] in {'s', 'h'};
    }
  }

  lemma OneLineNewline(s: string)
    requires OneLine(s)
    ensures '\n' !in s
  {
  }

  /** The names of the packets sent ahead. */
  lemma SpecKey(n: nat)
    requires n > 0
    ensures var key := ['i'] + Decimal(n); '=' !in key && key != "public_key" && key !in KEYS && OneLine(key)
  {
    ParseDecimal(n, 0);
    NoneOfThem(Decimal(n), '=');
    DigitsOneLine(Decimal(n));
    assert (['i'] + Decimal(n))[0] == 'i' && "public_key"[0] == 'p';
    forall k | 0 <= k < 9 ensures KEYS[k][0] != 'i' {
      assert KEYS[k][0] in {'s', 'h'};
    }
  }

  lemma {:induction false} SpecsOther(specs: seq<string>, n: nat)
    requires n <= |specs| && forall i :: 0 <= i < |specs| ==> '\n' !in specs[i]
    ensures OtherLines(SpecLines(specs, n))
  {
    hide Other, Line, DropCr, Decimal;
    if n > 0 {
      SpecsOther(specs, n - 1);
      SpecKey(n);
      OtherLine(['i'] + Decimal(n), specs[n - 1]);
      NewlineFree(['i'] + Decimal(n), specs[n - 1]);
    }
  }

  lemma NewlineFree(key: string, value: string)
    requires '\n' !in key && '\n' !in value
    ensures '\n' !in Line(key, value)
  {
  }

  lemma BeforeOther(p: Profile)
    ensures OtherLines(Before(p))
  {
    hide Other, DropCr, NumberLine;
    NumberOther("jc", p.jc);
    NumberOther("jmin", p.jmin);
    NumberOther("jmax", p.jmax);
  }

  predicate SpecsOk(p: Profile) {
    forall i :: 0 <= i < |p.specs| ==> '\n' !in p.specs[i]
  }

  lemma AfterOther(p: Profile)
    requires SpecsOk(p) && p.addition.lo < B32 && p.addition.hi < B32
    ensures OtherLines(After(p))
  {
    hide Other, DropCr, Line, ToString;
    SpecsOther(p.specs, |p.specs|);
    FromToString(p.addition);
    AdditionKey();
    OtherLine(ADDITION, ToString(p.addition));
    NewlineFree(ADDITION, ToString(p.addition));
  }

  lemma AdditionKey()
    ensures '=' !in ADDITION && ADDITION != "" && ADDITION != "public_key" && ADDITION !in KEYS && OneLine(ADDITION)
  {
    assert ADDITION[0] == 'c' && "public_key"[0] == 'p';
    forall k | 0 <= k < 9 ensures KEYS[k][0] != 'c' {
      assert KEYS[k][0] in {'s', 'h'};
    }
  }

  function Dropped(lines: seq<string>): (r: seq<string>)
    ensures |r| == |lines| && forall i :: 0 <= i < |lines| ==> r[i] == DropCr(lines[i])
  {
    seq(|lines|, i requires 0 <= i < |lines| => DropCr(lines[i]))
  }

  lemma {:induction false} LinesAppend(a: seq<string>, b: seq<string>)
    requires forall i :: 0 <= i < |a| ==> '\n' !in a[i]
    ensures Lines(Render(a + b)) == Dropped(a) + Lines(Render(b))
    decreases |a|
  {
    hide Lines, Render, Dropped;
    if a == [] {
      assert a + b == b;
      assert Dropped(a) + Lines(Render(b)) == Lines(Render(b));
    } else {
      LinesAppend(a[1..], b);
      LinesAppendOne(a[0], a[1..], b);
      assert [a[0]] + a[1..] == a;
    }
  }

  lemma LinesAppendOne(line: string, a: seq<string>, b: seq<string>)
    requires '\n' !in line && Lines(Render(a + b)) == Dropped(a) + Lines(Render(b))
    ensures Lines(Render([line] + a + b)) == Dropped([line] + a) + Lines(Render(b))
  {
    hide Lines, DropCr;
    assert ([line] + a + b)[1..] == a + b;
    LinesCons(line, Render(a + b));
    assert Dropped([line] + a) == [DropCr(line)] + Dropped(a);
  }

  /** What the first device reads behind the nine settings, line ends in packet descriptions included. */
  function Rest(p: Profile): seq<string> {
    Lines(Render(After(p)))
  }

  /** The lines of a profile as they are read. */
  lemma ProfileLinesRead(p: Profile)
    requires CoreTyped(p.core) && OtherLines(Before(p))
    requires forall i :: 0 <= i < |CoreLines(p.core, 9)| ==> OneLine(CoreLines(p.core, 9)[i])
    ensures Lines(Render(ProfileLines(p))) == Dropped(Before(p)) + CoreLines(p.core, 9) + Rest(p)
  {
    hide Other, Before, After, CoreLines, Lines, Render;
    var core := CoreLines(p.core, 9);
    forall i | 0 <= i < |core| ensures DropCr(core[i]) == core[i] {
      NoCr(core[i]);
    }
    hide DropCr;
    assert Dropped(core) == core;
    assert ProfileLines(p) == Before(p) + (core + After(p));
    LinesAppend(Before(p), core + After(p));
    LinesAppend(core, After(p));
  }

  lemma ReadMiddle(c: Config, a: seq<string>, core: seq<string>, b: seq<string>, others: Others, peersOk: bool)
    requires |c.headers| == 4 && |c.paddings| == 4
    requires forall i :: 0 <= i < |a| ==> Other(a[i])
    requires forall i :: 0 <= i < |core| ==> Plain(core[i])
    ensures var r := ReadLines(c, core, others, peersOk);
            ReadLines(c, a + core + b, others, peersOk) in {None, if r.None? then None else ReadLines(r.value, b, others, peersOk)}
  {
    assert forall i :: 0 <= i < |a| ==> Plain(a[i]);
    hide ReadLines;
    ReadAppend(c, a, core + b, others, peersOk);
    assert a + core + b == a + (core + b);
    OthersRead(c, a, others, peersOk);
    ReadAppend(c, core, b, others, peersOk);
  }

  /** Reading a profile comes down to reading what follows the nine settings. */
  lemma FirstReads(p: Profile, others: Others, peersOk: bool)
    requires CoreTyped(p.core)
    ensures var r := ReadLines(FRESH, Lines(Render(ProfileLines(p))), others, peersOk);
            r.Some? ==> Readable(p.core) && r == ReadLines(ConfigOf(p.core), Rest(p), others, peersOk)
  {
    hide ConfigOf, Lines, Render, CoreLines, ReadLines, ProfileLines, Other, Before, Rest, Applied, Plain, OneLine, Readable, DropCr;
    BeforeOther(p);
    CoreRead(FRESH, p.core, 9, others, peersOk);
    ProfileLinesRead(p);
    ReadMiddle(FRESH, Dropped(Before(p)), CoreLines(p.core, 9), Rest(p), others, peersOk);
    CoreApplied(p.core, others, peersOk);
  }

  lemma CoreApplied(f: Core, others: Others, peersOk: bool)
    requires CoreTyped(f)
    ensures ReadLines(FRESH, CoreLines(f, 9), others, peersOk) == if Readable(f) then Some(ConfigOf(f)) else None
  {
    CoreRead(FRESH, f, 9, others, peersOk);
    AppliedIs(f, 9);
    PrefixKey(f);
    hide CoreLines, ReadLines, Applied, Prefix, ConfigOf;
  }

  /** Behind the nine settings a profile names none of them again, or only to say the same. */
  ghost predicate Harmless(p: Profile)
    requires CoreTyped(p.core)
  {
    Repeats(ConfigOf(p.core), Rest(p))
  }

  /** What the second device makes of the message that the first one sends. */
  ghost function SecondDevice(p: Profile, endpoint: Codec.AddrPort, others: Others): Option<Merged>
    requires CoreTyped(p.core)
  {
    var m := Codec.Decode(9, Codec.Encode(ToWire(p.core, endpoint)));
    if m.None? || !m.value.CloakedParams? || |m.value.numbers| != 12 || !CoreTyped(FromWire(m.value)) then None
    else Some(IpcSet(FRESH, Render(CoreLines(FromWire(m.value), 9)), others, true))
  }

  /**
   For every profile that the first device accepts, the second one accepts the message made of it and is then set as the
   first one is, exactly if the profile is harmless; both are then set to what the profile says.
   */
  lemma Transfer(p: Profile, endpoint: Codec.AddrPort, others: Others, peersOk: bool, othersY: Others)
    requires CoreTyped(p.core) && Codec.AddrPortTyped(endpoint)
    requires IpcSet(FRESH, Render(ProfileLines(p)), others, peersOk).ok
    ensures var x := IpcSet(FRESH, Render(ProfileLines(p)), others, peersOk).config;
            && (SecondDevice(p, endpoint, othersY) == Some(Merged(x, true)) <==> Harmless(p))
            && (Harmless(p) ==> x == ConfigOf(p.core))
  {
    hide ConfigOf, Lines, Render, CoreLines, ReadLines, ProfileLines, Codec.Decode, Codec.Encode, ToWire, FromWire, CoreTyped, Disjoint, Padded;
    hide Rest, Readable, Repeats;
    WireRoundTrip(p.core, endpoint);
    FirstReads(p, others, peersOk);
    CoreConfigures(p.core, othersY);
    ConfigLengths(p.core);
    UnchangedIff(ConfigOf(p.core), Rest(p), others, peersOk);
  }

  lemma ConfigLengths(f: Core)
    requires CoreTyped(f)
    ensures |ConfigOf(f).headers| == 4 && |ConfigOf(f).paddings| == 4
  {
  }

  /** Packet descriptions without line ends do no harm. */
  lemma NoLineEnds(p: Profile)
    requires CoreTyped(p.core) && SpecsOk(p) && p.addition.lo < B32 && p.addition.hi < B32
    ensures Harmless(p)
  {
    hide Other, Lines, Render, DropCr, Says, ConfigOf;
    AfterOther(p);
    LinesAppend(After(p), []);
    assert After(p) + [] == After(p);
    RenderNone();
    hide After;
    assert Rest(p) == Dropped(After(p));
    ConfigLengths(p.core);
    forall k | 0 <= k < 9 ensures LastValue(Rest(p), k).None? {
      OthersNameNothing(Rest(p), k);
    }
  }

  lemma RenderNone()
    ensures Lines(Render([])) == []
  {
  }

  lemma {:induction false} OthersNameNothing(lines: seq<string>, k: nat)
    requires k < 9 && forall i :: 0 <= i < |lines| ==> Other(lines[i])
    ensures LastValue(lines, k).None?
    decreases |lines|
  {
    if lines != [] {
      assert Other(lines[0]);
      OthersNameNothing(lines[1..], k);
    }
  }

  /** A line end inside the description of a packet sent ahead can set something else on the first device only. */
  lemma LineEndInSpec() returns (p: Profile)
    ensures CoreTyped(p.core) && !SpecsOk(p) && !Harmless(p)
    ensures var x := IpcSet(FRESH, Render(ProfileLines(p)), (k, v) => true, true);
            x.ok && x.config.paddings[0] == 7 && ConfigOf(p.core).paddings[0] == 0
  {
    hide Lines, Render, ReadLines, Merge, Line;
    var none, second := Range(0, 0), Line("s1", "7");
    var core := Core([0, 0, 0, 0], [none, none, none, none], false, NO_KEY);
    var spec := "a" + ['\n'] + second;
    assert spec[1] == '\n';
    p := Profile(core, 0, 0, 0, [spec], none);
    assert p.specs[0] == spec;
    NoLines(core, 9);
    assert Decimal(1) == "1";
    assert ['i'] + Decimal(1) == "i1";
    assert SpecLines(p.specs, 1) == [Line("i1", spec)] by { assert SpecLines(p.specs, 0) == []; }
    assert ProfileLines(p) == [Line("i1", spec)];
    var two := [Line("i1", "a"), second];
    LineSplit("i1", "a", second);
    SameText(Line("i1", "a"), second);
    TwoLines((k, v) => true);
    LinesRendered(two);
    NoCr(two[0]);
    NoCr(two[1]);
    assert Lines(Render(two)) == two;
    FirstReads(p, (k, v) => true, true);
    UnchangedIff(ConfigOf(core), Rest(p), (k, v) => true, true);
  }

  lemma LineSplit(key: string, a: string, b: string)
    ensures Line(key, a + ['\n'] + b) == Line(key, a) + ['\n'] + b
  {
  }

  lemma SameText(a: string, b: string)
    ensures Render([a + ['\n'] + b]) == Render([a, b])
  {
    assert [a + ['\n'] + b][1..] == [] && [a, b][1..] == [b] && [b][1..] == [];
    assert Render([b]) == b + ['\n'] + "";
    assert Render([a + ['\n'] + b]) == a + ['\n'] + b + ['\n'] + "";
  }

  lemma {:induction false} NoLines(f: Core, n: nat)
    requires CoreTyped(f) && n <= 9 && !f.hasKey
    requires forall i :: 0 <= i < 4 ==> f.s[i] == 0 && f.h[i].hi == 0
    ensures CoreLines(f, n) == []
  {
    if n > 0 {
      NoLines(f, n - 1);
    }
  }

  lemma FirstLine(others: Others)
    requires others("i1", "a")
    ensures ReadLines(FRESH, [Line("i1", "a")], others, true) == Some(FRESH) && Plain(Line("i1", "a")) && OneLine(Line("i1", "a"))
  {
    hide ReadLines, Line, Plain, SetField;
    SpecKey(1);
    assert ['i'] + Decimal(1) == "i1" by { assert Decimal(1) == "1"; }
    ReadOne(FRESH, "i1", "a", others, true);
    LineOneLine("i1", "a");
  }

  lemma SecondLine(others: Others)
    ensures ReadLines(FRESH, [Line("s1", "7")], others, true) == Some(FRESH.(paddings := [7, 0, 0, 0])) && OneLine(Line("s1", "7"))
  {
    hide ReadLines, Line, Plain;
    KeysPlain(0);
    ReadOne(FRESH, "s1", "7", others, true);
    LineOneLine("s1", "7");
    ParseDecimal(7, B16);
    assert Decimal(7) == "7";
    assert FRESH.paddings[0 := 7] == [7, 0, 0, 0];
  }

  lemma TwoLines(others: Others)
    requires others("i1", "a")
    ensures var x := ReadLines(FRESH, [Line("i1", "a"), Line("s1", "7")], others, true);
            x == Some(FRESH.(paddings := [7, 0, 0, 0])) && Merge(FRESH, x.value) == Merged(x.value, true)
    ensures OneLine(Line("i1", "a")) && OneLine(Line("s1", "7"))
  {
    hide ReadLines, Line, Plain, OneLine;
    FirstLine(others);
    SecondLine(others);
    ReadAppend(FRESH, [Line("i1", "a")], [Line("s1", "7")], others, true);
    assert [Line("i1", "a")] + [Line("s1", "7")] == [Line("i1", "a"), Line("s1", "7")];
  }
}
