/**
 Handshake patterns as the Noise Protocol Framework, revision 34, defines them: tokens processed on a symmetric
 state (sections 5.2, 5.3, 7.5 and 9).  Keys and messages are symbolic terms, Diffie-Hellman is commutative, and
 a sealed box opens under the key and the associated data it was made with and no other.
 */
module Noise {
  import opened Basics

  datatype Term =
    | Empty
    | Text(s: string)
    | Stamp(time: nat)
    | Public(sk: nat)
    | Weak
    | Foreign(id: nat)
    | Dh(lo: nat, hi: nat)
    | DhForeign(sk: nat, pk: Term)
    | Digest(h: Term, data: Term)
    | Hmac(key: Term, data: Term, suffix: nat)
    | Sealed(key: Term, ad: Term, plain: Term)

  /** The shared secret of a private and a public key; none when the result would be all zero. */
  function Shared(sk: nat, pk: Term): (r: Option<Term>)
    ensures r.None? <==> pk.Weak?
  {
    match pk
    case Public(o) => Some(if sk <= o then Dh(sk, o) else Dh(o, sk))
    case Weak => None
    case _ => Some(DhForeign(sk, pk))
  }

  /** The outputs of HKDF (sections 2.2 and 2.3 of RFC 5869): each block is fed to the next. */
  function Kdf(key: Term, input: Term, n: nat): Term
    requires 1 <= n
  {
    var prk := Hmac(key, input, 0);
    if n == 1 then Hmac(prk, Empty, 1) else Hmac(prk, Kdf(key, input, n - 1), n)
  }

  function Open(key: Term, ad: Term, c: Term): (r: Option<Term>)
    ensures r.Some? <==> c.Sealed? && c.key == key && c.ad == ad
    ensures r.Some? ==> c == Sealed(key, ad, r.value)
  {
    if c.Sealed? && c.key == key && c.ad == ad then Some(c.plain) else None
  }

  // ---------------------------------------------------------------- the symmetric state

  datatype Sym = Sym(ck: Term, k: Option<Term>, h: Term)

  function MixHash(sym: Sym, data: Term): Sym {
    sym.(h := Digest(sym.h, data))
  }

  function MixKey(sym: Sym, ikm: Term): Sym {
    sym.(ck := Kdf(sym.ck, ikm, 1), k := Some(Kdf(sym.ck, ikm, 2)))
  }

  function MixKeyAndHash(sym: Sym, ikm: Term): Sym {
    MixHash(sym, Kdf(sym.ck, ikm, 2)).(ck := Kdf(sym.ck, ikm, 1), k := Some(Kdf(sym.ck, ikm, 3)))
  }

  /** Before there is a key, data travel in the clear. */
  function Encrypt(sym: Sym, plain: Term): Term {
    if sym.k.Some? then Sealed(sym.k.value, sym.h, plain) else plain
  }

  function Decrypt(sym: Sym, c: Term): Option<Term> {
    if sym.k.Some? then Open(sym.k.value, sym.h, c) else Some(c)
  }

  lemma DecryptIff(sym: Sym, c: Term, plain: Term)
    ensures Decrypt(sym, c) == Some(plain) <==> c == Encrypt(sym, plain)
  {
  }

  // ---------------------------------------------------------------- tokens

  datatype Token = E | S | Es | Ss | Ee | Se | Psk

  datatype Party = Party(initiator: bool, s: nat, e: Option<nat>, rs: Option<Term>, re: Option<Term>, pskMode: bool, psk: Term)

  /** The shared secret that a token stands for, as one party computes it. */
  function SecretOf(a: Party, t: Token): Option<Term> {
    if t == Ss then (if a.rs.Some? then Shared(a.s, a.rs.value) else None)
    else if t == Ee then (if a.e.Some? && a.re.Some? then Shared(a.e.value, a.re.value) else None)
    else if (t == Es) == a.initiator then (if a.e.Some? && a.rs.Some? then Shared(a.e.value, a.rs.value) else None)
    else (if a.re.Some? then Shared(a.s, a.re.value) else None)
  }

  /** With a pre-shared key, ephemeral public keys go into the chain key too. */
  function MixEphemeral(sym: Sym, pskMode: bool, pk: Term): Sym {
    var hashed := MixHash(sym, pk);
    if pskMode then MixKey(hashed, pk) else hashed
  }

  datatype Written = Written(sym: Sym, msg: seq<Term>)

  datatype Received = Received(sym: Sym, party: Party, payload: Term)

  function Before(field: Term, w: Option<Written>): Option<Written> {
    if w.Some? then Some(w.value.(msg := [field] + w.value.msg)) else None
  }

  function Write(sym: Sym, a: Party, tokens: seq<Token>, payload: Term): Option<Written>
    decreases |tokens|
  {
    if tokens == [] then Some(Written(MixHash(sym, Encrypt(sym, payload)), [Encrypt(sym, payload)]))
    else
      match tokens[0]
      case E =>
        if a.e.None? then None
        else Before(Public(a.e.value), Write(MixEphemeral(sym, a.pskMode, Public(a.e.value)), a, tokens[1..], payload))
      case S =>
        var c := Encrypt(sym, Public(a.s));
        Before(c, Write(MixHash(sym, c), a, tokens[1..], payload))
      case Psk => Write(MixKeyAndHash(sym, a.psk), a, tokens[1..], payload)
      case t =>
        var ss := SecretOf(a, t);
        if ss.None? then None else Write(MixKey(sym, ss.value), a, tokens[1..], payload)
  }

  function Read(sym: Sym, b: Party, tokens: seq<Token>, msg: seq<Term>): Option<Received>
    decreases |tokens|
  {
    if tokens == [] then
      if |msg| != 1 then None
      else
        var payload := Decrypt(sym, msg[0]);
        if payload.None? then None else Some(Received(MixHash(sym, msg[0]), b, payload.value))
    else
      match tokens[0]
      case E =>
        if msg == [] then None
        else Read(MixEphemeral(sym, b.pskMode, msg[0]), b.(re := Some(msg[0])), tokens[1..], msg[1..])
      case S =>
        if msg == [] then None
        else
          var rs := Decrypt(sym, msg[0]);
          if rs.None? then None else Read(MixHash(sym, msg[0]), b.(rs := rs), tokens[1..], msg[1..])
      case Psk => Read(MixKeyAndHash(sym, b.psk), b, tokens[1..], msg)
      case t =>
        var ss := SecretOf(b, t);
        if ss.None? then None else Read(MixKey(sym, ss.value), b, tokens[1..], msg)
  }

  /** The transport keys (section 5.2, Split). */
  function FirstKey(sym: Sym): Term { Kdf(sym.ck, Empty, 1) }

  function SecondKey(sym: Sym): Term { Kdf(sym.ck, Empty, 2) }

  // ---------------------------------------------------------------- the two sides of a message agree

  /** What each party knows of the other is true. */
  ghost predicate Matching(a: Party, b: Party) {
    && a.initiator != b.initiator && a.pskMode == b.pskMode && a.psk == b.psk
    && (a.rs.Some? ==> a.rs.value == Public(b.s))
    && (b.rs.Some? ==> b.rs.value == Public(a.s))
    && (a.re.Some? ==> b.e.Some? && a.re.value == Public(b.e.value))
    && (b.re.Some? ==> a.e.Some? && b.re.value == Public(a.e.value))
  }

  /** Both parties have, or get in time, the keys that the tokens need. */
  ghost predicate Ready(a: Party, b: Party, tokens: seq<Token>)
    decreases |tokens|
  {
    tokens == [] ||
    match tokens[0]
    case E => a.e.Some? && Ready(a, b.(re := Some(Public(a.e.value))), tokens[1..])
    case S => Ready(a, b.(rs := Some(Public(a.s))), tokens[1..])
    case Psk => Ready(a, b, tokens[1..])
    case t => SecretOf(a, t).Some? && SecretOf(b, t).Some? && Ready(a, b, tokens[1..])
  }

  lemma SameSecret(a: Party, b: Party, t: Token)
    requires Matching(a, b) && t in {Es, Ss, Ee, Se} && SecretOf(a, t).Some? && SecretOf(b, t).Some?
    ensures SecretOf(a, t) == SecretOf(b, t)
  {
  }

  /** What the receiver knows after a message. */
  function Learned(a: Party, b: Party, tokens: seq<Token>): Party {
    b.(re := if E in tokens && a.e.Some? then Some(Public(a.e.value)) else b.re,
       rs := if S in tokens then Some(Public(a.s)) else b.rs)
  }

  /** For every pattern: reading what a matching party has written gives its payload and the same symmetric state. */
  lemma {:induction false} ReadWritten(sym: Sym, a: Party, b: Party, tokens: seq<Token>, payload: Term)
    requires Matching(a, b) && Ready(a, b, tokens)
    ensures var w := Write(sym, a, tokens, payload);
            w.Some? && Read(sym, b, tokens, w.value.msg) == Some(Received(w.value.sym, Learned(a, b, tokens), payload))
    ensures Matching(a, Learned(a, b, tokens))
    decreases |tokens|
  {
    hide MixEphemeral, MixKey, MixHash, MixKeyAndHash, SecretOf, Encrypt, Decrypt, Learned, Matching;
    LearnedStep(a, b, tokens);
    if tokens == [] {
      DecryptIff(sym, Encrypt(sym, payload), payload);
      return;
    }
    var rest := tokens[1..];
    match tokens[0]
    case E =>
      var b1, pk := b.(re := Some(Public(a.e.value))), Public(a.e.value);
      SamePsk(a, b);
      var sym1 := MixEphemeral(sym, a.pskMode, pk);
      ReadWritten(sym1, a, b1, rest, payload);
      assert ([pk] + Write(sym1, a, rest, payload).value.msg)[1..] == Write(sym1, a, rest, payload).value.msg;
    case S =>
      var c := Encrypt(sym, Public(a.s));
      var b1, sym1 := b.(rs := Some(Public(a.s))), MixHash(sym, c);
      DecryptIff(sym, c, Public(a.s));
      ReadWritten(sym1, a, b1, rest, payload);
      assert ([c] + Write(sym1, a, rest, payload).value.msg)[1..] == Write(sym1, a, rest, payload).value.msg;
    case Psk =>
      SamePsk(a, b);
      ReadWritten(MixKeyAndHash(sym, a.psk), a, b, rest, payload);
    case t =>
      SameSecret(a, b, t);
      ReadWritten(MixKey(sym, SecretOf(a, t).value), a, b, rest, payload);
  }

  lemma SamePsk(a: Party, b: Party)
    requires Matching(a, b)
    ensures a.psk == b.psk && a.pskMode == b.pskMode
  {
  }

  /** Token by token, the receiver learns truths. */
  lemma LearnedStep(a: Party, b: Party, tokens: seq<Token>)
    requires Matching(a, b)
    ensures tokens == [] ==> Learned(a, b, tokens) == b
    ensures tokens != [] && tokens[0] == E && a.e.Some? ==>
      var b1 := b.(re := Some(Public(a.e.value))); Matching(a, b1) && Learned(a, b1, tokens[1..]) == Learned(a, b, tokens)
    ensures tokens != [] && tokens[0] == S ==>
      var b1 := b.(rs := Some(Public(a.s))); Matching(a, b1) && Learned(a, b1, tokens[1..]) == Learned(a, b, tokens)
    ensures tokens != [] && tokens[0] != E && tokens[0] != S ==> Learned(a, b, tokens[1..]) == Learned(a, b, tokens)
  {
    if tokens != [] {
      assert forall t :: t in tokens <==> t == tokens[0] || t in tokens[1..];
    }
  }

  // ---------------------------------------------------------------- nothing else is accepted

  lemma {:induction false} ReadKeeps(sym: Sym, b: Party, tokens: seq<Token>, msg: seq<Term>)
    requires Read(sym, b, tokens, msg).Some?
    ensures var p := Read(sym, b, tokens, msg).value.party;
            && p == b.(rs := p.rs, re := p.re)
            && (E !in tokens ==> p.re == b.re)
            && (S !in tokens ==> p.rs == b.rs)
    decreases |tokens|
  {
    hide MixEphemeral, MixKey, MixHash, MixKeyAndHash, SecretOf, Encrypt, Decrypt;
    if tokens != [] {
      var rest := tokens[1..];
      assert forall t :: t in tokens <==> t == tokens[0] || t in rest;
      match tokens[0]
      case E => ReadKeeps(MixEphemeral(sym, b.pskMode, msg[0]), b.(re := Some(msg[0])), rest, msg[1..]);
      case S => ReadKeeps(MixHash(sym, msg[0]), b.(rs := Decrypt(sym, msg[0])), rest, msg[1..]);
      case Psk => ReadKeeps(MixKeyAndHash(sym, b.psk), b, rest, msg);
      case t => ReadKeeps(MixKey(sym, SecretOf(b, t).value), b, rest, msg);
    }
  }

  /** Keys are sent at most once, and not to those who have them already; the writer has what it needs. */
  ghost predicate Expecting(a: Party, b: Party, tokens: seq<Token>) {
    && (forall i, j :: 0 <= i < j < |tokens| && tokens[i] in {E, S} ==> tokens[i] != tokens[j])
    && (E in tokens ==> b.re.None?)
    && (S in tokens ==> b.rs.None?)
    && (forall i :: 0 <= i < |tokens| && tokens[i] in {Es, Ss, Ee, Se} ==> SecretOf(a, tokens[i]).Some?)
  }

  /** For every pattern: a message that is accepted is one that the party it then comes from would have written. */
  lemma {:induction false} AcceptedIsWritten(sym: Sym, a: Party, b: Party, tokens: seq<Token>, msg: seq<Term>)
    requires Read(sym, b, tokens, msg).Some? && Matching(a, Read(sym, b, tokens, msg).value.party) && Expecting(a, b, tokens)
    ensures var r := Read(sym, b, tokens, msg).value; Write(sym, a, tokens, r.payload) == Some(Written(r.sym, msg))
    decreases |tokens|
  {
    hide MixEphemeral, MixKey, MixHash, MixKeyAndHash, SecretOf, Encrypt, Decrypt;
    var r := Read(sym, b, tokens, msg).value;
    if tokens == [] {
      DecryptIff(sym, msg[0], r.payload);
      assert msg == [msg[0]];
      return;
    }
    var rest := tokens[1..];
    assert forall t :: t in tokens <==> t == tokens[0] || t in rest;
    assert forall i :: 0 <= i < |rest| ==> rest[i] == tokens[i + 1];
    match tokens[0]
    case E =>
      var sym1, b1 := MixEphemeral(sym, b.pskMode, msg[0]), b.(re := Some(msg[0]));
      ReadKeeps(sym1, b1, rest, msg[1..]);
      AcceptedIsWritten(sym1, a, b1, rest, msg[1..]);
      assert [msg[0]] + msg[1..] == msg;
    case S =>
      var sym1, b1 := MixHash(sym, msg[0]), b.(rs := Decrypt(sym, msg[0]));
      ReadKeeps(sym1, b1, rest, msg[1..]);
      DecryptIff(sym, msg[0], Public(a.s));
      AcceptedIsWritten(sym1, a, b1, rest, msg[1..]);
      assert [msg[0]] + msg[1..] == msg;
    case Psk =>
      ReadKeeps(MixKeyAndHash(sym, b.psk), b, rest, msg);
      AcceptedIsWritten(MixKeyAndHash(sym, b.psk), a, b, rest, msg);
    case t =>
      ReadKeeps(MixKey(sym, SecretOf(b, t).value), b, rest, msg);
      StillMatching(a, b, r.party, tokens);
      SameSecret(a, b, t);
      AcceptedIsWritten(MixKey(sym, SecretOf(b, t).value), a, b, rest, msg);
  }

  lemma StillMatching(a: Party, b: Party, b': Party, tokens: seq<Token>)
    requires Matching(a, b') && Expecting(a, b, tokens) && b' == b.(rs := b'.rs, re := b'.re)
    requires E !in tokens ==> b'.re == b.re
    requires S !in tokens ==> b'.rs == b.rs
    ensures Matching(a, b)
  {
  }
}
