/**
 The control channel's handshake as it runs over a stream: hash, chain key and cipher key are overwritten in place.
 What comes out is the pattern IK.  Reading and writing the stream is left to the caller.
 */
module NoiseControl {
  import opened Basics
  import opened Noise
  import opened NoiseCells
  import opened NoiseIk

  const PROTOCOL_NAME := "OrchestrateControl_IK_25519_ChaChaPoly_BLAKE2s_v1"
  const INITIAL_CHAIN_KEY := Digest(Text(PROTOCOL_NAME), Empty)
  const INITIAL_HASH := Digest(INITIAL_CHAIN_KEY, Empty)

  function Start(responder: Term): Sym {
    MixHash(Sym(INITIAL_CHAIN_KEY, None, INITIAL_HASH), responder)
  }

  datatype Result = Result(remoteStatic: Term, sendKey: Term, recvKey: Term)

  /** The pattern has no pre-shared key. */
  function Caller(s: nat, e: nat, remote: Term): Party {
    Initiator(s, e, remote, false, Empty)
  }

  function Callee(s: nat): Party {
    Responder(s, false, Empty)
  }

  method SealAndMix(h: Cell, key: Cell, plain: Term) returns (c: Term)
    requires h != key
    modifies h
    ensures c == Sealed(key.v, old(h.v), plain) && h.v == Digest(old(h.v), c)
  {
    c := Sealed(key.v, h.v, plain);
    MixHashCell(h, h, c);
  }

  /** Up to the first message. */
  method InitiatorSend(s: nat, e: nat, remoteStatic: Term, now: nat) returns (msg: Option<seq<Term>>, h: Cell, ck: Cell)
    ensures fresh(h) && fresh(ck) && h != ck
    ensures var w := Write(Start(remoteStatic), Caller(s, e, remoteStatic), FIRST, Stamp(now));
            if w.None? then msg.None? else msg == Some(w.value.msg) && ck.v == w.value.sym.ck && h.v == w.value.sym.h
  {
    WriteFirstRaw(INITIAL_CHAIN_KEY, Digest(INITIAL_HASH, remoteStatic), Caller(s, e, remoteStatic), Stamp(now));
    hide Write, Kdf, Shared;
    h := new Cell(INITIAL_HASH);
    ck := new Cell(INITIAL_CHAIN_KEY);
    MixHashCell(h, h, remoteStatic);
    MixHashCell(h, h, Public(e));
    var key := new Cell(Empty);
    msg := None;
    var es := Shared(e, remoteStatic);
    if es.None? {
      return;
    }
    Kdf2(ck, key, ck, es.value);
    var staticCipher := SealAndMix(h, key, Public(s));
    var ss := Shared(s, remoteStatic);
    if ss.None? {
      return;
    }
    Kdf2(ck, key, ck, ss.value);
    var timestampCipher := SealAndMix(h, key, Stamp(now));
    msg := Some([Public(e), staticCipher, timestampCipher]);
  }

  /** From the second message on. */
  method InitiatorReceive(s: nat, e: nat, remoteStatic: Term, h: Cell, ck: Cell, re: Term, emptyCipher: Term) returns (r: Option<Result>)
    requires h != ck
    modifies h, ck
    ensures var rd := Read(Sym(old(ck.v), None, old(h.v)), Caller(s, e, remoteStatic), SECOND, [re, emptyCipher]);
            if rd.None? then r.None? else r == Some(Result(remoteStatic, FirstKey(rd.value.sym), SecondKey(rd.value.sym)))
  {
    ReadSecondRaw(ck.v, h.v, Caller(s, e, remoteStatic), re, emptyCipher);
    hide Read, Kdf, Shared, Open;
    MixHashCell(h, h, re);
    var ee, se := Shared(e, re), Shared(s, re);
    if ee.None? || se.None? {
      return None;
    }
    var key := new Cell(Empty);
    Kdf2(ck, key, ck, ee.value);
    Kdf2(ck, key, ck, se.value);
    if Open(key.v, h.v, emptyCipher).None? {
      return None;
    }
    MixHashCell(h, h, emptyCipher);
    var recvKey := new Cell(Empty);
    Kdf2(key, recvKey, ck, Empty);
    ck.v := Empty;
    return Some(Result(remoteStatic, key.v, recvKey.v));
  }

  /** The first message as the responder reads it, given who is known and what counts as a replay. */
  method ResponderReceive(s: nat, isKnownPeer: Term -> bool, checkReplay: (Term, Term) -> bool, ie: Term, staticCipher: Term, timestampCipher: Term)
      returns (r: Option<Term>, h: Cell, ck: Cell)
    ensures fresh(h) && fresh(ck) && h != ck
    ensures var rd := Read(Start(Public(s)), Callee(s), FIRST, [ie, staticCipher, timestampCipher]);
            if rd.None? || !isKnownPeer(rd.value.party.rs.value) || !checkReplay(rd.value.party.rs.value, rd.value.payload) then r.None?
            else r == rd.value.party.rs && ck.v == rd.value.sym.ck && h.v == rd.value.sym.h
  {
    ReadFirstRaw(INITIAL_CHAIN_KEY, Digest(INITIAL_HASH, Public(s)), Callee(s), ie, staticCipher, timestampCipher);
    hide Read, Kdf, Shared, Open;
    h := new Cell(INITIAL_HASH);
    ck := new Cell(INITIAL_CHAIN_KEY);
    MixHashCell(h, h, Public(s));
    MixHashCell(h, h, ie);
    var key := new Cell(Empty);
    r := None;
    var es := Shared(s, ie);
    if es.None? {
      return;
    }
    Kdf2(ck, key, ck, es.value);
    var remoteStatic := Open(key.v, h.v, staticCipher);
    if remoteStatic.None? {
      return;
    }
    MixHashCell(h, h, staticCipher);
    if !isKnownPeer(remoteStatic.value) {
      return;
    }
    var ss := Shared(s, remoteStatic.value);
    if ss.None? {
      return;
    }
    Kdf2(ck, key, ck, ss.value);
    var ts := Open(key.v, h.v, timestampCipher);
    if ts.None? {
      return;
    }
    MixHashCell(h, h, timestampCipher);
    if !checkReplay(remoteStatic.value, ts.value) {
      return;
    }
    r := remoteStatic;
  }

  method ResponderSend(s: nat, e: nat, ie: Term, remoteStatic: Term, h: Cell, ck: Cell) returns (r: Option<(seq<Term>, Result)>)
    requires h != ck
    modifies h, ck
    ensures var w := Write(Sym(old(ck.v), None, old(h.v)), Answering(s, e, ie, remoteStatic, false, Empty), SECOND, Empty);
            if w.None? then r.None? else r == Some((w.value.msg, Result(remoteStatic, SecondKey(w.value.sym), FirstKey(w.value.sym))))
  {
    WriteSecondRaw(ck.v, h.v, Answering(s, e, ie, remoteStatic, false, Empty), Empty);
    hide Write, Kdf, Shared;
    MixHashCell(h, h, Public(e));
    var ee, se := Shared(e, ie), Shared(e, remoteStatic);
    if ee.None? || se.None? {
      return None;
    }
    var key := new Cell(Empty);
    Kdf2(ck, key, ck, ee.value);
    Kdf2(ck, key, ck, se.value);
    var emptyCipher := SealAndMix(h, key, Empty);
    var recvKey := new Cell(Empty);
    Kdf2(recvKey, key, ck, Empty);
    ck.v := Empty;
    return Some(([Public(e), emptyCipher], Result(remoteStatic, key.v, recvKey.v)));
  }

  /** An honest exchange: both sides succeed, know each other, and each sends with the key the other receives with. */
  method Exchange(i: nat, r: nat, ei: nat, er: nat, now: nat, isKnownPeer: Term -> bool, checkReplay: (Term, Term) -> bool)
      returns (a: Option<Result>, b: Option<Result>)
    requires isKnownPeer(Public(i)) && checkReplay(Public(i), Stamp(now))
    ensures a.Some? && b.Some? && a.value.sendKey == b.value.recvKey && a.value.recvKey == b.value.sendKey
    ensures a.value.remoteStatic == Public(r) && b.value.remoteStatic == Public(i)
  {
    HonestRun(Start(Public(r)), i, r, ei, er, false, Empty, Stamp(now), Empty);
    var msg1, h, ck := InitiatorSend(i, ei, Public(r), now);
    ghost var sym := Write(Start(Public(r)), Caller(i, ei, Public(r)), FIRST, Stamp(now)).value.sym;
    WriteFirst(Start(Public(r)), Caller(i, ei, Public(r)), Stamp(now));
    hide Write, Read, Kdf, Start, Shared, MixEphemeral, MixKey, Encrypt, MixHash;
    assert msg1.value == [msg1.value[0], msg1.value[1], msg1.value[2]] && msg1.value[0] == Public(ei);
    var who, h2, ck2 := ResponderReceive(r, isKnownPeer, checkReplay, msg1.value[0], msg1.value[1], msg1.value[2]);
    var answer := Answering(r, er, Public(ei), Public(i), false, Empty);
    SecondForgetsKey(sym, answer, Caller(i, ei, Public(r)), Empty, Empty, Empty);
    var sent := ResponderSend(r, er, msg1.value[0], who.value, h2, ck2);
    WriteSecond(sym, answer, Empty);
    var msg2 := sent.value.0;
    assert msg2 == [msg2[0], msg2[1]];
    SecondForgetsKey(sym, answer, Caller(i, ei, Public(r)), Empty, msg2[0], msg2[1]);
    a := InitiatorReceive(i, ei, Public(r), h, ck, msg2[0], msg2[1]);
    b := Some(sent.value.1);
  }
}
