/**
 The handshake pattern IK, with a pre-shared key in the second message (IKpsk2, the device's handshake) or without
 one (the control channel's): what its messages are, that honest parties agree, and that nothing else is accepted.
 */
module NoiseIk {
  import opened Basics
  import opened Noise

  const FIRST: seq<Token> := [E, Es, S, Ss]
  const SECOND_PSK: seq<Token> := [E, Ee, Se, Psk]
  const SECOND: seq<Token> := [E, Ee, Se]

  // ---------------------------------------------------------------- the patterns, token by token

  lemma WriteFirst(sym: Sym, a: Party, payload: Term)
    requires a.initiator && a.e.Some? && a.rs.Some?
    ensures Write(sym, a, FIRST, payload) ==
              var es, ss := Shared(a.e.value, a.rs.value), Shared(a.s, a.rs.value);
              if es.None? || ss.None? then None
              else
                var sym1 := MixKey(MixEphemeral(sym, a.pskMode, Public(a.e.value)), es.value);
                var c := Encrypt(sym1, Public(a.s));
                var sym2 := MixKey(MixHash(sym1, c), ss.value);
                var d := Encrypt(sym2, payload);
                Some(Written(MixHash(sym2, d), [Public(a.e.value), c, d]))
  {
    hide MixEphemeral, MixKey, MixHash, Encrypt;
    var sym0 := MixEphemeral(sym, a.pskMode, Public(a.e.value));
    var es, ss := SecretOf(a, Es), SecretOf(a, Ss);
    assert FIRST[1..] == [Es, S, Ss] && [Es, S, Ss][1..] == [S, Ss] && [S, Ss][1..] == [Ss] && [Ss][1..] == [];
    assert Write(sym, a, FIRST, payload) == Before(Public(a.e.value), Write(sym0, a, [Es, S, Ss], payload));
    if es.Some? {
      var sym1 := MixKey(sym0, es.value);
      var c := Encrypt(sym1, Public(a.s));
      assert Write(sym0, a, [Es, S, Ss], payload) == Write(sym1, a, [S, Ss], payload);
      assert Write(sym1, a, [S, Ss], payload) == Before(c, Write(MixHash(sym1, c), a, [Ss], payload));
      if ss.Some? {
        assert Write(MixHash(sym1, c), a, [Ss], payload) == Write(MixKey(MixHash(sym1, c), ss.value), a, [], payload);
        var d := Encrypt(MixKey(MixHash(sym1, c), ss.value), payload);
        assert [Public(a.e.value)] + ([c] + [d]) == [Public(a.e.value), c, d];
      }
    }
  }

  lemma ReadFirst(sym: Sym, b: Party, ie: Term, c: Term, d: Term)
    requires !b.initiator
    ensures Read(sym, b, FIRST, [ie, c, d]) ==
              var es := Shared(b.s, ie);
              if es.None? then None
              else
                var sym1 := MixKey(MixEphemeral(sym, b.pskMode, ie), es.value);
                var rs := Open(sym1.k.value, sym1.h, c);
                if rs.None? then None
                else
                  var ss := Shared(b.s, rs.value);
                  if ss.None? then None
                  else
                    var sym2 := MixKey(MixHash(sym1, c), ss.value);
                    var payload := Open(sym2.k.value, sym2.h, d);
                    if payload.None? then None
                    else Some(Received(MixHash(sym2, d), b.(re := Some(ie), rs := rs), payload.value))
  {
    hide MixEphemeral, Kdf, Open;
    var sym0, b1 := MixEphemeral(sym, b.pskMode, ie), b.(re := Some(ie));
    var es := SecretOf(b1, Es);
    assert FIRST[1..] == [Es, S, Ss] && [Es, S, Ss][1..] == [S, Ss] && [S, Ss][1..] == [Ss] && [Ss][1..] == [];
    assert [ie, c, d][1..] == [c, d] && [c, d][1..] == [d];
    assert Read(sym, b, FIRST, [ie, c, d]) == Read(sym0, b1, [Es, S, Ss], [c, d]);
    if es.Some? {
      var sym1 := MixKey(sym0, es.value);
      var rs := Decrypt(sym1, c);
      assert Read(sym0, b1, [Es, S, Ss], [c, d]) == Read(sym1, b1, [S, Ss], [c, d]);
      if rs.Some? {
        var b2 := b1.(rs := rs);
        var ss := SecretOf(b2, Ss);
        assert Read(sym1, b1, [S, Ss], [c, d]) == Read(MixHash(sym1, c), b2, [Ss], [d]);
        if ss.Some? {
          assert Read(MixHash(sym1, c), b2, [Ss], [d]) == Read(MixKey(MixHash(sym1, c), ss.value), b2, [], [d]);
        }
      }
    }
  }

  /** The state in which the payload of the second message is sealed. */
  function SecondState(sym: Sym, pskMode: bool, psk: Term, pk: Term, ee: Term, se: Term): Sym {
    var sym1 := MixKey(MixKey(MixEphemeral(sym, pskMode, pk), ee), se);
    if pskMode then MixKeyAndHash(sym1, psk) else sym1
  }

  function SecondTokens(pskMode: bool): seq<Token> {
    if pskMode then SECOND_PSK else SECOND
  }

  lemma WriteSecond(sym: Sym, b: Party, payload: Term)
    requires !b.initiator && b.e.Some? && b.re.Some? && b.rs.Some?
    ensures Write(sym, b, SecondTokens(b.pskMode), payload) ==
              var ee, se := Shared(b.e.value, b.re.value), Shared(b.e.value, b.rs.value);
              if ee.None? || se.None? then None
              else
                var sym1 := SecondState(sym, b.pskMode, b.psk, Public(b.e.value), ee.value, se.value);
                var c := Encrypt(sym1, payload);
                Some(Written(MixHash(sym1, c), [Public(b.e.value), c]))
  {
    hide MixEphemeral, MixKey, MixHash, MixKeyAndHash, Encrypt;
    var sym0 := MixEphemeral(sym, b.pskMode, Public(b.e.value));
    var ee, se := SecretOf(b, Ee), SecretOf(b, Se);
    assert SECOND_PSK[1..] == [Ee, Se, Psk] && [Ee, Se, Psk][1..] == [Se, Psk] && [Se, Psk][1..] == [Psk] && [Psk][1..] == [];
    assert SECOND[1..] == [Ee, Se] && [Ee, Se][1..] == [Se] && [Se][1..] == [];
    var rest := SecondTokens(b.pskMode)[1..];
    assert Write(sym, b, SecondTokens(b.pskMode), payload) == Before(Public(b.e.value), Write(sym0, b, rest, payload));
    if ee.Some? {
      var sym1 := MixKey(sym0, ee.value);
      assert Write(sym0, b, rest, payload) == Write(sym1, b, rest[1..], payload);
      if se.Some? {
        var sym2 := MixKey(sym1, se.value);
        assert Write(sym1, b, rest[1..], payload) == Write(sym2, b, rest[2..], payload);
        var sym3 := if b.pskMode then MixKeyAndHash(sym2, b.psk) else sym2;
        assert Write(sym2, b, rest[2..], payload) == Write(sym3, b, [], payload);
        assert [Public(b.e.value)] + [Encrypt(sym3, payload)] == [Public(b.e.value), Encrypt(sym3, payload)];
      }
    }
  }

  lemma ReadSecond(sym: Sym, a: Party, re: Term, c: Term)
    requires a.initiator && a.e.Some?
    ensures Read(sym, a, SecondTokens(a.pskMode), [re, c]) ==
              var ee, se := Shared(a.e.value, re), Shared(a.s, re);
              if ee.None? || se.None? then None
              else
                var sym1 := SecondState(sym, a.pskMode, a.psk, re, ee.value, se.value);
                var payload := Open(sym1.k.value, sym1.h, c);
                if payload.None? then None else Some(Received(MixHash(sym1, c), a.(re := Some(re)), payload.value))
  {
    hide MixEphemeral, Kdf, Open;
    var sym0, a1 := MixEphemeral(sym, a.pskMode, re), a.(re := Some(re));
    var ee, se := SecretOf(a1, Ee), SecretOf(a1, Se);
    assert SECOND_PSK[1..] == [Ee, Se, Psk] && [Ee, Se, Psk][1..] == [Se, Psk] && [Se, Psk][1..] == [Psk] && [Psk][1..] == [];
    assert SECOND[1..] == [Ee, Se] && [Ee, Se][1..] == [Se] && [Se][1..] == [];
    assert [re, c][1..] == [c];
    var rest := SecondTokens(a.pskMode)[1..];
    assert Read(sym, a, SecondTokens(a.pskMode), [re, c]) == Read(sym0, a1, rest, [c]);
    if ee.Some? {
      var sym1 := MixKey(sym0, ee.value);
      assert Read(sym0, a1, rest, [c]) == Read(sym1, a1, rest[1..], [c]);
      if se.Some? {
        var sym2 := MixKey(sym1, se.value);
        assert Read(sym1, a1, rest[1..], [c]) == Read(sym2, a1, rest[2..], [c]);
        assert a.pskMode ==> Read(sym2, a1, [Psk], [c]) == Read(MixKeyAndHash(sym2, a.psk), a1, [], [c]);
      }
    }
  }

  // ---------------------------------------------------------------- honest runs

  /** The initiator with its ephemeral key, who knows the responder's static key. */
  function Initiator(i: nat, e: nat, remote: Term, pskMode: bool, psk: Term): Party {
    Party(true, i, Some(e), Some(remote), None, pskMode, psk)
  }

  /** The responder before it has heard from anyone. */
  function Responder(r: nat, pskMode: bool, psk: Term): Party {
    Party(false, r, None, None, None, pskMode, psk)
  }

  /** The responder when it answers. */
  function Answering(r: nat, e: nat, ie: Term, remote: Term, pskMode: bool, psk: Term): Party {
    Party(false, r, Some(e), Some(remote), Some(ie), pskMode, psk)
  }

  /** In every honest run each message is accepted, the symmetric states agree after it, and the responder learns who called. */
  lemma HonestRun(start: Sym, i: nat, r: nat, ei: nat, er: nat, pskMode: bool, psk: Term, payload: Term, answer: Term)
    ensures var a, b := Initiator(i, ei, Public(r), pskMode, psk), Responder(r, pskMode, psk);
            var w := Write(start, a, FIRST, payload);
            && w.Some?
            && Read(start, b, FIRST, w.value.msg) == Some(Received(w.value.sym, b.(re := Some(Public(ei)), rs := Some(Public(i))), payload))
            && var w2 := Write(w.value.sym, Answering(r, er, Public(ei), Public(i), pskMode, psk), SecondTokens(pskMode), answer);
               && w2.Some?
               && Read(w.value.sym, a, SecondTokens(pskMode), w2.value.msg)
                  == Some(Received(w2.value.sym, a.(re := Some(Public(er))), answer))
  {
    hide MixEphemeral, MixKey, MixHash, MixKeyAndHash, Encrypt, Decrypt, Write, Read;
    var a, b := Initiator(i, ei, Public(r), pskMode, psk), Responder(r, pskMode, psk);
    var b1 := b.(re := Some(Public(ei)));
    var b2 := b1.(rs := Some(Public(i)));
    assert FIRST[1..] == [Es, S, Ss] && [Es, S, Ss][1..] == [S, Ss] && [S, Ss][1..] == [Ss] && [Ss][1..] == [];
    assert Ready(a, b2, [Ss]) && Ready(a, b1, [S, Ss]) && Ready(a, b1, [Es, S, Ss]) && Ready(a, b, FIRST);
    assert E in FIRST && S in FIRST;
    ReadWritten(start, a, b, FIRST, payload);
    ReadySecond(i, r, ei, er, pskMode, psk);
    var tokens := SecondTokens(pskMode);
    assert E == tokens[0] && S !in tokens;
    ReadWritten(Write(start, a, FIRST, payload).value.sym, Answering(r, er, Public(ei), Public(i), pskMode, psk), a, tokens, answer);
  }

  lemma ReadySecond(i: nat, r: nat, ei: nat, er: nat, pskMode: bool, psk: Term)
    ensures Ready(Answering(r, er, Public(ei), Public(i), pskMode, psk), Initiator(i, ei, Public(r), pskMode, psk), SecondTokens(pskMode))
  {
    var b, a := Answering(r, er, Public(ei), Public(i), pskMode, psk), Initiator(i, ei, Public(r), pskMode, psk);
    var a1 := a.(re := Some(Public(er)));
    assert SECOND_PSK[1..] == [Ee, Se, Psk] && [Ee, Se, Psk][1..] == [Se, Psk] && [Se, Psk][1..] == [Psk] && [Psk][1..] == [];
    assert SECOND[1..] == [Ee, Se] && [Ee, Se][1..] == [Se] && [Se][1..] == [];
    assert Ready(b, a1, [Psk]) && Ready(b, a1, [Se, Psk]) && Ready(b, a1, [Se]) && Ready(b, a1, [Ee, Se]) && Ready(b, a1, [Ee, Se, Psk]);
  }

  /** The first message of whoever has the two secrets shared with the responder. */
  function FirstMessage(start: Sym, pskMode: bool, ie: Term, es: Term, ss: Term, rs: Term, payload: Term): seq<Term> {
    var sym1 := MixKey(MixEphemeral(start, pskMode, ie), es);
    var c := Encrypt(sym1, rs);
    [ie, c, Encrypt(MixKey(MixHash(sym1, c), ss), payload)]
  }

  /** The responder takes a first message for one from `rs`. */
  predicate FirstAccepted(start: Sym, r: nat, pskMode: bool, psk: Term, msg: seq<Term>, rs: Term, payload: Term) {
    var rd := Read(start, Responder(r, pskMode, psk), FIRST, msg);
    rd.Some? && rd.value.party.rs == Some(rs) && rd.value.payload == payload
  }

  /** Whatever keys are in it, a first message is accepted exactly if it is one of someone who has both secrets. */
  lemma FirstAcceptedIff(start: Sym, r: nat, pskMode: bool, psk: Term, ie: Term, rs: Term, c: Term, d: Term, payload: Term)
    ensures FirstAccepted(start, r, pskMode, psk, [ie, c, d], rs, payload) <==>
            (var es, ss := Shared(r, ie), Shared(r, rs);
             es.Some? && ss.Some? && [ie, c, d] == FirstMessage(start, pskMode, ie, es.value, ss.value, rs, payload))
  {
    ReadFirst(start, Responder(r, pskMode, psk), ie, c, d);
    hide MixEphemeral, Kdf, Read;
  }

  /** With the public keys of two private ones in it, exactly if it is what their owner would have sent. */
  lemma FirstFromOwnerIff(start: Sym, r: nat, pskMode: bool, psk: Term, i: nat, ei: nat, c: Term, d: Term, payload: Term)
    ensures var w := Write(start, Initiator(i, ei, Public(r), pskMode, psk), FIRST, payload);
            FirstAccepted(start, r, pskMode, psk, [Public(ei), c, d], Public(i), payload) <==> w.Some? && w.value.msg == [Public(ei), c, d]
  {
    hide FirstMessage, FirstAccepted, Write;
    FirstAcceptedIff(start, r, pskMode, psk, Public(ei), Public(i), c, d, payload);
    WrittenFirst(start, r, pskMode, psk, i, ei, payload);
  }

  lemma WrittenFirst(start: Sym, r: nat, pskMode: bool, psk: Term, i: nat, ei: nat, payload: Term)
    ensures var w := Write(start, Initiator(i, ei, Public(r), pskMode, psk), FIRST, payload);
            var es, ss := Shared(r, Public(ei)), Shared(r, Public(i));
            w.Some? && es.Some? && ss.Some? && w.value.msg == FirstMessage(start, pskMode, Public(ei), es.value, ss.value, Public(i), payload)
  {
    hide MixEphemeral, MixKey, MixHash, Encrypt, Write;
    WriteFirst(start, Initiator(i, ei, Public(r), pskMode, psk), payload);
  }

  predicate SecondAccepted(sym: Sym, a: Party, msg: seq<Term>, answer: Term) {
    var rd := Read(sym, a, SecondTokens(a.pskMode), msg);
    rd.Some? && rd.value.payload == answer
  }

  /** Whatever key is in it, an answer is accepted exactly if it is one of someone who has both secrets and the pre-shared key. */
  lemma SecondAcceptedIff(sym: Sym, i: nat, r: nat, ei: nat, re: Term, pskMode: bool, psk: Term, c: Term, answer: Term)
    ensures SecondAccepted(sym, Initiator(i, ei, Public(r), pskMode, psk), [re, c], answer) <==>
            (var ee, se := Shared(ei, re), Shared(i, re);
             ee.Some? && se.Some? && c == Encrypt(SecondState(sym, pskMode, psk, re, ee.value, se.value), answer))
  {
    ReadSecond(sym, Initiator(i, ei, Public(r), pskMode, psk), re, c);
    hide MixEphemeral, Kdf, Read;
  }

  /** With the public key of a private one in it, exactly if the one who was called, as its owner, would have sent it. */
  lemma SecondFromOwnerIff(sym: Sym, i: nat, r: nat, ei: nat, er: nat, pskMode: bool, psk: Term, c: Term, answer: Term)
    ensures var w := Write(sym, Answering(r, er, Public(ei), Public(i), pskMode, psk), SecondTokens(pskMode), answer);
            SecondAccepted(sym, Initiator(i, ei, Public(r), pskMode, psk), [Public(er), c], answer) <==> w.Some? && w.value.msg == [Public(er), c]
  {
    hide MixHash, Encrypt, SecondAccepted, Write, SecondState;
    SecondAcceptedIff(sym, i, r, ei, Public(er), pskMode, psk, c, answer);
    WriteSecond(sym, Answering(r, er, Public(ei), Public(i), pskMode, psk), answer);
  }

  /** With different pre-shared keys the answer is refused. */
  lemma OtherPskRefused(sym: Sym, i: nat, r: nat, ei: nat, er: nat, psk: Term, psk': Term, answer: Term)
    requires psk != psk'
    ensures var w := Write(sym, Answering(r, er, Public(ei), Public(i), true, psk'), SECOND_PSK, answer);
            w.Some? && Read(sym, Initiator(i, ei, Public(r), true, psk), SECOND_PSK, w.value.msg).None?
  {
    hide MixEphemeral, Write, Read;
    var a, b := Initiator(i, ei, Public(r), true, psk), Answering(r, er, Public(ei), Public(i), true, psk');
    WriteSecond(sym, b, answer);
    ReadSecond(sym, a, Public(er), Write(sym, b, SECOND_PSK, answer).value.msg[1]);
    var sym1 := MixKey(MixKey(MixEphemeral(sym, true, Public(er)), Shared(er, Public(ei)).value), Shared(er, Public(i)).value);
    assert Kdf(sym1.ck, psk, 3) != Kdf(sym1.ck, psk', 3);
  }

  // ---------------------------------------------------------------- the messages in terms of hashes and keys

  lemma WriteFirstRaw(ck: Term, h: Term, a: Party, payload: Term)
    requires a.initiator && a.e.Some? && a.rs.Some?
    ensures Write(Sym(ck, None, h), a, FIRST, payload) ==
              var es, ss := Shared(a.e.value, a.rs.value), Shared(a.s, a.rs.value);
              if es.None? || ss.None? then None
              else
                var pk := Public(a.e.value);
                var ck1, h1 := if a.pskMode then Kdf(ck, pk, 1) else ck, Digest(h, pk);
                var c := Sealed(Kdf(ck1, es.value, 2), h1, Public(a.s));
                var ck2, h2 := Kdf(ck1, es.value, 1), Digest(h1, c);
                var d := Sealed(Kdf(ck2, ss.value, 2), h2, payload);
                Some(Written(Sym(Kdf(ck2, ss.value, 1), Some(Kdf(ck2, ss.value, 2)), Digest(h2, d)), [pk, c, d]))
  {
    WriteFirst(Sym(ck, None, h), a, payload);
    hide Write, Kdf;
  }

  lemma ReadFirstRaw(ck: Term, h: Term, b: Party, ie: Term, c: Term, d: Term)
    requires !b.initiator
    ensures Read(Sym(ck, None, h), b, FIRST, [ie, c, d]) ==
              var es := Shared(b.s, ie);
              if es.None? then None
              else
                var ck1, h1 := if b.pskMode then Kdf(ck, ie, 1) else ck, Digest(h, ie);
                var rs := Open(Kdf(ck1, es.value, 2), h1, c);
                if rs.None? then None
                else
                  var ck2, h2, ss := Kdf(ck1, es.value, 1), Digest(h1, c), Shared(b.s, rs.value);
                  if ss.None? then None
                  else
                    var payload := Open(Kdf(ck2, ss.value, 2), h2, d);
                    if payload.None? then None
                    else Some(Received(Sym(Kdf(ck2, ss.value, 1), Some(Kdf(ck2, ss.value, 2)), Digest(h2, d)),
                                       b.(re := Some(ie), rs := rs), payload.value))
  {
    ReadFirst(Sym(ck, None, h), b, ie, c, d);
    hide Read, Kdf, Open;
  }

  /** Chain key, cipher key and hash when the payload of the second message is sealed. */
  function SecondKeys(ck: Term, h: Term, pskMode: bool, psk: Term, pk: Term, ee: Term, se: Term): (Term, Term, Term) {
    var ck1, h1 := Kdf(if pskMode then Kdf(ck, pk, 1) else ck, ee, 1), Digest(h, pk);
    var ck2 := Kdf(ck1, se, 1);
    if pskMode then (Kdf(ck2, psk, 1), Kdf(ck2, psk, 3), Digest(h1, Kdf(ck2, psk, 2))) else (ck2, Kdf(ck1, se, 2), h1)
  }

  lemma SecondKeysAre(ck: Term, h: Term, pskMode: bool, psk: Term, pk: Term, ee: Term, se: Term)
    ensures var (ck', k, h') := SecondKeys(ck, h, pskMode, psk, pk, ee, se);
            SecondState(Sym(ck, None, h), pskMode, psk, pk, ee, se) == Sym(ck', Some(k), h')
  {
    hide Kdf;
  }

  lemma WriteSecondRaw(ck: Term, h: Term, b: Party, payload: Term)
    requires !b.initiator && b.e.Some? && b.re.Some? && b.rs.Some?
    ensures Write(Sym(ck, None, h), b, SecondTokens(b.pskMode), payload) ==
              var ee, se := Shared(b.e.value, b.re.value), Shared(b.e.value, b.rs.value);
              if ee.None? || se.None? then None
              else
                var (ck', k, h') := SecondKeys(ck, h, b.pskMode, b.psk, Public(b.e.value), ee.value, se.value);
                var c := Sealed(k, h', payload);
                Some(Written(Sym(ck', Some(k), Digest(h', c)), [Public(b.e.value), c]))
  {
    WriteSecond(Sym(ck, None, h), b, payload);
    var ee, se := Shared(b.e.value, b.re.value), Shared(b.e.value, b.rs.value);
    if ee.Some? && se.Some? {
      SecondKeysAre(ck, h, b.pskMode, b.psk, Public(b.e.value), ee.value, se.value);
    }
    hide Write, Kdf, SecondKeys, SecondState;
  }

  lemma ReadSecondRaw(ck: Term, h: Term, a: Party, re: Term, c: Term)
    requires a.initiator && a.e.Some?
    ensures Read(Sym(ck, None, h), a, SecondTokens(a.pskMode), [re, c]) ==
              var ee, se := Shared(a.e.value, re), Shared(a.s, re);
              if ee.None? || se.None? then None
              else
                var (ck', k, h') := SecondKeys(ck, h, a.pskMode, a.psk, re, ee.value, se.value);
                var payload := Open(k, h', c);
                if payload.None? then None else Some(Received(Sym(ck', Some(k), Digest(h', c)), a.(re := Some(re)), payload.value))
  {
    ReadSecond(Sym(ck, None, h), a, re, c);
    var ee, se := Shared(a.e.value, re), Shared(a.s, re);
    if ee.Some? && se.Some? {
      SecondKeysAre(ck, h, a.pskMode, a.psk, re, ee.value, se.value);
    }
    hide Read, Kdf, SecondKeys, SecondState, Open;
  }

  /** Only chain key and hash of a symmetric state matter for the second message. */
  lemma SecondForgetsKey(sym: Sym, b: Party, a: Party, payload: Term, re: Term, c: Term)
    requires !b.initiator && b.e.Some? && b.re.Some? && b.rs.Some? && a.initiator && a.e.Some?
    ensures Write(sym, b, SecondTokens(b.pskMode), payload) == Write(sym.(k := None), b, SecondTokens(b.pskMode), payload)
    ensures Read(sym, a, SecondTokens(a.pskMode), [re, c]) == Read(sym.(k := None), a, SecondTokens(a.pskMode), [re, c])
  {
    WriteSecond(sym, b, payload);
    WriteSecond(sym.(k := None), b, payload);
    ReadSecond(sym, a, re, c);
    ReadSecond(sym.(k := None), a, re, c);
    hide Read, Write, Kdf, Open;
  }
}
