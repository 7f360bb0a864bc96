/**
 The device's handshake as it runs: hash and chain key are cells that are overwritten in place, and the outputs of a
 derivation may be the cell its key is read from.  What comes out is the pattern IKpsk2.
 */
module NoiseDevice {
  import opened Basics
  import opened Noise
  import opened NoiseCells
  import opened NoiseIk
  import opened HandshakeStates
  import Initiations

  const CONSTRUCTION := "Noise_IKpsk2_25519_ChaChaPoly_BLAKE2s"
  const IDENTIFIER := "WireGuard v1 zx2c4 Jason@zx2c4.com"
  const INITIAL_CHAIN_KEY := Digest(Text(CONSTRUCTION), Empty)
  const INITIAL_HASH := Digest(INITIAL_CHAIN_KEY, Text(IDENTIFIER))

  /** The symmetric state before the first message to the holder of a static key. */
  function Start(responder: Term): Sym {
    MixHash(Sym(INITIAL_CHAIN_KEY, None, INITIAL_HASH), responder)
  }

  class Handshake {
    const hash: Cell
    const chainKey: Cell
    const remoteStatic: Term
    const presharedKey: Term
    /** Nothing when the shared secret of the static keys is all zero. */
    const precomputedStaticStatic: Option<Term>
    var localEphemeral: nat
    var remoteEphemeral: Term
    var lastTimestamp: nat
    /** When an initiation was last consumed, in nanoseconds. */
    var lastConsumption: Option<int>
    var state: HsState

    constructor (s: nat, remoteStatic: Term, presharedKey: Term)
      ensures Valid() && Between(s) && this.remoteStatic == remoteStatic && this.presharedKey == presharedKey
      ensures fresh(hash) && fresh(chainKey) && lastTimestamp == 0 && lastConsumption.None? && state == Zeroed
    {
      hash := new Cell(Empty);
      chainKey := new Cell(Empty);
      this.remoteStatic := remoteStatic;
      this.presharedKey := presharedKey;
      precomputedStaticStatic := Shared(s, remoteStatic);
      localEphemeral, remoteEphemeral, lastTimestamp, lastConsumption, state := 0, Empty, 0, None, Zeroed;
    }

    ghost predicate Valid() {
      hash != chainKey
    }

    /** The handshake belongs to a device whose private key is `s`. */
    ghost predicate Between(s: nat) {
      precomputedStaticStatic == Shared(s, remoteStatic)
    }

    /** Memory holds what a symmetric state says, except for the cipher key, which is not kept. */
    ghost predicate Tracks(sym: Sym)
      reads hash, chainKey
    {
      chainKey.v == sym.ck && hash.v == sym.h
    }

    /** A message has been written if the pattern says so, and then that message, reaching that state. */
    ghost predicate Wrote(w: Option<Written>, msg: Option<seq<Term>>)
      reads hash, chainKey
    {
      if w.None? then msg.None? else msg == Some(w.value.msg) && Tracks(w.value.sym)
    }

    /** The first message is the one of the pattern, and fails exactly when that does. */
    method CreateMessageInitiation(s: nat, e: nat, now: nat) returns (msg: Option<seq<Term>>)
      requires Valid() && Between(s)
      modifies this, hash, chainKey
      ensures localEphemeral == e && state == if msg.Some? then InitiationCreated else old(state)
      ensures Wrote(Write(Start(remoteStatic), Initiator(s, e, remoteStatic, true, presharedKey), FIRST, Stamp(now)), msg)
    {
      hide Write, Start;
      msg := WriteInitiation(s, e, now);
      if msg.Some? {
        state := InitiationCreated;
      }
    }

    method WriteInitiation(s: nat, e: nat, now: nat) returns (msg: Option<seq<Term>>)
      requires Valid() && Between(s)
      modifies this`localEphemeral, hash, chainKey
      ensures localEphemeral == e
      ensures Wrote(Write(Start(remoteStatic), Initiator(s, e, remoteStatic, true, presharedKey), FIRST, Stamp(now)), msg)
    {
      WriteFirstRaw(INITIAL_CHAIN_KEY, Digest(INITIAL_HASH, remoteStatic), Initiator(s, e, remoteStatic, true, presharedKey), Stamp(now));
      hide Write, Kdf, Shared;
      var sealedStatic := SealStatic(s, e);
      if sealedStatic.None? {
        return None;
      }
      var timestamp := SealTimestamp(now);
      if timestamp.None? {
        return None;
      }
      return Some([Public(e), sealedStatic.value, timestamp.value]);
    }

    method SealStatic(s: nat, e: nat) returns (c: Option<Term>)
      requires Valid()
      modifies this`localEphemeral, hash, chainKey
      ensures localEphemeral == e
      ensures var es, ck, h := Shared(e, remoteStatic), Kdf(INITIAL_CHAIN_KEY, Public(e), 1), Digest(Digest(INITIAL_HASH, remoteStatic), Public(e));
              if es.None? then c.None?
              else c == Some(Sealed(Kdf(ck, es.value, 2), h, Public(s))) && chainKey.v == Kdf(ck, es.value, 1) && hash.v == Digest(h, c.value)
    {
      hide Kdf, Shared;
      hash.v := INITIAL_HASH;
      chainKey.v := INITIAL_CHAIN_KEY;
      localEphemeral := e;
      MixHashCell(hash, hash, remoteStatic);
      MixKeyCell(chainKey, chainKey, Public(e));
      MixHashCell(hash, hash, Public(e));
      var ss := Shared(e, remoteStatic);
      if ss.None? {
        return None;
      }
      var key := new Cell(Empty);
      Kdf2(chainKey, key, chainKey, ss.value);
      c := Some(Sealed(key.v, hash.v, Public(s)));
      MixHashCell(hash, hash, c.value);
    }

    method SealTimestamp(now: nat) returns (d: Option<Term>)
      requires Valid()
      modifies hash, chainKey
      ensures var ss := precomputedStaticStatic;
              if ss.None? then d.None?
              else d == Some(Sealed(Kdf(old(chainKey.v), ss.value, 2), old(hash.v), Stamp(now)))
                   && chainKey.v == Kdf(old(chainKey.v), ss.value, 1) && hash.v == Digest(old(hash.v), d.value)
    {
      hide Kdf;
      if precomputedStaticStatic.None? {
        return None;
      }
      var key := new Cell(Empty);
      Kdf2(chainKey, key, chainKey, precomputedStaticStatic.value);
      d := Some(Sealed(key.v, hash.v, Stamp(now)));
      MixHashCell(hash, hash, d.value);
    }

    /** The second message, if an initiation has been consumed, is the one of the pattern, and fails exactly when that does. */
    method CreateMessageResponse(s: nat, e: nat) returns (msg: Option<seq<Term>>)
      requires Valid()
      modifies this, hash, chainKey
      ensures old(state) != InitiationConsumed ==> msg.None? && unchanged(this, hash, chainKey)
      ensures old(state) == InitiationConsumed ==> localEphemeral == e && state == if msg.Some? then ResponseCreated else old(state)
      ensures old(state) == InitiationConsumed ==> Wrote(Write(Sym(old(chainKey.v), None, old(hash.v)), Answering(s, e, old(remoteEphemeral), remoteStatic, true, presharedKey),
                          SECOND_PSK, Empty), msg)
    {
      hide Write;
      if state != InitiationConsumed {
        return None;
      }
      msg := WriteResponse(s, e);
      if msg.Some? {
        state := ResponseCreated;
      }
    }

    method WriteResponse(s: nat, e: nat) returns (msg: Option<seq<Term>>)
      requires Valid()
      modifies this`localEphemeral, hash, chainKey
      ensures localEphemeral == e
      ensures Wrote(Write(Sym(old(chainKey.v), None, old(hash.v)), Answering(s, e, remoteEphemeral, remoteStatic, true, presharedKey),
                          SECOND_PSK, Empty), msg)
    {
      WriteSecondRaw(chainKey.v, hash.v, Answering(s, e, remoteEphemeral, remoteStatic, true, presharedKey), Empty);
      hide Write, Kdf, Shared;
      localEphemeral := e;
      MixHashCell(hash, hash, Public(e));
      MixKeyCell(chainKey, chainKey, Public(e));
      var ss := Shared(e, remoteEphemeral);
      if ss.None? {
        return None;
      }
      MixKeyCell(chainKey, chainKey, ss.value);
      ss := Shared(e, remoteStatic);
      if ss.None? {
        return None;
      }
      MixKeyCell(chainKey, chainKey, ss.value);
      var tau := new Cell(Empty);
      var key := new Cell(Empty);
      Kdf3(chainKey, tau, key, chainKey, presharedKey);
      MixHashCell(hash, hash, tau.v);
      var empty := Sealed(key.v, hash.v, Empty);
      MixHashCell(hash, hash, empty);
      return Some([Public(e), empty]);
    }

    /** What the pattern makes of a response. */
    ghost function Answer(s: nat, ephemeral: Term, empty: Term): Option<Received>
      reads this, hash, chainKey
    {
      Read(Sym(chainKey.v, None, hash.v), Initiator(s, localEphemeral, remoteStatic, true, presharedKey), SECOND_PSK, [ephemeral, empty])
    }

    method CheckResponse(s: nat, ephemeral: Term, empty: Term, newHash: Cell, newChainKey: Cell) returns (ok: bool)
      requires newHash != newChainKey && newHash !in {hash, chainKey} && newChainKey !in {hash, chainKey}
      modifies newHash, newChainKey
      ensures var rd := old(Answer(s, ephemeral, empty));
              if state != InitiationCreated || rd.None? then !ok else ok && newChainKey.v == rd.value.sym.ck && newHash.v == rd.value.sym.h
    {
      hide Answer;
      if state != InitiationCreated {
        return false;
      }
      ok := OpenResponse(s, ephemeral, empty, newHash, newChainKey);
    }

    method OpenResponse(s: nat, ephemeral: Term, empty: Term, newHash: Cell, newChainKey: Cell) returns (ok: bool)
      requires newHash != newChainKey && newHash !in {hash, chainKey} && newChainKey !in {hash, chainKey}
      modifies newHash, newChainKey
      ensures var rd := old(Answer(s, ephemeral, empty));
              if rd.None? then !ok else ok && newChainKey.v == rd.value.sym.ck && newHash.v == rd.value.sym.h
    {
      ReadSecondRaw(chainKey.v, hash.v, Initiator(s, localEphemeral, remoteStatic, true, presharedKey), ephemeral, empty);
      hide Read, Kdf, Shared, Open;
      MixHashCell(newHash, hash, ephemeral);
      MixKeyCell(newChainKey, chainKey, ephemeral);
      var ss := Shared(localEphemeral, ephemeral);
      if ss.None? {
        return false;
      }
      MixKeyCell(newChainKey, newChainKey, ss.value);
      ss := Shared(s, ephemeral);
      if ss.None? {
        return false;
      }
      MixKeyCell(newChainKey, newChainKey, ss.value);
      var tau := new Cell(Empty);
      var key := new Cell(Empty);
      Kdf3(newChainKey, tau, key, newChainKey, presharedKey);
      MixHashCell(newHash, newHash, tau.v);
      if Open(key.v, newHash.v, empty).None? {
        return false;
      }
      MixHashCell(newHash, newHash, empty);
      return true;
    }

    /** A refused response leaves everything as it is. */
    method ConsumeMessageResponse(s: nat, ephemeral: Term, empty: Term) returns (ok: bool)
      requires Valid()
      modifies this`state, hash, chainKey
      ensures ok <==> old(state) == InitiationCreated && old(Answer(s, ephemeral, empty)).Some?
      ensures if ok then Tracks(old(Answer(s, ephemeral, empty)).value.sym) && state == ResponseConsumed else unchanged(this, hash, chainKey)
    {
      hide Answer;
      var newHash := new Cell(Empty);
      var newChainKey := new Cell(Empty);
      ok := CheckResponse(s, ephemeral, empty, newHash, newChainKey);
      if !ok {
        return;
      }
      hash.v := newHash.v;
      chainKey.v := newChainKey.v;
      state := ResponseConsumed;
    }

    /** Memory holds what the state machine of initiations says. */
    ghost predicate Remembers(s: Initiations.State)
      reads this
    {
      s.last == lastTimestamp && s.lastTime == lastConsumption
    }

    /** The check for replay and flood: a step of a worker. */
    method CheckNew(ghost s: Initiations.State, ghost w: nat, time: nat, now: int) returns (ok: bool)
      requires Remembers(s) && w !in s.works
      ensures Initiations.Next(s, Initiations.Check(w, time, now)) == if ok then s.(works := s.works[w := time]) else s
      ensures ok == Initiations.IsNew(lastTimestamp, lastConsumption, time, now)
    {
      var replay := time <= lastTimestamp;
      var flood := lastConsumption.Some? && now - lastConsumption.value <= Initiations.RATE;
      ok := !replay && !flood;
    }

    /**
     An initiation that has passed all checks is stored under a lock of its own, whatever has become of the handshake: the
     next step of the worker.  Neither time goes back.
     */
    method StoreInitiation(ghost s: Initiations.State, ghost w: nat, newHash: Cell, newChainKey: Cell, ephemeral: Term, time: nat, now: int)
      requires Valid() && newHash !in {hash, chainKey} && newChainKey !in {hash, chainKey}
      requires Remembers(s) && w in s.works && s.works[w] == time
      modifies this, hash, chainKey
      ensures Remembers(Initiations.Next(s, Initiations.Store(w, now)))
      ensures hash.v == old(newHash.v) && chainKey.v == old(newChainKey.v) && remoteEphemeral == ephemeral && state == InitiationConsumed
      ensures lastTimestamp == if time > old(lastTimestamp) then time else old(lastTimestamp)
      ensures localEphemeral == old(localEphemeral)
    {
      hash.v := newHash.v;
      chainKey.v := newChainKey.v;
      remoteEphemeral := ephemeral;
      if time > lastTimestamp {
        lastTimestamp := time;
      }
      if lastConsumption.None? || now > lastConsumption.value {
        lastConsumption := Some(now);
      }
      state := InitiationConsumed;
    }

    /** The keys to send and to receive with, in the two states that allow it; the two sides take them the other way round. */
    method DeriveKeys() returns (keys: Option<(Term, Term)>)
      requires Valid()
      modifies this`state, hash, chainKey
      ensures keys.Some? <==> old(state) in {ResponseConsumed, ResponseCreated}
      ensures old(state) == ResponseConsumed ==> keys == Some((Kdf(old(chainKey.v), Empty, 1), Kdf(old(chainKey.v), Empty, 2)))
      ensures old(state) == ResponseCreated ==> keys == Some((Kdf(old(chainKey.v), Empty, 2), Kdf(old(chainKey.v), Empty, 1)))
      ensures if keys.Some? then state == Zeroed && chainKey.v == Empty && hash.v == Empty else unchanged(this, hash, chainKey)
    {
      var send := new Cell(Empty);
      var recv := new Cell(Empty);
      if state == ResponseConsumed {
        Kdf2(send, recv, chainKey, Empty);
      } else if state == ResponseCreated {
        Kdf2(recv, send, chainKey, Empty);
      } else {
        return None;
      }
      chainKey.v, hash.v := Empty, Empty;
      state := Zeroed;
      return Some((send.v, recv.v));
    }
  }

  /** The handshakes of a device, found by the static key of the peer. */
  ghost predicate PeersOk(peers: map<Term, Handshake>, s: nat) {
    forall pk :: pk in peers ==> peers[pk].Valid() && peers[pk].Between(s) && peers[pk].remoteStatic == pk
  }

  /** What the pattern makes of a first message: from whom it is, its payload, and the state reached. */
  ghost function FirstRead(s: nat, ephemeral: Term, sealedStatic: Term, timestamp: Term): Option<Received> {
    Read(Start(Public(s)), Responder(s, true, Empty), FIRST, [ephemeral, sealedStatic, timestamp])
  }

  /** The state after the static key has been opened, if it can be. */
  ghost function StaticRead(s: nat, ephemeral: Term, sealedStatic: Term): Option<(Sym, Term)> {
    var es := Shared(s, ephemeral);
    if es.None? then None
    else
      var sym := MixKey(MixEphemeral(Start(Public(s)), true, ephemeral), es.value);
      var rs := Open(sym.k.value, sym.h, sealedStatic);
      if rs.None? then None else Some((MixHash(sym, sealedStatic), rs.value))
  }

  lemma FirstReadIs(s: nat, ephemeral: Term, sealedStatic: Term, timestamp: Term)
    ensures FirstRead(s, ephemeral, sealedStatic, timestamp) ==
              var st := StaticRead(s, ephemeral, sealedStatic);
              if st.None? || Shared(s, st.value.1).None? then None
              else
                var sym := MixKey(st.value.0, Shared(s, st.value.1).value);
                var payload := Open(sym.k.value, sym.h, timestamp);
                if payload.None? then None
                else Some(Received(MixHash(sym, timestamp), Responder(s, true, Empty).(re := Some(ephemeral), rs := Some(st.value.1)), payload.value))
  {
    ReadFirst(Start(Public(s)), Responder(s, true, Empty), ephemeral, sealedStatic, timestamp);
    hide Read, Kdf;
  }

  method OpenStatic(s: nat, ephemeral: Term, sealedStatic: Term, hash: Cell, chainKey: Cell, key: Cell) returns (r: Option<Term>)
    requires hash != chainKey && hash != key && chainKey != key
    modifies hash, chainKey, key
    ensures var st := StaticRead(s, ephemeral, sealedStatic);
            if st.None? then r.None? else r == Some(st.value.1) && chainKey.v == st.value.0.ck && hash.v == st.value.0.h
  {
    hide Kdf;
    hash.v, chainKey.v := INITIAL_HASH, INITIAL_CHAIN_KEY;
    MixHashCell(hash, hash, Public(s));
    MixHashCell(hash, hash, ephemeral);
    MixKeyCell(chainKey, chainKey, ephemeral);
    var ss := Shared(s, ephemeral);
    if ss.None? {
      return None;
    }
    Kdf2(chainKey, key, chainKey, ss.value);
    r := Open(key.v, hash.v, sealedStatic);
    if r.None? {
      return None;
    }
    MixHashCell(hash, hash, sealedStatic);
  }

  method OpenTimestamp(ss: Term, timestamp: Term, hash: Cell, chainKey: Cell, key: Cell) returns (r: Option<Term>)
    requires hash != chainKey && hash != key && chainKey != key
    modifies hash, chainKey, key
    ensures r == Open(Kdf(old(chainKey.v), ss, 2), old(hash.v), timestamp)
    ensures r.Some? ==> chainKey.v == Kdf(old(chainKey.v), ss, 1) && hash.v == Digest(old(hash.v), timestamp)
  {
    hide Kdf;
    Kdf2(chainKey, key, chainKey, ss);
    r := Open(key.v, hash.v, timestamp);
    if r.None? {
      return None;
    }
    MixHashCell(hash, hash, timestamp);
  }

  /** A first message is accepted if the pattern accepts it, from a known peer that is running, with a new time stamp and not in a flood. */
  ghost predicate Accepted(rd: Option<Received>, peers: map<Term, Handshake>, running: set<Term>, now: int)
    reads peers.Values
  {
    && rd.Some? && rd.value.party.rs.Some? && rd.value.party.rs.value in peers && rd.value.party.rs.value in running
    && rd.value.payload.Stamp?
    && var h := peers[rd.value.party.rs.value]; Initiations.IsNew(h.lastTimestamp, h.lastConsumption, rd.value.payload.time, now)
  }

  /** A state of the machine that a handshake remembers. */
  ghost function StateOf(h: Handshake, works: map<nat, nat>): Initiations.State
    reads h
  {
    Initiations.State(h.lastTimestamp, h.lastConsumption, works, [])
  }

  method CheckInitiation(s: nat, peers: map<Term, Handshake>, running: set<Term>, ephemeral: Term, sealedStatic: Term, timestamp: Term, now: int)
      returns (r: Option<(Handshake, nat)>, hash: Cell, chainKey: Cell)
    requires PeersOk(peers, s)
    ensures fresh(hash) && fresh(chainKey)
    ensures r.Some? <==> old(Accepted(FirstRead(s, ephemeral, sealedStatic, timestamp), peers, running, now))
    ensures r.Some? ==> var rd := FirstRead(s, ephemeral, sealedStatic, timestamp).value;
                        r.value == (peers[rd.party.rs.value], rd.payload.time) && chainKey.v == rd.sym.ck && hash.v == rd.sym.h
  {
    FirstReadIs(s, ephemeral, sealedStatic, timestamp);
    hide FirstRead, StaticRead, Kdf, Open, Shared;
    hash := new Cell(Empty);
    chainKey := new Cell(Empty);
    r := None;
    var key := new Cell(Empty);
    var peerPk := OpenStatic(s, ephemeral, sealedStatic, hash, chainKey, key);
    if peerPk.None? || peerPk.value !in peers || peerPk.value !in running {
      return;
    }
    var handshake := peers[peerPk.value];
    if handshake.precomputedStaticStatic.None? {
      return;
    }
    var time := OpenTimestamp(handshake.precomputedStaticStatic.value, timestamp, hash, chainKey, key);
    if time.None? || !time.value.Stamp? {
      return;
    }
    var ok := handshake.CheckNew(StateOf(handshake, map[]), 0, time.value.time, now);
    if ok {
      r := Some((handshake, time.value.time));
    }
  }

  /** One worker undisturbed; what several do at once is the subject of `Initiations`. */
  method ConsumeMessageInitiation(s: nat, peers: map<Term, Handshake>, running: set<Term>, ephemeral: Term, sealedStatic: Term, timestamp: Term, now: int, later: int)
      returns (r: Option<Handshake>)
    requires PeersOk(peers, s)
    modifies peers.Values, set pk | pk in peers :: peers[pk].hash, set pk | pk in peers :: peers[pk].chainKey
    ensures r.Some? <==> old(Accepted(FirstRead(s, ephemeral, sealedStatic, timestamp), peers, running, now))
    ensures r.Some? ==> var rd := FirstRead(s, ephemeral, sealedStatic, timestamp).value;
                        && r.value == peers[rd.party.rs.value] && r.value.Tracks(rd.sym)
                        && r.value.remoteEphemeral == ephemeral && r.value.lastTimestamp == rd.payload.time && r.value.state == InitiationConsumed
                        && (later >= now ==> r.value.lastConsumption == Some(later))
    ensures r.None? ==> forall pk :: pk in peers ==> unchanged(peers[pk], peers[pk].hash, peers[pk].chainKey)
  {
    hide FirstRead;
    var found, hash, chainKey := CheckInitiation(s, peers, running, ephemeral, sealedStatic, timestamp, now);
    if found.None? {
      return None;
    }
    var (handshake, time) := found.value;
    handshake.StoreInitiation(StateOf(handshake, map[0 := time]), 0, hash, chainKey, ephemeral, time, later);
    return Some(handshake);
  }

  /** The two ends of a handshake between the holders of the private keys `i` and `r`. */
  ghost predicate Ends(i: nat, r: nat, a: Handshake, b: Handshake) {
    && a.Valid() && a.Between(i) && a.remoteStatic == Public(r)
    && b.Valid() && b.Between(r) && b.remoteStatic == Public(i)
    && a != b && {a.hash, a.chainKey} !! {b.hash, b.chainKey} && a.presharedKey == b.presharedKey
  }

  /** The first message of an honest exchange: it is accepted, and hash and chain key agree. */
  method ExchangeFirst(i: nat, r: nat, ei: nat, now: nat, a: Handshake, b: Handshake, clock: int) returns (ok: bool)
    requires Ends(i, r, a, b) && Initiations.IsNew(b.lastTimestamp, b.lastConsumption, now, clock)
    modifies a, b, a.hash, a.chainKey, b.hash, b.chainKey
    ensures ok && a.localEphemeral == ei && b.remoteEphemeral == Public(ei) && b.lastTimestamp == now
    ensures a.state == InitiationCreated && b.state == InitiationConsumed
    ensures a.hash.v == b.hash.v && a.chainKey.v == b.chainKey.v
  {
    hide Write, Read, Kdf, Start, Shared, MixEphemeral, MixKey, Encrypt, MixHash, FirstRead;
    FirstForgetsPsk(i, r, ei, a.presharedKey, Stamp(now));
    var first := a.CreateMessageInitiation(i, ei, now);
    var msg := first.value;
    var got := ConsumeMessageInitiation(r, map[Public(i) := b], {Public(i)}, msg[0], msg[1], msg[2], clock, clock);
    ok := got == Some(b);
  }

  /** The second message, once hash and chain key agree: it is accepted, and each side sends with the key the other receives with. */
  method ExchangeSecond(i: nat, r: nat, ei: nat, er: nat, a: Handshake, b: Handshake)
      returns (ok: bool, sendA: Term, recvA: Term, sendB: Term, recvB: Term)
    requires Ends(i, r, a, b) && a.hash.v == b.hash.v && a.chainKey.v == b.chainKey.v
    requires a.localEphemeral == ei && b.remoteEphemeral == Public(ei) && a.state == InitiationCreated && b.state == InitiationConsumed
    modifies a, b, a.hash, a.chainKey, b.hash, b.chainKey
    ensures ok && sendA == recvB && recvA == sendB
  {
    ghost var sym := Sym(b.chainKey.v, None, b.hash.v);
    SecondHonest(sym, i, r, ei, er, a.presharedKey);
    hide Write, Read, Kdf, Shared;
    var second := b.CreateMessageResponse(r, er);
    var msg := second.value;
    ok := a.ConsumeMessageResponse(i, msg[0], msg[1]);
    var keysA := a.DeriveKeys();
    var keysB := b.DeriveKeys();
    sendA, recvA := keysA.value.0, keysA.value.1;
    sendB, recvB := keysB.value.0, keysB.value.1;
  }

  lemma SecondHonest(sym: Sym, i: nat, r: nat, ei: nat, er: nat, psk: Term)
    ensures var w := Write(sym, Answering(r, er, Public(ei), Public(i), true, psk), SECOND_PSK, Empty);
            && w.Some? && |w.value.msg| == 2
            && var rd := Read(sym, Initiator(i, ei, Public(r), true, psk), SECOND_PSK, [w.value.msg[0], w.value.msg[1]]);
               rd.Some? && rd.value.sym == w.value.sym
  {
    var a, b := Initiator(i, ei, Public(r), true, psk), Answering(r, er, Public(ei), Public(i), true, psk);
    ReadySecond(i, r, ei, er, true, psk);
    ReadWritten(sym, b, a, SECOND_PSK, Empty);
    WriteSecond(sym, b, Empty);
    hide Write, Read, Kdf, Shared;
    var msg := Write(sym, b, SECOND_PSK, Empty).value.msg;
    assert msg == [msg[0], msg[1]];
  }

  /** The first message does not depend on the pre-shared key. */
  lemma FirstForgetsPsk(i: nat, r: nat, ei: nat, psk: Term, payload: Term)
    ensures Write(Start(Public(r)), Initiator(i, ei, Public(r), true, psk), FIRST, payload).Some?
    ensures var w := Write(Start(Public(r)), Initiator(i, ei, Public(r), true, psk), FIRST, payload).value;
            && |w.msg| == 3 && w.msg[0] == Public(ei)
            && var rd := FirstRead(r, w.msg[0], w.msg[1], w.msg[2]);
               rd.Some? && rd.value.sym == w.sym && rd.value.party.rs == Some(Public(i)) && rd.value.payload == payload
  {
    HonestRun(Start(Public(r)), i, r, ei, 0, true, psk, payload, Empty);
    HonestRun(Start(Public(r)), i, r, ei, 0, true, Empty, payload, Empty);
    WriteFirst(Start(Public(r)), Initiator(i, ei, Public(r), true, psk), payload);
    WriteFirst(Start(Public(r)), Initiator(i, ei, Public(r), true, Empty), payload);
    hide Write, Read, Kdf, Start, Shared, MixEphemeral, MixKey, Encrypt, MixHash;
    var msg := Write(Start(Public(r)), Initiator(i, ei, Public(r), true, psk), FIRST, payload).value.msg;
    assert msg == [msg[0], msg[1], msg[2]];
  }
}
