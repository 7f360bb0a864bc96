/**
 Handshakes, key pairs and the index table of a device with many peers, one atomic step for each time a
 handshake or the key pairs of a peer are locked.  Random indices are inputs, and so is whether a data packet
 is authentic.
 */
module Handshakes {
  import opened Basics
  import opened HandshakeStates
  import Nonce
  import Replay

  /** The secrets of a handshake, named by the peer and the step that made its ephemeral key. */
  datatype Session = Session(owner: nat, started: nat)

  datatype Handshake = Handshake(state: HsState, localIndex: nat, remoteIndex: nat, session: Session)

  /** `born` is the step that made the key pair, and tells apart key pairs that are otherwise equal. */
  datatype Keypair = Keypair(localIndex: nat, remoteIndex: nat, isInitiator: bool, session: Session, born: nat)

  datatype Peer = Peer(hs: Handshake, previous: Option<Keypair>, current: Option<Keypair>, next: Option<Keypair>)

  datatype Target = OfHandshake | OfKeypair(keypair: Keypair)

  datatype Entry = Entry(peer: nat, target: Target)

  type Entries = map<nat, Entry>

  /** What a step of one peer can touch. */
  datatype View = View(peer: Peer, table: Entries)

  /** How drawing an index ended; a failing random source leaves a junk value behind. */
  datatype Draw = Drawn(idx: nat) | Failed(junk: nat)

  /** How making the key material of a message ended: no ephemeral key, a key that yields no secret, or well. */
  datatype Made = NoEphemeral | NoSecret | Keys

  function EmptyPeer(p: nat): Peer {
    Peer(Handshake(Zeroed, 0, 0, Session(p, 0)), None, None, None)
  }

  // ---------------------------------------------------------------- the steps of one peer

  /** Without an ephemeral key the secrets are left at their public start, whose session is 0. */
  function CreateInitiation(v: View, p: nat, now: nat, made: Made, draw: Draw): View {
    var hs := v.peer.hs.(session := Session(p, if made == NoEphemeral then 0 else now));
    if made != Keys then v.(peer := v.peer.(hs := hs))
    else if draw.Failed? then View(v.peer.(hs := hs), v.table - {hs.localIndex})
    else View(v.peer.(hs := hs.(state := InitiationCreated, localIndex := draw.idx)),
              (v.table - {hs.localIndex})[draw.idx := Entry(p, OfHandshake)])
  }

  /** An initiation that has passed all checks, whatever has become of the handshake since. */
  function ConsumeInitiation(v: View, p: nat, sender: nat, now: nat): View {
    v.(peer := v.peer.(hs := v.peer.hs.(state := InitiationConsumed, remoteIndex := sender, session := Session(p, now))))
  }

  function CreateResponse(v: View, p: nat, now: nat, draw: Draw, made: Made): View {
    var hs := v.peer.hs;
    if hs.state != InitiationConsumed then v
    else if draw.Failed? then View(v.peer.(hs := hs.(localIndex := draw.junk)), v.table - {hs.localIndex})
    else View(v.peer.(hs := hs.(localIndex := draw.idx, state := if made == Keys then ResponseCreated else hs.state,
                                session := if made == NoEphemeral then hs.session else Session(p, now))),
              (v.table - {hs.localIndex})[draw.idx := Entry(p, OfHandshake)])
  }

  /** A response names an index and answers the initiation of a session, unless it is forged. */
  datatype Response = Response(receiver: nat, sender: nat, answers: Option<Session>)

  /** The check of a response: the handshake awaits one, and it opens under the handshake's secrets. */
  predicate Awaits(hs: Handshake, r: Response) {
    hs.state == InitiationCreated && r.answers == Some(hs.session)
  }

  /** The store after the check, under a lock of its own and whatever has become of the handshake since. */
  function StoreResponse(v: View, session: Session, sender: nat): View {
    v.(peer := v.peer.(hs := v.peer.hs.(state := ResponseConsumed, remoteIndex := sender, session := session)))
  }

  function DeleteKeypair(table: Entries, k: Option<Keypair>): Entries {
    if k.Some? then table - {k.value.localIndex} else table
  }

  /** The key pair slots after a new key pair has been derived, and the table without what falls out. */
  function Rotate(v: View, k: Keypair): View {
    var peer := v.peer;
    if k.isInitiator && peer.next.Some? then
      View(peer.(previous := peer.next, current := Some(k), next := None), DeleteKeypair(DeleteKeypair(v.table, peer.current), peer.previous))
    else if k.isInitiator then
      View(peer.(previous := peer.current, current := Some(k)), DeleteKeypair(v.table, peer.previous))
    else
      View(peer.(previous := None, next := Some(k)), DeleteKeypair(DeleteKeypair(v.table, peer.next), peer.previous))
  }

  predicate CanBegin(hs: Handshake) {
    hs.state == ResponseConsumed || hs.state == ResponseCreated
  }

  function NewKeypair(hs: Handshake, now: nat): Keypair {
    Keypair(hs.localIndex, hs.remoteIndex, hs.state == ResponseConsumed, hs.session, now)
  }

  function SwapIndex(table: Entries, idx: nat, k: Keypair): Entries {
    if idx in table then table[idx := Entry(table[idx].peer, OfKeypair(k))] else table
  }

  function BeginSession(v: View, now: nat): View {
    var hs, k := v.peer.hs, NewKeypair(v.peer.hs, now);
    if !CanBegin(hs) then v
    else Rotate(View(v.peer.(hs := hs.(state := Zeroed, localIndex := 0)), SwapIndex(v.table, hs.localIndex, k)), k)
  }

  /** A packet under `k` has been authenticated and has passed the replay filter. */
  function ReceivedUnder(v: View, k: Keypair): View {
    if v.peer.next != Some(k) then v
    else View(v.peer.(previous := v.peer.current, current := Some(k), next := None), DeleteKeypair(v.table, v.peer.previous))
  }

  /** Flushing a peer: first the key pairs go, then, under another lock, the handshake goes as it does on expiry. */
  function FlushKeypairs(v: View): View {
    var peer := v.peer;
    View(Peer(peer.hs, None, None, None), DeleteKeypair(DeleteKeypair(DeleteKeypair(v.table, peer.previous), peer.current), peer.next))
  }

  function Expire(v: View): View {
    View(v.peer.(hs := v.peer.hs.(state := Zeroed, localIndex := 0)), v.table - {v.peer.hs.localIndex})
  }

  // ---------------------------------------------------------------- who owns which index

  datatype Holding = Holding(index: nat, target: Target)

  function Hold(k: Option<Keypair>): Option<Holding> {
    if k.Some? then Some(Holding(k.value.localIndex, OfKeypair(k.value))) else None
  }

  /** What a peer owns: its handshake's index, unless that is 0, and the indices of its key pairs. */
  function Holdings(peer: Peer): seq<Option<Holding>> {
    [if peer.hs.localIndex != 0 then Some(Holding(peer.hs.localIndex, OfHandshake)) else None,
     Hold(peer.previous), Hold(peer.current), Hold(peer.next)]
  }

  /** What is held is in the table, under different indices. */
  ghost predicate Owned(table: Entries, p: nat, h: seq<Option<Holding>>) {
    && (forall i :: 0 <= i < |h| && h[i].Some? ==> h[i].value.index in table && table[h[i].value.index] == Entry(p, h[i].value.target))
    && (forall i, j :: 0 <= i < j < |h| && h[i].Some? && h[j].Some? ==> h[i].value.index != h[j].value.index)
  }

  ghost predicate Held(h: seq<Option<Holding>>, x: nat) {
    exists i :: 0 <= i < |h| && h[i].Some? && h[i].value.index == x
  }

  /** The part of the table that belongs to `p` is exactly what `p` holds. */
  ghost predicate Local(table: Entries, p: nat, h: seq<Option<Holding>>) {
    && 0 !in table
    && Owned(table, p, h)
    && (forall x :: x in table && table[x].peer == p ==> Held(h, x))
  }

  /** `table'` differs from `table` only in what belongs to `p`. */
  ghost predicate OthersKept(table: Entries, table': Entries, p: nat) {
    && (forall x :: x in table && table[x].peer != p ==> x in table' && table'[x] == table[x])
    && (forall x :: x in table' && table'[x].peer != p ==> x in table && table[x] == table'[x])
  }

  /** From exact to exact, leaving the rest alone. */
  ghost predicate Moves(table: Entries, table': Entries, p: nat, h: seq<Option<Holding>>) {
    Local(table', p, h) && OthersKept(table, table', p)
  }

  function Without(table: Entries, h: Option<Holding>): Entries {
    if h.Some? then table - {h.value.index} else table
  }

  lemma Drop(table: Entries, p: nat, h: seq<Option<Holding>>, i: nat)
    requires Local(table, p, h) && i < |h|
    ensures Moves(table, Without(table, h[i]), p, h[i := None])
  {
    var table', h' := Without(table, h[i]), h[i := None];
    forall x | x in table' && table'[x].peer == p ensures Held(h', x) {
      assert Held(h, x);
      var j :| 0 <= j < |h| && h[j].Some? && h[j].value.index == x;
      assert h'[j] == h[j];
    }
  }

  lemma Take(table: Entries, p: nat, h: seq<Option<Holding>>, i: nat, n: Holding)
    requires Local(table, p, h) && i < |h| && h[i].None? && n.index != 0 && n.index !in table
    ensures Moves(table, table[n.index := Entry(p, n.target)], p, h[i := Some(n)])
  {
    var table', h' := table[n.index := Entry(p, n.target)], h[i := Some(n)];
    forall x | x in table' && table'[x].peer == p ensures Held(h', x) {
      assert h'[i] == Some(n);
      assert x == n.index || Held(h, x);
      if x != n.index {
        var j :| 0 <= j < |h| && h[j].Some? && h[j].value.index == x;
        assert h'[j] == h[j];
      }
    }
  }

  /** An index passes from one slot to an empty one, and may come to stand for something else. */
  lemma Pass(table: Entries, p: nat, h: seq<Option<Holding>>, i: nat, j: nat, target: Target)
    requires Local(table, p, h) && i < |h| && j < |h| && h[i].Some? && (j == i || h[j].None?)
    ensures Moves(table, table[h[i].value.index := Entry(p, target)], p, h[i := None][j := Some(Holding(h[i].value.index, target))])
  {
    Drop(table, p, h, i);
    var less := Without(table, h[i]);
    Take(less, p, h[i := None], j, Holding(h[i].value.index, target));
    assert less[h[i].value.index := Entry(p, target)] == table[h[i].value.index := Entry(p, target)];
  }

  lemma Shift(table: Entries, p: nat, h: seq<Option<Holding>>, i: nat, j: nat)
    requires Local(table, p, h) && i < |h| && j < |h| && i != j && h[j].None?
    ensures Local(table, p, h[i := None][j := h[i]])
  {
    if h[i].Some? {
      Pass(table, p, h, i, j, h[i].value.target);
      assert table[h[i].value.index := Entry(p, h[i].value.target)] == table;
    } else {
      assert h[i := None][j := h[i]] == h;
    }
  }

  lemma OthersTrans(a: Entries, b: Entries, c: Entries, p: nat)
    requires OthersKept(a, b, p) && OthersKept(b, c, p)
    ensures OthersKept(a, c, p)
  {
  }

  /** `idx` is not 0 and is free once the index of the handshake has been given up. */
  predicate Free(v: View, idx: nat) {
    idx != 0 && idx !in v.table - {v.peer.hs.localIndex}
  }

  lemma DropHandshake(v: View, p: nat)
    requires Local(v.table, p, Holdings(v.peer))
    ensures Moves(v.table, v.table - {v.peer.hs.localIndex}, p, Holdings(v.peer)[0 := None])
  {
    Drop(v.table, p, Holdings(v.peer), 0);
    assert v.table - {0} == v.table;
  }

  /** A fresh index for a handshake. */
  lemma Reindex(v: View, p: nat, idx: nat, hs: Handshake)
    requires Local(v.table, p, Holdings(v.peer)) && Free(v, idx) && hs.localIndex == idx
    ensures Moves(v.table, (v.table - {v.peer.hs.localIndex})[idx := Entry(p, OfHandshake)], p, Holdings(v.peer.(hs := hs)))
  {
    hide Local, OthersKept;
    var less := v.table - {v.peer.hs.localIndex};
    DropHandshake(v, p);
    Take(less, p, Holdings(v.peer)[0 := None], 0, Holding(idx, OfHandshake));
    assert Holdings(v.peer)[0 := None][0 := Some(Holding(idx, OfHandshake))] == Holdings(v.peer.(hs := hs));
    OthersTrans(v.table, less, less[idx := Entry(p, OfHandshake)], p);
  }

  lemma DropKeypair(table: Entries, p: nat, h: seq<Option<Holding>>, i: nat, k: Option<Keypair>)
    requires Local(table, p, h) && i < |h| && h[i] == Hold(k)
    ensures Moves(table, DeleteKeypair(table, k), p, h[i := None])
  {
    hide Local, OthersKept;
    Drop(table, p, h, i);
  }

  lemma DropTwo(table: Entries, p: nat, h: seq<Option<Holding>>, i: nat, k: Option<Keypair>, j: nat, l: Option<Keypair>)
    requires Local(table, p, h) && i < |h| && j < |h| && i != j && h[i] == Hold(k) && h[j] == Hold(l)
    ensures Moves(table, DeleteKeypair(DeleteKeypair(table, k), l), p, h[i := None][j := None])
  {
    hide Local, OthersKept, DeleteKeypair;
    DropKeypair(table, p, h, i, k);
    DropKeypair(DeleteKeypair(table, k), p, h[i := None], j, l);
    OthersTrans(table, DeleteKeypair(table, k), DeleteKeypair(DeleteKeypair(table, k), l), p);
  }

  /** The index of a handshake passes to a new key pair, kept outside the slots for the moment. */
  lemma Promote(v: View, p: nat, k: Keypair)
    requires Local(v.table, p, Holdings(v.peer)) && k.localIndex == v.peer.hs.localIndex != 0
    ensures Moves(v.table, SwapIndex(v.table, k.localIndex, k), p, Holdings(v.peer)[0 := Hold(Some(k))])
  {
    var h := Holdings(v.peer);
    Pass(v.table, p, h, 0, 0, OfKeypair(k));
    assert h[0].value.index in v.table;
    assert h[0 := None][0 := Hold(Some(k))] == h[0 := Hold(Some(k))];
  }

  /** Rotation, when the index table still holds the new key pair apart from the slots. */
  lemma RotateMoves(v: View, p: nat, k: Keypair)
    requires v.peer.hs.localIndex == 0 && Local(v.table, p, Holdings(v.peer)[0 := Hold(Some(k))])
    ensures Moves(v.table, Rotate(v, k).table, p, Holdings(Rotate(v, k).peer))
  {
    hide Local, OthersKept, DeleteKeypair;
    var peer, h := v.peer, Holdings(v.peer)[0 := Hold(Some(k))];
    var h' := Holdings(Rotate(v, k).peer);
    if k.isInitiator && peer.next.Some? {
      DropTwo(v.table, p, h, 2, peer.current, 1, peer.previous);
      var table, g := Rotate(v, k).table, h[2 := None][1 := None];
      Shift(table, p, g, 3, 1);
      Shift(table, p, g[3 := None][1 := g[3]], 0, 2);
      assert g[3 := None][1 := g[3]][0 := None][2 := Hold(Some(k))] == h';
    } else if k.isInitiator {
      DropKeypair(v.table, p, h, 1, peer.previous);
      var table, g := Rotate(v, k).table, h[1 := None];
      Shift(table, p, g, 2, 1);
      Shift(table, p, g[2 := None][1 := g[2]], 0, 2);
      assert g[2 := None][1 := g[2]][0 := None][2 := Hold(Some(k))] == h';
    } else {
      DropTwo(v.table, p, h, 3, peer.next, 1, peer.previous);
      var table, g := Rotate(v, k).table, h[3 := None][1 := None];
      Shift(table, p, g, 0, 3);
      assert g[0 := None][3 := Hold(Some(k))] == h';
    }
  }

  lemma BeginMoves(v: View, p: nat, now: nat)
    requires Local(v.table, p, Holdings(v.peer)) && (CanBegin(v.peer.hs) ==> v.peer.hs.localIndex != 0)
    ensures Moves(v.table, BeginSession(v, now).table, p, Holdings(BeginSession(v, now).peer))
  {
    hide Local, OthersKept, Rotate, SwapIndex;
    if CanBegin(v.peer.hs) {
      var k := NewKeypair(v.peer.hs, now);
      var w := View(v.peer.(hs := v.peer.hs.(state := Zeroed, localIndex := 0)), SwapIndex(v.table, k.localIndex, k));
      Promote(v, p, k);
      assert Holdings(w.peer)[0 := Hold(Some(k))] == Holdings(v.peer)[0 := Hold(Some(k))];
      RotateMoves(w, p, k);
      OthersTrans(v.table, w.table, Rotate(w, k).table, p);
    } else {
      OthersSame(v.table, p);
    }
  }

  lemma OthersSame(table: Entries, p: nat)
    ensures OthersKept(table, table, p)
  {
  }

  lemma ReceivedMoves(v: View, p: nat, k: Keypair)
    requires Local(v.table, p, Holdings(v.peer))
    ensures Moves(v.table, ReceivedUnder(v, k).table, p, Holdings(ReceivedUnder(v, k).peer))
  {
    hide Local, OthersKept, DeleteKeypair;
    OthersSame(v.table, p);
    if v.peer.next == Some(k) {
      var h, table := Holdings(v.peer), DeleteKeypair(v.table, v.peer.previous);
      DropKeypair(v.table, p, h, 1, v.peer.previous);
      var g := h[1 := None];
      Shift(table, p, g, 2, 1);
      Shift(table, p, g[2 := None][1 := g[2]], 3, 2);
      assert g[2 := None][1 := g[2]][3 := None][2 := g[3]] == Holdings(ReceivedUnder(v, k).peer);
    }
  }

  lemma ExpireMoves(v: View, p: nat)
    requires Local(v.table, p, Holdings(v.peer))
    ensures Moves(v.table, Expire(v).table, p, Holdings(Expire(v).peer))
  {
    hide Local, OthersKept;
    DropHandshake(v, p);
    assert Holdings(v.peer)[0 := None] == Holdings(Expire(v).peer);
  }

  lemma FlushMoves(v: View, p: nat)
    requires Local(v.table, p, Holdings(v.peer))
    ensures Moves(v.table, FlushKeypairs(v).table, p, Holdings(FlushKeypairs(v).peer))
  {
    hide Local, OthersKept, DeleteKeypair;
    var peer, h := v.peer, Holdings(v.peer);
    DropTwo(v.table, p, h, 1, peer.previous, 2, peer.current);
    var two := DeleteKeypair(DeleteKeypair(v.table, peer.previous), peer.current);
    DropKeypair(two, p, h[1 := None][2 := None], 3, peer.next);
    assert h[1 := None][2 := None][3 := None] == Holdings(FlushKeypairs(v).peer);
    OthersTrans(v.table, two, FlushKeypairs(v).table, p);
  }

  // ---------------------------------------------------------------- a device with many peers

  /** All peers there ever were: routines that still hold a removed peer can go on changing it. */
  type Peers = map<nat, Peer>

  /** How far a worker has come with a response: it has found the handshake, or has checked the response against its secrets. */
  datatype Work = Found(p: nat, response: Response) | Checked(p: nat, sender: nat, session: Session)

  type Works = map<nat, Work>

  /** Every key pair derived, with what its replay filter has accepted. */
  type Filters = map<Keypair, Replay.History>

  datatype State = State(table: Entries, peers: Peers, works: Works, filters: Filters, clock: nat)

  datatype Step =
    | StepCreateInitiation(p: nat, made: Made, draw: Draw)
    | StepConsumeInitiation(p: nat, sender: nat)
    | StepCreateResponse(p: nat, draw: Draw, made: Made)
    | StepLookup(worker: nat, response: Response)
    | StepCheck(worker: nat)
    | StepStore(worker: nat)
    | StepBegin(p: nat)
    | StepReceive(p: nat, k: Keypair, authentic: bool, counter: nat)
    | StepFlushKeypairs(p: nat)
    | StepExpire(p: nat)
    | StepAdd(p: nat)

  const START := State(map[], map[], map[], map[], 1)

  /** The peer whose handshake or key pairs a step changes. */
  function Actor(s: State, step: Step): Option<nat> {
    if step.StepLookup? || step.StepCheck? then None
    else if !step.StepStore? then Some(step.p)
    else if step.worker in s.works && s.works[step.worker].Checked? then Some(s.works[step.worker].p)
    else None
  }

  /** A packet counts if it is authentic and the replay filter of its key pair lets it pass. */
  predicate Accepts(s: State, k: Keypair, authentic: bool, counter: nat) {
    authentic && k in s.filters && s.filters[k].Admits(counter, Nonce.REJECT_AFTER_MESSAGES)
  }

  function Effect(s: State, v: View, step: Step): View
    requires Actor(s, step).Some?
  {
    match step
    case StepCreateInitiation(p, made, draw) => CreateInitiation(v, p, s.clock, made, draw)
    case StepConsumeInitiation(p, sender) => ConsumeInitiation(v, p, sender, s.clock)
    case StepCreateResponse(p, draw, made) => CreateResponse(v, p, s.clock, draw, made)
    case StepStore(w) => StoreResponse(v, s.works[w].session, s.works[w].sender)
    case StepBegin(p) => BeginSession(v, s.clock)
    case StepReceive(p, k, authentic, counter) => if Accepts(s, k, authentic, counter) then ReceivedUnder(v, k) else v
    case StepFlushKeypairs(p) => FlushKeypairs(v)
    case StepExpire(p) => Expire(v)
    case StepAdd(p) => v
  }

  function NextWorks(s: State, step: Step): Works {
    match step
    case StepLookup(w, r) =>
      if r.receiver in s.table && s.table[r.receiver].target == OfHandshake then s.works[w := Found(s.table[r.receiver].peer, r)]
      else s.works - {w}
    case StepCheck(w) =>
      if w !in s.works || !s.works[w].Found? then s.works
      else
        var p, r := s.works[w].p, s.works[w].response;
        if p in s.peers && Awaits(s.peers[p].hs, r) then s.works[w := Checked(p, r.sender, s.peers[p].hs.session)] else s.works - {w}
    case StepStore(w) => if Actor(s, step).Some? then s.works - {w} else s.works
    case _ => s.works
  }

  /** A new key pair starts with an empty filter; each accepted packet is recorded in the filter of its key pair. */
  function NextFilters(s: State, peer: Peer, step: Step): Filters {
    match step
    case StepBegin(p) => if CanBegin(peer.hs) then s.filters[NewKeypair(peer.hs, s.clock) := Replay.NOTHING] else s.filters
    case StepReceive(p, k, authentic, counter) =>
      if Accepts(s, k, authentic, counter) then s.filters[k := s.filters[k].Accept(counter)] else s.filters
    case _ => s.filters
  }

  function Next(s: State, step: Step): State {
    var actor, works := Actor(s, step), NextWorks(s, step);
    if actor.None? || actor.value !in s.peers then
      s.(clock := s.clock + 1, works := works, peers := if step.StepAdd? then s.peers[step.p := EmptyPeer(step.p)] else s.peers)
    else
      var p := actor.value;
      var v := Effect(s, View(s.peers[p], s.table), step);
      State(v.table, s.peers[p := v.peer], works, NextFilters(s, s.peers[p], step), s.clock + 1)
  }

  function Run(s: State, steps: seq<Step>): State {
    if steps == [] then s else Next(Run(s, steps[..|steps| - 1]), steps[|steps| - 1])
  }

  /** The random source works: there is an ephemeral key, and an index that is not 0 and not in use. */
  predicate Lucky(s: State, step: Step) {
    match step
    case StepCreateInitiation(p, made, draw) =>
      made != NoEphemeral && (made == Keys && p in s.peers ==> draw.Drawn? && Free(View(s.peers[p], s.table), draw.idx))
    case StepCreateResponse(p, draw, _) =>
      p in s.peers && s.peers[p].hs.state == InitiationConsumed ==> draw.Drawn? && Free(View(s.peers[p], s.table), draw.idx)
    case _ => true
  }

  predicate AllLucky(s: State, steps: seq<Step>) {
    steps != [] ==> AllLucky(s, steps[..|steps| - 1]) && Lucky(Run(s, steps[..|steps| - 1]), steps[|steps| - 1])
  }

  /** The table is exactly the disjoint union of what the peers' handshakes and key pairs own. */
  ghost predicate Exact(s: State) {
    && 0 !in s.table
    && (forall p :: p in s.peers ==> Owned(s.table, p, Holdings(s.peers[p])))
    && (forall x :: x in s.table ==> s.table[x].peer in s.peers && Held(Holdings(s.peers[s.table[x].peer]), x))
  }

  ghost predicate Unused(filters: Filters, session: Session) {
    forall k :: k in filters ==> k.session != session
  }

  /** Each handshake has yielded at most one key pair. */
  ghost predicate OncePerSession(filters: Filters) {
    forall k, l :: k in filters && l in filters && k != l ==> k.session != l.session
  }

  /** What is on record was made by earlier steps, and by the peer it belongs to. */
  ghost predicate Dated(s: State) {
    && (forall k :: k in s.filters ==> k.born < s.clock && k.session.started < s.clock)
    && (forall p :: p in s.peers ==> s.peers[p].hs.session.owner == p && s.peers[p].hs.session.started < s.clock)
    && (forall w :: w in s.works && s.works[w].Checked? ==> s.works[w].session.owner == s.works[w].p && s.works[w].session.started < s.clock)
  }

  /** A handshake has an index when it needs one and has not been used up. */
  ghost predicate HandshakeOk(filters: Filters, hs: Handshake) {
    && (hs.state in {InitiationCreated, ResponseCreated, ResponseConsumed} ==> hs.localIndex != 0)
    && (hs.state != Zeroed ==> Unused(filters, hs.session))
  }

  ghost predicate History(s: State) {
    Dated(s) && OncePerSession(s.filters) && forall p :: p in s.peers ==> HandshakeOk(s.filters, s.peers[p].hs)
  }

  ghost predicate Inv(s: State) {
    Exact(s) && History(s)
  }

  /** A response is stored in time: the handshake still has an index, and no key pair has come of its session. */
  ghost predicate InTime(s: State, step: Step) {
    step.StepStore? && Actor(s, step).Some? && Actor(s, step).value in s.peers ==>
      s.peers[Actor(s, step).value].hs.localIndex != 0 && Unused(s.filters, s.works[step.worker].session)
  }

  ghost predicate AllInTime(s: State, steps: seq<Step>) {
    steps != [] ==> AllInTime(s, steps[..|steps| - 1]) && InTime(Run(s, steps[..|steps| - 1]), steps[|steps| - 1])
  }

  /** Every step of a peer keeps its part of the table exact, and touches no other part of it. */
  lemma EffectMoves(s: State, p: nat, step: Step)
    requires Inv(s) && Lucky(s, step) && Actor(s, step) == Some(p) && p in s.peers
    ensures var v := Effect(s, View(s.peers[p], s.table), step); Moves(s.table, v.table, p, Holdings(v.peer))
  {
    hide OthersKept, Held, Dated, OncePerSession, BeginSession, ReceivedUnder, FlushKeypairs, Expire, Accepts;
    var v := View(s.peers[p], s.table);
    assert Local(v.table, p, Holdings(v.peer));
    assert HandshakeOk(s.filters, v.peer.hs);
    hide Local, Exact, History;
    OthersSame(v.table, p);
    match step
    case StepCreateInitiation(_, made, draw) =>
      if made == Keys { Reindex(v, p, draw.idx, CreateInitiation(v, p, s.clock, made, draw).peer.hs); }
      else { assert Holdings(Effect(s, v, step).peer) == Holdings(v.peer); }
    case StepCreateResponse(_, draw, made) =>
      if v.peer.hs.state == InitiationConsumed { Reindex(v, p, draw.idx, CreateResponse(v, p, s.clock, draw, made).peer.hs); }
    case StepBegin(_) => BeginMoves(v, p, s.clock);
    case StepReceive(_, k, _, _) => ReceivedMoves(v, p, k);
    case StepFlushKeypairs(_) => FlushMoves(v, p);
    case StepExpire(_) => ExpireMoves(v, p);
    case StepConsumeInitiation(_, _) => assert Holdings(Effect(s, v, step).peer) == Holdings(v.peer);
    case StepStore(_) => assert Holdings(Effect(s, v, step).peer) == Holdings(v.peer);
    case _ =>
  }

  lemma ExactNext(s: State, step: Step)
    requires Inv(s) && Lucky(s, step)
    ensures Exact(Next(s, step))
  {
    hide Owned, Held, Lucky, History, Holdings, Effect, NextWorks, NextFilters;
    var s', actor := Next(s, step), Actor(s, step);
    if actor.Some? && actor.value in s.peers {
      var p := actor.value;
      EffectMoves(s, p, step);
      ExactAfter(s, s', p, Effect(s, View(s.peers[p], s.table), step).peer);
    } else if step.StepAdd? && step.p !in s.peers {
      EmptyOwned(s.table, step.p);
    }
  }

  lemma ExactAfter(s: State, s': State, p: nat, peer: Peer)
    requires Exact(s) && p in s.peers && s'.peers == s.peers[p := peer] && Moves(s.table, s'.table, p, Holdings(peer))
    ensures Exact(s')
  {
    hide Holdings, Held, Owned;
    forall q | q in s.peers && q != p ensures Owned(s'.table, q, Holdings(s.peers[q])) {
      OwnedKept(s.table, s'.table, p, q, Holdings(s.peers[q]));
    }
  }

  lemma EmptyOwned(table: Entries, p: nat)
    ensures Owned(table, p, Holdings(EmptyPeer(p)))
  {
  }

  lemma OwnedKept(table: Entries, table': Entries, p: nat, q: nat, h: seq<Option<Holding>>)
    requires Owned(table, q, h) && OthersKept(table, table', p) && p != q
    ensures Owned(table', q, h)
  {
  }

  /** A step leaves the secrets of a handshake alone, starts them afresh, or puts back those a worker has checked. */
  lemma SessionAfter(s: State, p: nat, step: Step)
    requires Lucky(s, step) && Actor(s, step) == Some(p) && p in s.peers
    ensures var hs, hs' := s.peers[p].hs, Effect(s, View(s.peers[p], s.table), step).peer.hs;
      || hs'.session == Session(p, s.clock)
      || (hs'.session == hs.session && (hs'.state == Zeroed || hs'.state == hs.state))
      || (step.StepStore? && hs'.session == s.works[step.worker].session)
  {
    hide Accepts, DeleteKeypair, SwapIndex;
  }

  lemma DatedNext(s: State, step: Step)
    requires Dated(s) && Lucky(s, step)
    ensures Dated(Next(s, step))
  {
    hide Effect, Lucky, Awaits;
    var actor := Actor(s, step);
    if actor.Some? && actor.value in s.peers {
      SessionAfter(s, actor.value, step);
    }
    WorksDated(s, step);
  }

  lemma WorksDated(s: State, step: Step)
    requires Dated(s)
    ensures forall w :: w in NextWorks(s, step) && NextWorks(s, step)[w].Checked? ==>
                          NextWorks(s, step)[w].session.owner == NextWorks(s, step)[w].p && NextWorks(s, step)[w].session.started < s.clock
  {
    hide Awaits;
  }

  lemma HandshakeNext(s: State, p: nat, step: Step)
    requires Dated(s) && Actor(s, step) == Some(p) && p in s.peers && Lucky(s, step) && InTime(s, step) && HandshakeOk(s.filters, s.peers[p].hs)
    ensures HandshakeOk(Next(s, step).filters, Next(s, step).peers[p].hs)
  {
    hide Accepts, DeleteKeypair, SwapIndex, NextWorks;
    if step.StepReceive? { SameSessions(s, step); }
    SessionAfter(s, p, step);
  }

  /** Receiving a packet derives no key pair. */
  lemma SameSessions(s: State, step: Step)
    requires step.StepReceive?
    ensures Next(s, step).filters.Keys == s.filters.Keys
  {
    hide Effect;
  }

  lemma HistoryNext(s: State, step: Step)
    requires Inv(s) && Lucky(s, step) && InTime(s, step)
    ensures History(Next(s, step))
  {
    hide Exact, Effect, Lucky, HandshakeOk, Accepts, InTime, NextWorks;
    DatedNext(s, step);
    var s', actor := Next(s, step), Actor(s, step);
    if actor.Some? && actor.value in s.peers {
      var p := actor.value;
      HandshakeNext(s, p, step);
      SessionsNext(s, p, step);
    } else if step.StepAdd? {
      EmptyUnused(s.filters, step.p);
    }
  }

  lemma EmptyUnused(filters: Filters, p: nat)
    ensures HandshakeOk(filters, EmptyPeer(p).hs)
  {
  }

  /** Only the acting peer's handshake can be used up. */
  lemma SessionsNext(s: State, p: nat, step: Step)
    requires History(s) && Actor(s, step) == Some(p) && p in s.peers
    ensures OncePerSession(Next(s, step).filters)
    ensures forall q :: q in s.peers && q != p ==> HandshakeOk(Next(s, step).filters, s.peers[q].hs)
  {
    hide Effect, Accepts, NextWorks;
    if step.StepReceive? { SameSessions(s, step); }
    assert HandshakeOk(s.filters, s.peers[p].hs);
  }

  // ---------------------------------------------------------------- what holds in every run

  /** In every run in which responses are stored in time, the table is exact and handshakes yield one key pair at most. */
  lemma {:induction false} RunInv(steps: seq<Step>)
    requires AllLucky(START, steps) && AllInTime(START, steps)
    ensures Inv(Run(START, steps))
  {
    if steps != [] {
      var before := steps[..|steps| - 1];
      RunInv(before);
      ExactNext(Run(START, before), steps[|steps| - 1]);
      HistoryNext(Run(START, before), steps[|steps| - 1]);
    }
  }

  /** The table is exact and no handshake has yielded two key pairs, nor will one by beginning a session now. */
  ghost predicate Steady(s: State) {
    && Exact(s) && OncePerSession(s.filters)
    && forall p :: Exact(Next(s, StepBegin(p))) && OncePerSession(Next(s, StepBegin(p)).filters)
  }

  lemma InvSteady(s: State)
    requires Inv(s)
    ensures Steady(s)
  {
    hide Exact;
    forall p ensures Exact(Next(s, StepBegin(p))) && OncePerSession(Next(s, StepBegin(p)).filters) {
      ExactNext(s, StepBegin(p));
      HistoryNext(s, StepBegin(p));
    }
  }

  /** A response stored too late makes the next session go wrong. */
  lemma TooLate(s: State, step: Step)
    requires Inv(s) && !InTime(s, step)
    ensures !Steady(Next(s, step))
  {
    var p, session := Actor(s, step).value, s.works[step.worker].session;
    var s1 := Next(s, step);
    var s2, hs := Next(s1, StepBegin(p)), s1.peers[p].hs;
    var k := NewKeypair(hs, s1.clock);
    assert hs.state == ResponseConsumed && hs.session == session && hs.localIndex == s.peers[p].hs.localIndex;
    assert k in s2.filters && s2.peers[p].current == Some(k);
    if Unused(s.filters, session) {
      WithoutIndex(s2, p, 2);
    } else {
      var l :| l in s.filters && l.session == session;
      assert l in s2.filters && l != k;
    }
  }

  /** The exact condition: all stays well, also if a session is begun at any moment, exactly if responses are stored in time. */
  lemma {:induction false} SteadyIffInTime(steps: seq<Step>)
    requires AllLucky(START, steps)
    ensures AllInTime(START, steps) <==> forall i :: 0 <= i <= |steps| ==> Steady(Run(START, steps[..i]))
  {
    hide Steady, InTime, Lucky;
    assert steps[..|steps|] == steps;
    if steps == [] {
      RunInv([]);
      InvSteady(START);
    } else {
      var n := |steps| - 1;
      var before, s := steps[..n], Run(START, steps[..n]);
      SteadyIffInTime(before);
      assert forall i :: 0 <= i <= n ==> before[..i] == steps[..i];
      if AllInTime(START, before) {
        RunInv(before);
        if InTime(s, steps[n]) {
          RunInv(steps);
          InvSteady(Run(START, steps));
        } else {
          TooLate(s, steps[n]);
        }
      }
    }
  }

  /** A handshake that still awaits the response that was checked makes the store one in time. */
  lemma StillAwaited(s: State, w: nat)
    requires Inv(s) && w in s.works && s.works[w].Checked? && s.works[w].p in s.peers
    requires var hs := s.peers[s.works[w].p].hs; hs.state == InitiationCreated && hs.session == s.works[w].session
    ensures InTime(s, StepStore(w))
  {
    assert HandshakeOk(s.filters, s.peers[s.works[w].p].hs);
  }

  /** One response, delivered twice and handled by two workers. */
  function Twice(r: Response, v: nat, w: nat, p: nat): seq<Step> {
    [StepLookup(v, r), StepLookup(w, r), StepCheck(v), StepCheck(w), StepStore(v), StepBegin(p), StepStore(w), StepBegin(p)]
  }

  /** It yields two key pairs with the same secrets, the second without an index. */
  lemma TwoWorkers(s: State, p: nat, r: Response, v: nat, w: nat)
    requires Inv(s) && p in s.peers && Awaits(s.peers[p].hs, r) && r.receiver == s.peers[p].hs.localIndex && v != w
    ensures var s', session := Run(s, Twice(r, v, w, p)), s.peers[p].hs.session;
      && !Exact(s') && p in s'.peers
      && s'.peers[p].previous == Some(Keypair(r.receiver, r.sender, true, session, s.clock + 5))
      && s'.peers[p].current == Some(Keypair(0, r.sender, true, session, s.clock + 7))
  {
    hide Next, Run, Awaits, Exact;
    var steps := Twice(r, v, w, p);
    AwaitedEntry(s, p, r);
    hide Inv, Holdings;
    BothChecked(s, p, r, v, w);
    var s4 := Next(Next(Next(Next(s, steps[0]), steps[1]), steps[2]), steps[3]);
    StoreAndBegin(s4, p, v);
    var s6 := Next(Next(s4, StepStore(v)), StepBegin(p));
    StoreAndBegin(s6, p, w);
    var s8 := Next(Next(s6, StepStore(w)), StepBegin(p));
    RunEight(s, steps);
    WithoutIndex(s8, p, 2);
  }

  lemma AwaitedEntry(s: State, p: nat, r: Response)
    requires Inv(s) && p in s.peers && Awaits(s.peers[p].hs, r) && r.receiver == s.peers[p].hs.localIndex
    ensures r.receiver in s.table && s.table[r.receiver] == Entry(p, OfHandshake)
  {
    assert HandshakeOk(s.filters, s.peers[p].hs);
    LookupFinds(s, r.receiver, p);
  }

  lemma BothChecked(s: State, p: nat, r: Response, v: nat, w: nat)
    requires p in s.peers && Awaits(s.peers[p].hs, r) && r.receiver in s.table && s.table[r.receiver] == Entry(p, OfHandshake) && v != w
    ensures var checked := Checked(p, r.sender, s.peers[p].hs.session);
      Next(Next(Next(Next(s, StepLookup(v, r)), StepLookup(w, r)), StepCheck(v)), StepCheck(w))
      == s.(works := s.works[v := Found(p, r)][w := Found(p, r)][v := checked][w := checked], clock := s.clock + 4)
  {
    hide Next, Awaits;
    var checked := Checked(p, r.sender, s.peers[p].hs.session);
    var s1 := s.(works := s.works[v := Found(p, r)], clock := s.clock + 1);
    var s2 := s.(works := s1.works[w := Found(p, r)], clock := s.clock + 2);
    var s3 := s.(works := s2.works[v := checked], clock := s.clock + 3);
    LookupWork(s, v, r, p);
    LookupWork(s1, w, r, p);
    CheckWork(s2, v, r, p);
    CheckWork(s3, w, r, p);
  }

  /** Looking up and checking change nothing but what the worker remembers. */
  lemma LookupWork(s: State, w: nat, r: Response, p: nat)
    requires r.receiver in s.table && s.table[r.receiver] == Entry(p, OfHandshake)
    ensures Next(s, StepLookup(w, r)) == s.(works := s.works[w := Found(p, r)], clock := s.clock + 1)
  {
    hide Effect, NextFilters;
  }

  lemma CheckWork(s: State, w: nat, r: Response, p: nat)
    requires w in s.works && s.works[w] == Found(p, r) && p in s.peers && Awaits(s.peers[p].hs, r)
    ensures Next(s, StepCheck(w)) == s.(works := s.works[w := Checked(p, r.sender, s.peers[p].hs.session)], clock := s.clock + 1)
  {
    hide Effect, NextFilters, Awaits;
  }

  lemma RunEight(s: State, steps: seq<Step>)
    requires |steps| == 8
    ensures Run(s, steps) == Next(Next(Next(Next(Next(Next(Next(Next(s, steps[0]), steps[1]), steps[2]), steps[3]), steps[4]), steps[5]), steps[6]), steps[7])
  {
    hide Next;
    assert forall i {:trigger steps[..i]} :: 1 <= i <= 8 ==> Run(s, steps[..i]) == Next(Run(s, steps[..i - 1]), steps[i - 1]) by {
      assert forall i {:trigger steps[..i]} :: 1 <= i <= 8 ==> steps[..i][..i - 1] == steps[..i - 1];
    }
    assert steps[..8] == steps;
    assert Run(s, steps[..2]) == Next(Run(s, steps[..1]), steps[1]);
    assert Run(s, steps[..4]) == Next(Run(s, steps[..3]), steps[3]);
    assert Run(s, steps[..6]) == Next(Run(s, steps[..5]), steps[5]);
  }

  /** A worker stores its response and a session begins. */
  lemma StoreAndBegin(s: State, p: nat, w: nat)
    requires p in s.peers && w in s.works && s.works[w].Checked? && s.works[w].p == p
    ensures var s', peer, work := Next(Next(s, StepStore(w)), StepBegin(p)), s.peers[p], s.works[w];
      && s'.works == s.works - {w} && s'.clock == s.clock + 2 && p in s'.peers && s'.peers[p].hs.localIndex == 0 && s'.peers[p].next.None?
      && s'.peers[p].current == Some(Keypair(peer.hs.localIndex, work.sender, true, work.session, s.clock + 1))
      && s'.peers[p].previous == if peer.next.Some? then peer.next else peer.current
  {
    hide DeleteKeypair, SwapIndex;
  }

  lemma WithoutIndex(s: State, p: nat, i: nat)
    requires p in s.peers && 1 <= i < 4 && Holdings(s.peers[p])[i].Some? && Holdings(s.peers[p])[i].value.index == 0
    ensures !Exact(s)
  {
  }

  /** No step changes what the table holds for a peer it is not about. */
  lemma NoCrossPeerChange(s: State, step: Step, q: nat)
    requires Inv(s) && Lucky(s, step) && Actor(s, step) != Some(q)
    ensures forall x :: x in s.table && s.table[x].peer == q ==> x in Next(s, step).table && Next(s, step).table[x] == s.table[x]
    ensures forall x :: x in Next(s, step).table && Next(s, step).table[x].peer == q ==> x in s.table
    ensures q in s.peers ==> q in Next(s, step).peers && Next(s, step).peers[q] == s.peers[q]
  {
    hide Local, Inv, Lucky, Effect, NextWorks, NextFilters, Holdings;
    var actor := Actor(s, step);
    if actor.Some? && actor.value in s.peers {
      EffectMoves(s, actor.value, step);
    }
  }

  /** Looking up an index finds the handshake or the key pair that owns it, and nothing else. */
  lemma LookupFinds(s: State, x: nat, p: nat)
    requires Inv(s)
    ensures x in s.table && s.table[x] == Entry(p, OfHandshake) <==> p in s.peers && s.peers[p].hs.localIndex == x != 0
    ensures forall k: Keypair :: x in s.table && s.table[x] == Entry(p, OfKeypair(k)) <==>
                          p in s.peers && k.localIndex == x && Some(k) in [s.peers[p].previous, s.peers[p].current, s.peers[p].next]
  {
    hide History;
    if p in s.peers {
      var h, slots := Holdings(s.peers[p]), [s.peers[p].previous, s.peers[p].current, s.peers[p].next];
      assert Owned(s.table, p, h);
      if x in s.table && s.table[x].peer == p {
        assert Held(h, x);
      }
      forall k: Keypair | Some(k) in slots && k.localIndex == x ensures x in s.table && s.table[x] == Entry(p, OfKeypair(k)) {
        var i :| 0 <= i < 3 && slots[i] == Some(k);
        assert h[i + 1] == Hold(Some(k));
      }
      assert h[0].Some? <==> s.peers[p].hs.localIndex != 0;
    }
  }

  function IndicesOf(table: Entries, p: nat): set<nat> {
    set x | x in table && table[x].peer == p
  }

  function IndexOr(h: Option<Holding>, d: nat): nat {
    if h.Some? then h.value.index else d
  }

  lemma Smaller(a: set<nat>, b: set<nat>)
    requires a <= b
    ensures |a| <= |b|
  {
    assert b == a + (b - a);
  }

  lemma AtMostFour(s: State, p: nat)
    requires Inv(s)
    ensures |IndicesOf(s.table, p)| <= 4
  {
    if p in s.peers {
      var h := Holdings(s.peers[p]);
      var four := {IndexOr(h[0], 0), IndexOr(h[1], 0), IndexOr(h[2], 0), IndexOr(h[3], 0)};
      forall x | x in IndicesOf(s.table, p) ensures x in four {
        assert Held(h, x);
      }
      Smaller(IndicesOf(s.table, p), four);
    } else {
      assert IndicesOf(s.table, p) == {};
    }
  }

  /** A session of `p` has begun in a run since its key pairs were last flushed. */
  predicate Refilled(s: State, steps: seq<Step>, p: nat) {
    if steps == [] then false
    else
      var before, last := steps[..|steps| - 1], steps[|steps| - 1];
      if last == StepFlushKeypairs(p) then false
      else Refilled(s, before, p) || (last == StepBegin(p) && p in Run(s, before).peers && CanBegin(Run(s, before).peers[p].hs))
  }

  predicate NoKeypairs(peer: Peer) {
    peer.previous.None? && peer.current.None? && peer.next.None?
  }

  lemma {:induction false} RefilledIs(s: State, steps: seq<Step>, p: nat)
    requires p in s.peers && NoKeypairs(s.peers[p])
    ensures p in Run(s, steps).peers && (NoKeypairs(Run(s, steps).peers[p]) <==> !Refilled(s, steps, p))
  {
    if steps != [] {
      RefilledIs(s, steps[..|steps| - 1], p);
      RefilledBy(Run(s, steps[..|steps| - 1]), steps[|steps| - 1], p);
      hide Next, NoKeypairs, CanBegin;
    }
  }

  lemma RefilledBy(s: State, step: Step, p: nat)
    requires p in s.peers
    ensures p in Next(s, step).peers
    ensures var begins := step == StepBegin(p) && CanBegin(s.peers[p].hs);
      NoKeypairs(Next(s, step).peers[p]) <==> step == StepFlushKeypairs(p) || (NoKeypairs(s.peers[p]) && !begins)
  {
    hide NextWorks, NextFilters, DeleteKeypair, SwapIndex, Accepts;
  }

  /** A peer that is stopped has no index left exactly if no session of it began between the two halves of flushing it. */
  lemma FlushedIff(s: State, p: nat, between: seq<Step>)
    requires p in s.peers
    requires var s1 := Next(s, StepFlushKeypairs(p)); Inv(Run(s1, between))
    ensures var s1 := Next(s, StepFlushKeypairs(p));
      IndicesOf(Next(Run(s1, between), StepExpire(p)).table, p) == {} <==> !Refilled(s1, between, p)
  {
    hide Inv, Run, Refilled, Next;
    var s1 := Next(s, StepFlushKeypairs(p));
    RefilledBy(s, StepFlushKeypairs(p), p);
    RefilledIs(s1, between, p);
    var s2 := Run(s1, between);
    ExactNext(s2, StepExpire(p));
    Expired(s2, p);
    NoneLeftIff(Next(s2, StepExpire(p)), p);
  }

  lemma Expired(s: State, p: nat)
    requires p in s.peers
    ensures var s' := Next(s, StepExpire(p)); p in s'.peers && s'.peers[p].hs.localIndex == 0 && (NoKeypairs(s'.peers[p]) <==> NoKeypairs(s.peers[p]))
  {
  }

  lemma NoneLeftIff(s: State, p: nat)
    requires Exact(s) && p in s.peers && s.peers[p].hs.localIndex == 0
    ensures IndicesOf(s.table, p) == {} <==> NoKeypairs(s.peers[p])
  {
    var h := Holdings(s.peers[p]);
    assert Owned(s.table, p, h);
    assert NoKeypairs(s.peers[p]) <==> h[1].None? && h[2].None? && h[3].None?;
    if NoKeypairs(s.peers[p]) {
      forall x | x in s.table ensures s.table[x].peer != p {
        assert Held(Holdings(s.peers[s.table[x].peer]), x);
      }
    } else {
      var i := if h[1].Some? then 1 else if h[2].Some? then 2 else 3;
      assert h[i].value.index in IndicesOf(s.table, p);
    }
  }

  /** A responder's key pair becomes current only when a packet under it has been accepted. */
  lemma BecomesCurrent(s: State, step: Step, p: nat, k: Keypair)
    requires p in Next(s, step).peers && !k.isInitiator
    requires p in s.peers ==> s.peers[p].current != Some(k)
    requires Next(s, step).peers[p].current == Some(k)
    ensures Confirms(s, step, p, k)
  {
    hide DeleteKeypair, SwapIndex, NextWorks, NextFilters, Accepts;
  }

  /** The step in which an authentic packet passes the filter of the next key pair of `p`. */
  predicate Confirms(s: State, step: Step, p: nat, k: Keypair) {
    step.StepReceive? && step.p == p && step.k == k && Accepts(s, k, step.authentic, step.counter) && p in s.peers && s.peers[p].next == Some(k)
  }

  /** In every run, a responder's current key pair was the next one when an authentic, unreplayed packet under it came in. */
  lemma {:induction false} ResponderConfirmed(steps: seq<Step>, p: nat)
    requires p in Run(START, steps).peers
    requires var c := Run(START, steps).peers[p].current; c.Some? && !c.value.isInitiator
    ensures exists i :: 0 <= i < |steps| && Confirms(Run(START, steps[..i]), steps[i], p, Run(START, steps).peers[p].current.value)
  {
    var n, k := |steps| - 1, Run(START, steps).peers[p].current.value;
    var s := Run(START, steps[..n]);
    hide Next, Confirms;
    if p in s.peers && s.peers[p].current == Some(k) {
      ResponderConfirmed(steps[..n], p);
      var i :| 0 <= i < n && Confirms(Run(START, steps[..n][..i]), steps[..n][i], p, k);
      assert steps[..n][..i] == steps[..i];
    } else {
      BecomesCurrent(s, steps[n], p, k);
    }
  }

  /** Step `i` of a run accepts a packet with this counter under `k`. */
  predicate AcceptedAt(steps: seq<Step>, i: nat, k: Keypair, counter: nat)
    requires i < |steps|
  {
    var s, step := Run(START, steps[..i]), steps[i];
    step.StepReceive? && step.p in s.peers && step.k == k && step.counter == counter && Accepts(s, k, step.authentic, counter)
  }

  ghost predicate Born(s: State) {
    forall k :: k in s.filters ==> k.born < s.clock
  }

  lemma {:induction false} RunBorn(steps: seq<Step>)
    ensures Born(Run(START, steps))
  {
    if steps != [] {
      RunBorn(steps[..|steps| - 1]);
      hide Effect, NextWorks, Accepts, Run;
    }
  }

  /** A filter keeps what it has accepted. */
  lemma AcceptedKept(s: State, step: Step, k: Keypair, counter: nat)
    requires Born(s) && k in s.filters && counter in s.filters[k].accepted
    ensures k in Next(s, step).filters && counter in Next(s, step).filters[k].accepted
  {
    hide Effect, NextWorks, Accepts;
  }

  lemma {:induction false} AcceptedStays(steps: seq<Step>, i: nat, j: nat, k: Keypair, counter: nat)
    requires i < j <= |steps| && AcceptedAt(steps, i, k, counter)
    ensures var s := Run(START, steps[..j]); k in s.filters && counter in s.filters[k].accepted
    decreases j
  {
    assert steps[..j][..j - 1] == steps[..j - 1];
    assert Run(START, steps[..j]) == Next(Run(START, steps[..j - 1]), steps[j - 1]);
    if i + 1 < j {
      AcceptedStays(steps, i, j - 1, k, counter);
      RunBorn(steps[..j - 1]);
      AcceptedKept(Run(START, steps[..j - 1]), steps[j - 1], k, counter);
    }
  }

  /** In every run, whatever becomes of a key pair, no counter is accepted twice under it. */
  lemma NoCounterTwice(steps: seq<Step>, i: nat, j: nat, k: Keypair, counter: nat)
    requires i < j < |steps| && AcceptedAt(steps, i, k, counter)
    ensures !AcceptedAt(steps, j, k, counter)
  {
    AcceptedStays(steps, i, j, k, counter);
    hide Run;
  }

  /** The key pair, if any, that step `i` of a run derives. */
  function YieldAt(steps: seq<Step>, i: nat): Option<Keypair>
    requires i < |steps|
  {
    var s, step := Run(START, steps[..i]), steps[i];
    if step.StepBegin? && step.p in s.peers && CanBegin(s.peers[step.p].hs) then Some(NewKeypair(s.peers[step.p].hs, s.clock)) else None
  }

  lemma {:induction false} YieldKept(steps: seq<Step>, i: nat, j: nat)
    requires i < j <= |steps| && YieldAt(steps, i).Some?
    ensures YieldAt(steps, i).value in Run(START, steps[..j]).filters
    decreases j
  {
    assert steps[..j][..j - 1] == steps[..j - 1];
    assert Run(START, steps[..j]) == Next(Run(START, steps[..j - 1]), steps[j - 1]);
    if i + 1 < j {
      YieldKept(steps, i, j - 1);
      hide Effect, NextWorks, Accepts;
    }
  }

  lemma {:induction false} Prefixes(steps: seq<Step>, j: nat)
    requires AllLucky(START, steps) && AllInTime(START, steps) && j <= |steps|
    ensures AllLucky(START, steps[..j]) && AllInTime(START, steps[..j])
    decreases |steps|
  {
    if j < |steps| {
      assert steps[..|steps| - 1][..j] == steps[..j];
      Prefixes(steps[..|steps| - 1], j);
    } else {
      assert steps[..j] == steps;
    }
  }

  /** In every run in which responses are stored in time, two key pairs never come from the same handshake. */
  lemma OneKeypairPerHandshake(steps: seq<Step>, i: nat, j: nat)
    requires AllLucky(START, steps) && AllInTime(START, steps) && i < j < |steps| && YieldAt(steps, i).Some? && YieldAt(steps, j).Some?
    ensures YieldAt(steps, i).value.session != YieldAt(steps, j).value.session
  {
    Prefixes(steps, j);
    RunInv(steps[..j]);
    YieldKept(steps, i, j);
    var s := Run(START, steps[..j]);
    assert HandshakeOk(s.filters, s.peers[steps[j].p].hs);
    hide Run, AllLucky, AllInTime, Next, Exact, Dated;
  }

  /** The step in which a worker checks a response that the handshake of `p` awaits, having found it by an index. */
  predicate Checks(s: State, step: Step, w: nat, p: nat, session: Session) {
    && step == StepCheck(w) && w in s.works && s.works[w].Found? && s.works[w].p == p
    && p in s.peers && Awaits(s.peers[p].hs, s.works[w].response) && s.peers[p].hs.session == session
  }

  lemma {:induction false} CheckedBefore(steps: seq<Step>, w: nat)
    requires w in Run(START, steps).works && Run(START, steps).works[w].Checked?
    ensures var work := Run(START, steps).works[w];
      exists i :: 0 <= i < |steps| && Checks(Run(START, steps[..i]), steps[i], w, work.p, work.session)
  {
    hide Next, Checks;
    var n, work := |steps| - 1, Run(START, steps).works[w];
    var s := Run(START, steps[..n]);
    if w in s.works && s.works[w] == work {
      CheckedBefore(steps[..n], w);
      var i :| 0 <= i < n && Checks(Run(START, steps[..n][..i]), steps[..n][i], w, work.p, work.session);
      assert steps[..n][..i] == steps[..i];
    } else {
      CheckedBy(s, steps[n], w);
    }
  }

  lemma CheckedBy(s: State, step: Step, w: nat)
    requires w in Next(s, step).works && Next(s, step).works[w].Checked? && !(w in s.works && s.works[w] == Next(s, step).works[w])
    ensures Checks(s, step, w, Next(s, step).works[w].p, Next(s, step).works[w].session)
  {
    hide Effect, NextFilters;
  }

  /** In every run, a handshake comes to hold a response only after a worker has checked it against that very session while it was awaited. */
  lemma ResponseAwaited(steps: seq<Step>, step: Step, p: nat)
    requires var s := Run(START, steps); p in s.peers && s.peers[p].hs.state != ResponseConsumed && Next(s, step).peers[p].hs.state == ResponseConsumed
    ensures var session := Next(Run(START, steps), step).peers[p].hs.session;
      step.StepStore? && exists i :: 0 <= i < |steps| && Checks(Run(START, steps[..i]), steps[i], step.worker, p, session)
  {
    var s := Run(START, steps);
    StoredBy(s, step, p);
    CheckedBefore(steps, step.worker);
  }

  lemma StoredBy(s: State, step: Step, p: nat)
    requires p in s.peers && s.peers[p].hs.state != ResponseConsumed && Next(s, step).peers[p].hs.state == ResponseConsumed
    ensures step.StepStore? && step.worker in s.works && s.works[step.worker].Checked? && s.works[step.worker].p == p
    ensures Next(s, step).peers[p].hs.session == s.works[step.worker].session
  {
    hide DeleteKeypair, SwapIndex, NextWorks, NextFilters, Accepts;
  }

  // ---------------------------------------------------------------- draws that go wrong

  /** Index 0 means none, so the table stays exact exactly when 0 is not drawn, for an initiation and for a response. */
  lemma ZeroDrawn(s: State, p: nat, idx: nat, made: Made)
    requires Inv(s) && p in s.peers && idx !in s.table - {s.peers[p].hs.localIndex}
    ensures Exact(Next(s, StepCreateInitiation(p, Keys, Drawn(idx)))) <==> idx != 0
    ensures s.peers[p].hs.state == InitiationConsumed ==> (Exact(Next(s, StepCreateResponse(p, Drawn(idx), made))) <==> idx != 0)
  {
    if idx != 0 {
      ExactNext(s, StepCreateInitiation(p, Keys, Drawn(idx)));
      ExactNext(s, StepCreateResponse(p, Drawn(idx), made));
    }
  }

  /** When no index can be drawn, a new initiation leaves the handshake with the index it has just given up. */
  lemma InitiationDrawFails(s: State, p: nat, junk: nat)
    requires Inv(s) && p in s.peers
    ensures Exact(Next(s, StepCreateInitiation(p, Keys, Failed(junk)))) <==> s.peers[p].hs.localIndex == 0
  {
    hide History, NextWorks, NextFilters;
    var s', v := Next(s, StepCreateInitiation(p, Keys, Failed(junk))), View(s.peers[p], s.table);
    assert Local(v.table, p, Holdings(v.peer)) && Holdings(s'.peers[p]) == Holdings(v.peer);
    assert s'.table == v.table - {v.peer.hs.localIndex} && s'.peers == s.peers[p := s'.peers[p]];
    hide Next, Exact, Local;
    if v.peer.hs.localIndex == 0 {
      DropHandshake(v, p);
      assert Holdings(v.peer)[0 := None] == Holdings(v.peer);
      ExactAfter(s, s', p, s'.peers[p]);
    } else {
      assert Holdings(v.peer)[0] == Some(Holding(v.peer.hs.localIndex, OfHandshake));
      NotHeldOut(s', p, 0);
    }
  }

  lemma NotHeldOut(s: State, p: nat, i: nat)
    requires p in s.peers && i < 4 && Holdings(s.peers[p])[i].Some? && Holdings(s.peers[p])[i].value.index !in s.table
    ensures !Exact(s)
  {
  }

  /** When no index can be drawn, a response leaves the handshake with the junk index. */
  lemma ResponseDrawFails(s: State, p: nat, junk: nat, made: Made)
    requires Inv(s) && p in s.peers && s.peers[p].hs.state == InitiationConsumed
    ensures Exact(Next(s, StepCreateResponse(p, Failed(junk), made))) <==> junk == 0
  {
    var s', v := Next(s, StepCreateResponse(p, Failed(junk), made)), View(s.peers[p], s.table);
    var h, h' := Holdings(v.peer), Holdings(s'.peers[p]);
    ResponseFailed(s, p, junk, made);
    assert Local(v.table, p, h) by { hide History; }
    assert v.table - {0} == v.table by { hide History; }
    assert Exact(s);
    hide Inv, Next, Local, Exact, OthersKept;
    if junk == 0 {
      ExpireMoves(v, p);
      assert h' == Holdings(Expire(v).peer);
      ExactAfter(s, s', p, s'.peers[p]);
    } else {
      NotTheirs(v.table, p, h, h', junk);
      NotOwned(s', p);
    }
  }

  lemma NotOwned(s: State, p: nat)
    requires p in s.peers && !Owned(s.table, p, Holdings(s.peers[p]))
    ensures !Exact(s)
  {
  }

  lemma ResponseFailed(s: State, p: nat, junk: nat, made: Made)
    requires p in s.peers && s.peers[p].hs.state == InitiationConsumed
    ensures var s', h := Next(s, StepCreateResponse(p, Failed(junk), made)), Holdings(s.peers[p]);
      && p in s'.peers && s'.table == s.table - {s.peers[p].hs.localIndex} && s'.peers == s.peers[p := s'.peers[p]]
      && Holdings(s'.peers[p]) == if junk == 0 then h[0 := None] else h[0 := Some(Holding(junk, OfHandshake))]
  {
    hide NextWorks, NextFilters;
  }

  lemma NotTheirs(table: Entries, p: nat, h: seq<Option<Holding>>, h': seq<Option<Holding>>, junk: nat)
    requires |h| == |h'| > 0 && Local(table, p, h) && h' == h[0 := Some(Holding(junk, OfHandshake))]
    requires forall i :: 1 <= i < |h| && h[i].Some? ==> h[i].value.target != OfHandshake
    ensures !Owned(Without(table, h[0]), p, h')
  {
    if Owned(Without(table, h[0]), p, h') {
      assert h'[0].Some?;
      OnlyHandshake(table, p, h, junk);
      assert false;
    }
  }

  lemma OnlyHandshake(table: Entries, p: nat, h: seq<Option<Holding>>, x: nat)
    requires Owned(table, p, h) && Held(h, x) && x in table && table[x].target == OfHandshake
    requires forall i :: 1 <= i < |h| && h[i].Some? ==> h[i].value.target != OfHandshake
    ensures h[0].Some? && h[0].value.index == x
  {
  }

  // ---------------------------------------------------------------- the table and the peers in memory

  class IndexTable {
    var table: Entries

    constructor Init()
      ensures table == map[]
    {
      table := map[];
    }

    method Delete(index: nat)
      modifies this
      ensures table == old(table) - {index}
    {
      table := table - {index};
    }

    method SwapIndexForKeypair(index: nat, k: Keypair)
      modifies this
      ensures table == SwapIndex(old(table), index, k)
    {
      if index !in table {
        return;
      }
      table := table[index := Entry(table[index].peer, OfKeypair(k))];
    }

    /** The random source yields `draws` and then fails; the first unused one is taken. */
    method NewIndexForHandshake(p: nat, draws: seq<nat>, junk: nat) returns (draw: Draw)
      modifies this
      ensures draw == FirstFree(old(table), draws, junk)
      ensures table == if draw.Drawn? then old(table)[draw.idx := Entry(p, OfHandshake)] else old(table)
    {
      var n := 0;
      while n < |draws|
        invariant n <= |draws| && table == old(table)
        invariant FirstFree(table, draws, junk) == FirstFree(table, draws[n..], junk)
      {
        var index := draws[n];
        if index in table {
          n := n + 1;
          continue;
        }
        table := table[index := Entry(p, OfHandshake)];
        return Drawn(index);
      }
      return Failed(junk);
    }

    /** The worker's first step with a response. */
    method Lookup(ghost s: State, worker: nat, r: Response) returns (work: Option<Work>)
      requires s.table == table
      ensures NextWorks(s, StepLookup(worker, r)) == if work.Some? then s.works[worker := work.value] else s.works - {worker}
    {
      if r.receiver in table && table[r.receiver].target == OfHandshake {
        return Some(Found(table[r.receiver].peer, r));
      }
      return None;
    }
  }

  function FirstFree(table: Entries, draws: seq<nat>, junk: nat): (r: Draw)
    ensures r.Drawn? ==> r.idx in draws && r.idx !in table
    ensures r.Failed? ==> r.junk == junk && forall i :: 0 <= i < |draws| ==> draws[i] in table
  {
    if draws == [] then Failed(junk)
    else if draws[0] in table then FirstFree(table, draws[1..], junk)
    else Drawn(draws[0])
  }

  class PeerObject {
    const id: nat
    var hs: Handshake
    var previous: Option<Keypair>
    var current: Option<Keypair>
    var next: Option<Keypair>

    constructor (id: nat)
      ensures this.id == id && Value() == EmptyPeer(id)
    {
      this.id := id;
      hs, previous, current, next := EmptyPeer(id).hs, None, None, None;
    }

    ghost function Value(): Peer
      reads this
    {
      Peer(hs, previous, current, next)
    }

    /** `made` tells whether the key material could be made, before the index is touched. */
    method CreateMessageInitiation(t: IndexTable, now: nat, made: Made, draws: seq<nat>, junk: nat) returns (draw: Draw)
      modifies this, t
      ensures draw == FirstFree(old(t.table - {hs.localIndex}), draws, junk)
      ensures View(Value(), t.table) == CreateInitiation(View(old(Value()), old(t.table)), id, now, made, draw)
    {
      hs := hs.(session := Session(id, 0));
      if made == NoEphemeral {
        return FirstFree(t.table - {hs.localIndex}, draws, junk);
      }
      hs := hs.(session := Session(id, now));
      if made == NoSecret {
        return FirstFree(t.table - {hs.localIndex}, draws, junk);
      }
      t.Delete(hs.localIndex);
      draw := t.NewIndexForHandshake(id, draws, junk);
      if draw.Failed? {
        return;
      }
      hs := hs.(localIndex := draw.idx);
      hs := hs.(state := InitiationCreated);
    }

    method ConsumeMessageInitiation(sender: nat, now: nat)
      modifies this
      ensures Value() == ConsumeInitiation(View(old(Value()), map[]), id, sender, now).peer
    {
      hs := hs.(session := Session(id, now), remoteIndex := sender);
      hs := hs.(state := InitiationConsumed);
    }

    method CreateMessageResponse(t: IndexTable, now: nat, draws: seq<nat>, junk: nat, made: Made) returns (draw: Draw)
      modifies this, t
      ensures draw == FirstFree(old(t.table - {hs.localIndex}), draws, junk)
      ensures View(Value(), t.table) == CreateResponse(View(old(Value()), old(t.table)), id, now, draw, made)
    {
      if hs.state != InitiationConsumed {
        return FirstFree(t.table - {hs.localIndex}, draws, junk);
      }
      t.Delete(hs.localIndex);
      draw := t.NewIndexForHandshake(id, draws, junk);
      hs := hs.(localIndex := if draw.Drawn? then draw.idx else draw.junk);
      if draw.Failed? || made == NoEphemeral {
        return;
      }
      hs := hs.(session := Session(id, now));
      if made == NoSecret {
        return;
      }
      hs := hs.(state := ResponseCreated);
    }

    /** The worker's second step with a response. */
    method CheckResponse(ghost s: State, ghost worker: nat, r: Response) returns (session: Option<Session>)
      requires id in s.peers && s.peers[id] == Value() && worker in s.works && s.works[worker] == Found(id, r)
      ensures NextWorks(s, StepCheck(worker)) == if session.Some? then s.works[worker := Checked(id, r.sender, session.value)] else s.works - {worker}
    {
      if hs.state != InitiationCreated || r.answers != Some(hs.session) {
        return None;
      }
      return Some(hs.session);
    }

    /** The worker's third step with a response. */
    method StoreCheckedResponse(ghost s: State, ghost worker: nat, session: Session, sender: nat)
      requires worker in s.works && s.works[worker] == Checked(id, sender, session)
      modifies this
      ensures Value() == Effect(s, View(old(Value()), s.table), StepStore(worker)).peer
    {
      hs := hs.(session := session, remoteIndex := sender);
      hs := hs.(state := ResponseConsumed);
    }

    method Delete(t: IndexTable, k: Option<Keypair>)
      modifies t
      ensures t.table == DeleteKeypair(old(t.table), k)
    {
      if k.Some? {
        t.Delete(k.value.localIndex);
      }
    }

    method BeginSymmetricSession(t: IndexTable, now: nat) returns (ok: bool)
      modifies this, t
      ensures ok == CanBegin(old(hs))
      ensures View(Value(), t.table) == BeginSession(View(old(Value()), old(t.table)), now)
      ensures old(hs).state == ResponseCreated ==>
                && current == old(current) && previous == None
                && next == Some(Keypair(old(hs).localIndex, old(hs).remoteIndex, false, old(hs).session, now))
      ensures old(hs).state == ResponseConsumed ==>
                && current == Some(Keypair(old(hs).localIndex, old(hs).remoteIndex, true, old(hs).session, now))
                && previous == (if old(next).Some? then old(next) else old(current)) && next == None
    {
      var isInitiator;
      if hs.state == ResponseConsumed {
        isInitiator := true;
      } else if hs.state == ResponseCreated {
        isInitiator := false;
      } else {
        return false;
      }
      hs := hs.(state := Zeroed);
      var keypair := Keypair(hs.localIndex, hs.remoteIndex, isInitiator, hs.session, now);
      t.SwapIndexForKeypair(hs.localIndex, keypair);
      hs := hs.(localIndex := 0);
      RotateKeypairs(t, keypair);
      return true;
    }

    method RotateKeypairs(t: IndexTable, keypair: Keypair)
      modifies this, t
      ensures View(Value(), t.table) == Rotate(View(old(Value()), old(t.table)), keypair)
    {
      var oldPrevious, oldNext, oldCurrent := previous, next, current;
      if keypair.isInitiator {
        if oldNext.Some? {
          next := None;
          previous := oldNext;
          Delete(t, oldCurrent);
        } else {
          previous := oldCurrent;
        }
        Delete(t, oldPrevious);
        current := Some(keypair);
      } else {
        next := Some(keypair);
        Delete(t, oldNext);
        previous := None;
        Delete(t, oldPrevious);
      }
    }

    method ReceivedWithKeypair(t: IndexTable, received: Keypair) returns (ok: bool)
      modifies this, t
      ensures ok == (old(next) == Some(received))
      ensures View(Value(), t.table) == ReceivedUnder(View(old(Value()), old(t.table)), received)
      ensures ok ==> current == old(next) && previous == old(current) && next == None
      ensures !ok ==> current == old(current) && previous == old(previous) && next == old(next) && t.table == old(t.table)
    {
      if next != Some(received) {
        return false;
      }
      var oldPrevious := previous;
      previous := current;
      Delete(t, oldPrevious);
      current := next;
      next := None;
      return true;
    }

    /** One packet in the order of the source: decryption, replay filter, key pair. */
    method ReceivePacket(t: IndexTable, k: Keypair, filter: Replay.Filter, authentic: bool, counter: nat, ghost s: State) returns (accepted: bool)
      requires filter.Valid() && k in s.filters && s.filters[k] == filter.history && s.table == t.table && id in s.peers && s.peers[id] == Value()
      modifies this, t, filter, filter.ring
      ensures accepted == Accepts(s, k, authentic, counter)
      ensures filter.Valid() && filter.history == NextFilters(s, s.peers[id], StepReceive(id, k, authentic, counter))[k]
      ensures View(Value(), t.table) == Effect(s, View(s.peers[id], s.table), StepReceive(id, k, authentic, counter))
    {
      if !authentic {
        return false;
      }
      accepted := filter.ValidateCounter(counter, Nonce.REJECT_AFTER_MESSAGES);
      if !accepted {
        return;
      }
      var promoted := ReceivedWithKeypair(t, k);
    }

    /** The first half of stopping a peer; the second clears the handshake as on expiry. */
    method ClearKeypairs(t: IndexTable)
      modifies this, t
      ensures View(Value(), t.table) == FlushKeypairs(View(old(Value()), old(t.table)))
    {
      Delete(t, previous);
      Delete(t, current);
      Delete(t, next);
      previous, current, next := None, None, None;
    }

    /** The handshake goes, and the send nonces of the current and the next key pair are used up. */
    method ExpireCurrentKeypairs(t: IndexTable, ofCurrent: Nonce.Keypair?, ofNext: Nonce.Keypair?)
      requires (ofCurrent != null <==> current.Some?) && (ofNext != null <==> next.Some?)
      modifies this, t, ofCurrent, ofNext
      ensures View(Value(), t.table) == Expire(View(old(Value()), old(t.table)))
      ensures ofCurrent != null ==> ofCurrent.sendNonce == Nonce.REJECT_AFTER_MESSAGES
      ensures ofNext != null ==> ofNext.sendNonce == Nonce.REJECT_AFTER_MESSAGES
    {
      t.Delete(hs.localIndex);
      hs := hs.(localIndex := 0, state := Zeroed);
      if ofCurrent != null {
        ofCurrent.sendNonce := Nonce.REJECT_AFTER_MESSAGES;
      }
      if ofNext != null {
        ofNext.sendNonce := Nonce.REJECT_AFTER_MESSAGES;
      }
    }
  }
}
