/** What becomes of every key pair of a peer, and how handshakes come to an end. */
module KeypairLife {
  import opened Basics
  import opened HandshakeStates
  import opened Handshakes
  import Nonce
  import Replay

  datatype Place = AtPrevious | AtCurrent | AtNext

  /** The key pairs of a peer. */
  datatype Slots = Slots(previous: Option<Keypair>, current: Option<Keypair>, next: Option<Keypair>)

  function SlotsOf(peer: Peer): Slots {
    Slots(peer.previous, peer.current, peer.next)
  }

  function PlaceIn(a: Slots, k: Keypair): Option<Place> {
    if a.current == Some(k) then Some(AtCurrent)
    else if a.next == Some(k) then Some(AtNext)
    else if a.previous == Some(k) then Some(AtPrevious)
    else None
  }

  /** Where a peer has a key pair. */
  function PlaceOf(peer: Peer, k: Keypair): Option<Place> {
    PlaceIn(SlotsOf(peer), k)
  }

  /** What can happen to the key pairs of a peer: a new one is derived, the waiting one is confirmed, or all are flushed. */
  datatype Event = Quiet | Derived(k: Keypair) | Confirmed | Flushed

  function EventOf(s: State, step: Step, p: nat): Event
    requires p in s.peers
  {
    var hs := s.peers[p].hs;
    if step == StepFlushKeypairs(p) then Flushed
    else if step == StepBegin(p) && hs.state in {ResponseConsumed, ResponseCreated} then
      Derived(Keypair(hs.localIndex, hs.remoteIndex, hs.state == ResponseConsumed, hs.session, s.clock))
    else if step.StepReceive? && step.p == p && s.peers[p].next == Some(step.k) && Accepts(s, step.k, step.authentic, step.counter) then Confirmed
    else Quiet
  }

  /**
   The life of one key pair.  An initiator's new pair takes the current place at once, and the pair before it is kept for what is
   still under way: the one that waits to be confirmed if there is one, else the current one.  A responder's new pair waits, and
   takes the place of one that waits already; the current pair stays in use.
   */
  function Fate(at: Place, e: Event, waiting: bool): Option<Place> {
    match e
    case Quiet => Some(at)
    case Flushed => None
    case Confirmed => (match at case AtNext => Some(AtCurrent) case AtCurrent => Some(AtPrevious) case AtPrevious => None)
    case Derived(k) =>
      if !k.isInitiator then (if at == AtCurrent then Some(AtCurrent) else None)
      else match at
        case AtNext => Some(AtPrevious)
        case AtCurrent => if waiting then None else Some(AtPrevious)
        case AtPrevious => None
  }

  /** The same for all three at once. */
  function After(a: Slots, e: Event): Slots {
    match e
    case Quiet => a
    case Flushed => Slots(None, None, None)
    case Confirmed => Slots(a.current, a.next, None)
    case Derived(k) =>
      if k.isInitiator then Slots(if a.next.Some? then a.next else a.current, Some(k), None) else Slots(None, a.current, Some(k))
  }

  lemma SlotsNext(s: State, step: Step, p: nat)
    requires p in s.peers
    ensures p in Next(s, step).peers && SlotsOf(Next(s, step).peers[p]) == After(SlotsOf(s.peers[p]), EventOf(s, step, p))
  {
    hide DeleteKeypair, SwapIndex, NextWorks, NextFilters, Accepts;
  }

  predicate Differ(a: Slots) {
    (a.previous.Some? ==> a.previous != a.current && a.previous != a.next) && (a.current.Some? ==> a.current != a.next)
  }

  lemma FateIs(a: Slots, e: Event, k: Keypair)
    requires Differ(a) && (e.Derived? ==> PlaceIn(a, e.k).None?) && (e.Confirmed? ==> a.next.Some?)
    ensures PlaceIn(After(a, e), k) ==
            if PlaceIn(a, k).Some? then Fate(PlaceIn(a, k).value, e, a.next.Some?)
            else if e == Derived(k) then Some(if k.isInitiator then AtCurrent else AtNext)
            else None
  {
  }

  /** For every key pair and every step. */
  lemma LifeNext(s: State, step: Step, p: nat, k: Keypair)
    requires Inv(s) && p in s.peers
    ensures p in Next(s, step).peers
    ensures var peer, e := s.peers[p], EventOf(s, step, p);
      PlaceOf(Next(s, step).peers[p], k) ==
      if PlaceOf(peer, k).Some? then Fate(PlaceOf(peer, k).value, e, peer.next.Some?)
      else if e == Derived(k) then Some(if k.isInitiator then AtCurrent else AtNext)
      else None
  {
    hide Inv, Next, Fate, After, Accepts;
    SlotsDiffer(s, p);
    SlotsNext(s, step, p);
    FateIs(SlotsOf(s.peers[p]), EventOf(s, step, p), k);
  }

  /** The key pairs of a peer, and one that its handshake would yield, are different. */
  lemma SlotsDiffer(s: State, p: nat)
    requires Inv(s) && p in s.peers
    ensures Differ(SlotsOf(s.peers[p]))
    ensures s.peers[p].hs.state in {ResponseConsumed, ResponseCreated} ==>
              forall k: Keypair :: k.localIndex == s.peers[p].hs.localIndex ==> PlaceOf(s.peers[p], k).None?
  {
    var peer := s.peers[p];
    var h := Holdings(peer);
    assert Owned(s.table, p, h) && HandshakeOk(s.filters, peer.hs);
    hide Inv;
    assert h[1] == Hold(peer.previous) && h[2] == Hold(peer.current) && h[3] == Hold(peer.next);
    assert forall i, j :: 0 <= i < j < 4 && h[i].Some? && h[j].Some? ==> h[i].value.index != h[j].value.index;
    hide Owned, Unused;
    if peer.hs.state in {ResponseConsumed, ResponseCreated} {
      assert h[0] == Some(Holding(peer.hs.localIndex, OfHandshake));
      assert forall j :: 1 <= j < 4 && h[j].Some? ==> h[j].value.index != peer.hs.localIndex;
    }
  }

  /** Packets under a key pair find it by its index exactly as long as the peer has it. */
  lemma FoundIff(s: State, p: nat, k: Keypair)
    requires Inv(s) && p in s.peers
    ensures k.localIndex in s.table && s.table[k.localIndex] == Entry(p, OfKeypair(k)) <==> PlaceOf(s.peers[p], k).Some?
  {
    LookupFinds(s, k.localIndex, p);
    hide Inv;
    var peer := s.peers[p];
    assert Some(k) in [peer.previous, peer.current, peer.next] <==> PlaceOf(peer, k).Some?;
  }

  // ---------------------------------------------------------------- the current key pair

  /** Only flushing takes the current key pair away without another to take its place. */
  lemma CurrentNext(s: State, step: Step, p: nat)
    requires p in s.peers && s.peers[p].current.Some? && step != StepFlushKeypairs(p)
    ensures p in Next(s, step).peers && Next(s, step).peers[p].current.Some?
  {
    hide DeleteKeypair, SwapIndex, NextWorks, NextFilters, Accepts;
  }

  /** A responder that derives a key pair goes on with the current one, and packets under that one still find it. */
  lemma ResponderGoesOn(s: State, p: nat)
    requires Inv(s) && p in s.peers && s.peers[p].hs.state == ResponseCreated
    ensures var s', c := Next(s, StepBegin(p)), s.peers[p].current;
      && p in s'.peers && s'.peers[p].current == c
      && (c.Some? ==> c.value.localIndex in s'.table && s'.table[c.value.localIndex] == Entry(p, OfKeypair(c.value)))
  {
    hide Next, Exact, History;
    var s', c := Next(s, StepBegin(p)), s.peers[p].current;
    ExactNext(s, StepBegin(p));
    HistoryNext(s, StepBegin(p));
    SlotsNext(s, StepBegin(p), p);
    if c.Some? {
      FoundIff(s', p, c.value);
    }
  }

  /** When another key pair becomes current, the one before it is kept, or the one that waited, and packets under it still find it. */
  lemma OldOneKept(s: State, step: Step, p: nat)
    requires Inv(s) && Lucky(s, step) && InTime(s, step) && p in s.peers && s.peers[p].current.Some?
    requires Next(s, step).peers[p].current.Some? && Next(s, step).peers[p].current != s.peers[p].current
    ensures var s', peer := Next(s, step), s.peers[p];
      var kept := if peer.next.Some? && s'.peers[p].current != peer.next then peer.next.value else peer.current.value;
      && s'.peers[p].previous == Some(kept)
      && kept.localIndex in s'.table && s'.table[kept.localIndex] == Entry(p, OfKeypair(kept))
  {
    hide Next, Exact, History, Lucky, InTime, Accepts;
    var s', peer := Next(s, step), s.peers[p];
    ExactNext(s, step);
    HistoryNext(s, step);
    SlotsNext(s, step, p);
    SlotsDiffer(s, p);
    var kept := if peer.next.Some? && s'.peers[p].current != peer.next then peer.next.value else peer.current.value;
    assert s'.peers[p].previous == Some(kept);
    FoundIff(s', p, kept);
  }

  /** Something takes the current place from the pair that has it. */
  predicate Replaces(s: State, step: Step, p: nat) {
    p in s.peers && var e := EventOf(s, step, p); e.Flushed? || e.Confirmed? || (e.Derived? && e.k.isInitiator)
  }

  /** `k` has been current, or was never to be. */
  predicate Over(s: State, p: nat, k: Keypair) {
    p in s.peers && k.born < s.clock && PlaceOf(s.peers[p], k) !in {Some(AtCurrent), Some(AtNext)}
  }

  lemma ClockNext(s: State, step: Step)
    ensures Next(s, step).clock == s.clock + 1
  {
    hide Effect, NextWorks, NextFilters;
  }

  /** In every run with responses stored in time: a current key pair stays current exactly until something takes its place. */
  lemma {:induction false} CurrentUntil(steps: seq<Step>, i: nat, j: nat, p: nat, k: Keypair)
    requires AllLucky(START, steps) && AllInTime(START, steps) && i <= j <= |steps|
    requires var s := Run(START, steps[..i]); p in s.peers && s.peers[p].current == Some(k) && k.born < s.clock
    ensures var s := Run(START, steps[..j]);
      && p in s.peers && k.born < s.clock
      && (s.peers[p].current == Some(k) <==> forall m :: i <= m < j ==> !Replaces(Run(START, steps[..m]), steps[m], p))
      && (s.peers[p].current == Some(k) || Over(s, p, k))
    decreases j
  {
    hide Inv, Replaces, Next, Over, AllLucky, AllInTime;
    if i < j {
      var s, step := Run(START, steps[..j - 1]), steps[j - 1];
      CurrentUntil(steps, i, j - 1, p, k);
      Prefixes(steps, j - 1);
      RunInv(steps[..j - 1]);
      assert steps[..j][..j - 1] == steps[..j - 1];
      assert Run(START, steps[..j]) == Next(s, step);
      hide Run;
      OneMore(s, step, p, k);
    }
  }

  lemma OneMore(s: State, step: Step, p: nat, k: Keypair)
    requires Inv(s) && p in s.peers && k.born < s.clock && (s.peers[p].current == Some(k) || Over(s, p, k))
    ensures var s' := Next(s, step);
      && p in s'.peers && k.born < s'.clock && (s'.peers[p].current == Some(k) || Over(s', p, k))
      && (s'.peers[p].current == Some(k) <==> s.peers[p].current == Some(k) && !Replaces(s, step, p))
  {
    hide Inv, Next, Accepts;
    LifeNext(s, step, p, k);
    ClockNext(s, step);
  }

  // ---------------------------------------------------------------- handshakes come to an end

  lemma InvNext(s: State, step: Step)
    requires Inv(s) && Lucky(s, step) && InTime(s, step)
    ensures Inv(Next(s, step))
  {
    ExactNext(s, step);
    HistoryNext(s, step);
    hide Exact, History;
  }

  /** An initiator that gets the answer to its initiation has a current key pair with the two indices, and the one before it is kept. */
  lemma InitiatorCompletes(s: State, p: nat, idx: nat, w: nat, sender: nat)
    requires Inv(s) && p in s.peers && Free(View(s.peers[p], s.table), idx)
    ensures var s1 := Next(s, StepCreateInitiation(p, Keys, Drawn(idx)));
      var s3 := Next(Next(s1, StepLookup(w, Response(idx, sender, Some(Session(p, s.clock))))), StepCheck(w));
      var s5 := Next(Next(s3, StepStore(w)), StepBegin(p));
      var k := Keypair(idx, sender, true, Session(p, s.clock), s.clock + 4);
      && Inv(s5) && p in s5.peers
      && SlotsOf(s5.peers[p]) == Slots(if s.peers[p].next.Some? then s.peers[p].next else s.peers[p].current, Some(k), None)
      && idx in s5.table && s5.table[idx] == Entry(p, OfKeypair(k))
      && k in s5.filters && s5.filters[k] == Replay.NOTHING
  {
    hide Inv, Next, Free;
    var r := Response(idx, sender, Some(Session(p, s.clock)));
    Initiated(s, p, idx);
    var s1 := Next(s, StepCreateInitiation(p, Keys, Drawn(idx)));
    Looked(s1, p, w, r);
    var s3 := Next(Next(s1, StepLookup(w, r)), StepCheck(w));
    Stored(s3, p, w, r);
    var s4 := Next(s3, StepStore(w));
    InvNext(s4, StepBegin(p));
    Begun(s4, p);
    FoundIff(Next(s4, StepBegin(p)), p, Keypair(idx, sender, true, Session(p, s.clock), s.clock + 4));
  }

  lemma Initiated(s: State, p: nat, idx: nat)
    requires Inv(s) && p in s.peers && Free(View(s.peers[p], s.table), idx)
    ensures var s1 := Next(s, StepCreateInitiation(p, Keys, Drawn(idx)));
      && Inv(s1) && s1.clock == s.clock + 1 && p in s1.peers && SlotsOf(s1.peers[p]) == SlotsOf(s.peers[p])
      && s1.peers[p].hs.(remoteIndex := 0) == Handshake(InitiationCreated, idx, 0, Session(p, s.clock))
      && idx in s1.table && s1.table[idx] == Entry(p, OfHandshake)
  {
    hide Inv;
    InvNext(s, StepCreateInitiation(p, Keys, Drawn(idx)));
  }

  lemma Looked(s: State, p: nat, w: nat, r: Response)
    requires Inv(s) && p in s.peers && Awaits(s.peers[p].hs, r)
    requires r.receiver in s.table && s.table[r.receiver] == Entry(p, OfHandshake)
    ensures var s' := Next(Next(s, StepLookup(w, r)), StepCheck(w));
      Inv(s') && s'.clock == s.clock + 2 && s'.peers == s.peers && w in s'.works && s'.works[w] == Checked(p, r.sender, s.peers[p].hs.session)
  {
    hide Inv;
    InvNext(s, StepLookup(w, r));
    InvNext(Next(s, StepLookup(w, r)), StepCheck(w));
  }

  lemma Stored(s: State, p: nat, w: nat, r: Response)
    requires Inv(s) && p in s.peers && Awaits(s.peers[p].hs, r) && w in s.works && s.works[w] == Checked(p, r.sender, s.peers[p].hs.session)
    ensures var s', hs := Next(s, StepStore(w)), s.peers[p].hs;
      && Inv(s') && s'.clock == s.clock + 1 && p in s'.peers && SlotsOf(s'.peers[p]) == SlotsOf(s.peers[p])
      && s'.peers[p].hs == Handshake(ResponseConsumed, hs.localIndex, r.sender, hs.session)
  {
    hide Inv;
    StillAwaited(s, w);
    InvNext(s, StepStore(w));
  }

  lemma Begun(s: State, p: nat)
    requires p in s.peers && s.peers[p].hs.state in {ResponseConsumed, ResponseCreated}
    ensures var s', hs := Next(s, StepBegin(p)), s.peers[p].hs;
      var k := Keypair(hs.localIndex, hs.remoteIndex, hs.state == ResponseConsumed, hs.session, s.clock);
      && p in s'.peers && s'.clock == s.clock + 1 && k in s'.filters && s'.filters[k] == Replay.NOTHING
      && SlotsOf(s'.peers[p]) == After(SlotsOf(s.peers[p]), Derived(k)) && s'.peers[p].hs == hs.(state := Zeroed, localIndex := 0)
  {
    hide DeleteKeypair, SwapIndex, NextWorks;
  }

  /** A responder that answers an initiation has a key pair waiting, with the two indices, and goes on with its current one. */
  lemma ResponderCompletes(s: State, p: nat, sender: nat, idx: nat)
    requires Inv(s) && p in s.peers && Free(View(s.peers[p], s.table), idx)
    ensures var s2 := Next(Next(s, StepConsumeInitiation(p, sender)), StepCreateResponse(p, Drawn(idx), Keys));
      var s3, k := Next(s2, StepBegin(p)), Keypair(idx, sender, false, Session(p, s.clock + 1), s.clock + 2);
      && Inv(s3) && p in s3.peers && SlotsOf(s3.peers[p]) == Slots(None, s.peers[p].current, Some(k))
      && idx in s3.table && s3.table[idx] == Entry(p, OfKeypair(k))
      && k in s3.filters && s3.filters[k] == Replay.NOTHING
  {
    hide Inv, Next, Free;
    Responded(s, p, sender, idx);
    var s2 := Next(Next(s, StepConsumeInitiation(p, sender)), StepCreateResponse(p, Drawn(idx), Keys));
    InvNext(s2, StepBegin(p));
    Begun(s2, p);
    FoundIff(Next(s2, StepBegin(p)), p, Keypair(idx, sender, false, Session(p, s.clock + 1), s.clock + 2));
  }

  lemma Responded(s: State, p: nat, sender: nat, idx: nat)
    requires Inv(s) && p in s.peers && Free(View(s.peers[p], s.table), idx)
    ensures var s2 := Next(Next(s, StepConsumeInitiation(p, sender)), StepCreateResponse(p, Drawn(idx), Keys));
      && Inv(s2) && s2.clock == s.clock + 2 && p in s2.peers && SlotsOf(s2.peers[p]) == SlotsOf(s.peers[p])
      && s2.peers[p].hs == Handshake(ResponseCreated, idx, sender, Session(p, s.clock + 1))
  {
    hide Inv;
    var s1 := Next(s, StepConsumeInitiation(p, sender));
    InvNext(s, StepConsumeInitiation(p, sender));
    InvNext(s1, StepCreateResponse(p, Drawn(idx), Keys));
  }

  /** The first authentic packet under a waiting key pair makes it current, and the one before it is kept. */
  lemma Confirmation(s: State, p: nat, k: Keypair, counter: nat)
    requires p in s.peers && s.peers[p].next == Some(k) && k in s.filters && s.filters[k] == Replay.NOTHING && counter < Nonce.REJECT_AFTER_MESSAGES
    ensures var s' := Next(s, StepReceive(p, k, true, counter));
      p in s'.peers && SlotsOf(s'.peers[p]) == Slots(s.peers[p].current, Some(k), None)
  {
    SlotsNext(s, StepReceive(p, k, true, counter), p);
    hide Next;
  }

  /** The state that a step puts the handshake of `p` in, if it does. */
  function Entered(s: State, step: Step, p: nat): Option<HsState>
    requires p in s.peers
  {
    var state := s.peers[p].hs.state;
    if step.StepCreateInitiation? && step.p == p && step.made == Keys && step.draw.Drawn? then Some(InitiationCreated)
    else if step.StepConsumeInitiation? && step.p == p then Some(InitiationConsumed)
    else if step.StepCreateResponse? && step.p == p && step.made == Keys && step.draw.Drawn? && state == InitiationConsumed then Some(ResponseCreated)
    else if step.StepStore? && step.worker in s.works && s.works[step.worker].Checked? && s.works[step.worker].p == p then Some(ResponseConsumed)
    else if step == StepExpire(p) || (step == StepBegin(p) && state in {ResponseConsumed, ResponseCreated}) then Some(Zeroed)
    else None
  }

  /** Only these steps change the state of a handshake. */
  lemma StateIs(s: State, step: Step, p: nat)
    requires p in s.peers
    ensures p in Next(s, step).peers
    ensures Next(s, step).peers[p].hs.state == if Entered(s, step, p).Some? then Entered(s, step, p).value else s.peers[p].hs.state
  {
    hide DeleteKeypair, SwapIndex, NextWorks, NextFilters, Accepts;
  }

  // ---------------------------------------------------------------- what is behind a responder's key pair

  /** In which state a handshake is after a step, and why. */
  lemma StateNext(s: State, step: Step, p: nat)
    requires p in s.peers
    ensures var h, h' := s.peers[p].hs, Next(s, step).peers[p].hs;
      && (h'.state == InitiationConsumed ==> (h.state == InitiationConsumed && h'.remoteIndex == h.remoteIndex) || step == StepConsumeInitiation(p, h'.remoteIndex))
      && (h'.state == ResponseCreated ==>
          || (h.state == ResponseCreated && h'.localIndex == h.localIndex && h'.remoteIndex == h.remoteIndex)
          || (h.state == InitiationConsumed && step == StepCreateResponse(p, Drawn(h'.localIndex), Keys) && h'.remoteIndex == h.remoteIndex))
  {
    hide DeleteKeypair, SwapIndex, NextWorks, NextFilters, Accepts;
  }

  /** Peer `p` has consumed an initiation from index `remote`. */
  ghost predicate Consumed(steps: seq<Step>, p: nat, remote: nat) {
    exists i :: 0 <= i < |steps| && steps[i] == StepConsumeInitiation(p, remote)
  }

  /** And has answered it later, under index `local`. */
  ghost predicate Answered(steps: seq<Step>, p: nat, local: nat, remote: nat) {
    exists j :: 0 <= j < |steps| && steps[j] == StepCreateResponse(p, Drawn(local), Keys) && Consumed(steps[..j], p, remote)
  }

  lemma ConsumedMore(steps: seq<Step>, step: Step, p: nat, remote: nat)
    requires Consumed(steps, p, remote) || step == StepConsumeInitiation(p, remote)
    ensures Consumed(steps + [step], p, remote)
  {
    var all := steps + [step];
    if i :| 0 <= i < |steps| && steps[i] == StepConsumeInitiation(p, remote) {
      assert all[i] == steps[i];
    } else {
      assert all[|steps|] == step;
    }
  }

  lemma AnsweredMore(steps: seq<Step>, step: Step, p: nat, local: nat, remote: nat)
    requires Answered(steps, p, local, remote) || (Consumed(steps, p, remote) && step == StepCreateResponse(p, Drawn(local), Keys))
    ensures Answered(steps + [step], p, local, remote)
  {
    hide Consumed;
    var all := steps + [step];
    if j :| 0 <= j < |steps| && steps[j] == StepCreateResponse(p, Drawn(local), Keys) && Consumed(steps[..j], p, remote) {
      assert all[j] == steps[j] && all[..j] == steps[..j];
    } else {
      assert all[|steps|] == step && all[..|steps|] == steps;
    }
  }

  lemma {:induction false} StateBehind(steps: seq<Step>, p: nat)
    requires p in Run(START, steps).peers
    ensures var hs := Run(START, steps).peers[p].hs;
      && (hs.state == InitiationConsumed ==> Consumed(steps, p, hs.remoteIndex))
      && (hs.state == ResponseCreated ==> Answered(steps, p, hs.localIndex, hs.remoteIndex))
  {
    hide Next, Consumed, Answered;
    if steps != [] {
      var n := |steps| - 1;
      var s, step, hs := Run(START, steps[..n]), steps[n], Run(START, steps).peers[p].hs;
      assert steps == steps[..n] + [step];
      if p in s.peers {
        StateBehind(steps[..n], p);
        StateNext(s, step, p);
        if hs.state == InitiationConsumed {
          ConsumedMore(steps[..n], step, p, hs.remoteIndex);
        } else if hs.state == ResponseCreated {
          AnsweredMore(steps[..n], step, p, hs.localIndex, hs.remoteIndex);
        }
      } else {
        NewPeer(s, step, p);
      }
    }
  }

  lemma NewPeer(s: State, step: Step, p: nat)
    requires p !in s.peers && p in Next(s, step).peers
    ensures Next(s, step).peers[p] == EmptyPeer(p)
  {
    hide NextWorks, NextFilters;
  }

  /** In every run, behind every responder's key pair there are an initiation from its remote index, the response under its local one, and the step that began the session. */
  lemma {:induction false} ResponderHistory(steps: seq<Step>, p: nat, k: Keypair)
    requires p in Run(START, steps).peers && PlaceOf(Run(START, steps).peers[p], k).Some? && !k.isInitiator
    ensures exists l :: 0 <= l < |steps| && steps[l] == StepBegin(p) && Run(START, steps[..l]).clock == k.born && Answered(steps[..l], p, k.localIndex, k.remoteIndex)
  {
    hide Next, Answered, PlaceOf;
    if steps != [] {
      var n := |steps| - 1;
      var s, step := Run(START, steps[..n]), steps[n];
      if p !in s.peers {
        NewPeer(s, step, p);
        NoPlace(p, k);
      } else if PlaceOf(s.peers[p], k).Some? {
        ResponderHistory(steps[..n], p, k);
        var l :| 0 <= l < n && steps[..n][l] == StepBegin(p) && Run(START, steps[..n][..l]).clock == k.born && Answered(steps[..n][..l], p, k.localIndex, k.remoteIndex);
        assert steps[..n][..l] == steps[..l];
      } else {
        PlacedBy(s, step, p, k);
        StateBehind(steps[..n], p);
      }
    } else {
      assert false;
    }
  }

  lemma NoPlace(p: nat, k: Keypair)
    ensures PlaceOf(EmptyPeer(p), k).None?
  {
  }

  lemma PlacedBy(s: State, step: Step, p: nat, k: Keypair)
    requires p in s.peers && PlaceOf(s.peers[p], k).None? && PlaceOf(Next(s, step).peers[p], k).Some? && !k.isInitiator
    ensures step == StepBegin(p) && s.clock == k.born && s.peers[p].hs.state == ResponseCreated
    ensures s.peers[p].hs.localIndex == k.localIndex && s.peers[p].hs.remoteIndex == k.remoteIndex
  {
    hide Next, Accepts;
    SlotsNext(s, step, p);
  }
}
