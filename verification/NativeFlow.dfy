/**
 Native mode: Y reports where it can be reached, X tries to reach it and tells Y whether a handshake took place.
 One X, any number of control connections, one device of X shared by all of them.
 */
module NativeFlow {
  import opened Basics

  const SECOND: int := 1_000_000_000

  /** The beginning of the second of a time in nanoseconds. */
  function Floor(t: int): int {
    t - t % SECOND
  }

  /** It is the last whole second that is not later. */
  lemma FloorIs(t: int, second: int)
    ensures Floor(t) <= t < Floor(t) + 1_000_000_000
    ensures second * 1_000_000_000 <= t ==> second * 1_000_000_000 <= Floor(t)
  {
    assert Floor(t) == t / SECOND * SECOND;
  }

  // ---------------------------------------------------------------- one attempt

  /** Peers of the shared device, with the time of their last handshake if there has been one. */
  type Peers = map<nat, Option<int>>

  datatype Outcome = Success | StalePeerStays | NotAdded | TimedOut(cleaned: bool)

  /** What one round of polling sees: the clock, and the handshake time if the peer is there. */
  datatype Poll = Poll(now: int, seen: Option<int>)

  /** The first round that is too late. */
  function Late(polls: seq<Poll>, deadline: int): (n: nat)
    ensures n <= |polls|
    ensures forall i :: 0 <= i < n ==> polls[i].now < deadline
    ensures n < |polls| ==> polls[n].now >= deadline
  {
    if polls == [] || polls[0].now >= deadline then 0 else 1 + Late(polls[1..], deadline)
  }

  /** A handshake that counts: not before the second in which the attempt began. */
  predicate Counts(p: Poll, start: int) {
    p.seen.Some? && p.seen.value >= Floor(start)
  }

  class SharedDevice {
    var peers: set<nat>

    /** `ok` is whether the device could do it. */
    method RemovePeer(pk: nat, ok: bool)
      modifies this
      ensures peers == if ok then old(peers) - {pk} else old(peers)
    {
      if ok {
        peers := peers - {pk};
      }
    }

    /** What fails may have been done in part. */
    method AddPeer(pk: nat, ok: bool, partly: bool)
      modifies this
      ensures peers == if ok || partly then old(peers) + {pk} else old(peers)
    {
      if ok || partly {
        peers := peers + {pk};
      }
    }

    /**
     Succeeds exactly if the peer could be set up and some round in time saw a handshake that counts; a timed-out
     attempt that could clean up leaves no peer; other peers are never touched.
     */
    method AttemptOnX(pk: nat, start: int, timeout: int, polls: seq<Poll>, staleRemoved: bool, added: bool, partly: bool, cleaned: bool)
        returns (r: Outcome)
      modifies this
      ensures r.Success? <==> staleRemoved && added && exists i :: 0 <= i < Late(polls, start + timeout) && Counts(polls[i], start)
      ensures r.StalePeerStays? <==> !staleRemoved
      ensures r.NotAdded? <==> staleRemoved && !added
      ensures r.TimedOut? ==> r.cleaned == cleaned
      ensures r.Success? || r == TimedOut(false) ==> pk in peers
      ensures r == TimedOut(true) ==> pk !in peers
      ensures r.NotAdded? ==> (pk in peers <==> partly)
      ensures peers - {pk} == old(peers) - {pk}
    {
      RemovePeer(pk, staleRemoved);
      if !staleRemoved {
        return StalePeerStays;
      }
      AddPeer(pk, added, partly);
      if !added {
        return NotAdded;
      }
      var deadline := start + timeout;
      var i := 0;
      while i < |polls| && polls[i].now < deadline
        invariant i <= Late(polls, deadline)
        invariant forall j :: 0 <= j < i ==> !Counts(polls[j], start)
      {
        if Counts(polls[i], start) {
          return Success;
        }
        i := i + 1;
      }
      RemovePeer(pk, cleaned);
      return TimedOut(cleaned);
    }
  }

  // ---------------------------------------------------------------- the protocol

  datatype ToX = Report(sid: nat) | ChooseCloaked

  datatype ToY = Ready(sid: nat) | Failed(sid: nat) | Params

  /** X works on one message of a connection at a time. */
  datatype XState = XIdle | XRemoving(sid: nat) | XAdding(sid: nat, start: int) | XPolling(sid: nat, start: int)

  /**
   A connection in the background confirms reachability first and reports a second time for the real device.  In cloaked mode
   Y waits for parameters and is configured with them.
   */
  datatype YState =
    | YReady
    | YWaiting(sid: nat, background: bool)
    | YHandoff(sid: nat)
    | YNative(sid: nat)
    | YCloaked
    | YConfigured
    | YGone

  datatype Conn = Conn(pk: nat, open: bool, toX: seq<ToX>, toY: seq<ToY>, x: XState, y: YState)

  /** How X knows that an attempt succeeded. */
  datatype Evidence = Evidence(conn: nat, pk: nat, start: int, seen: int)

  /**
   Besides the connections and the device, the history: which connection a session id belongs to, what succeeded, what
   failed, and which peers have been left on the device on purpose or for want of a way to remove them.
   */
  datatype State = State(
    conns: map<nat, Conn>, dev: Peers, clock: int, owner: map<nat, nat>, succ: map<nat, Evidence>, failed: set<nat>, left: set<nat>)

  datatype Step =
    | Tick(d: nat)
    | Handshake(pk: nat, seen: int)
    | Connect(c: nat, pk: nat)
    | SendReport(c: nat, sid: nat, background: bool)
    | SendChoice(c: nat)
    | XTake(c: nat)
    | XRemove(c: nat, ok: bool)
    | XAdd(c: nat, ok: bool, partly: bool)
    | XPoll(c: nat)
    | XGiveUp(c: nat, ok: bool)
    | YTake(c: nat, sid2: nat)
    | YTimeout(c: nat)
    | Drop(c: nat)

  const START := State(map[], map[], 0, map[], map[], {}, {})

  predicate Enabled(s: State, step: Step, timeout: int) {
    match step
    case Tick(_) => true
    case Handshake(pk, seen) => pk in s.dev && Floor(s.clock) <= seen <= s.clock
    case Connect(c, _) => c !in s.conns
    case SendReport(c, sid, _) => c in s.conns && s.conns[c].open && s.conns[c].y == YReady && sid !in s.owner
    case SendChoice(c) => c in s.conns && s.conns[c].open && s.conns[c].y == YReady
    case XTake(c) => c in s.conns && s.conns[c].open && s.conns[c].x == XIdle && s.conns[c].toX != []
    case XRemove(c, _) => c in s.conns && s.conns[c].x.XRemoving?
    case XAdd(c, _, _) => c in s.conns && s.conns[c].x.XAdding?
    case XPoll(c) => c in s.conns && s.conns[c].x.XPolling? && s.clock < s.conns[c].x.start + timeout
    case XGiveUp(c, _) => c in s.conns && s.conns[c].x.XPolling? && s.clock >= s.conns[c].x.start + timeout
    case YTake(c, sid2) => c in s.conns && s.conns[c].open && s.conns[c].toY != [] && sid2 !in s.owner
    case YTimeout(c) => c in s.conns && (s.conns[c].y.YWaiting? || s.conns[c].y.YHandoff?)
    case Drop(c) => c in s.conns
  }

  /** What X sends; nothing arrives on a connection that is gone. */
  function Answer(conn: Conn, msgs: seq<ToY>): Conn {
    conn.(x := XIdle, toY := if conn.open then conn.toY + msgs else conn.toY)
  }

  /** Y reads a message; what does not concern it is skipped. */
  function YRead(conn: Conn, m: ToY, sid2: nat): Conn {
    match conn.y
    case YWaiting(sid, background) =>
      if m == Ready(sid) then
        if background then conn.(y := YHandoff(sid2), toX := conn.toX + [Report(sid2)]) else conn.(y := YNative(sid))
      else if m == Failed(sid) then conn.(y := if background then YGone else YCloaked)
      else conn
    case YHandoff(sid) =>
      if m == Ready(sid) then conn.(y := YNative(sid)) else if m == Failed(sid) then conn.(y := YGone) else conn
    case YCloaked => if m == Params then conn.(y := YConfigured) else conn
    case _ => conn
  }

  /** The handshake time that X sees, if it counts for the attempt it is waiting for. */
  predicate Reached(s: State, conn: Conn)
    requires conn.x.XPolling?
  {
    conn.pk in s.dev && s.dev[conn.pk].Some? && s.dev[conn.pk].value >= Floor(conn.x.start)
  }

  /** The connection a step is about, if any. */
  function About(step: Step): Option<nat> {
    if step.Tick? || step.Handshake? then None else Some(step.c)
  }

  function NextConn(s: State, step: Step, timeout: int): Conn
    requires Enabled(s, step, timeout) && About(step).Some?
  {
    match step
    case Connect(_, pk) => Conn(pk, true, [], [], XIdle, YReady)
    case SendReport(c, sid, background) => s.conns[c].(y := YWaiting(sid, background), toX := s.conns[c].toX + [Report(sid)])
    case SendChoice(c) => s.conns[c].(y := YCloaked, toX := s.conns[c].toX + [ChooseCloaked])
    case XTake(c) =>
      var conn, m := s.conns[c].(toX := s.conns[c].toX[1..]), s.conns[c].toX[0];
      if m.Report? then conn.(x := XRemoving(m.sid)) else Answer(conn, [Params])
    case XRemove(c, ok) =>
      var conn := s.conns[c];
      if ok then conn.(x := XAdding(conn.x.sid, s.clock)) else Answer(conn, [Failed(conn.x.sid), Params])
    case XAdd(c, ok, _) =>
      var conn := s.conns[c];
      if ok then conn.(x := XPolling(conn.x.sid, conn.x.start)) else Answer(conn, [Failed(conn.x.sid), Params])
    case XPoll(c) => if Reached(s, s.conns[c]) then Answer(s.conns[c], [Ready(s.conns[c].x.sid)]) else s.conns[c]
    case XGiveUp(c, _) => Answer(s.conns[c], [Failed(s.conns[c].x.sid), Params])
    case YTake(c, sid2) => YRead(s.conns[c].(toY := s.conns[c].toY[1..]), s.conns[c].toY[0], sid2)
    case YTimeout(c) => s.conns[c].(y := YGone)
    case Drop(c) =>
      var y := s.conns[c].y;
      s.conns[c].(open := false, toX := [], toY := [], y := if y.YNative? || y.YConfigured? then y else YGone)
  }

  function NextDev(s: State, step: Step, timeout: int): Peers
    requires Enabled(s, step, timeout)
  {
    match step
    case Handshake(pk, seen) => s.dev[pk := Some(seen)]
    case XRemove(c, ok) => if ok then s.dev - {s.conns[c].pk} else s.dev
    case XAdd(c, ok, partly) =>
      var pk := s.conns[c].pk;
      if ok || partly then s.dev[pk := if pk in s.dev then s.dev[pk] else None] else s.dev
    case XGiveUp(c, ok) => if ok then s.dev - {s.conns[c].pk} else s.dev
    case _ => s.dev
  }

  /** Session ids are drawn afresh. */
  function NextOwner(s: State, step: Step, timeout: int): map<nat, nat>
    requires Enabled(s, step, timeout)
  {
    match step
    case SendReport(c, sid, _) => s.owner[sid := c]
    case YTake(c, sid2) => if NextConn(s, step, timeout).y.YHandoff? && !s.conns[c].y.YHandoff? then s.owner[sid2 := c] else s.owner
    case _ => s.owner
  }

  function NextSucc(s: State, step: Step, timeout: int): map<nat, Evidence>
    requires Enabled(s, step, timeout)
  {
    if step.XPoll? && Reached(s, s.conns[step.c]) then
      var conn := s.conns[step.c];
      s.succ[conn.x.sid := Evidence(step.c, conn.pk, conn.x.start, s.dev[conn.pk].value)]
    else s.succ
  }

  /** X gives up on the attempt for `sid` and says so. */
  predicate GivesUp(s: State, step: Step, timeout: int, sid: nat) {
    && Enabled(s, step, timeout)
    && ((step.XRemove? && !step.ok) || (step.XAdd? && !step.ok) || step.XGiveUp?) && s.conns[step.c].x.sid == sid
  }

  function NextFailed(s: State, step: Step, timeout: int): set<nat>
    requires Enabled(s, step, timeout)
  {
    if (step.XRemove? && !step.ok) || (step.XAdd? && !step.ok) || step.XGiveUp? then s.failed + {s.conns[step.c].x.sid} else s.failed
  }

  function NextLeft(s: State, step: Step, timeout: int): set<nat>
    requires Enabled(s, step, timeout)
  {
    match step
    case XRemove(c, ok) => if ok then s.left - {s.conns[c].pk} else s.left
    case XAdd(c, ok, partly) => if !ok && partly then s.left + {s.conns[c].pk} else s.left
    case XPoll(c) => if Reached(s, s.conns[c]) then s.left + {s.conns[c].pk} else s.left
    case XGiveUp(c, ok) => if ok then s.left - {s.conns[c].pk} else s.left + {s.conns[c].pk}
    case _ => s.left
  }

  function Next(s: State, step: Step, timeout: int): State {
    if !Enabled(s, step, timeout) then s
    else
      State(if About(step).Some? then s.conns[About(step).value := NextConn(s, step, timeout)] else s.conns,
            NextDev(s, step, timeout), if step.Tick? then s.clock + step.d else s.clock,
            NextOwner(s, step, timeout), NextSucc(s, step, timeout), NextFailed(s, step, timeout), NextLeft(s, step, timeout))
  }

  function Run(steps: seq<Step>, timeout: int): State {
    if steps == [] then START else Next(Run(steps[..|steps| - 1], timeout), steps[|steps| - 1], timeout)
  }

  // ---------------------------------------------------------------- Y is told the truth

  /** X's attempt for `sid` on connection `c` saw a handshake of that peer, not before the second in which the attempt began. */
  predicate Succeeded(s: State, c: nat, sid: nat) {
    && c in s.conns && sid in s.succ && s.succ[sid].conn == c && s.succ[sid].pk == s.conns[c].pk
    && s.succ[sid].seen >= Floor(s.succ[sid].start)
  }

  /** A session id that a connection mentions is its own. */
  ghost predicate Owns(s: State, c: nat, conn: Conn) {
    && (forall i :: 0 <= i < |conn.toX| && conn.toX[i].Report? ==> conn.toX[i].sid in s.owner && s.owner[conn.toX[i].sid] == c)
    && (!conn.x.XIdle? ==> conn.x.sid in s.owner && s.owner[conn.x.sid] == c)
  }

  ghost predicate Truthful(s: State, c: nat, conn: Conn) {
    && (forall i :: 0 <= i < |conn.toY| && conn.toY[i].Ready? ==> Succeeded(s, c, conn.toY[i].sid))
    && (conn.y.YNative? ==> Succeeded(s, c, conn.y.sid))
  }

  /** Successes belong to the connections of their session ids. */
  ghost predicate OwnSuccess(s: State) {
    forall sid :: sid in s.succ ==> sid in s.owner && s.owner[sid] == s.succ[sid].conn
  }

  ghost predicate Honest(s: State) {
    OwnSuccess(s) && forall c :: c in s.conns ==> Owns(s, c, s.conns[c]) && Truthful(s, c, s.conns[c])
  }

  lemma OwnerKept(s: State, step: Step, timeout: int)
    requires Enabled(s, step, timeout)
    ensures forall sid :: sid in s.owner ==> sid in NextOwner(s, step, timeout) && NextOwner(s, step, timeout)[sid] == s.owner[sid]
  {
    hide NextConn;
  }

  lemma PkKept(s: State, step: Step, timeout: int, c: nat)
    requires Enabled(s, step, timeout) && About(step) == Some(c) && c in s.conns
    ensures NextConn(s, step, timeout).pk == s.conns[c].pk
  {
  }

  /** What has succeeded stays so, and belongs to the owner of the session id. */
  lemma SuccKept(s: State, step: Step, timeout: int)
    requires Honest(s) && Enabled(s, step, timeout)
    ensures var s' := Next(s, step, timeout);
            (forall c, sid :: Succeeded(s, c, sid) ==> Succeeded(s', c, sid)) && OwnSuccess(s')
  {
    hide NextConn, NextDev, NextOwner, NextFailed, NextLeft, Truthful, Floor;
    OwnerKept(s, step, timeout);
    var s' := Next(s, step, timeout);
    if About(step).Some? && About(step).value in s.conns {
      assert Owns(s, About(step).value, s.conns[About(step).value]);
    }
    assert OwnSuccess(s');
    forall c, sid | Succeeded(s, c, sid) ensures Succeeded(s', c, sid) {
      SuccessKept(s, step, timeout, c, sid);
    }
  }

  lemma SuccessKept(s: State, step: Step, timeout: int, c: nat, sid: nat)
    requires Honest(s) && Enabled(s, step, timeout) && Succeeded(s, c, sid)
    ensures Succeeded(Next(s, step, timeout), c, sid)
  {
    if About(step) == Some(c) {
      PkKept(s, step, timeout, c);
    }
    if About(step).Some? && About(step).value in s.conns {
      assert Owns(s, About(step).value, s.conns[About(step).value]);
    }
    hide NextConn, NextDev, NextOwner, NextFailed, NextLeft, Truthful, Floor;
  }

  lemma OwnsNext(s: State, step: Step, timeout: int, c: nat)
    requires Enabled(s, step, timeout) && About(step) == Some(c) && (c in s.conns ==> Owns(s, c, s.conns[c]))
    ensures Owns(Next(s, step, timeout), c, NextConn(s, step, timeout))
  {
    OwnerKept(s, step, timeout);
    hide NextDev, NextSucc, NextFailed, NextLeft, Floor;
  }

  /** What Y is told is true, and what it concludes from it too. */
  lemma TruthfulNext(s: State, step: Step, timeout: int, c: nat)
    requires Enabled(s, step, timeout) && About(step) == Some(c) && (c in s.conns ==> Truthful(s, c, s.conns[c]))
    requires var s' := Next(s, step, timeout); forall sid :: Succeeded(s, c, sid) ==> Succeeded(s', c, sid)
    ensures Truthful(Next(s, step, timeout), c, NextConn(s, step, timeout))
  {
    var s' := Next(s, step, timeout);
    if step.XPoll? && Reached(s, s.conns[c]) {
      assert Succeeded(s', c, s.conns[c].x.sid);
    }
    hide NextDev, NextOwner, NextSucc, NextFailed, NextLeft, Succeeded, Reached;
  }

  lemma HonestNext(s: State, step: Step, timeout: int)
    requires Honest(s)
    ensures Honest(Next(s, step, timeout))
  {
    hide NextConn, NextDev, NextOwner, NextSucc, NextFailed, NextLeft, Owns, Truthful, Succeeded;
    if Enabled(s, step, timeout) {
      var s' := Next(s, step, timeout);
      SuccKept(s, step, timeout);
      OwnerKept(s, step, timeout);
      if About(step).Some? {
        OwnsNext(s, step, timeout, About(step).value);
        TruthfulNext(s, step, timeout, About(step).value);
      }
      forall q | q in s.conns && About(step) != Some(q) ensures Owns(s', q, s.conns[q]) && Truthful(s', q, s.conns[q]) {
        StillHonest(s, s', q, s.conns[q]);
      }
    }
  }

  lemma StillHonest(s: State, s': State, q: nat, conn: Conn)
    requires Owns(s, q, conn) && Truthful(s, q, conn)
    requires forall sid :: sid in s.owner ==> sid in s'.owner && s'.owner[sid] == s.owner[sid]
    requires forall c, sid :: Succeeded(s, c, sid) ==> Succeeded(s', c, sid)
    ensures Owns(s', q, conn) && Truthful(s', q, conn)
  {
    hide Succeeded;
  }

  lemma {:induction false} RunHonest(steps: seq<Step>, timeout: int)
    ensures Honest(Run(steps, timeout))
  {
    if steps != [] {
      RunHonest(steps[..|steps| - 1], timeout);
      HonestNext(Run(steps[..|steps| - 1], timeout), steps[|steps| - 1], timeout);
    }
  }

  /** In every run, Y is in native mode only if X's attempt for its session id, on its connection and for its key, succeeded. */
  lemma NativeOnlyIfReached(steps: seq<Step>, timeout: int, c: nat)
    requires c in Run(steps, timeout).conns && Run(steps, timeout).conns[c].y.YNative?
    ensures Succeeded(Run(steps, timeout), c, Run(steps, timeout).conns[c].y.sid)
  {
    RunHonest(steps, timeout);
    assert Truthful(Run(steps, timeout), c, Run(steps, timeout).conns[c]);
  }

  /** Step `i` of a run is the poll in which X saw the handshake. */
  ghost predicate Saw(steps: seq<Step>, timeout: int, i: nat, sid: nat, e: Evidence)
    requires i < |steps|
  {
    var s := Run(steps[..i], timeout);
    && steps[i] == XPoll(e.conn) && Enabled(s, steps[i], timeout)
    && s.conns[e.conn].x == XPolling(sid, e.start) && s.conns[e.conn].pk == e.pk
    && e.pk in s.dev && s.dev[e.pk] == Some(e.seen) && s.clock < e.start + timeout
  }

  lemma {:induction false} SuccessWasSeen(steps: seq<Step>, timeout: int, sid: nat)
    requires sid in Run(steps, timeout).succ
    ensures exists i :: 0 <= i < |steps| && Saw(steps, timeout, i, sid, Run(steps, timeout).succ[sid])
  {
    var n := |steps| - 1;
    var before, e := steps[..n], Run(steps, timeout).succ[sid];
    var s := Run(before, timeout);
    if sid in s.succ && s.succ[sid] == e {
      SuccessWasSeen(before, timeout, sid);
      var i :| 0 <= i < n && Saw(before, timeout, i, sid, e);
      assert before[..i] == steps[..i];
      assert Saw(steps, timeout, i, sid, e);
    } else {
      assert Saw(steps, timeout, n, sid, e);
    }
  }

  /** Step `i` of a run is the handshake of `pk` at that time. */
  ghost predicate Shook(steps: seq<Step>, timeout: int, i: nat, pk: nat, seen: int)
    requires i < |steps|
  {
    var s := Run(steps[..i], timeout);
    steps[i] == Handshake(pk, seen) && Enabled(s, steps[i], timeout)
  }

  lemma {:induction false} HandshakeBehind(steps: seq<Step>, timeout: int, pk: nat)
    requires pk in Run(steps, timeout).dev && Run(steps, timeout).dev[pk].Some?
    ensures exists i :: 0 <= i < |steps| && Shook(steps, timeout, i, pk, Run(steps, timeout).dev[pk].value)
  {
    hide NextConn, NextOwner, NextSucc, NextFailed, NextLeft;
    var n := |steps| - 1;
    var before, s, v := steps[..n], Run(steps[..n], timeout), Run(steps, timeout).dev[pk].value;
    if pk in s.dev && s.dev[pk] == Some(v) {
      HandshakeBehind(before, timeout, pk);
      var i :| 0 <= i < n && Shook(before, timeout, i, pk, v);
      assert before[..i] == steps[..i];
      assert Shook(steps, timeout, i, pk, v);
    } else {
      assert Shook(steps, timeout, n, pk, v);
    }
  }

  /** Behind every success there is, before the poll that saw it, the handshake itself, not before the second in which the attempt began. */
  lemma SuccessWasShaken(steps: seq<Step>, timeout: int, sid: nat)
    requires sid in Run(steps, timeout).succ
    ensures var e := Run(steps, timeout).succ[sid];
      exists i, j :: 0 <= i < j < |steps| && Shook(steps, timeout, i, e.pk, e.seen) && Saw(steps, timeout, j, sid, e) &&
                     Run(steps[..i], timeout).clock >= e.seen >= Floor(e.start)
  {
    var e := Run(steps, timeout).succ[sid];
    SuccessWasSeen(steps, timeout, sid);
    var j :| 0 <= j < |steps| && Saw(steps, timeout, j, sid, e);
    HandshakeBehind(steps[..j], timeout, e.pk);
    var i :| 0 <= i < j && Shook(steps[..j], timeout, i, e.pk, e.seen);
    assert steps[..j][..i] == steps[..i];
    assert Shook(steps, timeout, i, e.pk, e.seen);
    EvidenceCounts(steps, timeout, sid);
  }

  lemma {:induction false} EvidenceCounts(steps: seq<Step>, timeout: int, sid: nat)
    requires sid in Run(steps, timeout).succ
    ensures var e := Run(steps, timeout).succ[sid]; e.seen >= Floor(e.start)
  {
    hide NextConn, NextDev, NextOwner, NextFailed, NextLeft, Floor;
    var before := steps[..|steps| - 1];
    if sid in Run(before, timeout).succ {
      EvidenceCounts(before, timeout, sid);
    }
  }

  // ---------------------------------------------------------------- an attempt as steps

  /** A step that is not one of X on connection `c`. */
  predicate Elsewhere(step: Step, c: nat) {
    !(step.XTake? || step.XRemove? || step.XAdd? || step.XPoll? || step.XGiveUp? || step.Connect?) || step.c != c
  }

  function RunFrom(s: State, steps: seq<Step>, timeout: int): State {
    if steps == [] then s else Next(RunFrom(s, steps[..|steps| - 1], timeout), steps[|steps| - 1], timeout)
  }

  /** What X sees when it polls for connection `c`. */
  function PollAt(s: State, c: nat): Poll
    requires c in s.conns
  {
    var pk := s.conns[c].pk;
    Poll(s.clock, if pk in s.dev then s.dev[pk] else None)
  }

  lemma {:induction false} ElsewhereKeeps(s: State, steps: seq<Step>, c: nat, timeout: int)
    requires c in s.conns && forall i :: 0 <= i < |steps| ==> Elsewhere(steps[i], c)
    ensures var s' := RunFrom(s, steps, timeout);
      c in s'.conns && s'.conns[c].x == s.conns[c].x && s'.conns[c].pk == s.conns[c].pk && s'.clock >= s.clock
  {
    hide NextDev, NextOwner, NextSucc, NextFailed, NextLeft;
    if steps != [] {
      ElsewhereKeeps(s, steps[..|steps| - 1], c, timeout);
      assert Elsewhere(steps[|steps| - 1], c);
    }
  }

  /** X polls for connection `c` once after each of the stretches `between`, in which others act. */
  function Polling(s: State, c: nat, between: seq<seq<Step>>, timeout: int): State {
    if between == [] then s
    else Next(RunFrom(Polling(s, c, between[..|between| - 1], timeout), between[|between| - 1], timeout), XPoll(c), timeout)
  }

  /** What it sees. */
  function PollsOf(s: State, c: nat, between: seq<seq<Step>>, timeout: int): seq<Poll> {
    if between == [] then []
    else
      var before := RunFrom(Polling(s, c, between[..|between| - 1], timeout), between[|between| - 1], timeout);
      PollsOf(s, c, between[..|between| - 1], timeout) + if c in before.conns then [PollAt(before, c)] else []
  }

  /** The polling of `AttemptOnX` and that of the state machine come to the same: X has answered exactly if a poll in time counted. */
  lemma {:induction false} PollsAgree(s: State, c: nat, between: seq<seq<Step>>, timeout: int)
    requires c in s.conns && s.conns[c].x.XPolling?
    requires forall i, j :: 0 <= i < |between| && 0 <= j < |between[i]| ==> Elsewhere(between[i][j], c)
    ensures var s', polls, x := Polling(s, c, between, timeout), PollsOf(s, c, between, timeout), s.conns[c].x;
      && c in s'.conns && s'.conns[c].pk == s.conns[c].pk && s'.clock >= s.clock && |polls| == |between|
      && (s'.conns[c].x == XIdle || s'.conns[c].x == x)
      && (s'.conns[c].x == XIdle <==> exists i :: 0 <= i < Late(polls, x.start + timeout) && Counts(polls[i], x.start))
      && (forall i :: 0 <= i < |polls| ==> polls[i].now <= s'.clock)
  {
    hide RunFrom, Next, Late, Counts, Elsewhere;
    if between != [] {
      var n, x := |between| - 1, s.conns[c].x;
      var front := between[..n];
      PollsAgree(s, c, front, timeout);
      var s1 := Polling(s, c, front, timeout);
      var s2 := RunFrom(s1, between[n], timeout);
      assert forall j :: 0 <= j < |between[n]| ==> Elsewhere(between[n][j], c);
      ElsewhereKeeps(s1, between[n], c, timeout);
      OnePoll(s2, c, x, timeout);
      LateMore(PollsOf(s, c, front, timeout), PollAt(s2, c), x.start + timeout, x.start);
    }
  }

  lemma OnePoll(s: State, c: nat, x: XState, timeout: int)
    requires c in s.conns && x.XPolling? && (s.conns[c].x == XIdle || s.conns[c].x == x)
    ensures var s' := Next(s, XPoll(c), timeout);
      && c in s'.conns && s'.conns[c].pk == s.conns[c].pk && s'.clock == s.clock
      && (s'.conns[c].x == XIdle || s'.conns[c].x == x)
      && (s'.conns[c].x == XIdle <==> s.conns[c].x == XIdle || (s.clock < x.start + timeout && Counts(PollAt(s, c), x.start)))
  {
    hide NextOwner, NextSucc, NextFailed, NextLeft, Floor;
  }

  /** One more poll, not earlier than the others. */
  lemma {:induction false} LateMore(polls: seq<Poll>, p: Poll, deadline: int, start: int)
    requires forall i :: 0 <= i < |polls| ==> polls[i].now <= p.now
    ensures var all := polls + [p];
      (exists i :: 0 <= i < Late(all, deadline) && Counts(all[i], start)) <==>
      (exists i :: 0 <= i < Late(polls, deadline) && Counts(polls[i], start)) || (p.now < deadline && Counts(p, start))
  {
    LateAppend(polls, p, deadline);
    hide Counts;
    var all := polls + [p];
    assert forall i :: 0 <= i < |polls| ==> all[i] == polls[i];
    assert all[|polls|] == p;
  }

  lemma {:induction false} LateAppend(polls: seq<Poll>, p: Poll, deadline: int)
    requires forall i :: 0 <= i < |polls| ==> polls[i].now <= p.now
    ensures Late(polls + [p], deadline) == if p.now < deadline then |polls| + 1 else Late(polls, deadline)
  {
    if polls != [] && polls[0].now < deadline {
      assert (polls + [p])[1..] == polls[1..] + [p];
      LateAppend(polls[1..], p, deadline);
    } else if polls == [] {
      assert ([] + [p])[1..] == [];
    }
  }

  // ---------------------------------------------------------------- nothing is left behind

  ghost predicate Watched(s: State, pk: nat) {
    exists c :: c in s.conns && s.conns[c].pk == pk && s.conns[c].x.XPolling?
  }

  /** A peer on the shared device is being waited for, has been reached, or could not be removed. */
  ghost predicate Accounted(s: State) {
    forall pk :: pk in s.dev ==> pk in s.left || Watched(s, pk)
  }

  lemma AccountedNext(s: State, step: Step, timeout: int)
    requires Accounted(s)
    ensures Accounted(Next(s, step, timeout))
  {
    var s' := Next(s, step, timeout);
    forall pk | pk in s'.dev ensures pk in s'.left || Watched(s', pk) {
      WatchedNext(s, step, timeout, pk);
    }
  }

  /** A peer stops being waited for only when it is removed or left on the device. */
  lemma WatchedNext(s: State, step: Step, timeout: int, pk: nat)
    requires pk in Next(s, step, timeout).dev && (pk in s.dev ==> pk in s.left || Watched(s, pk))
    ensures pk in Next(s, step, timeout).left || Watched(Next(s, step, timeout), pk)
  {
    hide NextOwner, NextSucc, NextFailed, Floor;
    var s' := Next(s, step, timeout);
    if pk in s.dev && pk !in s.left {
      var c :| c in s.conns && s.conns[c].pk == pk && s.conns[c].x.XPolling?;
      assert c in s'.conns && s'.conns[c].pk == pk;
      assert s'.conns[c].x.XPolling? || pk in s'.left || pk !in s'.dev;
    } else if step.XAdd? && Enabled(s, step, timeout) {
      assert step.c in s'.conns;
    }
  }

  lemma {:induction false} RunAccounted(steps: seq<Step>, timeout: int)
    ensures Accounted(Run(steps, timeout))
  {
    if steps != [] {
      RunAccounted(steps[..|steps| - 1], timeout);
      AccountedNext(Run(steps[..|steps| - 1], timeout), steps[|steps| - 1], timeout);
    }
  }

  /** Step `k` of a run puts `pk` on the device. */
  ghost predicate AddsAt(steps: seq<Step>, timeout: int, k: nat, pk: nat)
    requires k < |steps|
  {
    var s, step := Run(steps[..k], timeout), steps[k];
    step.XAdd? && Enabled(s, step, timeout) && s.conns[step.c].pk == pk && (step.ok || step.partly)
  }

  lemma AddedBy(s: State, step: Step, timeout: int, pk: nat)
    requires pk in Next(s, step, timeout).dev && pk !in s.dev
    ensures step.XAdd? && Enabled(s, step, timeout) && s.conns[step.c].pk == pk && (step.ok || step.partly)
  {
    hide NextConn, NextOwner, NextSucc, NextFailed, NextLeft;
  }

  /** In every run, a peer that a timed-out attempt could remove is on the device again only after a new attempt for its key. */
  lemma {:induction false} GoneUntilAdded(steps: seq<Step>, timeout: int, i: nat, c: nat, j: nat)
    requires i < j <= |steps| && steps[i] == XGiveUp(c, true) && Enabled(Run(steps[..i], timeout), steps[i], timeout)
    requires Run(steps[..i], timeout).conns[c].pk in Run(steps[..j], timeout).dev
    ensures exists k :: i < k < j && AddsAt(steps, timeout, k, Run(steps[..i], timeout).conns[c].pk)
    decreases j
  {
    var pk := Run(steps[..i], timeout).conns[c].pk;
    var s := Run(steps[..j - 1], timeout);
    assert steps[..j][..j - 1] == steps[..j - 1];
    assert Run(steps[..j], timeout) == Next(s, steps[j - 1], timeout);
    if i + 1 < j {
      if pk in s.dev {
        GoneUntilAdded(steps, timeout, i, c, j - 1);
      } else {
        AddedBy(s, steps[j - 1], timeout, pk);
        assert AddsAt(steps, timeout, j - 1, pk);
      }
    }
  }

  // ---------------------------------------------------------------- a verdict is final

  function ReportSids(q: seq<ToX>): seq<nat> {
    if q == [] then [] else (if q[0].Report? then [q[0].sid] else []) + ReportSids(q[1..])
  }

  lemma {:induction false} ReportSidsAppend(q: seq<ToX>, m: ToX)
    ensures ReportSids(q + [m]) == ReportSids(q) + if m.Report? then [m.sid] else []
  {
    if q != [] {
      assert (q + [m])[1..] == q[1..] + [m];
      ReportSidsAppend(q[1..], m);
    } else {
      assert [m][1..] == [];
    }
  }

  /** The session ids of the attempts that X has begun or has yet to begin on a connection, in order. */
  function Sids(conn: Conn): seq<nat> {
    (if conn.x.XIdle? then [] else [conn.x.sid]) + ReportSids(conn.toX)
  }

  /** What a step does to them: nothing, a new one at the end, the first one decided, or all but that one dropped. */
  lemma SidsNext(s: State, step: Step, timeout: int, c: nat)
    requires Enabled(s, step, timeout) && About(step) == Some(c) && c in s.conns
    ensures var a, b := Sids(s.conns[c]), Sids(NextConn(s, step, timeout));
      || b == a || b == [] || (|a| > 0 && b == [a[0]])
      || (exists sid :: sid !in s.owner && NextOwner(s, step, timeout) == s.owner[sid := c] && b == a + [sid])
      || (|a| > 0 && b == a[1..])
  {
    var conn, a := s.conns[c], Sids(s.conns[c]);
    assert !conn.x.XIdle? ==> a[1..] == ReportSids(conn.toX);
    match step
    case SendReport(_, sid, _) => ReportSidsAppend(conn.toX, Report(sid)); assert Sids(NextConn(s, step, timeout)) == a + [sid];
    case SendChoice(_) => ReportSidsAppend(conn.toX, ChooseCloaked); assert Sids(NextConn(s, step, timeout)) == a;
    case XTake(_) => assert Sids(NextConn(s, step, timeout)) == a;
    case YTake(_, sid2) => YTakeSids(s, step, timeout, c);
    case _ =>
  }

  lemma YTakeSids(s: State, step: Step, timeout: int, c: nat)
    requires Enabled(s, step, timeout) && step.YTake? && step.c == c
    ensures var a, b := Sids(s.conns[c]), Sids(NextConn(s, step, timeout));
      b == a || (step.sid2 !in s.owner && NextOwner(s, step, timeout) == s.owner[step.sid2 := c] && b == a + [step.sid2])
  {
    var conn := s.conns[c];
    ReportSidsAppend(conn.toX, Report(step.sid2));
    if NextConn(s, step, timeout).toX != conn.toX {
      assert Sids(NextConn(s, step, timeout)) == Sids(conn) + [step.sid2];
    }
  }

  /** A verdict is on the first session id of the connection, which is then no longer open. */
  lemma VerdictNext(s: State, step: Step, timeout: int)
    requires Enabled(s, step, timeout)
    ensures var succ, failed := NextSucc(s, step, timeout), NextFailed(s, step, timeout);
      || (succ == s.succ && failed == s.failed)
      || (About(step).Some? && About(step).value in s.conns && var a := Sids(s.conns[About(step).value]);
          && |a| > 0 && Sids(NextConn(s, step, timeout)) == a[1..]
          && ((succ.Keys == s.succ.Keys + {a[0]} && failed == s.failed) || (succ == s.succ && failed == s.failed + {a[0]})))
  {
    hide Reached, Floor;
    if About(step).Some? && About(step).value in s.conns {
      var conn := s.conns[About(step).value];
      if !conn.x.XIdle? {
        assert Sids(conn)[1..] == ReportSids(conn.toX) && Sids(conn)[0] == conn.x.sid;
      }
    }
  }

  /** The attempts of a connection are its own, different, and undecided. */
  ghost predicate Undecided(s: State, c: nat, conn: Conn) {
    NoDuplicates(Sids(conn)) && Open(s, c, Sids(conn))
  }

  ghost predicate Decided(s: State) {
    && s.succ.Keys <= s.owner.Keys && s.failed <= s.owner.Keys && s.succ.Keys !! s.failed
    && forall c :: c in s.conns ==> Undecided(s, c, s.conns[c])
  }

  /** The connection that takes the step. */
  lemma ActorUndecided(s: State, step: Step, timeout: int, c: nat)
    requires Decided(s) && Enabled(s, step, timeout) && About(step) == Some(c) && c in s.conns
    ensures Undecided(Next(s, step, timeout), c, NextConn(s, step, timeout))
  {
    var a, b, s' := Sids(s.conns[c]), Sids(NextConn(s, step, timeout)), Next(s, step, timeout);
    assert Undecided(s, c, s.conns[c]);
    SidsNext(s, step, timeout, c);
    VerdictNext(s, step, timeout);
    OwnerKept(s, step, timeout);
    hide Sids, NextConn, NextSucc, NextFailed, NextOwner, NextDev, NextLeft, Enabled, Open, NoDuplicates;
    if sid :| sid !in s.owner && s'.owner == s.owner[sid := c] && b == a + [sid] {
      OneMore(s, s', c, a, sid);
    } else {
      NoMore(s, s', c, a, b);
    }
  }

  /** All of these session ids are the connection's own and undecided. */
  ghost predicate Open(s: State, c: nat, sids: seq<nat>) {
    forall i :: 0 <= i < |sids| ==> sids[i] in s.owner && s.owner[sids[i]] == c && sids[i] !in s.succ && sids[i] !in s.failed
  }

  lemma NoMore(s: State, s': State, c: nat, a: seq<nat>, b: seq<nat>)
    requires NoDuplicates(a) && Open(s, c, a)
    requires forall sid :: sid in s.owner ==> sid in s'.owner && s'.owner[sid] == s.owner[sid]
    requires b == a || b == [] || (|a| > 0 && b == [a[0]]) || (|a| > 0 && b == a[1..])
    requires || (s'.succ == s.succ && s'.failed == s.failed)
             || (|a| > 0 && b == a[1..] && s'.succ.Keys <= s.succ.Keys + {a[0]} && s'.failed <= s.failed + {a[0]})
    ensures NoDuplicates(b) && Open(s', c, b)
  {
    assert forall sid :: sid in s'.succ ==> sid in s'.succ.Keys;
    forall i | 0 <= i < |b| ensures b[i] in s'.owner && s'.owner[b[i]] == c && b[i] !in s'.succ && b[i] !in s'.failed {
      if |a| > 0 && b == a[1..] {
        assert b[i] == a[i + 1] && a[0] != a[i + 1];
      } else {
        assert b[i] == a[i];
      }
    }
  }

  lemma OneMore(s: State, s': State, c: nat, a: seq<nat>, sid: nat)
    requires NoDuplicates(a) && Open(s, c, a) && sid !in s.owner && s'.owner == s.owner[sid := c]
    requires s'.succ == s.succ && s'.failed == s.failed && s.succ.Keys <= s.owner.Keys && s.failed <= s.owner.Keys
    ensures NoDuplicates(a + [sid]) && Open(s', c, a + [sid])
  {
  }

  lemma OtherUndecided(s: State, step: Step, timeout: int, q: nat)
    requires Decided(s) && Enabled(s, step, timeout) && About(step) != Some(q) && q in s.conns
    ensures Undecided(Next(s, step, timeout), q, s.conns[q])
  {
    assert Undecided(s, q, s.conns[q]);
    VerdictNext(s, step, timeout);
    OwnerKept(s, step, timeout);
    if About(step).Some? && About(step).value in s.conns {
      assert Undecided(s, About(step).value, s.conns[About(step).value]);
    }
    hide Sids, NextConn, NextSucc, NextFailed, NextOwner, NextDev, NextLeft, Enabled;
  }

  lemma DecidedNext(s: State, step: Step, timeout: int)
    requires Decided(s)
    ensures Decided(Next(s, step, timeout))
  {
    if Enabled(s, step, timeout) {
      var s' := Next(s, step, timeout);
      VerdictNext(s, step, timeout);
      OwnerKept(s, step, timeout);
      if About(step).Some? && About(step).value in s.conns {
        assert Undecided(s, About(step).value, s.conns[About(step).value]);
      }
      FreshConn(s, step, timeout);
      hide Sids, NextSucc, NextFailed, NextOwner, NextDev, NextLeft, NextConn, Enabled;
      forall q | q in s'.conns ensures Undecided(s', q, s'.conns[q]) {
        if About(step) != Some(q) {
          OtherUndecided(s, step, timeout, q);
        } else if q in s.conns {
          ActorUndecided(s, step, timeout, q);
        }
      }
    }
  }

  lemma FreshConn(s: State, step: Step, timeout: int)
    requires Enabled(s, step, timeout)
    ensures About(step).Some? && About(step).value !in s.conns ==> Undecided(Next(s, step, timeout), About(step).value, NextConn(s, step, timeout))
  {
  }

  lemma {:induction false} RunDecided(steps: seq<Step>, timeout: int)
    ensures Decided(Run(steps, timeout))
  {
    if steps != [] {
      RunDecided(steps[..|steps| - 1], timeout);
      DecidedNext(Run(steps[..|steps| - 1], timeout), steps[|steps| - 1], timeout);
    }
  }

  lemma {:induction false} StaysFailed(steps: seq<Step>, timeout: int, i: nat, j: nat, sid: nat)
    requires i < j <= |steps| && GivesUp(Run(steps[..i], timeout), steps[i], timeout, sid)
    ensures sid in Run(steps[..j], timeout).failed
    decreases j
  {
    assert steps[..j][..j - 1] == steps[..j - 1];
    assert Run(steps[..j], timeout) == Next(Run(steps[..j - 1], timeout), steps[j - 1], timeout);
    hide NextConn, NextDev, NextOwner, NextSucc, NextLeft;
    if i + 1 < j {
      StaysFailed(steps, timeout, i, j - 1, sid);
    }
  }

  /** In every run, once X has given up on a session id, no Y is ever in native mode under it. */
  lemma GivenUpNeverNative(steps: seq<Step>, timeout: int, i: nat, j: nat, sid: nat, d: nat)
    requires i < j <= |steps| && GivesUp(Run(steps[..i], timeout), steps[i], timeout, sid) && d in Run(steps[..j], timeout).conns
    ensures Run(steps[..j], timeout).conns[d].y != YNative(sid)
  {
    StaysFailed(steps, timeout, i, j, sid);
    RunDecided(steps[..j], timeout);
    if Run(steps[..j], timeout).conns[d].y == YNative(sid) {
      NativeOnlyIfReached(steps[..j], timeout, d);
    }
  }

  // ---------------------------------------------------------------- Y is answered

  /** Y takes message `m` of connection `c`. */
  predicate Takes(s: State, step: Step, timeout: int, c: nat, m: ToY) {
    Enabled(s, step, timeout) && step.YTake? && step.c == c && s.conns[c].toY[0] == m
  }

  /** Y waits for the verdict on `sid`, from which its state follows: native mode or not. */
  predicate Hopes(y: YState, sid: nat) {
    y == YWaiting(sid, false) || y == YHandoff(sid)
  }

  /** What becomes of Y when it takes a message: in each state afterwards exactly for these reasons. */
  lemma TakenExactly(s: State, c: nat, sid2: nat, timeout: int, sid: nat)
    requires Enabled(s, YTake(c, sid2), timeout)
    ensures var y, m, conn := s.conns[c].y, s.conns[c].toY[0], Next(s, YTake(c, sid2), timeout).conns[c];
      && (conn.y == YNative(sid) <==> y == YNative(sid) || (Hopes(y, sid) && m == Ready(sid)))
      && (conn.y == YHandoff(sid) <==>
          (y == YHandoff(sid) && m !in {Ready(sid), Failed(sid)}) || (y.YWaiting? && y.background && m == Ready(y.sid) && sid == sid2))
      && (conn.y == YCloaked <==> (y == YCloaked && m != Params) || (y.YWaiting? && !y.background && m == Failed(y.sid)))
      && (conn.y == YConfigured <==> y == YConfigured || (y == YCloaked && m == Params))
      && (conn.y == YGone <==> y == YGone || (m.Failed? && (y == YWaiting(m.sid, true) || y == YHandoff(m.sid))))
      && (conn.y == YWaiting(sid, true) <==> y == YWaiting(sid, true) && m !in {Ready(sid), Failed(sid)})
      && (conn.y == YWaiting(sid, false) <==> y == YWaiting(sid, false) && m !in {Ready(sid), Failed(sid)})
      && conn.toY == s.conns[c].toY[1..] && conn.x == s.conns[c].x && conn.open
      && conn.toX == s.conns[c].toX + if conn.y == YHandoff(sid2) && y != YHandoff(sid2) then [Report(sid2)] else []
  {
    hide NextDev, NextOwner, NextSucc, NextFailed, NextLeft;
  }

  /** States that Y never leaves. */
  predicate Settled(y: YState) {
    y.YNative? || y.YConfigured? || y.YGone?
  }

  /** What makes Y native, configured in cloaked mode, or gone. */
  predicate Enters(s: State, step: Step, timeout: int, c: nat, y: YState)
    requires Settled(y)
  {
    && c in s.conns
    && var was := s.conns[c].y;
       match y
       case YNative(sid) => Hopes(was, sid) && Takes(s, step, timeout, c, Ready(sid))
       case YConfigured => was == YCloaked && Takes(s, step, timeout, c, Params)
       case YGone =>
         || (step == YTimeout(c) && (was.YWaiting? || was.YHandoff?))
         || (step == Drop(c) && !was.YNative? && !was.YConfigured?)
         || (was.YWaiting? && was.background && Takes(s, step, timeout, c, Failed(was.sid)))
         || (was.YHandoff? && Takes(s, step, timeout, c, Failed(was.sid)))
  }

  lemma EntersNext(s: State, step: Step, timeout: int, c: nat, y: YState)
    requires c in Next(s, step, timeout).conns && Settled(y)
    ensures Next(s, step, timeout).conns[c].y == y <==> (c in s.conns && s.conns[c].y == y) || Enters(s, step, timeout, c, y)
  {
    hide NextDev, NextOwner, NextSucc, NextFailed, NextLeft;
    if Enabled(s, step, timeout) && About(step) == Some(c) && c in s.conns {
      EntersConn(s, step, timeout, c, y);
      hide NextConn, Enabled, Enters;
    }
  }

  lemma EntersConn(s: State, step: Step, timeout: int, c: nat, y: YState)
    requires Enabled(s, step, timeout) && About(step) == Some(c) && c in s.conns && Settled(y)
    ensures NextConn(s, step, timeout).y == y <==> s.conns[c].y == y || Enters(s, step, timeout, c, y)
  {
  }

  /** In every run, Y is native under `sid`, configured, or gone exactly if one of these steps has made it so, and then stays so. */
  lemma {:induction false} SettledIff(steps: seq<Step>, timeout: int, c: nat, y: YState)
    requires c in Run(steps, timeout).conns && Settled(y)
    ensures Run(steps, timeout).conns[c].y == y <==> exists i :: 0 <= i < |steps| && Enters(Run(steps[..i], timeout), steps[i], timeout, c, y)
  {
    hide Next, Enters;
    if steps != [] {
      var n := |steps| - 1;
      var before, s := steps[..n], Run(steps[..n], timeout);
      EntersNext(s, steps[n], timeout, c, y);
      assert forall i :: 0 <= i < n ==> before[..i] == steps[..i] && before[i] == steps[i];
      if c in s.conns {
        SettledIff(before, timeout, c, y);
      } else {
        NeverBefore(steps, timeout, c, n);
        hide Run;
        forall i | 0 <= i < n ensures !Enters(Run(steps[..i], timeout), steps[i], timeout, c, y) {
          NotThere(Run(steps[..i], timeout), steps[i], timeout, c, y);
        }
      }
      assert (exists i :: 0 <= i < |steps| && Enters(Run(steps[..i], timeout), steps[i], timeout, c, y)) <==>
             (exists i :: 0 <= i < n && Enters(Run(steps[..i], timeout), steps[i], timeout, c, y)) || Enters(s, steps[n], timeout, c, y);
    }
  }

  lemma NotThere(s: State, step: Step, timeout: int, c: nat, y: YState)
    requires c !in s.conns && Settled(y)
    ensures !Enters(s, step, timeout, c, y)
  {
  }

  /** A connection that is not there has not been there before. */
  lemma {:induction false} NeverBefore(steps: seq<Step>, timeout: int, c: nat, n: nat)
    requires n <= |steps| && c !in Run(steps[..n], timeout).conns
    ensures forall i :: 0 <= i <= n ==> c !in Run(steps[..i], timeout).conns
  {
    hide NextConn, NextDev, NextOwner, NextSucc, NextFailed, NextLeft;
    if n > 0 {
      assert steps[..n][..n - 1] == steps[..n - 1];
      NeverBefore(steps, timeout, c, n - 1);
    }
  }

  /** Whoever fails is sent parameters next. */
  predicate Paired(q: seq<ToY>) {
    forall i :: 0 <= i < |q| && q[i].Failed? ==> i + 1 < |q| && q[i + 1] == Params
  }

  /** What Y waits for is on its way to it, or X has yet to see to it. */
  predicate Coming(conn: Conn) {
    match conn.y
    case YWaiting(sid, _) => sid in Sids(conn) || Ready(sid) in conn.toY || Failed(sid) in conn.toY
    case YHandoff(sid) => sid in Sids(conn) || Ready(sid) in conn.toY || Failed(sid) in conn.toY
    case YCloaked => Params in conn.toY || ChooseCloaked in conn.toX
    case _ => true
  }

  predicate Attended(conn: Conn) {
    Paired(conn.toY) && (conn.open ==> Coming(conn))
  }

  /** A connection while Y reads. */
  lemma YReadAttended(conn: Conn, m: ToY, rest: seq<ToY>, after: Conn, sid2: nat)
    requires Attended(conn) && conn.toY == [m] + rest && conn.open && after == YRead(conn.(toY := rest), m, sid2)
    ensures Attended(after)
  {
    RestPaired(m, rest);
    ReportedSid(conn, after, sid2);
    hide Sids, Paired;
    if conn.y.YWaiting? || conn.y.YHandoff? {
      StillThere(m, rest, Ready(conn.y.sid));
      StillThere(m, rest, Failed(conn.y.sid));
    } else {
      StillThere(m, rest, Params);
    }
  }

  lemma StillThere(m: ToY, rest: seq<ToY>, r: ToY)
    ensures r in [m] + rest <==> r == m || r in rest
  {
  }

  lemma ReportedSid(conn: Conn, after: Conn, sid2: nat)
    requires after.x == conn.x
    ensures after.toX == conn.toX ==> Sids(after) == Sids(conn)
    ensures after.toX == conn.toX + [Report(sid2)] ==> sid2 in Sids(after)
  {
    ReportSidsAppend(conn.toX, Report(sid2));
  }

  lemma RestPaired(m: ToY, rest: seq<ToY>)
    requires Paired([m] + rest)
    ensures Paired(rest) && (m.Failed? ==> Params in rest)
  {
    var q := [m] + rest;
    assert forall i :: 0 <= i < |rest| ==> rest[i] == q[i + 1];
    assert m.Failed? ==> q[0] == m && rest[0] == Params;
  }

  /** What X sends to a connection that is open. */
  lemma AnswerAttended(conn: Conn, msgs: seq<ToY>)
    requires Paired(conn.toY) && Paired(msgs) && (conn.open ==> Coming(conn.(x := XIdle, toY := conn.toY + msgs)))
    ensures Attended(Answer(conn, msgs))
  {
    hide Coming;
    var q := conn.toY + msgs;
    forall i | 0 <= i < |q| && q[i].Failed? ensures i + 1 < |q| && q[i + 1] == Params {
      if i >= |conn.toY| {
        assert msgs[i - |conn.toY|] == q[i];
      }
    }
  }

  lemma XTakeAttended(s: State, c: nat, timeout: int)
    requires Enabled(s, XTake(c), timeout) && Attended(s.conns[c])
    ensures Attended(NextConn(s, XTake(c), timeout))
  {
    var conn, m, rest := s.conns[c], s.conns[c].toX[0], s.conns[c].toX[1..];
    assert conn.toX == [m] + rest;
    assert Sids(conn) == (if m.Report? then [m.sid] else []) + ReportSids(rest);
    if m.ChooseCloaked? {
      AnswerAttended(conn.(toX := rest), [Params]);
    }
  }

  /** X decides on the attempt it works on. */
  lemma VerdictAttended(conn: Conn, msgs: seq<ToY>)
    requires Attended(conn) && !conn.x.XIdle? && (msgs == [Ready(conn.x.sid)] || msgs == [Failed(conn.x.sid), Params])
    ensures Attended(Answer(conn, msgs))
  {
    assert msgs[0] in conn.toY + msgs;
    AnswerAttended(conn, msgs);
  }

  lemma AttendedNext(s: State, step: Step, timeout: int, c: nat)
    requires Enabled(s, step, timeout) && About(step) == Some(c) && (c in s.conns ==> Attended(s.conns[c]))
    ensures Attended(NextConn(s, step, timeout))
  {
    if c in s.conns {
      var conn := s.conns[c];
      match step
      case SendReport(_, sid, _) => ReportSidsAppend(conn.toX, Report(sid));
      case XTake(_) => XTakeAttended(s, c, timeout);
      case YTake(_, sid2) => YReadAttended(conn, conn.toY[0], conn.toY[1..], NextConn(s, step, timeout), sid2);
      case XRemove(_, ok) => if !ok { VerdictAttended(conn, [Failed(conn.x.sid), Params]); }
      case XAdd(_, ok, _) => if !ok { VerdictAttended(conn, [Failed(conn.x.sid), Params]); }
      case XPoll(_) => if Reached(s, conn) { VerdictAttended(conn, [Ready(conn.x.sid)]); }
      case XGiveUp(_, _) => VerdictAttended(conn, [Failed(conn.x.sid), Params]);
      case _ =>
    }
  }

  /** In every run, on every open connection: what Y waits for is on its way, or X has yet to see to it. */
  lemma {:induction false} AlwaysAttended(steps: seq<Step>, timeout: int, c: nat)
    requires c in Run(steps, timeout).conns
    ensures Attended(Run(steps, timeout).conns[c])
  {
    hide NextConn, NextDev, NextOwner, NextSucc, NextFailed, NextLeft, Attended;
    var n := |steps| - 1;
    var s := Run(steps[..n], timeout);
    if c in s.conns {
      AlwaysAttended(steps[..n], timeout, c);
    }
    if Enabled(s, steps[n], timeout) && About(steps[n]) == Some(c) {
      AttendedNext(s, steps[n], timeout, c);
    }
  }

  /** A step that X takes on connection `c`. */
  predicate StepOfX(step: Step, c: nat) {
    (step.XTake? || step.XRemove? || step.XAdd? || step.XPoll? || step.XGiveUp?) && step.c == c
  }

  /** So nobody is stuck: as long as Y waits on an open connection, it can take a message or X can take a step. */
  lemma NeverStuck(steps: seq<Step>, timeout: int, c: nat)
    requires var s := Run(steps, timeout); c in s.conns && s.conns[c].open && s.conns[c].y !in {YReady, YConfigured, YGone} && !s.conns[c].y.YNative?
    ensures var s := Run(steps, timeout); s.conns[c].toY != [] || exists step :: StepOfX(step, c) && Enabled(s, step, timeout)
  {
    var s := Run(steps, timeout);
    AlwaysAttended(steps, timeout, c);
    hide Run;
    var conn := s.conns[c];
    if conn.toY == [] {
      assert conn.x.XIdle? ==> conn.toX != [];
      var step := match conn.x
        case XIdle => XTake(c)
        case XRemoving(_) => XRemove(c, true)
        case XAdding(_, _) => XAdd(c, true, false)
        case XPolling(_, start) => if s.clock < start + timeout then XPoll(c) else XGiveUp(c, true);
      assert StepOfX(step, c) && Enabled(s, step, timeout);
    }
  }

  // ---------------------------------------------------------------- and attempts come to an end

  /** X takes `pk` off the device. */
  predicate TakesOff(s: State, step: Step, timeout: int, pk: nat) {
    Enabled(s, step, timeout) && (step.XRemove? || step.XGiveUp?) && step.ok && s.conns[step.c].pk == pk
  }

  /** X puts `pk` on the device, perhaps without being told so. */
  predicate PutsOn(s: State, step: Step, timeout: int, pk: nat) {
    Enabled(s, step, timeout) && step.XAdd? && (step.ok || step.partly) && s.conns[step.c].pk == pk
  }

  /** What is on the device after a step, and which handshake it shows, for every peer. */
  lemma DeviceNext(s: State, step: Step, timeout: int, pk: nat)
    ensures var dev := Next(s, step, timeout).dev;
      && (pk in dev <==> PutsOn(s, step, timeout, pk) || (pk in s.dev && !TakesOff(s, step, timeout, pk)))
      && (pk in dev ==> dev[pk] == if step.Handshake? && step.pk == pk && Enabled(s, step, timeout) then Some(step.seen)
                                   else if pk in s.dev then s.dev[pk] else None)
  {
    hide NextConn, NextOwner, NextSucc, NextFailed, NextLeft, Floor;
  }

  /** A connection on which nothing is under way. */
  predicate Fresh(s: State, c: nat) {
    c in s.conns && s.conns[c].open && s.conns[c].x == XIdle && s.conns[c].y == YReady && s.conns[c].toX == [] && s.conns[c].toY == []
  }

  /** X has set up the peer of connection `c` and polls for it. */
  function Begun(s: State, c: nat, sid: nat, timeout: int): State {
    var s3 := Next(Next(Next(s, SendReport(c, sid, false), timeout), XTake(c), timeout), XRemove(c, true), timeout);
    Next(s3, XAdd(c, true, false), timeout)
  }

  lemma Begins(s: State, c: nat, sid: nat, timeout: int)
    requires Fresh(s, c) && sid !in s.owner
    ensures var s', pk := Begun(s, c, sid, timeout), s.conns[c].pk;
      && c in s'.conns && s'.conns[c] == Conn(pk, true, [], [], XPolling(sid, s.clock), YWaiting(sid, false))
      && pk in s'.dev && s'.dev[pk] == None && s'.clock == s.clock && s'.owner == s.owner[sid := c]
  {
    hide NextSucc, NextFailed, NextLeft;
    var s1 := Next(s, SendReport(c, sid, false), timeout);
    assert s1.conns[c].toX == [Report(sid)];
    var s2 := Next(s1, XTake(c), timeout);
    assert s2.conns[c].toX == [] && s2.conns[c].x == XRemoving(sid);
  }

  /** A handshake that X sees in time makes Y native. */
  lemma AttemptSucceeds(s: State, c: nat, sid: nat, sid2: nat, seen: int, timeout: int)
    requires Fresh(s, c) && sid !in s.owner && sid2 !in s.owner && sid2 != sid && timeout > 0 && Floor(s.clock) <= seen <= s.clock
    ensures var s4 := Begun(s, c, sid, timeout);
      var s6 := Next(Next(s4, Handshake(s.conns[c].pk, seen), timeout), XPoll(c), timeout);
      var s7 := Next(s6, YTake(c, sid2), timeout);
      c in s7.conns && s7.conns[c].y == YNative(sid) && s7.conns[c].x == XIdle && s.conns[c].pk in s7.dev && sid in s7.succ
  {
    hide NextFailed, NextLeft, Begun, Floor;
    Begins(s, c, sid, timeout);
    var s4 := Begun(s, c, sid, timeout);
    var s5 := Next(s4, Handshake(s.conns[c].pk, seen), timeout);
    assert s5.conns == s4.conns && s5.dev[s.conns[c].pk] == Some(seen);
    var s6 := Next(s5, XPoll(c), timeout);
    assert s6.conns[c].toY == [Ready(sid)];
  }

  /** One without a handshake that comes to its time limit makes Y cloaked, with the parameters, and leaves no peer behind. */
  lemma AttemptFails(s: State, c: nat, sid: nat, sid2: nat, d: nat, timeout: int)
    requires Fresh(s, c) && sid !in s.owner && sid2 !in s.owner && sid2 != sid && d >= timeout
    ensures var s6 := Next(Next(Begun(s, c, sid, timeout), Tick(d), timeout), XGiveUp(c, true), timeout);
      var s8 := Next(Next(s6, YTake(c, sid2), timeout), YTake(c, sid2), timeout);
      c in s8.conns && s8.conns[c].y == YConfigured && s8.conns[c].x == XIdle && s.conns[c].pk !in s8.dev && sid in s8.failed
  {
    hide NextSucc, NextLeft, Begun, Floor;
    Begins(s, c, sid, timeout);
    var s5 := Next(Begun(s, c, sid, timeout), Tick(d), timeout);
    var s6 := Next(s5, XGiveUp(c, true), timeout);
    assert s6.conns[c].toY == [Failed(sid), Params];
    var s7 := Next(s6, YTake(c, sid2), timeout);
    assert s7.conns[c].toY == [Params] && s7.conns[c].y == YCloaked;
  }
}
