/**
 Send nonces of one key pair: any number of senders share an atomic 64-bit counter, which taking a nonce
 and pushing the counter back after an overrun touch in separate steps, and which expiry may overwrite at any time.
 */
module Nonce {
  import opened Basics

  const SLACK: nat := 0x2000
  const REJECT_AFTER_MESSAGES: nat := B64 - SLACK - 1

  /** `InLoop`: the check has been passed; `Overrun`: a nonce past the limit has been taken and the store is due. */
  datatype Pc = Idle | InLoop | Overrun

  /** `level` is the counter as it would be if it did not wrap; the rest of the state is history. */
  datatype State = State(level: nat, pcs: seq<Pc>, used: seq<nat>, expired: bool, lateUse: bool)

  datatype Step = Check(i: nat) | Add(i: nat) | Store(i: nat) | Leave(i: nat) | Expire

  function Counter(s: State): nat {
    s.level % B64
  }

  function Start(senders: nat): State {
    State(0, seq(senders, _ => Idle), [], false, false)
  }

  predicate Enabled(s: State, step: Step) {
    match step
    case Check(i) => i < |s.pcs| && s.pcs[i] == Idle
    case Add(i) => i < |s.pcs| && s.pcs[i] == InLoop
    case Store(i) => i < |s.pcs| && s.pcs[i] == Overrun
    case Leave(i) => i < |s.pcs| && s.pcs[i] == InLoop
    case Expire => true
  }

  function Next(s: State, step: Step): State {
    if !Enabled(s, step) then s
    else
      match step
      case Check(i) => if Counter(s) >= REJECT_AFTER_MESSAGES then s else s.(pcs := s.pcs[i := InLoop])
      case Add(i) =>
        var nonce := Counter(s);
        if nonce >= REJECT_AFTER_MESSAGES then s.(level := s.level + 1, pcs := s.pcs[i := Overrun])
        else s.(level := s.level + 1, used := s.used + [nonce], lateUse := s.lateUse || s.expired)
      case Store(i) => s.(level := REJECT_AFTER_MESSAGES, pcs := s.pcs[i := InLoop])
      case Leave(i) => s.(pcs := s.pcs[i := Idle])
      case Expire => s.(level := REJECT_AFTER_MESSAGES, expired := true)
  }

  function Run(s: State, steps: seq<Step>): State {
    if steps == [] then s else Next(Run(s, steps[..|steps| - 1]), steps[|steps| - 1])
  }

  function Overruns(pcs: seq<Pc>): (n: nat)
    ensures n <= |pcs|
  {
    if pcs == [] then 0 else (if pcs[0] == Overrun then 1 else 0) + Overruns(pcs[1..])
  }

  lemma {:induction false} OverrunsUpdate(pcs: seq<Pc>, i: nat, pc: Pc)
    requires i < |pcs|
    ensures Overruns(pcs[i := pc]) == Overruns(pcs) - (if pcs[i] == Overrun then 1 else 0) + (if pc == Overrun then 1 else 0)
  {
    if i > 0 {
      assert pcs[i := pc][1..] == pcs[1..][i - 1 := pc];
      OverrunsUpdate(pcs[1..], i - 1, pc);
    } else {
      assert pcs[i := pc][1..] == pcs[1..];
    }
  }

  lemma {:induction false} SomeoneElse(pcs: seq<Pc>, i: nat)
    requires i < |pcs| && pcs[i] != Overrun
    ensures Overruns(pcs) < |pcs|
  {
    if i > 0 {
      SomeoneElse(pcs[1..], i - 1);
    }
  }

  lemma {:induction false} NoOverruns(senders: nat)
    ensures Overruns(seq(senders, _ => Idle)) == 0
  {
    if senders > 0 {
      NoOverruns(senders - 1);
      assert seq(senders, _ => Idle)[1..] == seq(senders - 1, _ => Idle);
    }
  }

  // ---------------------------------------------------------------- few enough senders

  /** The counter overshoots the limit by at most one for every store that is due. */
  ghost predicate Bounded(s: State) {
    s.level <= REJECT_AFTER_MESSAGES + Overruns(s.pcs)
  }

  /** The nonces used are 0, 1, 2, ... in this order, up to the limit at most, and none was used after expiry. */
  ghost predicate Tidy(s: State) {
    && (forall n :: 0 <= n < |s.used| ==> s.used[n] == n)
    && |s.used| <= REJECT_AFTER_MESSAGES
    && (s.expired ==> s.level >= REJECT_AFTER_MESSAGES)
    && (s.level < REJECT_AFTER_MESSAGES ==> s.level == |s.used|)
    && !s.lateUse
  }

  /** A sender that can add is not overrunning, so the counter cannot have wrapped. */
  lemma AddBounded(s: State, i: nat)
    requires Bounded(s) && |s.pcs| <= SLACK + 1 && i < |s.pcs| && s.pcs[i] == InLoop
    ensures s.level < B64
  {
    SomeoneElse(s.pcs, i);
  }

  lemma NextTidy(s: State, step: Step)
    requires Bounded(s) && Tidy(s) && |s.pcs| <= SLACK + 1
    ensures var s' := Next(s, step); Bounded(s') && Tidy(s') && |s'.pcs| == |s.pcs|
  {
    if Enabled(s, step) && !step.Expire? {
      OverrunsUpdate(s.pcs, step.i, InLoop);
      OverrunsUpdate(s.pcs, step.i, Overrun);
      OverrunsUpdate(s.pcs, step.i, Idle);
      if step.Add? {
        AddBounded(s, step.i);
      }
    }
  }

  lemma {:induction false} RunTidy(senders: nat, steps: seq<Step>)
    requires senders <= SLACK + 1
    ensures var s := Run(Start(senders), steps); Bounded(s) && Tidy(s) && |s.pcs| == senders
  {
    if steps == [] {
      NoOverruns(senders);
    } else {
      RunTidy(senders, steps[..|steps| - 1]);
      NextTidy(Run(Start(senders), steps[..|steps| - 1]), steps[|steps| - 1]);
    }
  }

  // ---------------------------------------------------------------- too many senders

  function Checks(n: nat): seq<Step> {
    if n == 0 then [] else Checks(n - 1) + [Check(n - 1)]
  }

  /** `Add(from)`, ..., `Add(from + n - 1)`. */
  function Adds(from: nat, n: nat): seq<Step> {
    if n == 0 then [] else Adds(from, n - 1) + [Add(from + n - 1)]
  }

  lemma {:induction false} RunConcat(s: State, a: seq<Step>, b: seq<Step>)
    ensures Run(s, a + b) == Run(Run(s, a), b)
  {
    if b == [] {
      assert a + b == a;
    } else {
      assert (a + b)[..|a + b| - 1] == a + b[..|b| - 1];
      RunConcat(s, a, b[..|b| - 1]);
    }
  }

  lemma RunOne(s: State, step: Step)
    ensures Run(s, [step]) == Next(s, step)
  {
    assert [step][..0] == [];
    assert Run(s, []) == s;
  }

  lemma RunSnoc(s: State, a: seq<Step>, step: Step)
    ensures Run(s, a + [step]) == Next(Run(s, a), step)
  {
    RunConcat(s, a, [step]);
    RunOne(Run(s, a), step);
  }

  lemma {:induction false} AllEnter(senders: nat, n: nat)
    requires n <= senders
    ensures var s := Run(Start(senders), Checks(n));
            && s == Start(senders).(pcs := s.pcs) && |s.pcs| == senders
            && (forall i :: 0 <= i < senders ==> s.pcs[i] == if i < n then InLoop else Idle)
  {
    hide Run;
    if n > 0 {
      AllEnter(senders, n - 1);
      RunSnoc(Start(senders), Checks(n - 1), Check(n - 1));
      OneEnters(Run(Start(senders), Checks(n - 1)), n - 1);
    } else {
      RunNothing(Start(senders));
    }
  }

  lemma OneEnters(s: State, i: nat)
    requires s.level == 0 && i < |s.pcs| && s.pcs[i] == Idle
    ensures Next(s, Check(i)) == s.(pcs := s.pcs[i := InLoop])
  {
  }

  /** Senders in the loop, after expiry, each take a nonce past the limit before any of them stores. */
  lemma {:induction false} AllOverrun(s: State, from: nat, n: nat)
    requires s.level == REJECT_AFTER_MESSAGES && n <= SLACK + 1 && from + n <= |s.pcs|
    requires forall i :: 0 <= i < |s.pcs| ==> s.pcs[i] == InLoop
    ensures var s' := Run(s, Adds(from, n));
            && s' == s.(level := REJECT_AFTER_MESSAGES + n, pcs := s'.pcs) && |s'.pcs| == |s.pcs|
            && (forall i :: 0 <= i < |s.pcs| ==> s'.pcs[i] == if from <= i < from + n then Overrun else InLoop)
  {
    hide Run;
    if n > 0 {
      AllOverrun(s, from, n - 1);
      RunSnoc(s, Adds(from, n - 1), Add(from + n - 1));
      OneOverrun(Run(s, Adds(from, n - 1)), from + n - 1);
    } else {
      assert Run(s, []) == s by { RunNothing(s); }
    }
  }

  lemma OneOverrun(s: State, i: nat)
    requires REJECT_AFTER_MESSAGES <= s.level < B64 && i < |s.pcs| && s.pcs[i] == InLoop
    ensures Next(s, Add(i)) == s.(level := s.level + 1, pcs := s.pcs[i := Overrun])
  {
  }

  lemma RunNothing(s: State)
    ensures Run(s, []) == s
  {
  }

  lemma CanWrap(senders: nat) returns (steps: seq<Step>)
    requires senders > SLACK
    ensures Run(Start(senders), steps).level >= B64
  {
    AllEnter(senders, senders);
    RunSnoc(Start(senders), Checks(senders), Expire);
    var s := Run(Start(senders), Checks(senders) + [Expire]);
    AllOverrun(s, 0, SLACK + 1);
    RunConcat(Start(senders), Checks(senders) + [Expire], Adds(0, SLACK + 1));
    steps := Checks(senders) + [Expire] + Adds(0, SLACK + 1);
  }

  lemma CanReuse(senders: nat) returns (steps: seq<Step>)
    requires senders > SLACK + 1
    ensures Run(Start(senders), steps).used == [0, 0] && Run(Start(senders), steps).lateUse
  {
    hide Run;
    var first := Checks(senders) + [Add(0)] + [Expire];
    AllEnter(senders, senders);
    RunSnoc(Start(senders), Checks(senders), Add(0));
    RunSnoc(Start(senders), Checks(senders) + [Add(0)], Expire);
    var s := Run(Start(senders), first);
    AllOverrun(s, 1, SLACK + 1);
    RunConcat(Start(senders), first, Adds(1, SLACK + 1));
    RunSnoc(Start(senders), first + Adds(1, SLACK + 1), Add(0));
    steps := first + Adds(1, SLACK + 1) + [Add(0)];
  }

  // ---------------------------------------------------------------- the exact bounds

  ghost predicate Distinct(used: seq<nat>) {
    forall i, j :: 0 <= i < j < |used| ==> used[i] != used[j]
  }

  /** The counter never wraps, whatever the interleaving, exactly if there are at most 2^13 senders. */
  lemma NeverWraps(senders: nat)
    ensures (forall steps :: Run(Start(senders), steps).level < B64) <==> senders <= 8192
  {
    if senders <= SLACK {
      forall steps ensures Run(Start(senders), steps).level < B64 {
        RunTidy(senders, steps);
      }
    } else {
      var steps := CanWrap(senders);
    }
  }

  /** No nonce is used twice or after expiry, and all are below the limit, exactly if there is at most one sender more than that. */
  lemma NeverReuses(senders: nat)
    ensures (forall steps :: Distinct(Run(Start(senders), steps).used)) <==> senders <= 8193
    ensures (forall steps :: !Run(Start(senders), steps).lateUse) <==> senders <= 8193
    ensures senders <= SLACK + 1 ==>
              forall steps :: forall n :: 0 <= n < |Run(Start(senders), steps).used| ==>
                Run(Start(senders), steps).used[n] == n < REJECT_AFTER_MESSAGES
  {
    if senders <= SLACK + 1 {
      forall steps ensures Tidy(Run(Start(senders), steps)) {
        RunTidy(senders, steps);
      }
    } else {
      var steps := CanReuse(senders);
      var used := Run(Start(senders), steps).used;
      assert used[0] == used[1];
    }
  }

  // ---------------------------------------------------------------- one sender working through a batch

  lemma OneFurther<T>(s: seq<T>, k: nat, i: nat)
    requires k <= i < |s|
    ensures s[k..i] + [s[i]] == s[k..i + 1]
  {
  }

  class Keypair {
    var sendNonce: nat

    /** The value after the addition, in 64 bits. */
    method Add(n: nat) returns (v: nat)
      modifies this
      ensures v == sendNonce == (old(sendNonce) + n) % B64
    {
      sendNonce := (sendNonce + n) % B64;
      v := sendNonce;
    }

    /**
     The elements of a batch, undisturbed by other senders: as many as the limit allows are kept, in order and
     with consecutive nonces, and the others are staged again in order.
     */
    method AssignNonces<T>(elems: seq<T>) returns (kept: seq<(T, nat)>, staged: seq<T>)
      requires sendNonce <= REJECT_AFTER_MESSAGES
      modifies this
      ensures |kept| + |staged| == |elems| && staged == elems[|kept|..]
      ensures forall j :: 0 <= j < |kept| ==> kept[j] == (elems[j], old(sendNonce) + j)
      ensures sendNonce == old(sendNonce) + |kept| <= REJECT_AFTER_MESSAGES
      ensures staged != [] ==> sendNonce == REJECT_AFTER_MESSAGES
    {
      kept, staged := [], [];
      var i := 0;
      while i < |elems|
        invariant i <= |elems| && |kept| + |staged| == i && staged == elems[|kept|..i]
        invariant sendNonce == old(sendNonce) + |kept| <= REJECT_AFTER_MESSAGES
        invariant staged != [] ==> sendNonce == REJECT_AFTER_MESSAGES
        invariant forall j :: 0 <= j < |kept| ==> kept[j] == (elems[j], old(sendNonce) + j)
      {
        var v := Add(1);
        var nonce := (v - 1) % B64;
        assert nonce == old(sendNonce) + |kept|;
        if nonce >= REJECT_AFTER_MESSAGES {
          sendNonce := REJECT_AFTER_MESSAGES;
          staged := staged + [elems[i]];
          OneFurther(elems, |kept|, i);
        } else {
          kept := kept + [(elems[i], nonce)];
        }
        i := i + 1;
      }
    }
  }
}
