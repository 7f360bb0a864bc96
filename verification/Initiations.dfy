/**
 Initiations that several workers handle at once: whether one is new, and not part of a flood, is checked under one lock
 of the peer's handshake, and what it says is stored under another.  Times are in nanoseconds.
 */
module Initiations {
  import opened Basics

  const RATE: int := 1_000_000_000 / 50

  /** An initiation consumed, by its time stamp and the time of the store. */
  datatype Consumed = Consumed(stamp: nat, time: int)

  /** The newest time stamp and the last consumption, the workers that have passed the check, and all that has been consumed. */
  datatype State = State(last: nat, lastTime: Option<int>, works: map<nat, nat>, consumed: seq<Consumed>)

  datatype Step = Check(w: nat, stamp: nat, time: int) | Store(w: nat, time: int)

  const START := State(0, None, map[], [])

  /** The check: the time stamp is new, and the last consumption is long enough ago. */
  predicate Passes(s: State, stamp: nat, now: int) {
    IsNew(s.last, s.lastTime, stamp, now)
  }

  predicate IsNew(last: nat, lastTime: Option<int>, stamp: nat, now: int) {
    stamp > last && (lastTime.Some? ==> now - lastTime.value > RATE)
  }

  function Next(s: State, step: Step): State {
    match step
    case Check(w, stamp, now) => if w !in s.works && Passes(s, stamp, now) then s.(works := s.works[w := stamp]) else s
    case Store(w, now) =>
      if w !in s.works then s
      else
        var stamp := s.works[w];
        State(if stamp > s.last then stamp else s.last, if s.lastTime.None? || now > s.lastTime.value then Some(now) else s.lastTime,
              s.works - {w}, s.consumed + [Consumed(stamp, now)])
  }

  function Run(steps: seq<Step>): State {
    if steps == [] then START else Next(Run(steps[..|steps| - 1]), steps[|steps| - 1])
  }

  // ---------------------------------------------------------------- what is accepted

  /** What is remembered is the newest time stamp and the latest time of all that has been consumed. */
  ghost predicate Newest(s: State) {
    && (forall i :: 0 <= i < |s.consumed| ==> s.consumed[i].stamp <= s.last && s.lastTime.Some? && s.consumed[i].time <= s.lastTime.value)
    && (s.last == 0 || exists i :: 0 <= i < |s.consumed| && s.consumed[i].stamp == s.last)
    && (s.lastTime.None? || exists i :: 0 <= i < |s.consumed| && s.consumed[i].time == s.lastTime.value)
  }

  lemma NewestNext(s: State, step: Step)
    requires Newest(s)
    ensures Newest(Next(s, step))
  {
    var s', n := Next(s, step), |s.consumed|;
    assert forall i :: 0 <= i < n ==> s'.consumed[i] == s.consumed[i];
    if step.Store? && step.w in s.works {
      assert s'.consumed[n] == Consumed(s.works[step.w], step.time);
    }
  }

  lemma {:induction false} RunNewest(steps: seq<Step>)
    ensures Newest(Run(steps))
  {
    if steps != [] {
      RunNewest(steps[..|steps| - 1]);
      NewestNext(Run(steps[..|steps| - 1]), steps[|steps| - 1]);
    }
  }

  /** In every run, however workers overlap, an initiation passes the check exactly if it is newer than all that has been consumed, and all that was more than 20 milliseconds ago. */
  lemma PassesIff(steps: seq<Step>, w: nat, stamp: nat, now: int)
    requires w !in Run(steps).works
    ensures w in Next(Run(steps), Check(w, stamp, now)).works <==>
            stamp > 0 && forall i :: 0 <= i < |Run(steps).consumed| ==> stamp > Run(steps).consumed[i].stamp && now - Run(steps).consumed[i].time > 20_000_000
  {
    RunNewest(steps);
    hide Run;
  }

  // ---------------------------------------------------------------- one after the other

  /** Time stamps increase, and consumptions are further apart than the rate allows. */
  ghost predicate Orderly(consumed: seq<Consumed>) {
    && (forall i :: 0 <= i < |consumed| ==> consumed[i].stamp > 0)
    && (forall i :: 0 <= i < |consumed| - 1 ==> consumed[i].stamp < consumed[i + 1].stamp && consumed[i + 1].time - consumed[i].time > RATE)
  }

  /** At a store the check would pass again. */
  predicate StillPasses(s: State, step: Step) {
    step.Store? && step.w in s.works ==> Passes(s, s.works[step.w], step.time)
  }

  ghost predicate AllStillPass(steps: seq<Step>) {
    steps != [] ==> AllStillPass(steps[..|steps| - 1]) && StillPasses(Run(steps[..|steps| - 1]), steps[|steps| - 1])
  }

  /** What is remembered of what has been consumed in order. */
  ghost predicate Remembered(s: State) {
    && (forall w :: w in s.works ==> s.works[w] > 0)
    && if s.consumed == [] then s.last == 0 && s.lastTime.None?
       else var c := s.consumed[|s.consumed| - 1]; s.last == c.stamp && s.lastTime == Some(c.time)
  }

  lemma OrderlyNext(s: State, step: Step)
    requires Orderly(s.consumed) && Remembered(s)
    ensures Orderly(Next(s, step).consumed) <==> StillPasses(s, step)
    ensures StillPasses(s, step) ==> Remembered(Next(s, step))
  {
    if step.Store? && step.w in s.works {
      OrderlyMore(s.consumed, Consumed(s.works[step.w], step.time));
      hide Orderly;
    }
  }

  lemma OrderlyMore(consumed: seq<Consumed>, c: Consumed)
    requires Orderly(consumed)
    ensures Orderly(consumed + [c]) <==>
            c.stamp > 0 && (consumed != [] ==> var d := consumed[|consumed| - 1]; d.stamp < c.stamp && c.time - d.time > RATE)
  {
    var all, n := consumed + [c], |consumed|;
    assert all[n] == c && forall i :: 0 <= i < n ==> all[i] == consumed[i];
    assert n > 0 ==> all[n - 1 + 1] == c;
    forall i | 0 <= i < n - 1 ensures all[i].stamp < all[i + 1].stamp && all[i + 1].time - all[i].time > RATE {
      assert consumed[i].stamp < consumed[i + 1].stamp;
    }
  }

  lemma ConsumedGrows(s: State, step: Step)
    ensures !Orderly(s.consumed) ==> !Orderly(Next(s, step).consumed)
  {
    var c, d := s.consumed, Next(s, step).consumed;
    assert forall i :: 0 <= i < |c| ==> d[i] == c[i];
  }

  /** In every run initiations are consumed in order and at the rate allowed exactly if at each store the check would pass again. */
  lemma {:induction false} OrderlyIff(steps: seq<Step>)
    ensures Orderly(Run(steps).consumed) <==> AllStillPass(steps)
    ensures AllStillPass(steps) ==> Remembered(Run(steps))
  {
    if steps != [] {
      hide Next, Orderly, Remembered, StillPasses;
      var before, last := steps[..|steps| - 1], steps[|steps| - 1];
      OrderlyIff(before);
      if AllStillPass(before) {
        OrderlyNext(Run(before), last);
      } else {
        ConsumedGrows(Run(before), last);
      }
    }
  }

  // ---------------------------------------------------------------- never twice

  /** How often a time stamp has been consumed. */
  function Times(consumed: seq<Consumed>, stamp: nat): nat {
    if consumed == [] then 0
    else Times(consumed[..|consumed| - 1], stamp) + if consumed[|consumed| - 1].stamp == stamp then 1 else 0
  }

  /** The workers that have passed the check with a time stamp. */
  function Holders(works: map<nat, nat>, stamp: nat): set<nat> {
    set w | w in works && works[w] == stamp
  }

  ghost predicate NeverTwice(s: State) {
    forall stamp :: Times(s.consumed, stamp) <= 1
  }

  ghost predicate NoTwoHold(s: State) {
    forall stamp :: |Holders(s.works, stamp)| <= 1
  }

  /** How often a time stamp has been or will be consumed, once the workers that have passed the check are done. */
  function Due(s: State, stamp: nat): nat {
    Times(s.consumed, stamp) + |Holders(s.works, stamp)|
  }

  lemma HoldersAdd(works: map<nat, nat>, w: nat, st: nat, stamp: nat)
    requires w !in works
    ensures |Holders(works[w := st], stamp)| == |Holders(works, stamp)| + if st == stamp then 1 else 0
  {
    var more := Holders(works[w := st], stamp);
    if st == stamp {
      assert more == Holders(works, stamp) + {w};
    } else {
      assert more == Holders(works, stamp);
    }
  }

  lemma TimesMore(consumed: seq<Consumed>, c: Consumed, stamp: nat)
    ensures Times(consumed + [c], stamp) == Times(consumed, stamp) + if c.stamp == stamp then 1 else 0
  {
    assert (consumed + [c])[..|consumed|] == consumed;
  }

  lemma DueNext(s: State, step: Step, stamp: nat)
    ensures Due(Next(s, step), stamp) ==
            Due(s, stamp) + if step.Check? && step.stamp == stamp && step.w !in s.works && Passes(s, stamp, step.time) then 1 else 0
  {
    hide Holders, Times, Passes;
    match step
    case Check(w, st, now) =>
      if w !in s.works { HoldersAdd(s.works, w, st, stamp); }
    case Store(w, now) =>
      if w in s.works {
        var less := s.works - {w};
        HoldersAdd(less, w, s.works[w], stamp);
        assert less[w := s.works[w]] == s.works;
        TimesMore(s.consumed, Consumed(s.works[w], now), stamp);
      }
  }

  /** What has been consumed is not newer than the newest. */
  ghost predicate Bounded(s: State) {
    forall stamp: nat :: Times(s.consumed, stamp) > 0 ==> stamp <= s.last
  }

  lemma BoundedNext(s: State, step: Step)
    requires Bounded(s)
    ensures Bounded(Next(s, step))
  {
    var s' := Next(s, step);
    if step.Store? && step.w in s.works {
      hide Times;
      forall stamp: nat | Times(s'.consumed, stamp) > 0 ensures stamp <= s'.last {
        TimesMore(s.consumed, Consumed(s.works[step.w], step.time), stamp);
      }
    }
  }

  /** No time stamp is due twice. */
  ghost predicate DueOnce(s: State) {
    forall stamp :: Due(s, stamp) <= 1
  }

  /** A check lets a time stamp become due twice only if another worker holds it already. */
  lemma DueOnceNext(s: State, step: Step)
    requires DueOnce(s) && Bounded(s)
    ensures NoTwoHold(Next(s, step)) ==> DueOnce(Next(s, step))
  {
    if NoTwoHold(Next(s, step)) {
      hide Next, Times, Holders;
      forall stamp ensures Due(Next(s, step), stamp) <= 1 {
        DueNext(s, step, stamp);
        if Due(Next(s, step), stamp) > Due(s, stamp) {
          assert Times(s.consumed, stamp) == 0;
          CheckOnly(s, step);
        }
      }
    }
  }

  lemma CheckOnly(s: State, step: Step)
    requires step.Check?
    ensures Next(s, step).consumed == s.consumed
  {
  }

  lemma {:induction false} RunBounded(steps: seq<Step>)
    ensures Bounded(Run(steps))
  {
    if steps != [] {
      RunBounded(steps[..|steps| - 1]);
      BoundedNext(Run(steps[..|steps| - 1]), steps[|steps| - 1]);
    }
  }

  /** What is due stays due. */
  lemma {:induction false} DueStays(steps: seq<Step>, i: nat, stamp: nat)
    requires i <= |steps|
    ensures Due(Run(steps[..i]), stamp) <= Due(Run(steps), stamp)
    decreases |steps|
  {
    if i == |steps| {
      assert steps[..i] == steps;
    } else {
      var before := steps[..|steps| - 1];
      assert before[..i] == steps[..i];
      DueStays(before, i, stamp);
      DueNext(Run(before), steps[|steps| - 1], stamp);
    }
  }

  lemma {:induction false} RunDueOnce(steps: seq<Step>)
    requires forall i :: 0 <= i <= |steps| ==> NoTwoHold(Run(steps[..i]))
    ensures DueOnce(Run(steps))
  {
    if steps == [] {
      NoneDue();
    } else {
      hide NoTwoHold, DueOnce, Next;
      var before := steps[..|steps| - 1];
      assert forall i :: 0 <= i <= |before| ==> before[..i] == steps[..i];
      RunDueOnce(before);
      RunBounded(before);
      assert steps[..|steps|] == steps;
      DueOnceNext(Run(before), steps[|steps| - 1]);
    }
  }

  lemma NoneDue()
    ensures DueOnce(START)
  {
    forall stamp ensures Due(START, stamp) <= 1 {
      assert Holders(map[], stamp) == {};
    }
  }

  /** In every run that leaves no worker in between, no initiation is consumed twice exactly if at no moment two workers have passed the check with the same time stamp. */
  lemma NeverTwiceIff(steps: seq<Step>)
    requires Run(steps).works == map[]
    ensures NeverTwice(Run(steps)) <==> forall i :: 0 <= i <= |steps| ==> NoTwoHold(Run(steps[..i]))
  {
    if forall i :: 0 <= i <= |steps| ==> NoTwoHold(Run(steps[..i])) {
      RunDueOnce(steps);
      forall stamp ensures Times(Run(steps).consumed, stamp) <= 1 {
        assert Due(Run(steps), stamp) <= 1;
      }
    } else {
      var i :| 0 <= i <= |steps| && !NoTwoHold(Run(steps[..i]));
      var stamp :| |Holders(Run(steps[..i]).works, stamp)| > 1;
      DueStays(steps, i, stamp);
      assert Holders(Run(steps).works, stamp) == {};
      assert Times(Run(steps).consumed, stamp) > 1;
    }
  }

  /** One initiation, delivered twice and handled by two workers, is consumed twice. */
  lemma HandledTwice(stamp: nat, now: int)
    requires stamp > 0
    ensures var steps := [Check(1, stamp, now), Check(2, stamp, now), Store(1, now), Store(2, now)];
      Run(steps).works == map[] && Run(steps).consumed == [Consumed(stamp, now), Consumed(stamp, now)]
  {
    var steps := [Check(1, stamp, now), Check(2, stamp, now), Store(1, now), Store(2, now)];
    assert steps[..3] == [Check(1, stamp, now), Check(2, stamp, now), Store(1, now)];
    assert steps[..3][..2] == [Check(1, stamp, now), Check(2, stamp, now)];
    assert steps[..3][..2][..1] == [Check(1, stamp, now)];
    assert steps[..3][..2][..1][..0] == [];
    assert Run([Check(1, stamp, now)]) == START.(works := map[1 := stamp]);
    assert Run([Check(1, stamp, now), Check(2, stamp, now)]) == START.(works := map[1 := stamp, 2 := stamp]);
    assert Run(steps[..3]) == State(stamp, Some(now), map[2 := stamp], [Consumed(stamp, now)]);
  }
}
