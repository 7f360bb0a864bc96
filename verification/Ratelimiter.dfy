/** A token bucket for each address, with buckets that have not been used for a while thrown away.  Times are in nanoseconds. */
module Ratelimiter {
  const PACKETS_PER_SECOND: int := 20
  const PACKETS_BURSTABLE: int := 5
  const GARBAGE_COLLECT_TIME: int := 1_000_000_000
  const PACKET_COST: int := 1_000_000_000 / PACKETS_PER_SECOND
  const MAX_TOKENS: int := PACKET_COST * PACKETS_BURSTABLE

  type Addr = nat

  datatype Entry = Entry(lastTime: int, tokens: int)

  type Buckets = map<Addr, Entry>

  datatype Event = Call(ip: Addr, time: int) | Sweep(time: int)

  datatype Outcome = Outcome(table: Buckets, allowed: bool)

  function Min(a: int, b: int): int { if a <= b then a else b }

  function AllowCall(table: Buckets, ip: Addr, now: int): Outcome {
    if ip !in table then Outcome(table[ip := Entry(now, MAX_TOKENS - PACKET_COST)], true)
    else
      var tokens := Min(table[ip].tokens + (now - table[ip].lastTime), MAX_TOKENS);
      if tokens > PACKET_COST then Outcome(table[ip := Entry(now, tokens - PACKET_COST)], true)
      else Outcome(table[ip := Entry(now, tokens)], false)
  }

  function Stale(table: Buckets, now: int): set<Addr> {
    set ip | ip in table && now - table[ip].lastTime > GARBAGE_COLLECT_TIME
  }

  function Next(table: Buckets, e: Event): Outcome {
    match e
    case Call(ip, now) => AllowCall(table, ip, now)
    case Sweep(now) => Outcome(table - Stale(table, now), false)
  }

  function Run(table: Buckets, events: seq<Event>): Buckets {
    if events == [] then table else Next(Run(table, events[..|events| - 1]), events[|events| - 1]).table
  }

  /** How many calls of `ip` among the events are allowed, starting from `table`. */
  function Allowed(table: Buckets, events: seq<Event>, ip: Addr): nat {
    if events == [] then 0
    else
      var before, e := events[..|events| - 1], events[|events| - 1];
      Allowed(table, before, ip) + if e.Call? && e.ip == ip && Next(Run(table, before), e).allowed then 1 else 0
  }

  ghost predicate Monotone(events: seq<Event>) {
    forall i, j :: 0 <= i < j < |events| ==> events[i].time <= events[j].time
  }

  // ---------------------------------------------------------------- buckets

  /** No bucket is empty or overfull, and none has been used in the future. */
  ghost predicate Ok(table: Buckets, now: int) {
    forall ip :: ip in table ==> table[ip].lastTime <= now && 0 < table[ip].tokens <= MAX_TOKENS
  }

  lemma NextOk(table: Buckets, now: int, e: Event)
    requires Ok(table, now) && now <= e.time
    ensures Ok(Next(table, e).table, e.time)
  {
  }

  /** What a call of `ip` would find in its bucket; one that does not exist is full. */
  function Available(table: Buckets, ip: Addr, now: int): int {
    if ip in table then Min(table[ip].tokens + (now - table[ip].lastTime), MAX_TOKENS) else MAX_TOKENS
  }

  /** Only a call that is allowed takes tokens out of a bucket; sweeping takes none. */
  lemma AvailableNext(table: Buckets, now: int, e: Event, ip: Addr)
    requires Ok(table, now) && now <= e.time
    ensures var r := Next(table, e);
            Available(r.table, ip, e.time) == Available(table, ip, e.time) - if e.Call? && e.ip == ip && r.allowed then PACKET_COST else 0
  {
  }

  /** A call is allowed exactly if there is more in its bucket than it costs. */
  lemma AllowedIff(table: Buckets, ip: Addr, now: int)
    ensures Next(table, Call(ip, now)).allowed <==> Available(table, ip, now) > PACKET_COST
  {
  }

  // ---------------------------------------------------------------- the rate is bounded

  lemma {:induction false} RunOk(table: Buckets, events: seq<Event>, now: int)
    requires Ok(table, now) && Monotone(events) && (events != [] ==> now <= events[0].time)
    ensures Ok(Run(table, events), if events == [] then now else events[|events| - 1].time)
  {
    if events != [] {
      var before := events[..|events| - 1];
      RunOk(table, before, now);
      NextOk(Run(table, before), if before == [] then now else before[|before| - 1].time, events[|events| - 1]);
    }
  }

  function Cost(n: nat): int {
    n * PACKET_COST
  }

  /** Tokens spent come from the bucket or from the time that has passed. */
  lemma {:induction false} Spent(table: Buckets, events: seq<Event>, now: int, ip: Addr)
    requires Ok(table, now) && Monotone(events) && events != [] && now <= events[0].time
    ensures var last := events[|events| - 1].time;
            Cost(Allowed(table, events, ip)) + Available(Run(table, events), ip, last) <= MAX_TOKENS + (last - events[0].time)
  {
    var before, e := events[..|events| - 1], events[|events| - 1];
    RunOk(table, before, now);
    if before == [] {
      assert Run(table, []) == table;
      AvailableNext(table, now, e, ip);
      assert Available(table, ip, e.time) <= MAX_TOKENS;
      hide Next, Available, Ok;
    } else {
      var earlier := before[|before| - 1].time;
      hide Next, Available, Ok, Cost;
      Spent(table, before, now, ip);
      AvailableNext(Run(table, before), earlier, e, ip);
      AvailableGrows(Run(table, before), ip, earlier, e.time);
      assert before[0] == events[0];
      CostNext(Allowed(table, before, ip));
    }
  }

  lemma CostNext(n: nat)
    ensures Cost(n + 1) == Cost(n) + PACKET_COST
  {
  }

  lemma AvailableGrows(table: Buckets, ip: Addr, t: int, u: int)
    requires t <= u
    ensures Available(table, ip, u) <= Available(table, ip, t) + (u - t)
  {
  }

  /** In any stretch of any run, the calls allowed to an address cost less than a full bucket and the time that passes. */
  lemma RateBounded(events: seq<Event>, i: nat, j: nat, ip: Addr)
    requires Monotone(events) && i < j <= |events|
    ensures Cost(Allowed(Run(map[], events[..i]), events[i..j], ip)) < MAX_TOKENS + (events[j - 1].time - events[i].time)
  {
    hide Next, Cost;
    var table, stretch := Run(map[], events[..i]), events[i..j];
    RunOk(map[], events[..i], if i == 0 then events[0].time else events[..i][0].time);
    var now := if i == 0 then events[0].time else events[i - 1].time;
    RunOk(table, stretch, now);
    Spent(table, stretch, now, ip);
  }

  /** In numbers: fewer than five, and one for every 50 milliseconds. */
  lemma TwentyPerSecond(events: seq<Event>, i: nat, j: nat, ip: Addr)
    requires Monotone(events) && i < j <= |events|
    ensures 50_000_000 * Allowed(Run(map[], events[..i]), events[i..j], ip) < 250_000_000 + (events[j - 1].time - events[i].time)
  {
    RateBounded(events, i, j, ip);
  }

  function Calls(ip: Addr, time: int, n: nat): (r: seq<Event>)
    ensures |r| == n && forall i :: 0 <= i < n ==> r[i] == Call(ip, time)
  {
    seq(n, _ => Call(ip, time))
  }

  /** Of any number of calls of a new address at one moment the first four are allowed. */
  lemma {:induction false} FourAtOnce(ip: Addr, time: int, n: nat)
    ensures Allowed(map[], Calls(ip, time, n), ip) == if n < 4 then n else 4
    ensures Run(map[], Calls(ip, time, n)) ==
            if n == 0 then map[] else map[ip := Entry(time, 50_000_000 * (5 - if n < 4 then n else 4))]
  {
    if n > 0 {
      assert Calls(ip, time, n)[..n - 1] == Calls(ip, time, n - 1);
      FourAtOnce(ip, time, n - 1);
    }
  }

  // ---------------------------------------------------------------- and no call is refused without need

  /** How many of the events from `k` up to `i` are paid for. */
  function Paid(pays: nat -> bool, k: nat, i: nat): nat
    requires k <= i
    decreases i
  {
    if k == i then 0 else Paid(pays, k, i - 1) + if pays(i - 1) then 1 else 0
  }

  /** A bucket that is full at first, pays for some events, and is filled by the clock in between but never above its brim. */
  ghost predicate Fills(level: nat -> int, pays: nat -> bool, time: nat -> int, n: nat) {
    level(0) == MAX_TOKENS && forall j :: 0 <= j < n ==> FillsAt(level, pays, time, j)
  }

  ghost predicate FillsAt(level: nat -> int, pays: nat -> bool, time: nat -> int, j: nat) {
    level(j + 1) == Min(level(j) - (if pays(j) then PACKET_COST else 0) + (time(j + 1) - time(j)), MAX_TOKENS)
  }

  /** What would be left if the bucket had been full at event `k`. */
  function Left(pays: nat -> bool, time: nat -> int, k: nat, i: nat): int
    requires k <= i
  {
    MAX_TOKENS + (time(i) - time(k)) - Cost(Paid(pays, k, i))
  }

  lemma LeftNext(pays: nat -> bool, time: nat -> int, k: nat, i: nat)
    requires k <= i
    ensures Left(pays, time, k, i + 1) == Left(pays, time, k, i) - (if pays(i) then PACKET_COST else 0) + (time(i + 1) - time(i))
  {
    CostNext(Paid(pays, k, i));
    hide Cost;
  }

  lemma LeftNone(pays: nat -> bool, time: nat -> int, i: nat)
    ensures Left(pays, time, i, i) == MAX_TOKENS
  {
  }

  /** There is never more in it than that, for whichever `k`. */
  lemma {:induction false} AtMostLeft(level: nat -> int, pays: nat -> bool, time: nat -> int, k: nat, i: nat)
    requires k <= i && Fills(level, pays, time, i)
    ensures level(i) <= Left(pays, time, k, i)
    decreases i
  {
    hide Left;
    if k == i {
      LeftNone(pays, time, i);
      assert i > 0 ==> FillsAt(level, pays, time, i - 1);
    } else {
      AtMostLeft(level, pays, time, k, i - 1);
      LeftNext(pays, time, k, i - 1);
      assert FillsAt(level, pays, time, i - 1);
    }
  }

  /** And it is just that for the last time it was full. */
  lemma {:induction false} LastFull(level: nat -> int, pays: nat -> bool, time: nat -> int, i: nat) returns (k: nat)
    requires Fills(level, pays, time, i)
    ensures k <= i && level(i) == Left(pays, time, k, i)
    decreases i
  {
    hide Left;
    LeftNone(pays, time, i);
    if i == 0 || level(i) == MAX_TOKENS {
      return i;
    }
    k := LastFull(level, pays, time, i - 1);
    LeftNext(pays, time, k, i - 1);
    assert FillsAt(level, pays, time, i - 1);
  }

  /** So it has too little for a call exactly if what it paid for in some stretch leaves no more than that. */
  lemma ShortIff(level: nat -> int, pays: nat -> bool, time: nat -> int, i: nat)
    requires Fills(level, pays, time, i)
    ensures level(i) <= PACKET_COST <==> exists k :: 0 <= k < i && Left(pays, time, k, i) <= PACKET_COST
  {
    hide Left, Fills;
    var last := LastFull(level, pays, time, i);
    LeftNone(pays, time, i);
    forall k | 0 <= k < i ensures level(i) <= Left(pays, time, k, i) {
      AtMostLeft(level, pays, time, k, i);
    }
  }

  /** Event `j` of a run is a call of `ip` that is allowed. */
  predicate AllowedAt(events: seq<Event>, j: nat, ip: Addr) {
    j < |events| && events[j].Call? && events[j].ip == ip && Next(Run(map[], events[..j]), events[j]).allowed
  }

  function Allows(events: seq<Event>, ip: Addr): nat -> bool {
    (j: nat) => AllowedAt(events, j, ip)
  }

  function Times(events: seq<Event>): nat -> int {
    (j: nat) => if j < |events| then events[j].time else 0
  }

  /** What each event finds in the bucket of `ip`. */
  function Finds(events: seq<Event>, ip: Addr): nat -> int {
    (j: nat) => if j < |events| then Available(Run(map[], events[..j]), ip, events[j].time) else 0
  }

  lemma AvailableFills(table: Buckets, ip: Addr, t: int, u: int)
    requires t <= u
    ensures Available(table, ip, u) == Min(Available(table, ip, t) + (u - t), MAX_TOKENS)
  {
  }

  lemma FindsNext(events: seq<Event>, j: nat, ip: Addr)
    requires Monotone(events) && j + 1 < |events|
    ensures FillsAt(Finds(events, ip), Allows(events, ip), Times(events), j)
  {
    var table, t := Run(map[], events[..j]), events[j].time;
    RunOk(map[], events[..j], if j == 0 then t else events[..j][0].time);
    assert events[..j + 1][..j] == events[..j];
    assert Run(map[], events[..j + 1]) == Next(table, events[j]).table;
    hide Next, Ok, Available, Run;
    AvailableNext(table, if j == 0 then t else events[j - 1].time, events[j], ip);
    AvailableFills(Next(table, events[j]).table, ip, t, events[j + 1].time);
  }

  lemma FindsFills(events: seq<Event>, i: nat, ip: Addr)
    requires Monotone(events) && i < |events|
    ensures Fills(Finds(events, ip), Allows(events, ip), Times(events), i)
  {
    hide Next, FillsAt;
    assert Run(map[], events[..0]) == map[];
    forall j | 0 <= j < i ensures FillsAt(Finds(events, ip), Allows(events, ip), Times(events), j) {
      FindsNext(events, j, ip);
    }
  }

  lemma {:induction false} RunSplit(table: Buckets, a: seq<Event>, b: seq<Event>)
    ensures Run(Run(table, a), b) == Run(table, a + b)
  {
    hide Next;
    if b == [] {
      assert a + b == a;
    } else {
      assert (a + b)[..|a + b| - 1] == a + b[..|b| - 1];
      RunSplit(table, a, b[..|b| - 1]);
    }
  }

  lemma {:induction false} PaidAllowed(events: seq<Event>, k: nat, i: nat, ip: Addr)
    requires k <= i <= |events|
    ensures Paid(Allows(events, ip), k, i) == Allowed(Run(map[], events[..k]), events[k..i], ip)
    decreases i
  {
    hide Next, Run;
    if k < i {
      PaidAllowed(events, k, i - 1, ip);
      var table, stretch := Run(map[], events[..k]), events[k..i - 1];
      assert events[k..i] == stretch + [events[i - 1]] && events[..k] + stretch == events[..i - 1];
      RunSplit(map[], events[..k], stretch);
      AllowedMore(table, stretch, events[i - 1], ip);
      hide Allowed;
    }
  }

  lemma AllowedMore(table: Buckets, events: seq<Event>, e: Event, ip: Addr)
    ensures Allowed(table, events + [e], ip) == Allowed(table, events, ip) + if e.Call? && e.ip == ip && Next(Run(table, events), e).allowed then 1 else 0
  {
    assert (events + [e])[..|events|] == events;
  }

  /** What was allowed to `ip` from event `k` to event `i` leaves too little of a full bucket and the time that passed. */
  ghost predicate Exhausted(events: seq<Event>, k: nat, i: nat, ip: Addr)
    requires k <= i < |events|
  {
    MAX_TOKENS + (events[i].time - events[k].time) - Cost(Allowed(Run(map[], events[..k]), events[k..i], ip)) <= PACKET_COST
  }

  /** In every run, a call is refused exactly if some stretch before it has exhausted its bucket. */
  lemma RefusedIff(events: seq<Event>, i: nat)
    requires Monotone(events) && i < |events| && events[i].Call?
    ensures !Next(Run(map[], events[..i]), events[i]).allowed <==> exists k :: 0 <= k < i && Exhausted(events, k, i, events[i].ip)
  {
    var ip := events[i].ip;
    AllowedIff(Run(map[], events[..i]), ip, events[i].time);
    FindsFills(events, i, ip);
    ShortIff(Finds(events, ip), Allows(events, ip), Times(events), i);
    forall k | 0 <= k < i ensures Exhausted(events, k, i, ip) <==> Left(Allows(events, ip), Times(events), k, i) <= PACKET_COST {
      PaidAllowed(events, k, i, ip);
      hide Run, Cost, Allowed, Allows;
    }
    hide Run, Next, Available, Fills, Left, Exhausted;
  }

  // ---------------------------------------------------------------- sweeping cannot be noticed

  /** The events without sweeps. */
  function Unswept(events: seq<Event>): seq<Event> {
    if events == [] then []
    else Unswept(events[..|events| - 1]) + if events[|events| - 1].Call? then [events[|events| - 1]] else []
  }

  /** Buckets are the same, except that some that have been idle for long have been thrown away. */
  ghost predicate Swept(table: Buckets, full: Buckets, now: int) {
    && (forall ip :: ip in table ==> ip in full && table[ip] == full[ip])
    && (forall ip :: ip in full && ip !in table ==> now - full[ip].lastTime > GARBAGE_COLLECT_TIME)
  }

  /** A bucket that has been idle for that long is full, like a new one. */
  lemma SameAnswer(table: Buckets, full: Buckets, now: int, e: Event)
    requires Swept(table, full, now) && Ok(full, now) && now <= e.time && e.Call?
    ensures Next(table, e).allowed == Next(full, e).allowed
    ensures Swept(Next(table, e).table, Next(full, e).table, e.time)
  {
  }

  lemma {:induction false} SweptRun(events: seq<Event>)
    requires Monotone(events) && events != []
    ensures var now := events[|events| - 1].time;
            Swept(Run(map[], events), Run(map[], Unswept(events)), now) && Ok(Run(map[], Unswept(events)), now)
  {
    var before, e := events[..|events| - 1], events[|events| - 1];
    var now := if before == [] then e.time else before[|before| - 1].time;
    if before == [] {
      assert Run(map[], before) == map[] && Unswept(before) == [];
      assert Run(map[], Unswept(before)) == map[];
    } else {
      SweptRun(before);
    }
    var table, full := Run(map[], before), Run(map[], Unswept(before));
    assert Swept(table, full, now) && Ok(full, now);
    if e.Call? {
      SameAnswer(table, full, now, e);
      NextOk(full, now, e);
      assert Unswept(events)[..|Unswept(events)| - 1] == Unswept(before);
    } else {
      assert Unswept(events) == Unswept(before);
    }
  }

  /** Every answer is the one of a limiter that never throws a bucket away. */
  lemma {:induction false} SweepInvisible(events: seq<Event>, i: nat)
    requires Monotone(events) && i < |events| && events[i].Call?
    ensures Next(Run(map[], events[..i]), events[i]).allowed == Next(Run(map[], Unswept(events[..i])), events[i]).allowed
  {
    if i == 0 {
      assert Run(map[], events[..0]) == map[] && Unswept(events[..0]) == [];
      assert Run(map[], Unswept(events[..0])) == map[];
    } else {
      SweptRun(events[..i]);
      SameAnswer(Run(map[], events[..i]), Run(map[], Unswept(events[..i])), events[i - 1].time, events[i]);
    }
  }

  // ---------------------------------------------------------------- calls that overlap

  /** A bucket of an address. */
  datatype Slot = Slot(ip: Addr, entry: Entry)

  /** What a call has found before it acts: no bucket, or one that may be thrown away or replaced in the meantime. */
  datatype Work = Missed(ip: Addr) | Holding(ip: Addr, id: nat)

  /** Buckets on the heap, the table that names those in use, and the calls under way. */
  datatype Machine = Machine(table: map<Addr, nat>, heap: seq<Slot>, works: map<nat, Work>)

  /** A call looks up its bucket under one lock and acts under another; each step carries the time of the clock. */
  datatype Step = Look(w: nat, ip: Addr, time: int) | Act(w: nat, time: int) | Collect(time: int)

  const EMPTY := Machine(map[], [], map[])

  ghost predicate Sane(m: Machine, now: int) {
    && (forall id :: 0 <= id < |m.heap| ==> m.heap[id].entry.lastTime <= now && 0 < m.heap[id].entry.tokens <= MAX_TOKENS)
    && (forall ip :: ip in m.table ==> m.table[ip] < |m.heap| && m.heap[m.table[ip]].ip == ip)
    && (forall w :: w in m.works && m.works[w].Holding? ==> m.works[w].id < |m.heap| && m.heap[m.works[w].id].ip == m.works[w].ip)
  }

  /** What a bucket holds at a time. */
  function Filled(e: Entry, now: int): int {
    Min(e.tokens + (now - e.lastTime), MAX_TOKENS)
  }

  /** Whether the call of worker `w` is allowed if it acts now. */
  predicate Granted(m: Machine, w: nat, now: int) {
    w in m.works && (m.works[w].Holding? ==> m.works[w].id < |m.heap| && Filled(m.heap[m.works[w].id].entry, now) > PACKET_COST)
  }

  function Acted(m: Machine, w: nat, now: int): Machine
    requires w in m.works && (m.works[w].Holding? ==> m.works[w].id < |m.heap|)
  {
    match m.works[w]
    case Missed(ip) => Machine(m.table[ip := |m.heap|], m.heap + [Slot(ip, Entry(now, MAX_TOKENS - PACKET_COST))], m.works - {w})
    case Holding(ip, id) =>
      var tokens := Filled(m.heap[id].entry, now) - if Granted(m, w, now) then PACKET_COST else 0;
      m.(heap := m.heap[id := m.heap[id].(entry := Entry(now, tokens))], works := m.works - {w})
  }

  function Outdated(m: Machine, now: int): set<Addr> {
    set ip | ip in m.table && m.table[ip] < |m.heap| && now - m.heap[m.table[ip]].entry.lastTime > GARBAGE_COLLECT_TIME
  }

  function After(m: Machine, step: Step): Machine {
    match step
    case Look(w, ip, _) => m.(works := m.works[w := if ip in m.table then Holding(ip, m.table[ip]) else Missed(ip)])
    case Act(w, now) => if w in m.works && (m.works[w].Holding? ==> m.works[w].id < |m.heap|) then Acted(m, w, now) else m
    case Collect(now) => m.(table := m.table - Outdated(m, now))
  }

  function RunSteps(m: Machine, steps: seq<Step>): Machine {
    if steps == [] then m else After(RunSteps(m, steps[..|steps| - 1]), steps[|steps| - 1])
  }

  predicate GrantedTo(m: Machine, step: Step, ip: Addr) {
    step.Act? && Granted(m, step.w, step.time) && m.works[step.w].ip == ip
  }

  /** How many calls of `ip` are allowed in the course of the steps. */
  function Grants(m: Machine, steps: seq<Step>, ip: Addr): nat {
    if steps == [] then 0
    else
      var before, step := steps[..|steps| - 1], steps[|steps| - 1];
      Grants(m, before, ip) + if GrantedTo(RunSteps(m, before), step, ip) then 1 else 0
  }

  /** What the next call that looks for its bucket would find. */
  function Level(m: Machine, ip: Addr, now: int): int {
    if ip in m.table && m.table[ip] < |m.heap| then Filled(m.heap[m.table[ip]].entry, now) else MAX_TOKENS
  }

  /**
   What an address gains when a call acts on what is no longer so: a call that missed refills a bucket made or used since, and
   a call that holds a bucket no longer in use is served from that one.
   */
  function Gain(m: Machine, step: Step, ip: Addr): int {
    if !GrantedTo(m, step, ip) then 0
    else
      match m.works[step.w]
      case Missed(_) => MAX_TOKENS - Level(m, ip, step.time)
      case Holding(_, id) => if ip in m.table && m.table[ip] == id then 0 else PACKET_COST
  }

  function Gains(m: Machine, steps: seq<Step>, ip: Addr): int {
    if steps == [] then 0
    else Gains(m, steps[..|steps| - 1], ip) + Gain(RunSteps(m, steps[..|steps| - 1]), steps[|steps| - 1], ip)
  }

  lemma SaneNext(m: Machine, now: int, step: Step)
    requires Sane(m, now) && now <= step.time
    ensures Sane(After(m, step), step.time)
  {
  }

  /** Tokens come from the clock and from gains only, and go to calls that are allowed. */
  lemma LevelNext(m: Machine, now: int, step: Step, ip: Addr)
    requires Sane(m, now) && now <= step.time
    ensures Level(After(m, step), ip, step.time) + (if GrantedTo(m, step, ip) then PACKET_COST else 0)
            == Level(m, ip, step.time) + Gain(m, step, ip)
    ensures 0 < Level(m, ip, step.time) <= MAX_TOKENS
  {
  }

  lemma LevelGrows(m: Machine, ip: Addr, t: int, u: int)
    requires t <= u
    ensures Level(m, ip, u) <= Level(m, ip, t) + (u - t)
  {
  }

  ghost predicate Ordered(steps: seq<Step>) {
    forall i, j :: 0 <= i < j < |steps| ==> steps[i].time <= steps[j].time
  }

  lemma {:induction false} RunSane(m: Machine, steps: seq<Step>, now: int)
    requires Sane(m, now) && Ordered(steps) && (steps != [] ==> now <= steps[0].time)
    ensures Sane(RunSteps(m, steps), if steps == [] then now else steps[|steps| - 1].time)
  {
    if steps != [] {
      var before := steps[..|steps| - 1];
      RunSane(m, before, now);
      SaneNext(RunSteps(m, before), if before == [] then now else before[|before| - 1].time, steps[|steps| - 1]);
    }
  }

  lemma {:induction false} Served(m: Machine, steps: seq<Step>, now: int, ip: Addr)
    requires Sane(m, now) && Ordered(steps) && steps != [] && now <= steps[0].time
    ensures var last := steps[|steps| - 1].time;
            Cost(Grants(m, steps, ip)) + Level(RunSteps(m, steps), ip, last) <= MAX_TOKENS + (last - steps[0].time) + Gains(m, steps, ip)
  {
    hide After, Level, Sane, Cost, Gain, GrantedTo;
    var before, step := steps[..|steps| - 1], steps[|steps| - 1];
    var n := Grants(m, before, ip);
    RunSane(m, before, now);
    CostNext(n);
    if before == [] {
      assert RunSteps(m, []) == m && n == 0 && Gains(m, before, ip) == 0;
      CostNone();
      LevelNext(m, now, step, ip);
    } else {
      var earlier := before[|before| - 1].time;
      Served(m, before, now, ip);
      LevelNext(RunSteps(m, before), earlier, step, ip);
      LevelGrows(RunSteps(m, before), ip, earlier, step.time);
      assert before[0] == steps[0];
    }
  }

  lemma CostNone()
    ensures Cost(0) == 0
  {
  }

  /** In any stretch of any run, however calls overlap, an address is allowed less than a full bucket, the time that passes and its gains. */
  lemma OverlapBounded(steps: seq<Step>, i: nat, j: nat, ip: Addr)
    requires Ordered(steps) && i < j <= |steps|
    ensures var m := RunSteps(EMPTY, steps[..i]);
            Cost(Grants(m, steps[i..j], ip)) < MAX_TOKENS + (steps[j - 1].time - steps[i].time) + Gains(m, steps[i..j], ip)
  {
    hide After, Level, Cost, Gain, GrantedTo;
    var m, stretch := RunSteps(EMPTY, steps[..i]), steps[i..j];
    RunSane(EMPTY, steps[..i], steps[0].time);
    var now := if i == 0 then steps[0].time else steps[i - 1].time;
    RunSane(m, stretch, now);
    Served(m, stretch, now, ip);
    LevelNext(RunSteps(m, stretch), stretch[|stretch| - 1].time, Collect(stretch[|stretch| - 1].time), ip);
  }

  /** What a call found still holds when it acts: there is no bucket, or a full one, or the one it holds. */
  predicate Undisturbed(m: Machine, step: Step) {
    step.Act? && Granted(m, step.w, step.time) ==>
      var work := m.works[step.w];
      if work.Missed? then work.ip in m.table ==> Level(m, work.ip, step.time) == MAX_TOKENS
      else work.ip in m.table && m.table[work.ip] == work.id
  }

  /** That is exactly when every address keeps its tokens, but for the cost of a call that is allowed. */
  lemma ConservedIff(m: Machine, now: int, step: Step)
    requires Sane(m, now) && now <= step.time
    ensures Undisturbed(m, step) <==>
            forall ip :: Level(After(m, step), ip, step.time) == Level(m, ip, step.time) - if GrantedTo(m, step, ip) then PACKET_COST else 0
  {
    hide After, Level;
    forall ip ensures
        (Level(After(m, step), ip, step.time) == Level(m, ip, step.time) - if GrantedTo(m, step, ip) then PACKET_COST else 0) <==>
        Gain(m, step, ip) == 0
    {
      LevelNext(m, now, step, ip);
    }
    if step.Act? && Granted(m, step.w, step.time) {
      var ip := m.works[step.w].ip;
      assert Undisturbed(m, step) <==> Gain(m, step, ip) == 0 by { Untabled(m, ip, step.time); }
      assert forall other :: other != ip ==> Gain(m, step, other) == 0;
    }
  }

  lemma Untabled(m: Machine, ip: Addr, now: int)
    ensures ip !in m.table ==> Level(m, ip, now) == MAX_TOKENS
  {
  }

  lemma {:induction false} NoGains(m: Machine, steps: seq<Step>, ip: Addr)
    requires forall k :: 0 <= k < |steps| ==> Undisturbed(RunSteps(m, steps[..k]), steps[k])
    ensures Gains(m, steps, ip) == 0
  {
    hide After;
    if steps != [] {
      var n := |steps| - 1;
      var before, s := steps[..n], RunSteps(m, steps[..n]);
      assert forall k :: 0 <= k < n ==> before[..k] == steps[..k];
      NoGains(m, before, ip);
      assert Undisturbed(s, steps[n]);
      Untabled(s, ip, steps[n].time);
    }
  }

  /** So the plain bound holds in every stretch in which no call is disturbed. */
  lemma UndisturbedBounded(steps: seq<Step>, i: nat, j: nat, ip: Addr)
    requires Ordered(steps) && i < j <= |steps|
    requires var m := RunSteps(EMPTY, steps[..i]); forall k :: 0 <= k < j - i ==> Undisturbed(RunSteps(m, steps[i..j][..k]), steps[i..j][k])
    ensures Cost(Grants(RunSteps(EMPTY, steps[..i]), steps[i..j], ip)) < MAX_TOKENS + (steps[j - 1].time - steps[i].time)
  {
    OverlapBounded(steps, i, j, ip);
    NoGains(RunSteps(EMPTY, steps[..i]), steps[i..j], ip);
  }

  // ---------------------------------------------------------------- and here neither

  /** A call that has found no bucket is allowed; one that holds a bucket, exactly if there is more in that one than it costs. */
  lemma GrantedIff(m: Machine, now: int, w: nat, time: int)
    requires Sane(m, now) && w in m.works
    ensures Granted(m, w, time) <==> m.works[w].Missed? || Fill(m, m.works[w].id, time) > PACKET_COST
  {
  }

  /** What a bucket holds at a time; one that is yet to be made is full. */
  function Fill(m: Machine, id: nat, now: int): int {
    if id < |m.heap| then Filled(m.heap[id].entry, now) else MAX_TOKENS
  }

  /** The step is a call that is allowed and that a bucket pays for, its first one too. */
  predicate PaidBy(m: Machine, step: Step, id: nat) {
    step.Act? && Granted(m, step.w, step.time) && id == if m.works[step.w].Missed? then |m.heap| else m.works[step.w].id
  }

  /** Whether it is in use or not, only the calls that it pays for take tokens out of a bucket. */
  lemma FillNext(m: Machine, now: int, step: Step, id: nat)
    requires Sane(m, now) && now <= step.time
    ensures Fill(After(m, step), id, step.time) == Fill(m, id, step.time) - if PaidBy(m, step, id) then PACKET_COST else 0
  {
  }

  lemma FillGrows(m: Machine, id: nat, t: int, u: int)
    requires t <= u
    ensures Fill(m, id, u) == Min(Fill(m, id, t) + (u - t), MAX_TOKENS)
  {
  }

  function PaidSteps(steps: seq<Step>, id: nat): nat -> bool {
    (j: nat) => j < |steps| && PaidBy(RunSteps(EMPTY, steps[..j]), steps[j], id)
  }

  function StepTimes(steps: seq<Step>): nat -> int {
    (j: nat) => if j < |steps| then steps[j].time else 0
  }

  /** What each step finds in a bucket. */
  function FillAt(steps: seq<Step>, id: nat): nat -> int {
    (j: nat) => if j < |steps| then Fill(RunSteps(EMPTY, steps[..j]), id, steps[j].time) else 0
  }

  lemma FillAtNext(steps: seq<Step>, j: nat, id: nat)
    requires Ordered(steps) && j + 1 < |steps|
    ensures FillsAt(FillAt(steps, id), PaidSteps(steps, id), StepTimes(steps), j)
  {
    var m, t := RunSteps(EMPTY, steps[..j]), steps[j].time;
    RunSane(EMPTY, steps[..j], if j == 0 then t else steps[..j][0].time);
    assert steps[..j + 1][..j] == steps[..j];
    assert RunSteps(EMPTY, steps[..j + 1]) == After(m, steps[j]);
    hide After, Sane, Fill, RunSteps;
    FillNext(m, if j == 0 then t else steps[j - 1].time, steps[j], id);
    FillGrows(After(m, steps[j]), id, t, steps[j + 1].time);
  }

  lemma FillAtFills(steps: seq<Step>, i: nat, id: nat)
    requires Ordered(steps) && i < |steps|
    ensures Fills(FillAt(steps, id), PaidSteps(steps, id), StepTimes(steps), i)
  {
    hide After, FillsAt;
    assert RunSteps(EMPTY, steps[..0]) == EMPTY;
    forall j | 0 <= j < i ensures FillsAt(FillAt(steps, id), PaidSteps(steps, id), StepTimes(steps), j) {
      FillAtNext(steps, j, id);
    }
  }

  /** In every run, however calls overlap, a call is refused exactly if some stretch before it has exhausted the bucket that it holds. */
  lemma OverlapRefusedIff(steps: seq<Step>, i: nat)
    requires Ordered(steps) && i < |steps| && steps[i].Act?
    requires steps[i].w in RunSteps(EMPTY, steps[..i]).works
    ensures var m := RunSteps(EMPTY, steps[..i]);
            !Granted(m, steps[i].w, steps[i].time) <==>
            m.works[steps[i].w].Holding? && exists k :: 0 <= k < i && Left(PaidSteps(steps, m.works[steps[i].w].id), StepTimes(steps), k, i) <= PACKET_COST
  {
    var m, w, t := RunSteps(EMPTY, steps[..i]), steps[i].w, steps[i].time;
    RunSane(EMPTY, steps[..i], if i == 0 then t else steps[..i][0].time);
    GrantedIff(m, if i == 0 then t else steps[i - 1].time, w, t);
    if m.works[w].Holding? {
      FillAtFills(steps, i, m.works[w].id);
      ShortIff(FillAt(steps, m.works[w].id), PaidSteps(steps, m.works[w].id), StepTimes(steps), i);
    }
    hide RunSteps, Granted, Fill, Fills, Left;
  }

  function Looks(ip: Addr, n: nat): seq<Step> {
    if n == 0 then [] else Looks(ip, n - 1) + [Look(n - 1, ip, 0)]
  }

  function Acts(n: nat): seq<Step> {
    if n == 0 then [] else Acts(n - 1) + [Act(n - 1, 0)]
  }

  lemma {:induction false} AllMiss(ip: Addr, n: nat)
    ensures var m := RunSteps(EMPTY, Looks(ip, n));
            m.table == map[] && m.heap == [] && forall w :: 0 <= w < n ==> w in m.works && m.works[w] == Missed(ip)
  {
    if n > 0 {
      AllMiss(ip, n - 1);
      assert Looks(ip, n)[..|Looks(ip, n)| - 1] == Looks(ip, n - 1);
    }
  }

  /** Any number of calls of a new address that all look before one of them acts are all allowed, at one moment. */
  lemma {:induction false} AllAllowed(ip: Addr, n: nat, k: nat)
    requires k <= n
    ensures var m := RunSteps(EMPTY, Looks(ip, n));
            && Grants(m, Acts(k), ip) == k
            && forall w :: k <= w < n ==> w in RunSteps(m, Acts(k)).works && RunSteps(m, Acts(k)).works[w] == Missed(ip)
  {
    hide After, GrantedTo;
    AllMiss(ip, n);
    if k > 0 {
      AllAllowed(ip, n, k - 1);
      assert Acts(k)[..|Acts(k)| - 1] == Acts(k - 1);
      OneMisses(RunSteps(RunSteps(EMPTY, Looks(ip, n)), Acts(k - 1)), k - 1, ip);
    }
  }

  lemma OneMisses(m: Machine, w: nat, ip: Addr)
    requires w in m.works && m.works[w] == Missed(ip)
    ensures GrantedTo(m, Act(w, 0), ip) && After(m, Act(w, 0)).works == m.works - {w}
  {
  }

  // ---------------------------------------------------------------- the limiter in memory

  class Limiter {
    var table: Buckets

    constructor Init()
      ensures table == map[]
    {
      table := map[];
    }

    method Cleanup(now: int) returns (empty: bool)
      modifies this
      ensures table == Next(old(table), Sweep(now)).table
      ensures empty == (table == map[])
    {
      var keys := table.Keys;
      while keys != {}
        invariant keys <= table.Keys && table.Keys <= old(table).Keys
        invariant forall ip :: ip in table ==> table[ip] == old(table)[ip]
        invariant forall ip :: ip in old(table) && ip !in table ==> ip in Stale(old(table), now)
        invariant forall ip :: ip in table && ip !in keys ==> ip !in Stale(old(table), now)
        decreases keys
      {
        var key :| key in keys;
        keys := keys - {key};
        if now - table[key].lastTime > GARBAGE_COLLECT_TIME {
          table := table - {key};
        }
      }
      assert table == old(table) - Stale(old(table), now);
      empty := |table| == 0;
    }

    method Allow(ip: Addr, now: int) returns (ok: bool)
      modifies this
      ensures Outcome(table, ok) == Next(old(table), Call(ip, now))
      ensures ok <==> Available(old(table), ip, now) > PACKET_COST
    {
      if ip !in table {
        table := table[ip := Entry(now, MAX_TOKENS - PACKET_COST)];
        return true;
      }
      var entry := table[ip];
      entry := Entry(now, entry.tokens + (now - entry.lastTime));
      if entry.tokens > MAX_TOKENS {
        entry := entry.(tokens := MAX_TOKENS);
      }
      if entry.tokens > PACKET_COST {
        entry := entry.(tokens := entry.tokens - PACKET_COST);
        table := table[ip := entry];
        return true;
      }
      table := table[ip := entry];
      return false;
    }
  }
}
