/** How often the supervisor restarts a process, on every run of a clock that does
    not go back. */
module SupervisionPace {
  import opened Counting
  import opened Supervision
  import opened SupervisionProofs

  /** Eleven scheduled restarts never fit into one window's length. */
  predicate Spread(exits: seq<int>) {
    forall i, j :: 0 <= i < |exits| && i + 2 * MAX_ATTEMPTS <= j < |exits| ==> exits[j] > exits[i] + WINDOW
  }

  /** The exits that scheduled a restart fall into windows, of at most five each: those
      before `prev`, those of the previous window, those of the current one. */
  predicate Windows(x: Slot) {
    var h, p := x.h, x.p;
    && h.prev <= h.before <= |h.exits| && h.before - h.prev <= MAX_ATTEMPTS && |h.exits| - h.before <= MAX_ATTEMPTS
    && (p.attempts <= MAX_ATTEMPTS ==> |h.exits| - h.before == p.attempts)
    && h.prevStart + WINDOW < p.windowStart
    && (forall k :: 0 <= k < h.prev ==> h.exits[k] < h.prevStart)
    && (forall k :: 0 <= k < h.before ==> h.exits[k] < p.windowStart)
    && (forall k :: h.before <= k < |h.exits| ==> p.windowStart <= h.exits[k] <= p.windowStart + WINDOW)
  }

  /** A restart that is due waits for the backoff of the last exit. */
  predicate BacksOff(x: Slot) {
    x.p.pid == 0 && !x.p.givenUp && x.h.exits != [] ==>
      x.p.nextStart == x.h.exits[|x.h.exits| - 1] + DelaySec(x.p.attempts)
  }

  predicate Paced(x: Slot, clock: int) {
    x.p.windowStart <= clock && Spread(x.h.exits) && Windows(x) && BacksOff(x)
    && (x.p.shuttingDown && !x.p.givenUp ==> x.h.exits == [])
  }

  ghost predicate AllPaced(s: System, clock: int) {
    forall i :: 0 <= i < |s.slots| ==> Paced(s.slots[i], clock)
  }

  lemma RescheduleWindows(x: Slot, now: int)
    requires Windows(x) && x.p.attempts <= MAX_ATTEMPTS && x.p.windowStart <= now
    ensures Windows(Reschedule(x, now))
  {
  }

  lemma RescheduleSpread(x: Slot, now: int)
    requires Windows(x) && Spread(x.h.exits) && x.p.attempts <= MAX_ATTEMPTS && x.p.windowStart <= now
    ensures Spread(Reschedule(x, now).h.exits)
  {
    RescheduleWindows(x, now);
    var y := Reschedule(x, now);
    if y.h.exits != x.h.exits {
      var n := |x.h.exits|;
      assert y.h.exits == x.h.exits + [now];
      forall i | 0 <= i && i + 2 * MAX_ATTEMPTS <= n
        ensures now > y.h.exits[i] + WINDOW
      {
        assert i < y.h.prev;
      }
    }
  }

  lemma ReschedulePaced(x: Slot, now: int)
    requires Windows(x) && Spread(x.h.exits) && x.p.attempts <= MAX_ATTEMPTS && x.p.windowStart <= now
    requires x.p.pid == 0 && !x.p.shuttingDown
    ensures Paced(Reschedule(x, now), now)
  {
    RescheduleWindows(x, now);
    RescheduleSpread(x, now);
  }

  lemma EndedPaced(x: Slot, e: Exit, clock: int)
    requires Paced(x, clock) && Disciplined(x) && x.p.pid != 0 && clock <= e.now
    ensures Paced(Ended(x, e), e.now)
  {
    var y := x.(p := x.p.(pid := 0));
    assert Windows(y);
    if !y.p.shuttingDown && (y.p.policy == Always || (y.p.policy == OnFailure && e.failed)) {
      ReschedulePaced(y, e.now);
    } else {
      var z := Ended(x, e);
      assert z.h == x.h && z.p.windowStart == x.p.windowStart && z.p.attempts == x.p.attempts;
      assert Windows(z);
    }
  }

  // ---- lifted to whole runs -------------------------------------------

  lemma StartSlotPaced(s: System, i: nat, now: int, pid: int, clock: int)
    requires i < |s.slots| && AllPaced(s, clock) && clock <= now
    ensures AllPaced(StartSlot(s, i, now, pid), now)
  {
    assert Paced(Restarted(s.slots[i], now), now);
  }

  lemma {:induction false} StartAllPaced(s: System, i: nat, now: int, forks: seq<int>, clock: int)
    requires i <= |s.slots| && AllPaced(s, clock) && clock <= now
    ensures AllPaced(StartAll(s, i, now, forks), now)
    decreases |s.slots| - i
  {
    if i < |s.slots| {
      var s1 := StartSlot(s, i, now, Offer(forks));
      StartSlotPaced(s, i, now, Offer(forks), clock);
      StartAllPaced(s1, i + 1, now, if s.slots[i].p.pid == 0 then Rest(forks) else forks, now);
    }
  }

  lemma TickSlotPaced(s: System, i: nat, now: int, pid: int, clock: int)
    requires Index(s, i) && AllPaced(s, clock)
    ensures AllPaced(TickSlot(s, i, now, pid), clock)
  {
    assert Paced(s.slots[i], clock);
    var r := TickSlot(s, i, now, pid);
    assert Paced(r.slots[i], clock);
  }

  lemma {:induction false} TickPaced(s: System, i: nat, now: int, forks: seq<int>, clock: int)
    requires i <= |s.slots| && AllPaced(s, clock) && clock <= now
    ensures AllPaced(Tick(s, i, now, forks), now)
    decreases |s.slots| - i
  {
    if i < |s.slots| {
      var s1 := TickSlot(s, i, now, Offer(forks));
      TickSlotPaced(s, i, now, Offer(forks), clock);
      TickPaced(s1, i + 1, now, if WouldLaunch(s.slots[i].p, now) then Rest(forks) else forks, clock);
    }
  }

  /** The clock does not go back between exits. */
  predicate Timely(exits: seq<Exit>, clock: int) {
    exits == [] || (clock <= exits[0].now && Timely(exits[1..], exits[0].now))
  }

  function EndOf(exits: seq<Exit>, clock: int): int {
    if exits == [] then clock else EndOf(exits[1..], exits[0].now)
  }

  lemma {:induction false} EndAfter(exits: seq<Exit>, clock: int)
    requires Timely(exits, clock)
    ensures clock <= EndOf(exits, clock)
  {
    if exits != [] {
      EndAfter(exits[1..], exits[0].now);
    }
  }

  lemma {:induction false} ReapPaced(s: System, exits: seq<Exit>, clock: int)
    requires Ok(s) && AllPaced(s, clock) && Timely(exits, clock)
    ensures AllPaced(Reap(s, exits), EndOf(exits, clock))
    decreases |exits|
  {
    EndAfter(exits, clock);
    if exits != [] && exits[0].pid in s.children {
      var e := exits[0];
      var r := ReapOne(s, e);
      ReapOneOk(s, e);
      forall i | 0 <= i < |r.slots|
        ensures Paced(r.slots[i], e.now)
      {
        assert Paced(s.slots[i], clock) && SlotOk(s.slots[i], i, s.signals);
        if s.slots[i].p.pid == e.pid {
          EndedPaced(s.slots[i], e, clock);
        }
      }
      ReapPaced(r, exits[1..], e.now);
    }
  }

  /** The event happens at `clock` or later, if it has a time at all. */
  predicate After(e: Event, clock: int) {
    match e
    case DoStartAll(now, _) => clock <= now
    case DoStartOne(_, now, _) => clock <= now
    case DoTick(now, _) => clock <= now
    case DoReap(exits) => Timely(exits, clock)
    case DoStopOne(_, now, _) => clock <= now
    case _ => true
  }

  function Later(e: Event, clock: int): int {
    match e
    case DoStartAll(now, _) => now
    case DoStartOne(_, now, _) => now
    case DoTick(now, _) => now
    case DoReap(exits) => EndOf(exits, clock)
    case DoStopOne(_, now, _) => now
    case _ => clock
  }

  lemma StepPaced(s: System, e: Event, clock: int)
    requires Ok(s) && AllPaced(s, clock) && After(e, clock) && 0 <= clock
    ensures AllPaced(Step(s, e), Later(e, clock)) && clock <= Later(e, clock)
  {
    match e {
      case DoStartAll(now, forks) => StartAllPaced(s, 0, now, forks, clock);
      case DoTick(now, forks) => TickPaced(s, 0, now, forks, clock);
      case DoReap(exits) =>
        EndAfter(exits, clock);
        ReapPaced(s, exits, clock);
      case DoStartOne(name, now, pid) =>
        if Named(s, name, 0) < |s.slots| {
          StartSlotPaced(s, Named(s, name, 0), now, pid, clock);
        }
      case DoStopOne(name, now, timeoutMs) => StopOnePaced(s, name, now, timeoutMs, clock);
      case DoAdd(name, policy) => AddPaced(s, name, policy, clock);
      case Stray(pid) =>
    }
  }

  lemma StopOnePaced(s: System, name: string, now: int, timeoutMs: int, clock: int)
    requires AllPaced(s, clock) && clock <= now
    ensures AllPaced(StopOne(s, name, now, timeoutMs), now)
  {
    var i, r := Named(s, name, 0), StopOne(s, name, now, timeoutMs);
    if i < |s.slots| {
      assert Paced(s.slots[i], clock);
      assert Windows(r.slots[i]);
    }
  }

  lemma AddPaced(s: System, name: string, policy: Policy, clock: int)
    requires AllPaced(s, clock) && 0 <= clock
    ensures AllPaced(Add(s, name, policy), clock)
  {
  }

  predicate InOrder(es: seq<Event>, clock: int)
    decreases |es|
  {
    es == [] || (After(es[0], clock) && InOrder(es[1..], Later(es[0], clock)))
  }

  function FinalClock(es: seq<Event>, clock: int): int
    decreases |es|
  {
    if es == [] then clock else FinalClock(es[1..], Later(es[0], clock))
  }

  lemma {:induction false} RunPaced(s: System, es: seq<Event>, clock: int)
    requires Ok(s) && AllPaced(s, clock) && InOrder(es, clock) && 0 <= clock
    ensures AllPaced(Run(s, es), FinalClock(es, clock))
    decreases |es|
  {
    if es != [] {
      StepOk(s, es[0]);
      StepPaced(s, es[0], clock);
      RunPaced(Step(s, es[0]), es[1..], Later(es[0], clock));
    }
  }

  // ---- what this means ------------------------------------------------

  /** The scheduled restarts between `t` and `t` + 60. */
  function Within(exits: seq<int>, t: int): set<nat> {
    set k: nat | k < |exits| && t <= exits[k] <= t + 60
  }

  lemma AtMostTen(exits: seq<int>, t: int)
    requires Spread(exits)
    ensures |Within(exits, t)| <= 2 * MAX_ATTEMPTS
  {
    var s := Within(exits, t);
    if s != {} {
      var m := Least(s);
      SubsetCount(s, Range(m, 2 * MAX_ATTEMPTS));
    }
  }

  lemma {:induction false} Least(s: set<nat>) returns (m: nat)
    requires s != {}
    ensures m in s && forall k <- s :: m <= k
    decreases |s|
  {
    var x :| x in s;
    m := x;
    if s != {x} {
      var l := Least(s - {x});
      m := if l < x then l else x;
      assert forall k <- s :: k == x || k in s - {x};
    }
  }

  /** A tick launches a process only if its turn has come. */
  lemma {:induction false} TickLaunches(s: System, j: nat, now: int, forks: seq<int>, i: nat)
    requires j <= |s.slots| && Index(s, i)
    ensures var y := Tick(s, j, now, forks).slots[i];
            if j <= i then y.h.launches != s.slots[i].h.launches ==> WouldLaunch(s.slots[i].p, now)
            else y == s.slots[i]
    decreases |s.slots| - j
  {
    if j < |s.slots| {
      var s1 := TickSlot(s, j, now, Offer(forks));
      TickLaunches(s1, j + 1, now, if WouldLaunch(s.slots[j].p, now) then Rest(forks) else forks, i);
    }
  }

  lemma {:induction false} StartAllCounts(s: System, j: nat, now: int, forks: seq<int>, i: nat)
    requires j <= |s.slots| && Index(s, i)
    ensures StartAll(s, j, now, forks).slots[i].h.starts == s.slots[i].h.starts + if j <= i then 1 else 0
    decreases |s.slots| - j
  {
    if j < |s.slots| {
      var s1 := StartSlot(s, j, now, Offer(forks));
      StartAllCounts(s1, j + 1, now, if s.slots[j].p.pid == 0 then Rest(forks) else forks, i);
    }
  }

  lemma {:induction false} ReapLaunches(s: System, exits: seq<Exit>, i: nat)
    requires Index(s, i)
    ensures Reap(s, exits).slots[i].h.launches == s.slots[i].h.launches
    decreases |exits|
  {
    if exits != [] && exits[0].pid in s.children {
      ReapLaunches(ReapOne(s, exits[0]), exits[1..], i);
    }
  }

  /** From `x` to `y` the process was launched, and not by an explicit start. */
  predicate Relaunched(x: Slot, y: Slot) {
    y.h.launches != x.h.launches && y.h.starts == x.h.starts
  }

  /** What does that is a tick, when the process' turn has come. */
  lemma StepLaunches(s: System, e: Event, i: nat)
    requires Index(s, i)
    ensures Index(Step(s, e), i)
    ensures Relaunched(s.slots[i], Step(s, e).slots[i]) ==> e.DoTick? && WouldLaunch(s.slots[i].p, e.now)
  {
    match e {
      case DoTick(now, forks) => TickLaunches(s, 0, now, forks, i);
      case DoStartAll(now, forks) => StartAllCounts(s, 0, now, forks, i);
      case DoReap(exits) => ReapLaunches(s, exits, i);
      case _ =>
    }
  }

  /** On every run, since its last explicit start: a process is rescheduled at most five
      times in its current window and at most ten times in any 60 seconds. */
  lemma RestartsAreThrottled(es: seq<Event>, i: nat, t: int)
    requires InOrder(es, 0) && i < |Run(NOTHING, es).slots|
    ensures var x := Run(NOTHING, es).slots[i];
            |Within(x.h.exits, t)| <= 10
            && x.h.before <= |x.h.exits| <= x.h.before + 5
            && (forall k :: 0 <= k < |x.h.exits| ==> (k < x.h.before <==> x.h.exits[k] < x.p.windowStart))
  {
    RunPaced(NOTHING, es, 0);
    var x := Run(NOTHING, es).slots[i];
    assert Paced(x, FinalClock(es, 0));
    AtMostTen(x.h.exits, t);
  }

  /** After every run, whatever comes next: if it launches the process without starting it
      anew, it is a tick, and the backoff of the last exit has passed. */
  lemma RestartsWait(es: seq<Event>, i: nat, e: Event)
    requires InOrder(es, 0) && i < |Run(NOTHING, es).slots|
    ensures var x, r := Run(NOTHING, es).slots[i], Step(Run(NOTHING, es), e);
            Index(r, i)
            && (Relaunched(x, r.slots[i]) ==>
                  e.DoTick? && (x.h.exits != [] ==> e.now >= x.h.exits[|x.h.exits| - 1] + DelaySec(x.p.attempts)))
  {
    RunPaced(NOTHING, es, 0);
    var s := Run(NOTHING, es);
    assert Paced(s.slots[i], FinalClock(es, 0));
    StepLaunches(s, e, i);
  }
}
