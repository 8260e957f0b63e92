/** What the supervisor does do: starts, restarts, gives up on and stops processes. */
module SupervisionLife {
  import opened Bytes
  import opened Supervision
  import opened SupervisionProofs
  import opened SupervisionPace
  import opened SupervisionStop

  // ---- an exit --------------------------------------------------------

  /** The process is to be restarted after this exit: its policy says so, and fewer than
      five restarts were scheduled in its 60-second window, or that window is over. */
  predicate RestartDue(x: Slot, e: Exit) {
    (x.p.policy == Always || (x.p.policy == OnFailure && e.failed))
    && (e.now > x.p.windowStart + 60 || |x.h.exits| - x.h.before < 5)
  }

  /** Which restart of its window this one is. */
  function Attempt(x: Slot, e: Exit): nat
    requires x.h.before <= |x.h.exits|
  {
    if e.now > x.p.windowStart + 60 then 1 else |x.h.exits| - x.h.before + 1
  }

  /** What becomes of a process whose child has ended: a restart, with a backoff of half a
      second per attempt rounded up to seconds, or none any more; after a shutdown neither. */
  ghost predicate Decided(x: Slot, y: Slot, e: Exit)
    requires x.h.before <= |x.h.exits|
  {
    y.p.pid == 0 && !y.p.shuttingDown && y.h.launches == x.h.launches
    && if x.p.shuttingDown then y.h.exits == x.h.exits && y.p.givenUp == x.p.givenUp
       else if RestartDue(x, e) then
         y.h.exits == x.h.exits + [e.now] && y.p.givenUp == x.p.givenUp
         && 0 <= 1000 * (y.p.nextStart - e.now) - 500 * Attempt(x, e) < 1000
       else y.h.exits == x.h.exits && y.p.givenUp
  }

  lemma ExitDecides(s: System, e: Exit)
    requires Ok(s) && e.pid in s.owner && Windows(s.slots[s.owner[e.pid]])
    ensures var i := s.owner[e.pid];
            e.pid in s.children && Decided(s.slots[i], ReapOne(s, e).slots[i], e)
  {
    var i := s.owner[e.pid];
    ReapOneOk(s, e);
    assert SlotOk(s.slots[i], i, s.signals);
  }

  // ---- a tick ---------------------------------------------------------

  /** fork() has `n` children to offer, all new. */
  ghost predicate Plenty(s: System, forks: seq<int>, n: nat) {
    n <= |forks| && (forall k :: 0 <= k < |forks| ==> Forks(s, forks[k]))
    && forall j, k :: 0 <= j < k < |forks| ==> forks[j] != forks[k]
  }

  /** The process has no child, is to have one, and its time has come. */
  predicate Waiting(p: Proc, now: int) {
    p.pid == 0 && !p.givenUp && !p.shuttingDown && p.nextStart <= now
  }

  /** It was asked to stop, has not, and its time is up. */
  predicate Overdue(p: Proc, now: int) {
    p.shuttingDown && p.pid != 0 && !p.killSent && p.killDeadline <= now
  }

  /** The process has been launched once more. */
  predicate Launched(x: Slot, y: Slot) {
    y.p.pid != 0 && y.h.launches == x.h.launches + 1 && y.p == x.p.(pid := y.p.pid)
  }

  /** What a tick makes of a slot. */
  predicate Ticked(x: Slot, y: Slot, now: int) {
    if Waiting(x.p, now) then Launched(x, y)
    else if Overdue(x.p, now) then y == x.(p := x.p.(killSent := true))
    else y == x
  }

  /** The signal a tick owes to a slot's child. */
  function KillDue(x: Slot, i: nat, now: int): seq<Signal> {
    if Overdue(x.p, now) then [Kill(i, x.p.pid, x.h.launches, now, x.h.request)] else []
  }

  lemma TickSlotExact(s: System, i: nat, now: int, forks: seq<int>)
    requires Index(s, i) && Plenty(s, forks, 1)
    ensures var r := TickSlot(s, i, now, Offer(forks));
            |r.slots| == |s.slots| && Ticked(s.slots[i], r.slots[i], now)
            && (forall j :: 0 <= j < |s.slots| && j != i ==> r.slots[j] == s.slots[j])
            && r.signals == s.signals + KillDue(s.slots[i], i, now)
            && Plenty(r, if WouldLaunch(s.slots[i].p, now) then Rest(forks) else forks,
                      if Waiting(s.slots[i].p, now) then |forks| - 1 else |forks|)
  {
    assert Forks(s, forks[0]);
  }

  /** Those it owes to the slots from `i` on. */
  function KillsDue(s: System, i: nat, now: int): seq<Signal>
    requires i <= |s.slots|
    decreases |s.slots| - i
  {
    if i == |s.slots| then [] else KillDue(s.slots[i], i, now) + KillsDue(s, i + 1, now)
  }

  lemma {:induction false} KillsDueSame(s: System, r: System, i: nat, now: int)
    requires i <= |s.slots| == |r.slots| && forall j :: i <= j < |s.slots| ==> r.slots[j] == s.slots[j]
    ensures KillsDue(s, i, now) == KillsDue(r, i, now)
    decreases |s.slots| - i
  {
    if i < |s.slots| {
      KillsDueSame(s, r, i + 1, now);
    }
  }

  /** What a tick from slot `i` on makes of the table. */
  ghost predicate TickedFrom(s: System, i: nat, now: int, r: System)
    requires i <= |s.slots|
  {
    |r.slots| == |s.slots| && r.signals == s.signals + KillsDue(s, i, now)
    && (forall j :: 0 <= j < i ==> r.slots[j] == s.slots[j])
    && forall j :: i <= j < |s.slots| ==> Ticked(s.slots[j], r.slots[j], now)
  }

  lemma {:induction false} TickFromExact(s: System, i: nat, now: int, forks: seq<int>)
    requires i <= |s.slots| && Plenty(s, forks, |s.slots| - i)
    ensures TickedFrom(s, i, now, Tick(s, i, now, forks))
    decreases |s.slots| - i
  {
    if i < |s.slots| {
      TickSlotExact(s, i, now, forks);
      var s1 := TickSlot(s, i, now, Offer(forks));
      TickFromExact(s1, i + 1, now, if WouldLaunch(s.slots[i].p, now) then Rest(forks) else forks);
      TickedMore(s, i, now, s1, Tick(s, i, now, forks));
    }
  }

  lemma TickedMore(s: System, i: nat, now: int, s1: System, r: System)
    requires Index(s, i) && |s1.slots| == |s.slots| && Ticked(s.slots[i], s1.slots[i], now)
    requires forall j :: 0 <= j < |s.slots| && j != i ==> s1.slots[j] == s.slots[j]
    requires s1.signals == s.signals + KillDue(s.slots[i], i, now) && TickedFrom(s1, i + 1, now, r)
    ensures TickedFrom(s, i, now, r)
  {
    KillsDueSame(s, s1, i + 1, now);
    JoinAssoc(s.signals, KillDue(s.slots[i], i, now), KillsDue(s, i + 1, now));
    forall j | i <= j < |s.slots|
      ensures Ticked(s.slots[j], r.slots[j], now)
    {
      if i < j {
        assert Ticked(s1.slots[j], r.slots[j], now);
      }
    }
  }

  /** A tick for which fork() works: every process waiting for its time is launched, every
      overdue one is sent SIGKILL, and nothing else happens to any. */
  lemma TickExact(s: System, now: int, forks: seq<int>, i: nat)
    requires Plenty(s, forks, |s.slots|) && Index(s, i)
    ensures var r := Tick(s, 0, now, forks);
            Ticked(s.slots[i], r.slots[i], now) && r.signals == s.signals + KillsDue(s, 0, now)
  {
    TickFromExact(s, 0, now, forks);
  }

  // ---- from exit to restart, on every run -----------------------------

  /** After every run: a child that ends and is due for a restart is followed by another at
      the first tick three seconds later, if fork() works; without one due, by none. */
  lemma ExitIsFollowed(es: seq<Event>, e: Exit, at: int, forks: seq<int>)
    requires InOrder(es, 0) && e.pid in Run(NOTHING, es).owner && e.now + 3 <= at
    requires var s := Step(Run(NOTHING, es), DoReap([e])); Plenty(s, forks, |s.slots|)
    ensures var s := Run(NOTHING, es);
            var i := s.owner[e.pid];
            i < |s.slots| && e.pid in s.children && s.slots[i].p.pid == e.pid
            && var x, y := s.slots[i], Step(Step(s, DoReap([e])), DoTick(at, forks)).slots[i];
               (!x.p.shuttingDown && !x.p.givenUp && RestartDue(x, e) ==>
                  y.p.pid != 0 && y.h.launches == x.h.launches + 1)
               && (!x.p.shuttingDown && !RestartDue(x, e) ==> y.p.pid == 0 && y.p.givenUp && y.h.launches == x.h.launches)
  {
    RunOk(NOTHING, es);
    RunPaced(NOTHING, es, 0);
    var s := Run(NOTHING, es);
    assert Paced(s.slots[s.owner[e.pid]], FinalClock(es, 0));
    ReapOfOne(s, e);
    ExitFollowed(s, e, at, forks);
  }

  lemma ExitFollowed(s: System, e: Exit, at: int, forks: seq<int>)
    requires Ok(s) && e.pid in s.owner && Windows(s.slots[s.owner[e.pid]]) && e.now + 3 <= at
    requires Plenty(ReapOne(s, e), forks, |s.slots|)
    ensures var i := s.owner[e.pid];
            var x, y := s.slots[i], Tick(ReapOne(s, e), 0, at, forks).slots[i];
            (!x.p.shuttingDown && !x.p.givenUp && RestartDue(x, e) ==>
               y.p.pid != 0 && y.h.launches == x.h.launches + 1)
            && (!x.p.shuttingDown && !RestartDue(x, e) ==> y.p.pid == 0 && y.p.givenUp && y.h.launches == x.h.launches)
  {
    ExitDecides(s, e);
    TickExact(ReapOne(s, e), at, forks, s.owner[e.pid]);
  }

  lemma ReapOfOne(s: System, e: Exit)
    requires e.pid in s.children
    ensures Step(s, DoReap([e])) == ReapOne(s, e)
  {
    var es := [e];
    assert es[0] == e && es[1..] == [];
    assert Reap(s, es) == Reap(ReapOne(s, e), []);
  }

  /** One call reaps all children that have ended, and no other. */
  lemma {:induction false} AllAreReaped(s: System, exits: seq<Exit>, pid: nat)
    requires forall k :: 0 <= k < |exits| ==> exits[k].pid in s.children
    requires forall j, k :: 0 <= j < k < |exits| ==> exits[j].pid != exits[k].pid
    ensures pid in Reap(s, exits).children <==>
              pid in s.children && forall k :: 0 <= k < |exits| ==> exits[k].pid != pid
    decreases |exits|
  {
    if exits != [] {
      var r, rest := ReapOne(s, exits[0]), exits[1..];
      assert r.children == s.children - {exits[0].pid};
      AllAreReaped(r, rest, pid);
      assert forall k :: 0 < k < |exits| ==> exits[k] == rest[k - 1];
    }
  }

  // ---- starting and stopping ------------------------------------------

  /** A process starts afresh: running, wanted, and with all its restarts before it. */
  predicate Afresh(x: Slot, y: Slot) {
    y.p.pid != 0 && y.h.launches == x.h.launches + 1 && y.h.starts == x.h.starts + 1
    && !y.p.givenUp && y.h.exits == [] && y.h.before == 0 && y.p.shuttingDown == x.p.shuttingDown
    && y.p.name == x.p.name && y.p.policy == x.p.policy
  }

  lemma StartSlotExact(s: System, i: nat, now: int, pid: int)
    requires Index(s, i)
    ensures var x, y := s.slots[i], StartSlot(s, i, now, pid).slots[i];
            (x.p.pid == 0 && Forks(s, pid) ==> Afresh(x, y) && y.p.pid == pid)
            && (x.p.pid != 0 ==> y.p.pid == x.p.pid && y.h.launches == x.h.launches && !y.p.givenUp && y.h.exits == [])
  {
  }

  /** Names are looked up from the first slot on. */
  lemma {:induction false} NamedFirst(s: System, name: string, i: nat, j: nat)
    requires i <= j < |s.slots| && s.slots[j].p.name == name
    ensures i <= Named(s, name, i) <= j
    decreases |s.slots| - i
  {
    if s.slots[i].p.name != name {
      NamedFirst(s, name, i + 1, j);
    }
  }

  /** pm_start_one() of a process that does not run. */
  lemma StartOneStarts(s: System, name: string, now: int, pid: int)
    requires Named(s, name, 0) < |s.slots| && s.slots[Named(s, name, 0)].p.pid == 0 && Forks(s, pid)
    ensures var i, r := Named(s, name, 0), StartOne(s, name, now, pid);
            |r.slots| == |s.slots| && Afresh(s.slots[i], r.slots[i]) && r.slots[i].p.pid == pid
            && forall j :: 0 <= j < |s.slots| && j != i ==> r.slots[j] == s.slots[j]
  {
    StartSlotExact(s, Named(s, name, 0), now, pid);
  }

  lemma {:induction false} StartAllFrom(s: System, i: nat, now: int, forks: seq<int>, j: nat)
    requires i <= |s.slots| && Plenty(s, forks, |s.slots| - i) && Index(s, j)
    ensures var x, y := s.slots[j], StartAll(s, i, now, forks).slots[j];
            if j < i then y == x
            else if x.p.pid == 0 then Afresh(x, y)
            else y.p.pid == x.p.pid && y.h.launches == x.h.launches && !y.p.givenUp && y.h.exits == []
    decreases |s.slots| - i
  {
    if i < |s.slots| {
      assert Forks(s, forks[0]);
      StartSlotExact(s, i, now, Offer(forks));
      var r := StartSlot(s, i, now, Offer(forks));
      var rest := if s.slots[i].p.pid == 0 then Rest(forks) else forks;
      assert Plenty(r, rest, |s.slots| - i - 1);
      StartAllFrom(r, i + 1, now, rest, j);
    }
  }

  /** pm_start_all() for which fork() works: every process that did not run does. */
  lemma StartAllStarts(s: System, now: int, forks: seq<int>, i: nat)
    requires Plenty(s, forks, |s.slots|) && Index(s, i)
    ensures var x, y := s.slots[i], StartAll(s, 0, now, forks).slots[i];
            y.p.pid != 0 && !y.p.givenUp && y.h.exits == [] && (x.p.pid == 0 ==> Afresh(x, y))
  {
    StartAllFrom(s, 0, now, forks, i);
  }

  /** A registered process waits for its first launch from the start of the clock; there is
      room for 16. */
  lemma AddedWaits(s: System, name: string, policy: Policy, now: int)
    requires 0 <= now
    ensures |s.slots| >= 16 ==> Add(s, name, policy) == s
    ensures var r := Add(s, name, policy);
            |s.slots| < 16 ==>
            |r.slots| == |s.slots| + 1 && r.slots[..|s.slots|] == s.slots
            && var x := r.slots[|s.slots|];
               x.p.name == name && x.p.policy == policy && Waiting(x.p, now) && x.h.launches == 0
  {
  }

  /** pm_shutdown_one() of a running process: SIGTERM at once; SIGKILL at the first tick
      when the time asked for is up, in whole seconds, if the child is still there; and no
      launch before an explicit start, whatever else comes. */
  lemma StopOneStops(s: System, name: string, now: int, ms: nat, at: int, forks: seq<int>, es: seq<Event>)
    requires Ok(s) && Named(s, name, 0) < |s.slots| && s.slots[Named(s, name, 0)].p.pid != 0
    requires Plenty(StopOne(s, name, now, ms), forks, |s.slots|)
    requires forall k :: 0 <= k < |es| ==> StartFree(es[k])
    ensures var i, r := Named(s, name, 0), StopOne(s, name, now, ms);
            var x, deadline := s.slots[i], r.slots[i].p.killDeadline;
            0 <= 1000 * (deadline - now) - ms < 1000
            && r.signals == s.signals + [Term(i, x.p.pid, x.h.launches, deadline)]
            && (Tick(r, 0, at, forks).slots[i].p.killSent <==> deadline <= at)
            && i < |Run(r, es).slots| && Run(r, es).slots[i].h.launches == x.h.launches
  {
    var i, r := Named(s, name, 0), StopOne(s, name, now, ms);
    StopOneMarks(s, name, now, ms);
    TickExact(r, at, forks, i);
    GivenUpIsFinal(r, es, i);
  }

  /** pm_shutdown_one() of a process that does not run: it is not launched again. */
  lemma StopOneIdle(s: System, name: string, now: int, ms: int, es: seq<Event>)
    requires Ok(s) && Named(s, name, 0) < |s.slots| && s.slots[Named(s, name, 0)].p.pid == 0
    requires forall k :: 0 <= k < |es| ==> StartFree(es[k])
    ensures var i, r := Named(s, name, 0), StopOne(s, name, now, ms);
            r.signals == s.signals && i < |Run(r, es).slots| && Run(r, es).slots[i] == r.slots[i]
            && r.slots[i].p.pid == 0 && r.slots[i].h.launches == s.slots[i].h.launches
  {
    StopOneOk(s, name, now, ms);
    GivenUpIsFinal(StopOne(s, name, now, ms), es, Named(s, name, 0));
  }
}
