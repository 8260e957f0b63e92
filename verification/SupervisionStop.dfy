/** What stays stopped, and what stopping everything leaves behind. */
module SupervisionStop {
  import opened Supervision
  import opened SupervisionProofs

  // ---- giving up is final ---------------------------------------------

  predicate StartFree(e: Event) {
    !e.DoStartAll? && !e.DoStartOne?
  }

  /** The process may still end, but it will not be launched. */
  predicate StaysDown(x: Slot, y: Slot) {
    y.p.givenUp && y.h.launches == x.h.launches && (x.p.pid == 0 ==> y == x)
  }

  lemma {:induction false} TickStaysDown(s: System, j: nat, now: int, forks: seq<int>, i: nat)
    requires j <= |s.slots| && i < |s.slots| && s.slots[i].p.givenUp && Disciplined(s.slots[i])
    ensures StaysDown(s.slots[i], Tick(s, j, now, forks).slots[i])
    decreases |s.slots| - j
  {
    if j < |s.slots| {
      TickStaysDown(TickSlot(s, j, now, Offer(forks)), j + 1, now,
                    if WouldLaunch(s.slots[j].p, now) then Rest(forks) else forks, i);
    }
  }

  lemma {:induction false} ReapStaysDown(s: System, exits: seq<Exit>, i: nat)
    requires Ok(s) && i < |s.slots| && s.slots[i].p.givenUp
    ensures StaysDown(s.slots[i], Reap(s, exits).slots[i])
    decreases |exits|
  {
    if exits != [] && exits[0].pid in s.children {
      ReapOneOk(s, exits[0]);
      ReapStaysDown(ReapOne(s, exits[0]), exits[1..], i);
    }
  }

  lemma StepStaysDown(s: System, e: Event, i: nat)
    requires Ok(s) && i < |s.slots| && s.slots[i].p.givenUp && StartFree(e)
    ensures i < |Step(s, e).slots| && StaysDown(s.slots[i], Step(s, e).slots[i])
  {
    assert SlotOk(s.slots[i], i, s.signals);
    match e {
      case DoTick(now, forks) => TickStaysDown(s, 0, now, forks, i);
      case DoReap(exits) => ReapStaysDown(s, exits, i);
      case _ =>
    }
  }

  /** Once given up on or asked to stop, a process is not launched again before an
      explicit start, whatever ticks, exits and requests come; with its child gone it
      does not change at all. */
  lemma {:induction false} GivenUpIsFinal(s: System, es: seq<Event>, i: nat)
    requires Ok(s) && i < |s.slots| && s.slots[i].p.givenUp && forall k :: 0 <= k < |es| ==> StartFree(es[k])
    ensures i < |Run(s, es).slots| && StaysDown(s.slots[i], Run(s, es).slots[i])
    decreases |es|
  {
    if es != [] {
      StepOk(s, es[0]);
      StepStaysDown(s, es[0], i);
      GivenUpIsFinal(Step(s, es[0]), es[1..], i);
    }
  }

  // ---- stopping everything --------------------------------------------

  /** Only children went away, and with each the claim of its slot. */
  ghost predicate Winding(s: System, r: System) {
    Children(r) && |r.slots| == |s.slots| && r.children <= s.children
    && forall i :: 0 <= i < |s.slots| ==>
      r.slots[i] == s.slots[i].(p := s.slots[i].p.(pid := r.slots[i].p.pid))
      && (r.slots[i].p.pid == s.slots[i].p.pid || (r.slots[i].p.pid == 0 && s.slots[i].p.pid !in r.children))
  }

  lemma WindingTrans(s: System, r: System, t: System)
    requires Winding(s, r) && Winding(r, t)
    ensures Winding(s, t)
  {
    forall i | 0 <= i < |s.slots|
      ensures t.slots[i] == s.slots[i].(p := s.slots[i].p.(pid := t.slots[i].p.pid))
              && (t.slots[i].p.pid == s.slots[i].p.pid || (t.slots[i].p.pid == 0 && s.slots[i].p.pid !in t.children))
    {
      assert r.slots[i] == s.slots[i].(p := s.slots[i].p.(pid := r.slots[i].p.pid));
      assert t.slots[i] == r.slots[i].(p := r.slots[i].p.(pid := t.slots[i].p.pid));
    }
  }

  lemma ForgetWinds(s: System, i: nat)
    requires Children(s) && Index(s, i) && s.slots[i].p.pid != 0
    ensures Winding(s, Forget(s, i))
  {
    GoneChildren(s, i, s.slots[i].(p := s.slots[i].p.(pid := 0)));
  }

  lemma {:induction false} WaitWinds(s: System, timeoutMs: int, waits: seq<Wait>)
    requires Children(s)
    ensures Winding(s, WaitAll(s, timeoutMs, waits)) && WaitAll(s, timeoutMs, waits).signals == s.signals
    decreases |waits|
  {
    if AnyRunning(s) && waits != [] {
      match waits[0] {
        case Idle(ms) =>
          if ms < timeoutMs {
            WaitWinds(s, timeoutMs, waits[1..]);
          }
        case Reaped(pid) =>
          var i := WithPid(s, pid, 0);
          if pid !in s.children {
            WaitWinds(s, timeoutMs, waits[1..]);
          } else {
            var s1 := if i < |s.slots| then Forget(s, i) else Gone(s, pid);
            if i < |s.slots| {
              ForgetWinds(s, i);
            } else {
              assert pid !in s.owner;
            }
            assert Winding(s, s1);
            WaitWinds(s1, timeoutMs, waits[1..]);
            WindingTrans(s, s1, WaitAll(s, timeoutMs, waits));
          }
      }
    }
  }

  /** The child was reported dead before the time was up. */
  predicate InTime(waits: seq<Wait>, timeoutMs: int, pid: nat) {
    waits != []
    && match waits[0]
       case Idle(ms) => ms < timeoutMs && InTime(waits[1..], timeoutMs, pid)
       case Reaped(p) => p == pid || InTime(waits[1..], timeoutMs, pid)
  }

  /** The wait loop takes from a slot exactly the child reported in time. */
  lemma {:induction false} WaitSpares(s: System, timeoutMs: int, waits: seq<Wait>, i: nat)
    requires Children(s) && Index(s, i)
    ensures WaitAll(s, timeoutMs, waits).slots[i].p.pid ==
            if InTime(waits, timeoutMs, s.slots[i].p.pid) then 0 else s.slots[i].p.pid
    decreases |waits|
  {
    if AnyRunning(s) && waits != [] {
      match waits[0] {
        case Idle(ms) =>
          if ms < timeoutMs {
            WaitSpares(s, timeoutMs, waits[1..], i);
          }
        case Reaped(pid) =>
          if pid !in s.children {
            WaitSpares(s, timeoutMs, waits[1..], i);
          } else {
            var j := WithPid(s, pid, 0);
            if j < |s.slots| {
              ForgetWinds(s, j);
              assert i != j ==> s.slots[i].p.pid != pid;
              WaitSpares(Forget(s, j), timeoutMs, waits[1..], i);
            } else {
              assert pid !in s.owner;
              WaitSpares(Gone(s, pid), timeoutMs, waits[1..], i);
            }
          }
      }
    }
  }

  /** The signals pm_shutdown_all() owes to the children of slots `i` and up. */
  function Finals(s: System, i: nat, kill: bool): seq<Signal>
    requires i <= |s.slots|
    decreases |s.slots| - i
  {
    if i == |s.slots| then []
    else (if s.slots[i].p.pid != 0 then [FinalTo(s, i, kill)] else []) + Finals(s, i + 1, kill)
  }

  /** The signal is one to the present child of its slot. */
  predicate ToChild(s: System, e: Signal) {
    e.Final? && Index(s, e.slot) && e.pid != 0 && e == FinalTo(s, e.slot, e.kill)
  }

  lemma {:induction false} FinalsExact(s: System, i: nat, kill: bool, e: Signal)
    requires i <= |s.slots|
    ensures e in Finals(s, i, kill) <==> ToChild(s, e) && i <= e.slot && e.kill == kill
    decreases |s.slots| - i
  {
    if i < |s.slots| {
      FinalsExact(s, i + 1, kill, e);
    }
  }

  lemma {:induction false} FinalsSame(s: System, r: System, i: nat, kill: bool)
    requires i <= |s.slots| == |r.slots|
    requires forall j :: i <= j < |s.slots| ==> FinalTo(s, j, kill) == FinalTo(r, j, kill)
    ensures Finals(s, i, kill) == Finals(r, i, kill)
    decreases |s.slots| - i
  {
    if i < |s.slots| {
      FinalsSame(s, r, i + 1, kill);
      assert FinalTo(s, i, kill) == FinalTo(r, i, kill);
    }
  }

  function Marked(x: Slot): Slot {
    x.(p := x.p.(givenUp := true))
  }

  lemma {:induction false} MarkAllMarks(s: System, i: nat)
    requires i <= |s.slots|
    ensures var r := MarkAll(s, i);
            r.children == s.children && r.owner == s.owner
            && forall j :: 0 <= j < |s.slots| ==> r.slots[j] == if i <= j then Marked(s.slots[j]) else s.slots[j]
    decreases |s.slots| - i
  {
    if i < |s.slots| {
      MarkAllMarks(MarkSlot(s, i), i + 1);
    }
  }

  lemma {:induction false} MarkSends(s: System, i: nat)
    requires i <= |s.slots|
    ensures MarkAll(s, i).signals == s.signals + Finals(s, i, false)
    decreases |s.slots| - i
  {
    if i < |s.slots| {
      MarkSends(MarkSlot(s, i), i + 1);
      FinalsSame(s, MarkSlot(s, i), i + 1, false);
    }
  }

  lemma KillSlotWinds(s: System, i: nat)
    requires Children(s) && Index(s, i)
    ensures Winding(s, KillSlot(s, i)) && KillSlot(s, i).slots[i].p.pid == 0
    ensures forall j :: 0 <= j < |s.slots| && s.slots[j].p.pid == 0 ==> KillSlot(s, i).slots[j].p.pid == 0
  {
    if s.slots[i].p.pid != 0 {
      ForgetWinds(s, i);
    }
  }

  lemma {:induction false} KillWinds(s: System, i: nat)
    requires Children(s) && i <= |s.slots| && forall j :: 0 <= j < i ==> s.slots[j].p.pid == 0
    ensures Winding(s, KillAll(s, i)) && forall j :: 0 <= j < |s.slots| ==> KillAll(s, i).slots[j].p.pid == 0
    decreases |s.slots| - i
  {
    if i < |s.slots| {
      KillSlotWinds(s, i);
      KillWinds(KillSlot(s, i), i + 1);
      WindingTrans(s, KillSlot(s, i), KillAll(s, i));
    }
  }

  lemma {:induction false} KillSends(s: System, i: nat)
    requires i <= |s.slots|
    ensures KillAll(s, i).signals == s.signals + Finals(s, i, true)
    decreases |s.slots| - i
  {
    if i < |s.slots| {
      KillSends(KillSlot(s, i), i + 1);
      FinalsSame(s, KillSlot(s, i), i + 1, true);
    }
  }

  lemma MarkKeepsChildren(s: System)
    requires Children(s)
    ensures Children(MarkAll(s, 0))
  {
    MarkAllMarks(s, 0);
  }

  /** pm_shutdown_all() leaves every slot without a child and given up, and no child ever
      launched unreaped, however long the children took. */
  lemma StopAllStops(s: System, timeoutMs: int, waits: seq<Wait>)
    requires Children(s)
    ensures var r := StopAll(s, timeoutMs, waits);
            |r.slots| == |s.slots| && Children(r) && r.owner == map[]
            && forall i :: 0 <= i < |s.slots| ==>
              r.slots[i] == s.slots[i].(p := s.slots[i].p.(pid := 0, givenUp := true))
              && s.slots[i].p.pid !in r.children
  {
    var m := MarkAll(s, 0);
    MarkAllMarks(s, 0);
    MarkKeepsChildren(s);
    var w := WaitAll(m, timeoutMs, waits);
    WaitWinds(m, timeoutMs, waits);
    KillWinds(w, 0);
    WindingTrans(m, w, KillAll(w, 0));
  }

  lemma StopAllSends(s: System, timeoutMs: int, waits: seq<Wait>)
    requires Children(s)
    ensures StopAll(s, timeoutMs, waits).signals
            == s.signals + Finals(s, 0, false) + Finals(WaitAll(MarkAll(s, 0), timeoutMs, waits), 0, true)
  {
    MarkSends(s, 0);
    MarkKeepsChildren(s);
    WaitWinds(MarkAll(s, 0), timeoutMs, waits);
    KillSends(WaitAll(MarkAll(s, 0), timeoutMs, waits), 0);
  }

  /** Which signals it sends: SIGTERM to every child there is, then SIGKILL to exactly
      those not reported dead in time; no other child is sent any. */
  lemma StopAllSignals(s: System, timeoutMs: int, waits: seq<Wait>, e: Signal)
    requires Children(s)
    ensures var r := StopAll(s, timeoutMs, waits);
            s.signals + Finals(s, 0, false) <= r.signals
            && (e in r.signals[|s.signals|..] <==> ToChild(s, e) && (e.kill ==> !InTime(waits, timeoutMs, e.pid)))
  {
    var w := WaitAll(MarkAll(s, 0), timeoutMs, waits);
    StopAllSends(s, timeoutMs, waits);
    InEither(s.signals, Finals(s, 0, false), Finals(w, 0, true), e);
    FinalsExact(s, 0, false, e);
    FinalsExact(w, 0, true, e);
    StillThere(s, timeoutMs, waits, e);
  }

  lemma InEither(log: seq<Signal>, a: seq<Signal>, b: seq<Signal>, e: Signal)
    ensures e in (log + a + b)[|log|..] <==> e in a || e in b
  {
    assert (log + a + b)[|log|..] == a + b;
  }

  lemma StillThere(s: System, timeoutMs: int, waits: seq<Wait>, e: Signal)
    requires Children(s)
    ensures ToChild(WaitAll(MarkAll(s, 0), timeoutMs, waits), e)
            <==> ToChild(s, e) && !InTime(waits, timeoutMs, e.pid)
  {
    var m := MarkAll(s, 0);
    MarkAllMarks(s, 0);
    MarkKeepsChildren(s);
    WaitWinds(m, timeoutMs, waits);
    if e.Final? && Index(s, e.slot) {
      WaitSpares(m, timeoutMs, waits, e.slot);
      assert m.slots[e.slot] == Marked(s.slots[e.slot]);
    }
  }

  // ---- what stopping everything leaves behind -------------------------

  /** Signals of pm_shutdown_all() change nothing about the others. */
  lemma FinalsJustified(log: seq<Signal>, more: seq<Signal>)
    requires Justified(log) && forall k :: 0 <= k < |more| ==> more[k].Final?
    ensures Justified(log + more)
  {
    forall k | 0 <= k < |log + more|
      ensures Carries(log + more, k)
    {
      if k < |log| {
        assert Carries(log, k);
      }
    }
  }

  lemma StopAllJustified(s: System, timeoutMs: int, waits: seq<Wait>)
    requires Ok(s)
    ensures Justified(StopAll(s, timeoutMs, waits).signals)
  {
    StopAllSends(s, timeoutMs, waits);
    var more := Finals(s, 0, false) + Finals(WaitAll(MarkAll(s, 0), timeoutMs, waits), 0, true);
    forall k | 0 <= k < |more|
      ensures more[k].Final?
    {
      FinalsExact(s, 0, false, more[k]);
      FinalsExact(WaitAll(MarkAll(s, 0), timeoutMs, waits), 0, true, more[k]);
    }
    FinalsJustified(s.signals, more);
    assert StopAll(s, timeoutMs, waits).signals == s.signals + more;
  }

  /** It keeps the invariant of all runs exactly when no single shutdown was under way,
      for it does not clear their marks. */
  lemma StopAllExact(s: System, timeoutMs: int, waits: seq<Wait>)
    requires Ok(s)
    ensures Ok(StopAll(s, timeoutMs, waits)) <==> forall i :: 0 <= i < |s.slots| ==> !s.slots[i].p.shuttingDown
  {
    StopAllStops(s, timeoutMs, waits);
    StopAllJustified(s, timeoutMs, waits);
    var r := StopAll(s, timeoutMs, waits);
    forall i | 0 <= i < |s.slots|
      ensures SlotOk(r.slots[i], i, r.signals) <==> !s.slots[i].p.shuttingDown
    {
      assert SlotOk(s.slots[i], i, s.signals);
    }
  }

  lemma {:induction false} NamedSame(s: System, r: System, name: string, i: nat)
    requires i <= |s.slots| == |r.slots| && forall j :: 0 <= j < |s.slots| ==> s.slots[j].p.name == r.slots[j].p.name
    ensures Named(s, name, i) == Named(r, name, i)
    decreases |s.slots| - i
  {
    if i < |s.slots| {
      NamedSame(s, r, name, i + 1);
    }
  }

  /** A slot a tick has nothing to do for. */
  predicate AtRest(p: Proc) {
    p.pid == 0 && p.givenUp
  }

  /** With all other slots at rest, a tick is about the one that runs. */
  lemma {:induction false} TickAlone(s: System, from: nat, now: int, forks: seq<int>, i: nat)
    requires from <= |s.slots| && Index(s, i) && s.slots[i].p.pid != 0
    requires forall j :: 0 <= j < |s.slots| && j != i ==> AtRest(s.slots[j].p)
    ensures Tick(s, from, now, forks) == if from <= i then TickSlot(s, i, now, 0) else s
    decreases |s.slots| - from
  {
    if from < |s.slots| {
      var s1 := TickSlot(s, from, now, Offer(forks));
      assert from != i ==> AtRest(s.slots[from].p);
      TickAlone(s1, from + 1, now, if WouldLaunch(s.slots[from].p, now) then Rest(forks) else forks, i);
    }
  }

  /** The signal a process started after pm_shutdown_all() gets at a tick: none, unless a
      single shutdown of its predecessor was under way and had not come to its SIGKILL,
      and the old deadline has passed; then SIGKILL, though nobody asked it to stop. */
  lemma LeftoverMarkKills(s: System, name: string, timeoutMs: int, waits: seq<Wait>, now: int, pid: int,
                          at: int, forks: seq<int>)
    requires Ok(s) && Named(s, name, 0) < |s.slots| && Forks(StopAll(s, timeoutMs, waits), pid)
    ensures var i := Named(s, name, 0);
            var ended := StopAll(s, timeoutMs, waits);
            var started := StartOne(ended, name, now, pid);
            var x := s.slots[i];
            Index(started, i) && started.slots[i].p.pid == pid && started.slots[i].h.launches == x.h.launches + 1
            && Tick(started, 0, at, forks).signals == ended.signals +
                 if x.p.shuttingDown && !x.p.killSent && at >= x.p.killDeadline
                 then [Kill(i, pid, x.h.launches + 1, at, x.h.request)] else []
  {
    var i := Named(s, name, 0);
    var ended := StopAll(s, timeoutMs, waits);
    StopAllStops(s, timeoutMs, waits);
    NamedSame(s, ended, name, 0);
    var started := StartOne(ended, name, now, pid);
    forall j | 0 <= j < |started.slots| && j != i
      ensures AtRest(started.slots[j].p)
    {
      assert started.slots[j] == ended.slots[j];
    }
    TickAlone(started, 0, at, forks, i);
  }

  /** A whole run to it: stop one, stop all, start again, tick past the old deadline. The
      SIGKILL goes to a child that was never asked to stop, even if it has the same pid. */
  lemma LeftoverRun(s: System, name: string, stopAt: int, graceMs: int, timeoutMs: int, waits: seq<Wait>,
                    now: int, pid: int, at: int, forks: seq<int>)
    requires Ok(s) && Named(s, name, 0) < |s.slots| && s.slots[Named(s, name, 0)].p.pid != 0
    requires Forks(StopAll(StopOne(s, name, stopAt, graceMs), timeoutMs, waits), pid)
    requires at >= stopAt + WholeSec(graceMs)
    ensures var i := Named(s, name, 0);
            var ended := StopAll(StopOne(s, name, stopAt, graceMs), timeoutMs, waits);
            var r := Tick(StartOne(ended, name, now, pid), 0, at, forks);
            r.signals == ended.signals + [Kill(i, pid, s.slots[i].h.launches + 1, at, |s.signals|)]
            && !Carries(r.signals, |ended.signals|)
  {
    StopOneMarks(s, name, stopAt, graceMs);
    LeftoverAfter(StopOne(s, name, stopAt, graceMs), name, timeoutMs, waits, now, pid, at, forks);
  }

  /** The rest of that run, once the one stop has been asked for. */
  lemma LeftoverAfter(s: System, name: string, timeoutMs: int, waits: seq<Wait>, now: int, pid: int, at: int, forks: seq<int>)
    requires Ok(s) && Named(s, name, 0) < |s.slots| && Forks(StopAll(s, timeoutMs, waits), pid)
    requires var p := s.slots[Named(s, name, 0)].p; p.shuttingDown && !p.killSent && p.killDeadline <= at
    ensures var i := Named(s, name, 0);
            var ended := StopAll(s, timeoutMs, waits);
            var r := Tick(StartOne(ended, name, now, pid), 0, at, forks);
            r.signals == ended.signals + [Kill(i, pid, s.slots[i].h.launches + 1, at, s.slots[i].h.request)]
            && !Carries(r.signals, |ended.signals|)
  {
    var i := Named(s, name, 0);
    var ended := StopAll(s, timeoutMs, waits);
    LeftoverMarkKills(s, name, timeoutMs, waits, now, pid, at, forks);
    StopAllSends(s, timeoutMs, waits);
    var h := s.slots[i].h;
    assert SlotOk(s.slots[i], i, s.signals);
    assert ended.signals[h.request] == s.signals[h.request];
  }

  lemma StopOneMarks(s: System, name: string, stopAt: int, graceMs: int)
    requires Ok(s) && Named(s, name, 0) < |s.slots| && s.slots[Named(s, name, 0)].p.pid != 0
    ensures var i, r := Named(s, name, 0), StopOne(s, name, stopAt, graceMs);
            Ok(r) && |r.slots| == |s.slots| && Named(r, name, 0) == i
            && var x, y := s.slots[i], r.slots[i];
               y.p.shuttingDown && !y.p.killSent && y.p.killDeadline == stopAt + WholeSec(graceMs)
               && y.h == x.h.(request := |s.signals|)
               && r.signals == s.signals + [Term(i, x.p.pid, x.h.launches, y.p.killDeadline)]
  {
    StopOneOk(s, name, stopAt, graceMs);
    NamedSame(s, StopOne(s, name, stopAt, graceMs), name, 0);
  }
}
