/** What every run of the supervisor keeps. */
module SupervisionProofs {
  import opened Supervision

  // ---- children and slots ---------------------------------------------

  /** Every child launched and not yet reaped is the present child of the slot it was
      launched for, and no slot claims any other. */
  ghost predicate Children(s: System) {
    0 !in s.children
    && (forall p :: p in s.owner ==> p in s.children && s.owner[p] < |s.slots| && s.slots[s.owner[p]].p.pid == p)
    && (forall i :: 0 <= i < |s.slots| && s.slots[i].p.pid != 0 ==>
          s.slots[i].p.pid in s.owner && s.owner[s.slots[i].p.pid] == i)
  }

  // ---- what each slot keeps to ----------------------------------------

  /** A shutdown under way has a child to shut down; giving up for too many attempts
      happens only when the child is gone; since the last explicit start a process is
      launched once and then only for restarts scheduled; a one-shot process is never
      launched more often than registered and started. */
  predicate Disciplined(x: Slot) {
    && (x.p.shuttingDown ==> x.p.pid != 0)
    && (x.p.attempts > MAX_ATTEMPTS ==> x.p.pid == 0 && x.p.givenUp)
    && x.h.since + (if Pending(x.p) then 1 else 0) <= |x.h.exits| + 1
    && (x.p.policy == Never ==> x.h.launches + (if Pending(x.p) then 1 else 0) <= x.h.starts + 1)
  }

  /** A launch without a further explicit start is still possible. */
  predicate Pending(p: Proc) {
    !p.givenUp && (p.pid == 0 || p.shuttingDown)
  }

  /** The slot's shutdown request is in the log, and SIGKILL has been sent for it just
      if killSent says so. */
  predicate Requested(x: Slot, i: nat, log: seq<Signal>) {
    x.p.shuttingDown ==>
      x.h.request < |log| && log[x.h.request] == Term(i, x.p.pid, x.h.launches, x.p.killDeadline)
      && (!x.p.killSent ==> forall k :: 0 <= k < |log| && log[k].Kill? ==> log[k].request != x.h.request)
  }

  /** A SIGKILL carries out an earlier SIGTERM to the same child, the same launch of the
      same slot and not just the same pid, at or after the deadline that one set. */
  predicate Carries(log: seq<Signal>, k: nat)
    requires k < |log|
  {
    log[k].Kill? ==>
      log[k].request < k
      && var r := log[log[k].request];
         r.Term? && r.slot == log[k].slot && r.pid == log[k].pid && r.launch == log[k].launch && r.deadline <= log[k].at
  }

  /** Every SIGKILL does, and no two carry out the same request. */
  ghost predicate Justified(log: seq<Signal>) {
    && (forall k :: 0 <= k < |log| ==> Carries(log, k))
    && (forall j, k :: 0 <= j < k < |log| && log[j].Kill? && log[k].Kill? ==> log[j].request != log[k].request)
  }

  ghost predicate SlotOk(x: Slot, i: nat, log: seq<Signal>) {
    Disciplined(x) && Requested(x, i, log)
  }

  ghost predicate Ok(s: System) {
    Children(s) && Justified(s.signals) && forall i :: 0 <= i < |s.slots| ==> SlotOk(s.slots[i], i, s.signals)
  }

  /** Replacing a slot by one with the same child. */
  lemma PutOk(s: System, i: nat, x: Slot)
    requires Ok(s) && Index(s, i) && x.p.pid == s.slots[i].p.pid && SlotOk(x, i, s.signals)
    ensures Ok(Put(s, i, x))
  {
  }

  lemma LaunchChildren(s: System, i: nat, pid: int)
    requires Children(s) && Index(s, i) && s.slots[i].p.pid == 0
    ensures Children(Launch(s, i, pid))
  {
  }

  /** A slot's child is reaped and the slot without one. */
  lemma GoneChildren(s: System, i: nat, x: Slot)
    requires Children(s) && Index(s, i) && s.slots[i].p.pid != 0 && x.p.pid == 0
    ensures Children(Gone(Put(s, i, x), s.slots[i].p.pid))
  {
  }

  lemma LaunchOk(s: System, i: nat, pid: int)
    requires Ok(s) && Index(s, i) && s.slots[i].p.pid == 0 && !s.slots[i].p.givenUp
    ensures Ok(Launch(s, i, pid))
  {
    LaunchChildren(s, i, pid);
    var r := Launch(s, i, pid);
    assert SlotOk(s.slots[i], i, s.signals);
    assert SlotOk(r.slots[i], i, r.signals);
    assert forall j :: 0 <= j < |r.slots| && j != i ==> r.slots[j] == s.slots[j];
  }

  lemma StartSlotOk(s: System, i: nat, now: int, pid: int)
    requires Ok(s) && Index(s, i)
    ensures Ok(StartSlot(s, i, now, pid))
  {
    assert SlotOk(s.slots[i], i, s.signals);
    PutOk(s, i, Restarted(s.slots[i], now));
    var s1 := Put(s, i, Restarted(s.slots[i], now));
    if s1.slots[i].p.pid == 0 {
      LaunchOk(s1, i, pid);
    }
  }

  lemma {:induction false} StartAllOk(s: System, i: nat, now: int, forks: seq<int>)
    requires Ok(s) && i <= |s.slots|
    ensures Ok(StartAll(s, i, now, forks))
    decreases |s.slots| - i
  {
    if i < |s.slots| {
      StartSlotOk(s, i, now, Offer(forks));
      StartAllOk(StartSlot(s, i, now, Offer(forks)), i + 1, now, if s.slots[i].p.pid == 0 then Rest(forks) else forks);
    }
  }

  /** A longer log still justifies everything, if what was added does. */
  lemma LogGrows(log: seq<Signal>, e: Signal)
    requires Justified(log)
    requires e.Kill? ==> Carries(log + [e], |log|)
                         && forall k :: 0 <= k < |log| && log[k].Kill? ==> log[k].request != e.request
    ensures Justified(log + [e])
  {
    forall k | 0 <= k < |log + [e]|
      ensures Carries(log + [e], k)
    {
      if k < |log| {
        assert Carries(log, k);
      }
    }
  }

  lemma KillOk(s: System, i: nat, now: int)
    requires Ok(s) && Index(s, i)
    requires var p := s.slots[i].p; p.shuttingDown && !p.killSent && now >= p.killDeadline
    ensures Ok(TickSlot(s, i, now, 0))
  {
    var x := s.slots[i];
    var e := Kill(i, x.p.pid, x.h.launches, now, x.h.request);
    assert SlotOk(x, i, s.signals);
    LogGrows(s.signals, e);
    var r := TickSlot(s, i, now, 0);
    forall j | 0 <= j < |r.slots|
      ensures SlotOk(r.slots[j], j, r.signals)
    {
      assert SlotOk(s.slots[j], j, s.signals);
    }
  }

  lemma TickSlotOk(s: System, i: nat, now: int, pid: int)
    requires Ok(s) && Index(s, i)
    ensures Ok(TickSlot(s, i, now, pid))
  {
    assert SlotOk(s.slots[i], i, s.signals);
    var p := s.slots[i].p;
    if p.shuttingDown && !p.killSent && now >= p.killDeadline {
      KillOk(s, i, now);
    } else if WouldLaunch(p, now) {
      LaunchOk(s, i, pid);
    }
  }

  lemma {:induction false} TickOk(s: System, i: nat, now: int, forks: seq<int>)
    requires Ok(s) && i <= |s.slots|
    ensures Ok(Tick(s, i, now, forks))
    decreases |s.slots| - i
  {
    if i < |s.slots| {
      TickSlotOk(s, i, now, Offer(forks));
      TickOk(TickSlot(s, i, now, Offer(forks)), i + 1, now, if WouldLaunch(s.slots[i].p, now) then Rest(forks) else forks);
    }
  }

  /** A reaped child is credited to the slot it was launched for, and to no other; one the
      supervisor did not launch, to none. */
  lemma ReapOneOk(s: System, e: Exit)
    requires Ok(s) && e.pid in s.children
    ensures Ok(ReapOne(s, e))
    ensures var r := ReapOne(s, e);
            r.children == s.children - {e.pid} && r.owner == s.owner - {e.pid}
            && if e.pid in s.owner then r.slots == s.slots[s.owner[e.pid] := Ended(s.slots[s.owner[e.pid]], e)]
               else r.slots == s.slots
  {
    var i := WithPid(s, e.pid, 0);
    if i < |s.slots| {
      var x := Ended(s.slots[i], e);
      GoneChildren(s, i, x);
      var r := ReapOne(s, e);
      assert r == Gone(Put(s, i, x), e.pid);
      assert SlotOk(s.slots[i], i, s.signals);
      forall j | 0 <= j < |r.slots|
        ensures SlotOk(r.slots[j], j, r.signals)
      {
        assert SlotOk(s.slots[j], j, s.signals);
      }
    } else {
      assert e.pid !in s.owner;
      assert s.owner - {e.pid} == s.owner;
    }
  }

  lemma {:induction false} ReapOk(s: System, exits: seq<Exit>)
    requires Ok(s)
    ensures Ok(Reap(s, exits))
    decreases |exits|
  {
    if exits != [] && exits[0].pid in s.children {
      ReapOneOk(s, exits[0]);
      ReapOk(ReapOne(s, exits[0]), exits[1..]);
    }
  }

  lemma StopOneOk(s: System, name: string, now: int, timeoutMs: int)
    requires Ok(s)
    ensures Ok(StopOne(s, name, now, timeoutMs))
  {
    var i := Named(s, name, 0);
    if i < |s.slots| {
      var r := StopOne(s, name, now, timeoutMs);
      assert SlotOk(s.slots[i], i, s.signals);
      if s.slots[i].p.pid != 0 {
        var e := Term(i, s.slots[i].p.pid, s.slots[i].h.launches, now + WholeSec(timeoutMs));
        LogGrows(s.signals, e);
        assert forall k :: 0 <= k < |s.signals| ==> Carries(s.signals, k);
      }
      forall j | 0 <= j < |r.slots|
        ensures SlotOk(r.slots[j], j, r.signals)
      {
        assert SlotOk(s.slots[j], j, s.signals);
        if j == i && s.slots[i].p.pid != 0 {
          FreshRequest(s.signals, r.signals[|s.signals|]);
        }
      }
    }
  }

  lemma FreshRequest(log: seq<Signal>, e: Signal)
    requires Justified(log) && e.Term?
    ensures forall k :: 0 <= k < |log + [e]| && (log + [e])[k].Kill? ==> (log + [e])[k].request != |log|
  {
    forall k | 0 <= k < |log|
      ensures log[k].Kill? ==> log[k].request != |log|
    {
      assert Carries(log, k);
    }
  }

  lemma StepOk(s: System, e: Event)
    requires Ok(s)
    ensures Ok(Step(s, e))
  {
    match e {
      case DoAdd(name, policy) =>
        var r := Add(s, name, policy);
        if |s.slots| < MAX_PROCESSES {
          forall j | 0 <= j < |r.slots|
            ensures SlotOk(r.slots[j], j, r.signals)
          {
            if j < |s.slots| {
              assert SlotOk(s.slots[j], j, s.signals);
            }
          }
        }
      case DoStartAll(now, forks) => StartAllOk(s, 0, now, forks);
      case DoStartOne(name, now, pid) =>
        if Named(s, name, 0) < |s.slots| {
          StartSlotOk(s, Named(s, name, 0), now, pid);
        }
      case DoTick(now, forks) => TickOk(s, 0, now, forks);
      case DoReap(exits) => ReapOk(s, exits);
      case DoStopOne(name, now, timeoutMs) => StopOneOk(s, name, now, timeoutMs);
      case Stray(pid) =>
    }
  }

  /** Every state the supervisor can reach, whatever the kernel does. */
  lemma {:induction false} RunOk(s: System, es: seq<Event>)
    requires Ok(s)
    ensures Ok(Run(s, es))
    decreases |es|
  {
    if es != [] {
      StepOk(s, es[0]);
      RunOk(Step(s, es[0]), es[1..]);
    }
  }

  /** What that says of any slot and any child: the unreaped children launched for the
      slot are just the one it has, if any, so that none is ever lost; a shutdown under way
      has a child; since its last explicit start a process is launched once and then only
      for restarts scheduled; a one-shot process is launched at most once per explicit
      start, plus once for being registered; and every SIGKILL was due. */
  lemma SupervisorKeeps(es: seq<Event>, i: nat, pid: nat)
    requires i < |Run(NOTHING, es).slots|
    ensures var s := Run(NOTHING, es);
            var a := s.slots[i];
            (pid in s.owner && s.owner[pid] == i <==> pid != 0 && a.p.pid == pid)
            && (pid in s.owner ==> pid in s.children && s.owner[pid] < |s.slots|)
            && a.h.since <= |a.h.exits| + 1
            && (a.p.shuttingDown ==> a.p.pid != 0)
            && (a.p.policy == Never ==> a.h.launches <= a.h.starts + 1)
            && Justified(s.signals)
  {
    RunOk(NOTHING, es);
    var s := Run(NOTHING, es);
    assert SlotOk(s.slots[i], i, s.signals);
  }
}
