/** The process manager itself: its table, updated in place. */
module Supervisor {
  import opened Supervision

  /** One call of kill(). */
  datatype KillCall = KillCall(pid: nat, kill: bool)

  function CallOf(e: Signal): KillCall {
    KillCall(e.pid, e.Kill? || (e.Final? && e.kill))
  }

  class ProcessManager {
    const procs: array<Proc>
    var count: nat
    var children: set<nat>      // the kernel's: our children, not yet reaped
    var kills: seq<KillCall>    // the kernel's: what kill() was called with

    /** What the table amounts to, with its past. */
    ghost var model: System

    ghost predicate Valid()
      reads this, procs
    {
      && procs.Length == MAX_PROCESSES && count == |model.slots| <= MAX_PROCESSES && children == model.children
      && |kills| == |model.signals| && (forall k :: 0 <= k < |kills| ==> kills[k] == CallOf(model.signals[k]))
      && forall i :: 0 <= i < count ==> procs[i] == model.slots[i].p
    }

    /** pm_init(). */
    constructor ()
      ensures Valid() && model == NOTHING && fresh(procs)
    {
      procs := new Proc[MAX_PROCESSES](_ => Proc("", Always, 0, 0, 0, 0, false, false, 0, false));
      count, children, kills, model := 0, {}, [], NOTHING;
    }

    /** pm_add(). */
    method Register(name: string, policy: Policy) returns (ret: int)
      requires Valid()
      modifies this, procs
      ensures Valid() && model == Add(old(model), name, policy)
      ensures ret == if old(count) < MAX_PROCESSES then 0 else -1
    {
      if count >= MAX_PROCESSES {
        return -1;
      }
      model := Add(model, name, policy);
      procs[count] := Proc(name, policy, 0, 0, 0, 0, false, false, 0, false);
      count := count + 1;
      ret := 0;
    }

    /** start_one() when fork() offers `pid`. */
    method Fork(i: nat, pid: int) returns (ret: int)
      requires Valid() && i < count
      modifies this`children, this`model, procs
      ensures Valid() && model == Launch(old(model), i, pid)
      ensures ret == if Forks(old(model), pid) then 0 else -1
      ensures |children| == |old(children)| + if ret == 0 then 1 else 0
    {
      if pid <= 0 || pid in children {
        return -1;
      }
      model := Launch(model, i, pid);
      children := children + {pid};
      procs[i] := procs[i].(pid := pid);
      ret := 0;
    }

    /** The counters an explicit start resets. */
    method ResetSlot(i: nat, now: int)
      requires Valid() && i < count
      modifies this`model, procs
      ensures Valid() && model == Put(old(model), i, Restarted(old(model).slots[i], now))
    {
      model := Put(model, i, Restarted(model.slots[i], now));
      procs[i] := procs[i].(attempts := 0, windowStart := now, nextStart := now, givenUp := false);
    }

    /** pm_start_all(). */
    method StartEvery(now: int, forks: seq<int>) returns (started: nat)
      requires Valid()
      modifies this`children, this`model, procs
      ensures Valid() && model == StartAll(old(model), 0, now, forks)
      ensures started == |children| - |old(children)|
    {
      started := 0;
      var offers := forks;
      var i := 0;
      while i < count
        invariant 0 <= i <= count && Valid()
        invariant StartAll(model, i, now, offers) == StartAll(old(model), 0, now, forks)
        invariant started == |children| - |old(children)|
      {
        ResetSlot(i, now);
        if procs[i].pid == 0 {
          var r := Fork(i, Offer(offers));
          offers := Rest(offers);
          if r == 0 {
            started := started + 1;
          }
        }
        i := i + 1;
      }
    }

    /** The first slot of that name, or `count`. */
    method FindByName(name: string) returns (i: nat)
      requires Valid()
      ensures i == Named(model, name, 0)
    {
      i := 0;
      while i < count && procs[i].name != name
        invariant i <= count && Named(model, name, i) == Named(model, name, 0)
      {
        i := i + 1;
      }
    }

    /** pm_start_one(). */
    method Start(name: string, now: int, pid: int) returns (ret: int)
      requires Valid()
      modifies this`children, this`model, procs
      ensures Valid() && model == StartOne(old(model), name, now, pid)
      ensures ret == 0 <==> var i := Named(old(model), name, 0);
                            i < old(count) && old(model).slots[i].p.pid == 0 && Forks(old(model), pid)
    {
      var i := FindByName(name);
      if i == count || procs[i].pid != 0 {
        return -1;
      }
      ResetSlot(i, now);
      ret := Fork(i, pid);
    }

    /** pm_tick(). */
    method TickAll(now: int, forks: seq<int>)
      requires Valid()
      modifies this`children, this`kills, this`model, procs
      ensures Valid() && model == Tick(old(model), 0, now, forks)
    {
      var offers := forks;
      var i := 0;
      while i < count
        invariant 0 <= i <= count && Valid()
        invariant Tick(model, i, now, offers) == Tick(old(model), 0, now, forks)
      {
        var p := procs[i];
        if p.shuttingDown {
          if p.pid > 0 && !p.killSent && now >= p.killDeadline {
            SendKill(i, now);
          }
        } else if p.pid == 0 && !p.givenUp && now >= p.nextStart {
          var r := Fork(i, Offer(offers));
          offers := Rest(offers);
        }
        i := i + 1;
      }
    }

    method SendKill(i: nat, now: int)
      requires Valid() && i < count
      requires var p := procs[i]; p.shuttingDown && p.pid > 0 && !p.killSent && now >= p.killDeadline
      modifies this`kills, this`model, procs
      ensures Valid() && model == TickSlot(old(model), i, now, 0)
    {
      model := TickSlot(model, i, now, 0);
      kills := kills + [KillCall(procs[i].pid, true)];
      procs[i] := procs[i].(killSent := true);
    }

    /** pm_find_by_pid(): the slot, or `count`. */
    method FindByPid(pid: nat) returns (i: nat)
      requires Valid()
      ensures i == WithPid(model, pid, 0)
    {
      i := 0;
      while i < count && procs[i].pid != pid
        invariant i <= count && WithPid(model, pid, i) == WithPid(model, pid, 0)
      {
        i := i + 1;
      }
    }

    /** pm_reap(): waitpid() reports `exits` in turn. */
    method ReapAll(exits: seq<Exit>) returns (reaped: nat)
      requires Valid()
      modifies this`children, this`model, procs
      ensures Valid() && model == Reap(old(model), exits)
      ensures reaped == |old(children)| - |children|
    {
      reaped := 0;
      while reaped < |exits| && exits[reaped].pid in children
        invariant reaped <= |exits| && Valid()
        invariant Reap(model, exits[reaped..]) == Reap(old(model), exits)
        invariant reaped == |old(children)| - |children|
      {
        ReapChild(exits[reaped]);
        reaped := reaped + 1;
      }
    }

    /** One child: its slot, if it has one, and the restart policy. */
    method ReapChild(e: Exit)
      requires Valid()
      modifies this`children, this`model, procs
      ensures Valid() && model == ReapOne(old(model), e) && children == old(children) - {e.pid}
    {
      var i := FindByPid(e.pid);
      if i < count {
        var p := procs[i].(pid := 0);
        if p.shuttingDown {
          p := p.(shuttingDown := false, killSent := false);
        } else {
          var shouldRestart := p.policy == Always || (p.policy == OnFailure && e.failed);
          if !shouldRestart {
            p := p.(givenUp := true);
          } else {
            if e.now - p.windowStart > WINDOW {
              p := p.(windowStart := e.now, attempts := 0);
            }
            p := p.(attempts := p.attempts + 1);
            if p.attempts > MAX_ATTEMPTS {
              p := p.(givenUp := true);
            } else {
              p := p.(nextStart := e.now + (BACKOFF_MS * p.attempts + 999) / 1000);
            }
          }
        }
        procs[i] := p;
      }
      model := ReapOne(model, e);
      children := children - {e.pid};
    }

    /** pm_shutdown_one(). */
    method Stop(name: string, now: int, timeoutMs: int) returns (ret: int)
      requires Valid()
      modifies this`kills, this`model, procs
      ensures Valid() && model == StopOne(old(model), name, now, timeoutMs)
      ensures ret == if Named(old(model), name, 0) < old(count) then 0 else -1
    {
      var i := FindByName(name);
      if i == count {
        return -1;
      }
      model := StopOne(model, name, now, timeoutMs);
      procs[i] := procs[i].(givenUp := true);
      if procs[i].pid > 0 {
        procs[i] := procs[i].(shuttingDown := true, killSent := false, killDeadline := now + WholeSec(timeoutMs));
        kills := kills + [KillCall(procs[i].pid, false)];
      }
      ret := 0;
    }

    /** pm_shutdown_all(). */
    method StopEvery(timeoutMs: int, waits: seq<Wait>)
      requires Valid()
      modifies this`children, this`kills, this`model, procs
      ensures Valid() && model == StopAll(old(model), timeoutMs, waits)
    {
      TermEvery();
      WaitForAll(timeoutMs, waits);
      KillEvery();
    }

    /** Its first loop. */
    method TermEvery()
      requires Valid()
      modifies this`kills, this`model, procs
      ensures Valid() && model == MarkAll(old(model), 0)
    {
      var i := 0;
      while i < count
        invariant 0 <= i <= count && Valid() && MarkAll(model, i) == MarkAll(old(model), 0)
      {
        TermSlot(i);
        i := i + 1;
      }
    }

    method TermSlot(i: nat)
      requires Valid() && i < count
      modifies this`kills, this`model, procs
      ensures Valid() && model == MarkSlot(old(model), i)
    {
      model := MarkSlot(model, i);
      procs[i] := procs[i].(givenUp := true);
      if procs[i].pid > 0 {
        kills := kills + [KillCall(procs[i].pid, false)];
      }
    }

    /** Its last loop. */
    method KillEvery()
      requires Valid()
      modifies this`children, this`kills, this`model, procs
      ensures Valid() && model == KillAll(old(model), 0)
    {
      var i := 0;
      while i < count
        invariant 0 <= i <= count && Valid() && KillAll(model, i) == KillAll(old(model), 0)
      {
        KillIfRunning(i);
        i := i + 1;
      }
    }

    method KillIfRunning(i: nat)
      requires Valid() && i < count
      modifies this`children, this`kills, this`model, procs
      ensures Valid() && model == KillSlot(old(model), i)
    {
      if procs[i].pid > 0 {
        kills := kills + [KillCall(procs[i].pid, true)];
        children := children - {procs[i].pid};
        model := KillSlot(model, i);
        procs[i] := procs[i].(pid := 0);
      }
    }

    method ForgetSlot(i: nat)
      requires Valid() && i < count
      modifies this`children, this`model, procs
      ensures Valid() && model == Forget(old(model), i)
    {
      children := children - {procs[i].pid};
      model := Forget(model, i);
      procs[i] := procs[i].(pid := 0);
    }

    method Running() returns (any: bool)
      requires Valid()
      ensures any == AnyRunning(model)
    {
      var i := 0;
      while i < count
        invariant 0 <= i <= count && forall j :: 0 <= j < i ==> model.slots[j].p.pid == 0
      {
        if procs[i].pid > 0 {
          return true;
        }
        i := i + 1;
      }
      any := false;
    }

    /** The wait loop of pm_shutdown_all(). */
    method WaitForAll(timeoutMs: int, waits: seq<Wait>)
      requires Valid()
      modifies this`children, this`model, procs
      ensures Valid() && model == WaitAll(old(model), timeoutMs, waits)
    {
      var k := 0;
      while k < |waits|
        invariant k <= |waits| && Valid()
        invariant WaitAll(model, timeoutMs, waits[k..]) == WaitAll(old(model), timeoutMs, waits)
      {
        var any := Running();
        if !any {
          return;
        }
        var w := waits[k];
        if w.Idle? && w.elapsedMs >= timeoutMs {
          return;
        }
        if w.Reaped? && w.pid in children {
          var i := FindByPid(w.pid);
          if i < count {
            ForgetSlot(i);
          } else {
            children := children - {w.pid};
            model := Gone(model, w.pid);
          }
        }
        k := k + 1;
      }
    }
  }
}
