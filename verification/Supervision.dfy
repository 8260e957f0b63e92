/** Process supervision as a value: the table, the kernel's view of our children,
    and a record of what has happened. */
module Supervision {
  const MAX_PROCESSES := 16      // DAEMON_MAX_PROCESSES
  const MAX_ATTEMPTS := 5        // DAEMON_RESTART_MAX_ATTEMPTS
  const WINDOW := 60             // DAEMON_RESTART_WINDOW_SEC
  const BACKOFF_MS := 500        // DAEMON_RESTART_BACKOFF_MS

  datatype Policy = Always | OnFailure | Never

  /** managed_process_t. */
  datatype Proc = Proc(name: string, policy: Policy, pid: nat, attempts: nat,
                       windowStart: int, nextStart: int, givenUp: bool,
                       shuttingDown: bool, killDeadline: int, killSent: bool)

  /** What has happened to one process.
      `launches` and `starts` count fork()s and explicit starts, `since` the fork()s since
      the last explicit start; `exits` are the times of the exits that scheduled a restart
      since then; `before` of them
      lie in earlier windows, and the window before the current one began at `prevStart`
      with the first of them at index `prev`; `request` is where in the signal log the
      last shutdown request is. */
  datatype Past = Past(launches: nat, starts: nat, since: nat, exits: seq<int>, before: nat, prev: nat,
                       prevStart: int, request: nat)

  datatype Slot = Slot(p: Proc, h: Past)

  /** Signals sent, each to the child the slot's `launch`-th fork() made: SIGTERM on a
      shutdown request, with the deadline it sets; SIGKILL, with the request it carries
      out; and those of pm_shutdown_all(), SIGTERM or SIGKILL. */
  datatype Signal = Term(slot: nat, pid: nat, launch: nat, deadline: int)
                  | Kill(slot: nat, pid: nat, launch: nat, at: int, request: nat)
                  | Final(slot: nat, pid: nat, launch: nat, kill: bool)

  /** `children` are the pids of our children not yet reaped, managed or not; `owner` says
      for those the supervisor has launched which slot they were launched for. */
  datatype System = System(slots: seq<Slot>, children: set<nat>, owner: map<nat, nat>, signals: seq<Signal>)

  predicate Index(s: System, i: int) {
    0 <= i < |s.slots|
  }

  function Put(s: System, i: nat, x: Slot): System
    requires Index(s, i)
  {
    s.(slots := s.slots[i := x])
  }

  // ---- starting -------------------------------------------------------

  /** pm_add() of a zeroed slot. */
  function Add(s: System, name: string, policy: Policy): System {
    if |s.slots| >= MAX_PROCESSES then s
    else s.(slots := s.slots + [Slot(Proc(name, policy, 0, 0, 0, 0, false, false, 0, false),
                                     Past(0, 0, 0, [], 0, 0, -WINDOW - 1, 0))])
  }

  /** fork() may return `pid`: a positive number no unreaped child has. */
  predicate Forks(s: System, pid: int) {
    pid > 0 && pid !in s.children
  }

  /** start_one() when fork() offers `pid`; an impossible pid stands for failure. */
  function Launch(s: System, i: nat, pid: int): System
    requires Index(s, i)
  {
    if !Forks(s, pid) then s
    else
      var x := s.slots[i];
      Put(s, i, Slot(x.p.(pid := pid), x.h.(launches := x.h.launches + 1, since := x.h.since + 1)))
        .(children := s.children + {pid}, owner := s.owner[pid := i])
  }

  /** The counters an explicit start resets. */
  function Restarted(x: Slot, now: int): Slot {
    Slot(x.p.(attempts := 0, windowStart := now, nextStart := now, givenUp := false),
         x.h.(starts := x.h.starts + 1, since := 0, exits := [], before := 0, prev := 0, prevStart := now - WINDOW - 1))
  }

  /** The offers of successive fork()s; once they run out, fork() fails. */
  function Offer(forks: seq<int>): int {
    if forks == [] then 0 else forks[0]
  }

  function Rest(forks: seq<int>): seq<int> {
    if forks == [] then [] else forks[1..]
  }

  function StartSlot(s: System, i: nat, now: int, pid: int): System
    requires Index(s, i)
  {
    var s := Put(s, i, Restarted(s.slots[i], now));
    if s.slots[i].p.pid == 0 then Launch(s, i, pid) else s
  }

  /** pm_start_all() from slot `i` on. */
  function StartAll(s: System, i: nat, now: int, forks: seq<int>): (r: System)
    requires i <= |s.slots|
    ensures |r.slots| == |s.slots|
    decreases |s.slots| - i
  {
    if i == |s.slots| then s
    else StartAll(StartSlot(s, i, now, Offer(forks)), i + 1, now, if s.slots[i].p.pid == 0 then Rest(forks) else forks)
  }

  /** The first slot of that name, or the number of slots. */
  function Named(s: System, name: string, i: nat): (r: nat)
    requires i <= |s.slots|
    ensures r <= |s.slots| && (r < |s.slots| ==> s.slots[r].p.name == name)
    decreases |s.slots| - i
  {
    if i == |s.slots| || s.slots[i].p.name == name then i else Named(s, name, i + 1)
  }

  /** pm_start_one(). */
  function StartOne(s: System, name: string, now: int, pid: int): System {
    var i := Named(s, name, 0);
    if i == |s.slots| || s.slots[i].p.pid != 0 then s else StartSlot(s, i, now, pid)
  }

  // ---- ticking --------------------------------------------------------

  /** What pm_tick() does to one slot. */
  function TickSlot(s: System, i: nat, now: int, pid: int): System
    requires Index(s, i)
  {
    var x := s.slots[i];
    if x.p.shuttingDown then
      if x.p.pid > 0 && !x.p.killSent && now >= x.p.killDeadline then
        Put(s, i, x.(p := x.p.(killSent := true))).(signals := s.signals + [Kill(i, x.p.pid, x.h.launches, now, x.h.request)])
      else s
    else if WouldLaunch(x.p, now) then Launch(s, i, pid)
    else s
  }

  predicate WouldLaunch(p: Proc, now: int) {
    !p.shuttingDown && p.pid == 0 && !p.givenUp && now >= p.nextStart
  }

  /** pm_tick() from slot `i` on. */
  function Tick(s: System, i: nat, now: int, forks: seq<int>): (r: System)
    requires i <= |s.slots|
    ensures |r.slots| == |s.slots|
    decreases |s.slots| - i
  {
    if i == |s.slots| then s
    else Tick(TickSlot(s, i, now, Offer(forks)), i + 1, now, if WouldLaunch(s.slots[i].p, now) then Rest(forks) else forks)
  }

  // ---- reaping --------------------------------------------------------

  /** One answer of waitpid(): this child ended, in failure or not, at this time. */
  datatype Exit = Exit(pid: nat, failed: bool, now: int)

  function DelaySec(attempts: nat): nat {
    (BACKOFF_MS * attempts + 999) / 1000
  }

  /** A restart is due: count it in its window, and schedule it or give up. */
  function Reschedule(x: Slot, now: int): Slot {
    var anew := now - x.p.windowStart > WINDOW;
    var attempts := (if anew then 0 else x.p.attempts) + 1;
    var ws := if anew then now else x.p.windowStart;
    var h := if anew then x.h.(before := |x.h.exits|, prev := x.h.before, prevStart := x.p.windowStart) else x.h;
    var p := x.p.(windowStart := ws, attempts := attempts);
    if attempts > MAX_ATTEMPTS then Slot(p.(givenUp := true), h)
    else Slot(p.(nextStart := now + DelaySec(attempts)), h.(exits := h.exits + [now]))
  }

  /** What pm_reap() does to the slot whose child ended. */
  function Ended(x: Slot, e: Exit): Slot {
    var y := x.(p := x.p.(pid := 0));
    if y.p.shuttingDown then y.(p := y.p.(shuttingDown := false, killSent := false))
    else if y.p.policy == Always || (y.p.policy == OnFailure && e.failed) then Reschedule(y, e.now)
    else y.(p := y.p.(givenUp := true))
  }

  /** pm_find_by_pid(): the first slot with that pid, or the number of slots. */
  function WithPid(s: System, pid: nat, i: nat): (r: nat)
    requires i <= |s.slots|
    ensures i <= r <= |s.slots| && (r < |s.slots| ==> s.slots[r].p.pid == pid)
    ensures forall j :: i <= j < r ==> s.slots[j].p.pid != pid
    decreases |s.slots| - i
  {
    if i == |s.slots| || s.slots[i].p.pid == pid then i else WithPid(s, pid, i + 1)
  }

  /** The child has been reaped. */
  function Gone(s: System, pid: nat): System {
    s.(children := s.children - {pid}, owner := s.owner - {pid})
  }

  /** One round of pm_reap(). */
  function ReapOne(s: System, e: Exit): (r: System)
    ensures |r.slots| == |s.slots|
  {
    var i := WithPid(s, e.pid, 0);
    var s := Gone(s, e.pid);
    if i == |s.slots| then s else Put(s, i, Ended(s.slots[i], e))
  }

  /** pm_reap(): until waitpid() has nothing more, or nothing that is ours. */
  function Reap(s: System, exits: seq<Exit>): (r: System)
    ensures |r.slots| == |s.slots|
    decreases |exits|
  {
    if exits == [] || exits[0].pid !in s.children then s else Reap(ReapOne(s, exits[0]), exits[1..])
  }

  // ---- stopping -------------------------------------------------------

  /** C's (ms + 999) / 1000. */
  function WholeSec(ms: int): int {
    if ms + 999 >= 0 then (ms + 999) / 1000 else -((-ms - 999) / 1000)
  }

  /** pm_shutdown_one(). */
  function StopOne(s: System, name: string, now: int, timeoutMs: int): System {
    var i := Named(s, name, 0);
    if i == |s.slots| then s
    else
      var x := s.slots[i].(p := s.slots[i].p.(givenUp := true));
      if x.p.pid == 0 then Put(s, i, x)
      else
        var deadline := now + WholeSec(timeoutMs);
        Put(s, i, Slot(x.p.(shuttingDown := true, killSent := false, killDeadline := deadline),
                       x.h.(request := |s.signals|))).(signals := s.signals + [Term(i, x.p.pid, x.h.launches, deadline)])
  }

  // ---- stopping everything --------------------------------------------

  /** One round of the wait loop of pm_shutdown_all(): a child was reaped, or none was
      ready after so many milliseconds. */
  datatype Wait = Reaped(pid: nat) | Idle(elapsedMs: int)

  function FinalTo(s: System, i: nat, kill: bool): Signal
    requires Index(s, i)
  {
    Final(i, s.slots[i].p.pid, s.slots[i].h.launches, kill)
  }

  /** The first loop on slot `i`: no restart, and SIGTERM if it has a child. */
  function MarkSlot(s: System, i: nat): System
    requires Index(s, i)
  {
    var x := s.slots[i];
    Put(s, i, x.(p := x.p.(givenUp := true)))
      .(signals := if x.p.pid != 0 then s.signals + [FinalTo(s, i, false)] else s.signals)
  }

  /** That loop from slot `i` on. */
  function MarkAll(s: System, i: nat): (r: System)
    requires i <= |s.slots|
    ensures |r.slots| == |s.slots|
    decreases |s.slots| - i
  {
    if i == |s.slots| then s else MarkAll(MarkSlot(s, i), i + 1)
  }

  predicate AnyRunning(s: System) {
    exists i :: 0 <= i < |s.slots| && s.slots[i].p.pid != 0
  }

  /** The slot is left without its child, and without a restart. */
  function Forget(s: System, i: nat): System
    requires Index(s, i)
  {
    var x := s.slots[i];
    Gone(Put(s, i, x.(p := x.p.(pid := 0))), x.p.pid)
  }

  /** The wait loop; once its answers run out, so does the time. */
  function WaitAll(s: System, timeoutMs: int, waits: seq<Wait>): (r: System)
    ensures |r.slots| == |s.slots|
    decreases |waits|
  {
    if !AnyRunning(s) || waits == [] then s
    else
      match waits[0]
      case Idle(ms) => if ms >= timeoutMs then s else WaitAll(s, timeoutMs, waits[1..])
      case Reaped(pid) =>
        var i := WithPid(s, pid, 0);
        if pid !in s.children then WaitAll(s, timeoutMs, waits[1..])
        else WaitAll(if i < |s.slots| then Forget(s, i) else Gone(s, pid), timeoutMs, waits[1..])
  }

  /** SIGKILL, then a waitpid() that blocks until it has worked. */
  function KillSlot(s: System, i: nat): System
    requires Index(s, i)
  {
    if s.slots[i].p.pid == 0 then s else Forget(s, i).(signals := s.signals + [FinalTo(s, i, true)])
  }

  /** The final loop, from slot `i` on. */
  function KillAll(s: System, i: nat): (r: System)
    requires i <= |s.slots|
    ensures |r.slots| == |s.slots|
    decreases |s.slots| - i
  {
    if i == |s.slots| then s else KillAll(KillSlot(s, i), i + 1)
  }

  /** pm_shutdown_all(). */
  function StopAll(s: System, timeoutMs: int, waits: seq<Wait>): System {
    KillAll(WaitAll(MarkAll(s, 0), timeoutMs, waits), 0)
  }

  // ---- runs -----------------------------------------------------------

  /** One thing that happens to the supervisor, with what the kernel has to say to
      it; `Stray` is a child started by someone else. */
  datatype Event = DoAdd(name: string, policy: Policy)
                 | DoStartAll(now: int, forks: seq<int>)
                 | DoStartOne(name: string, now: int, pid: int)
                 | DoTick(now: int, forks: seq<int>)
                 | DoReap(exits: seq<Exit>)
                 | DoStopOne(name: string, now: int, timeoutMs: int)
                 | Stray(pid: int)

  function Step(s: System, e: Event): System {
    match e
    case DoAdd(name, policy) => Add(s, name, policy)
    case DoStartAll(now, forks) => StartAll(s, 0, now, forks)
    case DoStartOne(name, now, pid) => StartOne(s, name, now, pid)
    case DoTick(now, forks) => Tick(s, 0, now, forks)
    case DoReap(exits) => Reap(s, exits)
    case DoStopOne(name, now, timeoutMs) => StopOne(s, name, now, timeoutMs)
    case Stray(pid) => if Forks(s, pid) then s.(children := s.children + {pid}) else s
  }

  function Run(s: System, es: seq<Event>): System
    decreases |es|
  {
    if es == [] then s else Run(Step(s, es[0]), es[1..])
  }

  const NOTHING := System([], {}, map[], [])
}
