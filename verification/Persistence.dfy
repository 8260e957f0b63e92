/** The bus server and the state store together: what a power failure leaves of the
    states clients have set. */
module Persistence {
  import opened Bytes
  import opened Record
  import opened Disk
  import opened StateStore
  import Bus
  import BusProofs
  import BusLog
  import BusRuns
  import BusServer

  // ---- where records come from ----------------------------------------

  /** The record is a valid one of a state in `states`. */
  predicate OneOf(rec: seq<byte>, states: seq<State>) {
    Decode(rec).Some? && Decode(rec).value in states
  }

  /** Only such records are written in these steps. */
  ghost predicate Writes(steps: seq<Step>, states: seq<State>) {
    forall i :: 0 <= i < |steps| && steps[i].Open? ==> OneOf(steps[i].rec, states)
  }

  /** The record was there in `m` already, or is one of these. */
  predicate Known(m: Machine, rec: seq<byte>, states: seq<State>) {
    rec in m.log || OneOf(rec, states)
  }

  /** All records of `r` are. */
  ghost predicate AllKnown(m: Machine, r: Machine, states: seq<State>) {
    (forall j :: 0 <= j < |r.log| ==> Known(m, r.log[j], states))
    && (r.phase.Writing? || r.phase.Flushed? ==> Known(m, r.phase.rec, states))
  }

  /** No run makes up a record. */
  lemma {:induction false} RunKnown(m: Machine, r: Machine, steps: seq<Step>, states: seq<State>)
    requires Safe(r) && AllKnown(m, r, states) && Writes(steps, states)
    ensures AllKnown(m, Run(r, steps), states)
    decreases |steps|
  {
    if steps != [] {
      if Enabled(r, steps[0]) {
        StepSafe(r, steps[0]);
        assert AllKnown(m, Next(r, steps[0]), states);
        RunKnown(m, Next(r, steps[0]), steps[1..], states);
      } else {
        RunKnown(m, r, steps[1..], states);
      }
    }
  }

  /** The state was written, or is one `m` held already. */
  ghost predicate Accounted(m: Machine, found: Option<State>, states: seq<State>) {
    (found.Some? && found.value in states) || exists j :: -1 <= j < |m.log| && found == HeldState(m, j)
  }

  /** A power failure at any moment brings back a state that was written, or held in the
      beginning. */
  lemma CrashFindsKnown(m: Machine, steps: seq<Step>, k: nat, junk: nat -> seq<byte>, states: seq<State>)
    requires Safe(m) && m.phase.Idle? && Genuine(m) && Writes(steps, states) && k < |Run(m, steps).fs.dirs|
    ensures WellFormed(PowerFails(Run(m, steps).fs, k, junk))
    ensures Accounted(m, Stored(PowerFails(Run(m, steps).fs, k, junk)), states)
  {
    RebootFindsState(m, steps, k, junk);
    forall j | 0 <= j < |m.log|
      ensures Known(m, m.log[j], states)
    {
    }
    RunKnown(m, m, steps, states);
    var r := Run(m, steps);
    var found := Stored(PowerFails(r.fs, k, junk));
    var j :| Recoverable(r, j, found);
    if j == -1 {
      assert found == HeldState(m, -1);
    } else {
      assert Known(m, r.log[j], states);
      if r.log[j] in m.log {
        var i :| 0 <= i < |m.log| && m.log[i] == r.log[j];
        assert found == HeldState(m, i);
      }
    }
  }

  // ---- the daemon -----------------------------------------------------

  /** The answers to one sat_state_store(). */
  datatype SaveAnswers = SaveAnswers(locks: bool, plan: WritePlan, pad: Padding)

  /** sat_state_store() for each of the states, in order; the server only logs results. */
  method SaveAll(store: Store, images: seq<State>, answers: nat -> SaveAnswers)
    requires store.Valid() && store.m.phase.Idle?
    modifies store
    ensures store.Valid() && store.m.phase.Idle? && store.isOpen == old(store.isOpen)
    ensures old(store.history) <= store.history && Writes(store.history[|old(store.history)|..], images)
  {
    var i := 0;
    while i < |images|
      invariant 0 <= i <= |images| && store.Valid() && store.m.phase.Idle? && store.isOpen == old(store.isOpen)
      invariant old(store.history) <= store.history && Writes(store.history[|old(store.history)|..], images)
    {
      var a := answers(i);
      ghost var before := store.history;
      var ret := store.Save(images[i], a.pad, a.locks, a.plan);
      WritesMore(old(store.history), before, store.history, images, i, a.pad);
      i := i + 1;
    }
  }

  lemma WritesMore(start: seq<Step>, a: seq<Step>, b: seq<Step>, images: seq<State>, i: nat, pad: Padding)
    requires start <= a && Writes(a[|start|..], images) && i < |images| && Extends(a, b, Image(images[i], pad))
    ensures start <= b && Writes(b[|start|..], images)
  {
    ImageDecodes(images[i], pad);
    var more, all := a[|start|..], b[|start|..];
    forall k | 0 <= k < |all| && all[k].Open?
      ensures OneOf(all[k].rec, images)
    {
      assert all[k] == b[|start| + k];
      if k < |more| {
        assert all[k] == more[k];
      }
    }
  }

  /** It stays so that only states set by clients, and the defaults a boot may have stored,
      have ever been written. */
  lemma TurnBacks(a: seq<Step>, b: seq<Step>, saves: seq<State>, saves': seq<State>)
    requires a <= b && saves <= saves' && Writes(a, [DEFAULTS] + saves) && Writes(b[|a|..], saves'[|saves|..])
    ensures Writes(b, [DEFAULTS] + saves')
  {
    var more := b[|a|..];
    forall i | 0 <= i < |b| && b[i].Open?
      ensures OneOf(b[i].rec, [DEFAULTS] + saves')
    {
      if i < |a| {
        assert b[i] == a[i];
      } else {
        assert b[i] == more[i - |a|];
      }
    }
  }

  /** One turn of the daemon's event loop, with what it stores. */
  method ServeTurn(server: BusServer.IpcServer, store: Store, t: Bus.Turn, answers: nat -> SaveAnswers)
    requires server.Valid() && BusProofs.Ok(server.model) && BusProofs.Settled(server.model)
    requires store.Valid() && store.m.phase.Idle? && store !in server.repr
    modifies server, server.repr, store
    ensures server.Valid() && server.model == Bus.Pass(old(server.model), t) && fresh(server.repr - old(server.repr))
    ensures BusProofs.Ok(server.model) && BusProofs.Settled(server.model)
    ensures store.Valid() && store.m.phase.Idle? && store !in server.repr
    ensures old(server.saves) <= server.saves && old(store.history) <= store.history
    ensures Writes(store.history[|old(store.history)|..], server.saves[|old(server.saves)|..])
  {
    ghost var was := server.saves;
    var n := |server.saves|;
    BusProofs.PassServes(server.model, t);
    server.Turn(t);
    assert was <= server.saves;
    SaveAll(store, server.saves[n..], answers);
  }

  /** What a boot writes, if anything, are the defaults. */
  lemma BootWrites(history: seq<Step>, pad: Padding)
    requires Extends([], history, Image(DEFAULTS, pad))
    ensures Writes(history, [DEFAULTS])
  {
    ImageDecodes(DEFAULTS, pad);
  }

  /** Server and store between two turns. */
  ghost predicate Working(server: BusServer.IpcServer, store: Store)
    reads server, server.repr, store
  {
    && server.Valid() && BusProofs.Ok(server.model) && BusProofs.Settled(server.model)
    && store.Valid() && store.m.phase.Idle? && store !in server.repr
    && Writes(store.history, [DEFAULTS] + server.saves)
  }

  method WorkOn(server: BusServer.IpcServer, store: Store, t: Bus.Turn, answers: nat -> SaveAnswers)
    requires Working(server, store)
    modifies server, server.repr, store
    ensures Working(server, store) && fresh(server.repr - old(server.repr))
    ensures server.model == Bus.Pass(old(server.model), t)
  {
    ghost var history, saves := store.history, server.saves;
    ServeTurn(server, store, t, answers);
    TurnBacks(history, store.history, saves, server.saves);
  }

  /** The event loop, on a bus server just created: any turns, and the store behind it. */
  method Serve(server: BusServer.IpcServer, store: Store, ts: seq<Bus.Turn>, answers: (nat, nat) -> SaveAnswers)
    requires Working(server, store)
    modifies server, server.repr, store
    ensures Working(server, store) && server.model == Bus.Passes(old(server.model), ts)
  {
    var n := 0;
    while n < |ts|
      invariant n <= |ts| && Working(server, store) && fresh(server.repr - old(server.repr))
      invariant Bus.Passes(server.model, ts[n..]) == Bus.Passes(old(server.model), ts)
    {
      var turn: nat := n;
      WorkOn(server, store, ts[n], (k: nat) => answers(turn, k));
      n := n + 1;
    }
  }

  /** It starts on a new server with the state the boot returned. */
  method Start(store: Store, image: State, pad: Padding) returns (server: BusServer.IpcServer)
    requires store.Valid() && store.m.phase.Idle? && Extends([], store.history, Image(DEFAULTS, pad))
    ensures fresh(server) && fresh(server.repr) && Working(server, store) && server.model == Bus.Empty(image)
  {
    server := new BusServer.IpcServer(image);
    BusProofs.EmptyOk(image);
    BootWrites(store.history, pad);
    assert [DEFAULTS] + server.saves == [DEFAULTS];
  }

  /** After any run of the bus server, with a store that wrote what the server handed it
      and what a boot may have stored, and a power failure between any two steps of that
      store: the state found is one that a registered client had set, the defaults, or one
      held before the boot. */
  lemma CrashFindsWritten(state: State, ts: seq<Bus.Turn>, s: Store, n: nat, k: nat, junk: nat -> seq<byte>)
    requires s.Valid() && s.origin.phase.Idle? && Genuine(s.origin) && n <= |s.history|
    requires Writes(s.history, [DEFAULTS] + Bus.Passes(Bus.Empty(state), ts).saves)
    requires k < |Run(s.origin, s.history[..n]).fs.dirs|
    ensures var r := Run(s.origin, s.history[..n]);
            WellFormed(PowerFails(r.fs, k, junk))
            && Accounted(s.origin, Stored(PowerFails(r.fs, k, junk)),
                         [DEFAULTS] + BusLog.Sets(Bus.Passes(Bus.Empty(state), ts).dispatched))
  {
    BusRuns.StateIsLastWrite(state, ts, 0, 0);
    CrashFindsKnown(s.origin, s.history[..n], k, junk, [DEFAULTS] + Bus.Passes(Bus.Empty(state), ts).saves);
  }
}
