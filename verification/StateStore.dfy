/** The persistent state store: reading, writing and initialising the state file. */
module StateStore {
  import opened Bytes
  import opened Fnv
  import opened Record
  import opened Disk

  const DEFAULTS: State := Zeros(STATE_SIZE)   // state_defaults()

  /** The safe defaults are all zero: idle, no experiment, no authority, time zero. */
  lemma DefaultsAreZero(i: nat)
    requires i < 16
    ensures DEFAULTS[i] == 0
  {
  }

  // ---- what the system calls answer -----------------------------------

  datatype WriteAnswer = Wrote(n: nat) | WriteSignal | WriteFails

  /** The answers to one write_record_locked(); once `writes` run out, write() takes
      everything. `dirSyncs` stands for both the open() and the fsync() of the directory. */
  datatype WritePlan = WritePlan(opens: bool, writes: seq<WriteAnswer>, syncs: bool, renames: bool,
                                 dirSyncs: bool, unlinks: bool)

  /** The write() loop, with `left` bytes to go, ends without an error. */
  predicate WritesThrough(left: nat, answers: seq<WriteAnswer>)
    decreases |answers|
  {
    if left == 0 || answers == [] then true
    else
      match answers[0]
      case WriteFails => false
      case WriteSignal => WritesThrough(left, answers[1..])
      case Wrote(n) => WritesThrough(left - Min(n, left), answers[1..])
  }

  /** No step of writing a record of `size` bytes fails; the directory sync may. */
  predicate Writable(size: nat, plan: WritePlan) {
    plan.opens && WritesThrough(size, plan.writes) && plan.syncs && plan.renames
  }

  datatype ReadAnswer = Upto(n: nat) | ReadSignal | ReadFails

  /** The answers to one read_record_locked(); once `reads` run out, read() delivers
      everything. */
  datatype ReadPlan = ReadPlan(opens: bool, answers: seq<ReadAnswer>)

  /** The read() loop, `total` bytes into a file of `size`, ends without an error. */
  predicate ReadsThrough(size: nat, total: nat, answers: seq<ReadAnswer>)
    requires total <= size
    decreases |answers|
  {
    if total >= RECORD_SIZE || answers == [] then true
    else
      match answers[0]
      case ReadFails => false
      case ReadSignal => ReadsThrough(size, total, answers[1..])
      case Upto(n) =>
        var k := Delivered(n, size, total);
        k == 0 || ReadsThrough(size, total + k, answers[1..])
  }

  /** Reading ends without an error if no read() fails; and with one if one does before
      anything has been read. */
  lemma {:induction false} ReadsThroughIf(size: nat, total: nat, answers: seq<ReadAnswer>)
    requires total <= size
    ensures (forall i :: 0 <= i < |answers| ==> answers[i] != ReadFails) ==> ReadsThrough(size, total, answers)
    decreases |answers|
  {
    if answers != [] && total < RECORD_SIZE {
      match answers[0] {
        case ReadFails =>
        case ReadSignal => ReadsThroughIf(size, total, answers[1..]);
        case Upto(n) => ReadsThroughIf(size, total + Delivered(n, size, total), answers[1..]);
      }
    }
  }

  lemma {:induction false} ReadsNotIf(size: nat, answers: seq<ReadAnswer>, k: nat)
    requires k < |answers| && answers[k] == ReadFails && forall i :: 0 <= i < k ==> answers[i] == ReadSignal
    ensures !ReadsThrough(size, 0, answers)
    decreases k
  {
    if 0 < k {
      ReadsNotIf(size, answers[1..], k - 1);
    }
  }

  /** Writing ends without an error if no write() fails; and with one if one does before
      all has been written. */
  lemma {:induction false} WritesThroughIf(left: nat, answers: seq<WriteAnswer>)
    ensures (forall i :: 0 <= i < |answers| ==> answers[i] != WriteFails) ==> WritesThrough(left, answers)
    decreases |answers|
  {
    if answers != [] && 0 < left {
      match answers[0] {
        case WriteFails =>
        case WriteSignal => WritesThroughIf(left, answers[1..]);
        case Wrote(n) => WritesThroughIf(left - Min(n, left), answers[1..]);
      }
    }
  }

  lemma {:induction false} WritesNotIf(left: nat, answers: seq<WriteAnswer>, k: nat)
    requires 0 < left && k < |answers| && answers[k] == WriteFails
    requires forall i :: 0 <= i < k ==> answers[i] == WriteSignal || answers[i] == Wrote(0)
    ensures !WritesThrough(left, answers)
    decreases k
  {
    if 0 < k {
      WritesNotIf(left, answers[1..], k - 1);
    }
  }

  /** What one read() delivers: at least a byte, unless the file has ended. */
  function Delivered(n: nat, size: nat, total: nat): nat
    requires total <= size && total < RECORD_SIZE
  {
    Min(Min(if n == 0 then 1 else n, RECORD_SIZE - total), size - total)
  }

  /** The state file can be opened and read without an error. */
  predicate Readable(fs: Fs, plan: ReadPlan)
    requires WellFormed(fs)
  {
    plan.opens && MainFile(fs).Some? && ReadsThrough(|MainFile(fs).value|, 0, plan.answers)
  }

  /** The state the file holds, if it holds a valid record. */
  function Stored(fs: Fs): Option<State>
    requires WellFormed(fs)
  {
    if MainFile(fs).None? then None else Decode(MainFile(fs).value)
  }

  /** `b` goes on from `a`, opening the temporary file for nothing but `rec`. */
  ghost predicate Extends(a: seq<Step>, b: seq<Step>, rec: seq<byte>) {
    a <= b && forall i :: |a| <= i < |b| && b[i].Open? ==> b[i].rec == rec
  }

  class Store {
    var fs: Fs
    var isOpen: bool                  // the lock file is open: sat_state_init() has succeeded
    ghost var m: Machine              // the same file system, and what is going on in it
    ghost const origin: Machine
    ghost var history: seq<Step>      // the steps that led here

    ghost predicate Valid()
      reads this
    {
      Safe(origin) && m == Run(origin, history) && Safe(m) && m.fs == fs
    }

    /** A store on a file system in whatever state writes, failed ones included, and power
        failures have left it; on a medium new to the system, that is Found(fs). */
    constructor (fs: Fs, ghost m: Machine)
      requires Safe(m) && m.phase.Idle? && m.fs == fs
      ensures Valid() && this.m == origin == m && this.fs == fs && history == [] && !isOpen
    {
      this.fs, isOpen := fs, false;
      this.m, origin, history := m, m, [];
    }

    ghost method Take(s: Step)
      requires Safe(origin) && m == Run(origin, history) && Safe(m) && Enabled(m, s)
      modifies this`m, this`history
      ensures Safe(m) && m == Run(origin, history) && m == Next(old(m), s) && history == old(history) + [s]
    {
      RunSnoc(origin, history, s);
      StepSafe(m, s);
      history := history + [s];
      m := Next(m, s);
    }

    /** The write() loop: all of the record, or a failure. */
    method WriteAll(ino: nat, rec: seq<byte>, answers: seq<WriteAnswer>) returns (ok: bool)
      requires Valid() && m.phase == Writing(ino, rec, 0)
      modifies this`fs, this`m, this`history
      ensures Valid() && Extends(old(history), history, rec) && m.phase.Writing? && m.phase.ino == ino && m.phase.rec == rec
      ensures ok == WritesThrough(|rec|, answers)
      ensures ok ==> m.phase.off == |rec|
      ensures MainFile(fs) == old(MainFile(fs)) && m.log == old(m.log)
    {
      var total, k := 0, 0;
      while total < |rec|
        invariant Valid() && Extends(old(history), history, rec) && 0 <= total <= |rec| && k <= |answers| && m.phase == Writing(ino, rec, total)
        invariant MainFile(fs) == old(MainFile(fs)) && m.log == old(m.log)
        invariant WritesThrough(|rec| - total, answers[k..]) == WritesThrough(|rec|, answers)
        decreases |answers| - k, |rec| - total
      {
        var a := if k < |answers| then answers[k] else Wrote(|rec| - total);
        if a == WriteFails {
          return false;
        }
        if a.Wrote? {
          var n := Min(a.n, |rec| - total);
          WriteSome(ino, rec, total, n);
          total := total + n;
        }
        k := if k < |answers| then k + 1 else k;
      }
      ok := true;
    }

    method WriteSome(ino: nat, rec: seq<byte>, total: nat, n: nat)
      requires Valid() && m.phase == Writing(ino, rec, total) && total + n <= |rec|
      modifies this`fs, this`m, this`history
      ensures Valid() && Extends(old(history), history, rec) && m.phase == Writing(ino, rec, total + n)
      ensures MainFile(fs) == old(MainFile(fs)) && m.log == old(m.log)
    {
      OnlyReplaceShows(m, Write(n));
      fs := Append(fs, ino, rec[total..total + n]);
      Take(Write(n));
    }

    /** The failure paths: the temporary file is removed, if unlink() works. */
    method GiveUp(unlinks: bool)
      requires Valid() && (m.phase.Writing? || m.phase.Flushed?)
      modifies this`fs, this`m, this`history
      ensures Valid() && Extends(old(history), history, old(m.phase.rec)) && m.phase.Idle?
      ensures MainFile(fs) == old(MainFile(fs)) && m.log == old(m.log) && (unlinks ==> Now(fs).tmp.None?)
    {
      OnlyReplaceShows(m, Abandon(unlinks));
      if unlinks {
        fs := UnlinkTmp(fs);
      }
      Take(Abandon(unlinks));
    }

    method OpenTemporary(rec: seq<byte>) returns (ino: nat)
      requires Valid() && m.phase.Idle?
      modifies this`fs, this`m, this`history
      ensures Valid() && Extends(old(history), history, rec) && m.phase == Writing(ino, rec, 0)
      ensures MainFile(fs) == old(MainFile(fs)) && m.log == old(m.log)
    {
      OnlyReplaceShows(m, Open(rec));
      var r := OpenTmp(fs);
      fs, ino := r.0, r.1;
      Take(Open(rec));
    }

    method FlushTemporary()
      requires Valid() && m.phase.Writing? && m.phase.off == |m.phase.rec|
      modifies this`fs, this`m, this`history
      ensures Valid() && Extends(old(history), history, old(m.phase.rec)) && m.phase == Flushed(old(m.phase.ino), old(m.phase.rec))
      ensures MainFile(fs) == old(MainFile(fs)) && m.log == old(m.log)
    {
      OnlyReplaceShows(m, Sync);
      fs := SyncFile(fs, TmpOf(fs));
      Take(Sync);
    }

    /** The file descriptor in use is always that of the temporary file. */
    static function TmpOf(fs: Fs): nat
      requires WellFormed(fs) && Now(fs).tmp.Some?
    {
      Now(fs).tmp.value
    }

    /** write_record_locked(): temporary file, fsync, rename, fsync of the directory. */
    method WriteRecord(rec: seq<byte>, plan: WritePlan) returns (ret: int)
      requires Valid() && m.phase.Idle?
      modifies this`fs, this`m, this`history
      ensures Valid() && Extends(old(history), history, rec) && m.phase.Idle? && (ret == 0 || ret == -1)
      ensures ret == 0 <==> Writable(|rec|, plan)
      ensures ret == 0 ==> MainFile(fs) == Some(rec) && m.log == old(m.log) + [rec]
      ensures ret == 0 && plan.dirSyncs ==> Floor(m) == |m.log| - 1
      ensures ret != 0 ==> MainFile(fs) == old(MainFile(fs)) && m.log == old(m.log)
      ensures plan.opens && (ret == 0 || plan.unlinks) ==> Now(fs).tmp.None?
    {
      if !plan.opens {
        return -1;
      }
      var ino := OpenTemporary(rec);
      var ok := WriteAll(ino, rec, plan.writes);
      if !ok || !plan.syncs {
        GiveUp(plan.unlinks);
        return -1;
      }
      FlushTemporary();
      if !plan.renames {
        GiveUp(plan.unlinks);
        return -1;
      }
      PutInPlace();
      SyncPlace(plan.dirSyncs);
      ret := 0;
    }

    /** The rename. */
    method PutInPlace()
      requires Valid() && m.phase.Flushed?
      modifies this`fs, this`m, this`history
      ensures Valid() && Extends(old(history), history, old(m.phase.rec)) && m.phase.Placed? && Now(fs).tmp.None?
      ensures MainFile(fs) == Some(old(m.phase.rec)) && m.log == old(m.log) + [old(m.phase.rec)]
    {
      OnlyReplaceShows(m, Replace);
      fs := Rename(fs);
      Take(Replace);
    }

    /** The directory sync, whose failure goes unnoticed. */
    method SyncPlace(dirSyncs: bool)
      requires Valid() && m.phase.Placed?
      modifies this`fs, this`m, this`history
      ensures Valid() && history == old(history) + [SyncDirectory(dirSyncs)] && m.phase.Idle?
      ensures MainFile(fs) == old(MainFile(fs)) && m.log == old(m.log) && Now(fs) == old(Now(fs))
      ensures dirSyncs ==> Floor(m) == |m.log| - 1
    {
      OnlyReplaceShows(m, SyncDirectory(dirSyncs));
      SyncRaisesFloor(m);
      if dirSyncs {
        fs := SyncDir(fs);
      }
      Take(SyncDirectory(dirSyncs));
    }

    /** read_record_locked(): the stored state, or nothing for any error or any flaw. */
    method ReadRecord(plan: ReadPlan) returns (got: Option<State>)
      requires Valid()
      ensures got == if Readable(fs, plan) then Stored(fs) else None
    {
      if !plan.opens || Now(fs).main.None? {
        return None;
      }
      var file := fs.inodes[Now(fs).main.value].content;
      var ok, rec := ReadAll(file, plan.answers);
      if !ok || |rec| != RECORD_SIZE {
        return None;
      }
      assert rec[..4] == file[..4] && rec[4..8] == file[4..8] && rec[8..24] == file[8..24] && rec[24..28] == file[24..28];
      if rec[..4] != MAGIC || rec[4..8] != VERSION {
        return None;
      }
      var sum := Fnv1a(rec[8..24]);
      if rec[24..28] != Le32(sum) {
        return None;
      }
      got := Some(rec[8..24]);
    }

    /** The read() loop, into a record-sized buffer. */
    static method ReadAll(file: seq<byte>, answers: seq<ReadAnswer>) returns (ok: bool, rec: seq<byte>)
      ensures ok == ReadsThrough(|file|, 0, answers)
      ensures ok ==> rec == file[..Min(RECORD_SIZE, |file|)]
    {
      var buf := new byte[RECORD_SIZE];
      var total, k := 0, 0;
      while total < RECORD_SIZE
        invariant 0 <= total <= RECORD_SIZE && total <= |file| && k <= |answers| && buf[..total] == file[..total]
        invariant ReadsThrough(|file|, total, answers[k..]) == ReadsThrough(|file|, 0, answers)
        decreases |answers| - k, RECORD_SIZE - total
      {
        var a := if k < |answers| then answers[k] else Upto(RECORD_SIZE);
        if a == ReadFails {
          return false, [];
        }
        if a.Upto? {
          var n := Delivered(a.n, |file|, total);
          if n == 0 {
            break;
          }
          forall i | 0 <= i < n {
            buf[total + i] := file[total + i];
          }
          total := total + n;
        }
        k := if k < |answers| then k + 1 else k;
      }
      ok, rec := true, buf[..total];
    }

    /** sat_state_load(). */
    method Load(locks: bool, plan: ReadPlan) returns (ret: int, out: State)
      requires Valid()
      ensures ret == 0 <==> isOpen && locks && Readable(fs, plan) && Stored(fs).Some?
      ensures ret == 0 ==> Stored(fs) == Some(out)
    {
      out := DEFAULTS;
      if !isOpen || !locks {
        return -1, out;
      }
      var got := ReadRecord(plan);
      if got.None? {
        return -1, out;
      }
      ret, out := 0, got.value;
    }

    /** The record sat_state_store() and sat_state_init() build. */
    static method Build(s: State, pad: Padding) returns (rec: seq<byte>)
      ensures rec == Image(s, pad) && Decode(rec) == Some(s)
    {
      var sum := Fnv1a(s);
      rec := MAGIC + VERSION + s + Le32(sum) + pad;
      ImageDecodes(s, pad);
    }

    /** sat_state_store(). */
    method Save(s: State, pad: Padding, locks: bool, plan: WritePlan) returns (ret: int)
      requires Valid() && m.phase.Idle?
      modifies this`fs, this`m, this`history
      ensures Valid() && Extends(old(history), history, Image(s, pad)) && m.phase.Idle?
      ensures ret == 0 <==> isOpen && locks && Writable(RECORD_SIZE, plan)
      ensures ret == 0 ==> Stored(fs) == Some(s) && m.log == old(m.log) + [Image(s, pad)]
      ensures ret == 0 && plan.dirSyncs ==> Floor(m) == |m.log| - 1
      ensures ret != 0 ==> MainFile(fs) == old(MainFile(fs)) && m.log == old(m.log)
    {
      if !isOpen || !locks {
        return -1;
      }
      var rec := Build(s, pad);
      ret := WriteRecord(rec, plan);
    }

    /** sat_state_init(), once the lock file could be opened and locked: the stored state
        is returned if it could be read; if not, for whatever reason, the defaults are
        stored in its place. */
    method Init(locks: bool, rplan: ReadPlan, wplan: WritePlan, pad: Padding) returns (ret: int, out: State)
      requires Valid() && m.phase.Idle?
      modifies this
      ensures Valid() && Extends(old(history), history, Image(DEFAULTS, pad)) && m.phase.Idle? && isOpen == (ret == 0)
      ensures ret == 0 <==> locks && ((old(Readable(fs, rplan)) && old(Stored(fs)).Some?) || Writable(RECORD_SIZE, wplan))
      ensures ret == 0 ==> Stored(fs) == Some(out)
      ensures ret == 0 && !(old(Readable(fs, rplan)) && old(Stored(fs)).Some?) ==> out == DEFAULTS
      ensures locks && old(Readable(fs, rplan)) && old(Stored(fs)).Some? ==>
                ret == 0 && out == old(Stored(fs)).value && fs == old(fs)
      ensures ret == 0 && old(Stored(fs)).Some? && old(Stored(fs)).value != DEFAULTS ==>
                (out == old(Stored(fs)).value <==> old(Readable(fs, rplan)))
      ensures ret != 0 ==> MainFile(fs) == old(MainFile(fs))
    {
      isOpen, out := false, DEFAULTS;
      if !locks {
        return -1, out;
      }
      var got := ReadRecord(rplan);
      if got.Some? {
        out := got.value;
      } else {
        var rec := Build(DEFAULTS, pad);
        var r := WriteRecord(rec, wplan);
        if r != 0 {
          return -1, out;
        }
      }
      isOpen, ret := true, 0;
    }
  }

  // ---- what a reboot finds --------------------------------------------

  /** Only valid records were, or are being, written. */
  ghost predicate Genuine(m: Machine) {
    (forall j :: 0 <= j < |m.log| ==> Decode(m.log[j]).Some?)
    && (m.phase.Writing? || m.phase.Flushed? ==> Decode(m.phase.rec).Some?)
  }

  /** Only valid records are written in these steps. */
  ghost predicate Lawful(steps: seq<Step>) {
    forall i :: 0 <= i < |steps| && steps[i].Open? ==> Decode(steps[i].rec).Some?
  }

  lemma {:induction false} RunGenuine(m: Machine, steps: seq<Step>)
    requires Safe(m) && Genuine(m) && Lawful(steps)
    ensures Genuine(Run(m, steps))
    decreases |steps|
  {
    if steps != [] {
      if Enabled(m, steps[0]) {
        StepSafe(m, steps[0]);
        assert Genuine(Next(m, steps[0]));
        RunGenuine(Next(m, steps[0]), steps[1..]);
      } else {
        RunGenuine(m, steps[1..]);
      }
    }
  }

  /** Storing or initialising writes valid records only, so its history stays lawful. */
  lemma ExtendsLawful(a: seq<Step>, b: seq<Step>, s: State, pad: Padding)
    requires Lawful(a) && Extends(a, b, Image(s, pad))
    ensures Lawful(b)
  {
    ImageDecodes(s, pad);
    forall i | 0 <= i < |b| && b[i].Open?
      ensures Decode(b[i].rec).Some?
    {
      assert i < |a| ==> b[i] == a[i];
    }
  }

  /** The state held where mark `j` is found, if it is a valid one. */
  function HeldState(m: Machine, j: int): Option<State>
    requires -1 <= j < |m.log|
  {
    if Held(m, j).None? then None else Decode(Held(m, j).value)
  }

  /** What `m` may come back with after a power failure: the state marked `j`. It was
      stored whole, or is that of the beginning, which it can be only if no directory sync
      has taken effect since; and none older than the last made durable comes back. */
  ghost predicate Recoverable(m: Machine, j: int, found: Option<State>) {
    Safe(m) && Floor(m) <= j < |m.log| && found == HeldState(m, j) && (0 <= j ==> found.Some?)
  }

  /** After any run of stores, failed stores and power failures, cut off by a power
      failure between any two steps, that is what the state file holds. */
  lemma RebootFindsState(m: Machine, steps: seq<Step>, k: nat, junk: nat -> seq<byte>)
    requires Safe(m) && Genuine(m) && Lawful(steps) && k < |Run(m, steps).fs.dirs|
    ensures var r := Run(m, steps);
            Safe(r) && Remembers(m, r) && WellFormed(PowerFails(r.fs, k, junk))
            && exists j :: Recoverable(r, j, Stored(PowerFails(r.fs, k, junk)))
  {
    Recovery(m, steps, k, junk);
    RunGenuine(m, steps);
    var r := Run(m, steps);
    var j :| Floor(r) <= j < |r.log| && MainFile(PowerFails(r.fs, k, junk)) == Held(r, j);
    assert Recoverable(r, j, Stored(PowerFails(r.fs, k, junk)));
  }

  /** The same for a store at work: the power may fail between any two of the steps its
      methods have taken. */
  lemma StoreInterrupted(s: Store, n: nat, k: nat, junk: nat -> seq<byte>)
    requires s.Valid() && Genuine(s.origin) && Lawful(s.history) && n <= |s.history|
    requires k < |Run(s.origin, s.history[..n]).fs.dirs|
    ensures var r := Run(s.origin, s.history[..n]);
            Safe(r) && Remembers(s.origin, r) && WellFormed(PowerFails(r.fs, k, junk))
            && exists j :: Recoverable(r, j, Stored(PowerFails(r.fs, k, junk)))
  {
    RebootFindsState(s.origin, s.history[..n], k, junk);
  }

  lemma AfterPowerFailure(m: Machine, steps: seq<Step>, k: nat, junk: nat -> seq<byte>) returns (r: Machine)
    requires Safe(m) && Genuine(m) && Lawful(steps) && k < |Run(m, steps).fs.dirs|
    ensures r == Run(m, steps + [PowerFailure(k, junk)]) && Safe(r) && Genuine(r)
    ensures r.phase.Idle? && r.fs == PowerFails(Run(m, steps).fs, k, junk)
  {
    var end := PowerFailure(k, junk);
    RunSnoc(m, steps, end);
    RunGenuine(m, steps);
    r := Next(Run(m, steps), end);
    StepSafe(Run(m, steps), end);
  }

  /** The boot that follows: a new store on what the power failure left, and
      sat_state_init(). It returns that state if it could be read and is valid, and
      otherwise, if it returns one at all, the defaults, which are then in its place. */
  method Reboot(ghost m: Machine, ghost steps: seq<Step>, ghost k: nat, ghost junk: nat -> seq<byte>, fs: Fs,
                locks: bool, rplan: ReadPlan, wplan: WritePlan, pad: Padding)
    returns (store: Store, ret: int, out: State)
    requires Safe(m) && Genuine(m) && Lawful(steps) && k < |Run(m, steps).fs.dirs|
    requires fs == PowerFails(Run(m, steps).fs, k, junk)
    ensures fresh(store) && store.Valid() && store.m.phase.Idle? && Lawful(store.history)
    ensures store.origin == Run(m, steps + [PowerFailure(k, junk)]) && Genuine(store.origin)
    ensures store.isOpen == (ret == 0) && Extends([], store.history, Image(DEFAULTS, pad))
    ensures WellFormed(fs) && Safe(Run(m, steps)) && Remembers(m, Run(m, steps))
    ensures exists j :: Recoverable(Run(m, steps), j, Stored(fs))
    ensures ret == 0 ==> Stored(store.fs) == Some(out)
    ensures if locks && Readable(fs, rplan) && Stored(fs).Some? then ret == 0 && Some(out) == Stored(fs)
            else ret == 0 ==> out == DEFAULTS
    ensures ret == 0 <==> locks && ((Readable(fs, rplan) && Stored(fs).Some?) || Writable(RECORD_SIZE, wplan))
  {
    RebootFindsState(m, steps, k, junk);
    ghost var end := AfterPowerFailure(m, steps, k, junk);
    store := new Store(fs, end);
    ret, out := store.Init(locks, rplan, wplan, pad);
    ExtendsLawful([], store.history, DEFAULTS, pad);
  }

  /** The first boot on a medium: the same, with what is found there. */
  method FirstBoot(fs: Fs, locks: bool, rplan: ReadPlan, wplan: WritePlan, pad: Padding)
    returns (store: Store, ret: int, out: State)
    requires WellFormed(fs) && |fs.dirs| == 1 && (Now(fs).main.Some? ==> fs.inodes[Now(fs).main.value].synced)
    ensures fresh(store) && store.Valid() && store.m.phase.Idle? && Lawful(store.history)
    ensures store.origin == Found(fs) && Genuine(store.origin) && store.isOpen == (ret == 0)
    ensures ret == 0 ==> Stored(store.fs) == Some(out)
    ensures if locks && Readable(fs, rplan) && Stored(fs).Some? then ret == 0 && Some(out) == Stored(fs)
            else ret == 0 ==> out == DEFAULTS
    ensures ret == 0 <==> locks && ((Readable(fs, rplan) && Stored(fs).Some?) || Writable(RECORD_SIZE, wplan))
    ensures Extends([], store.history, Image(DEFAULTS, pad))
  {
    FoundSafe(fs);
    store := new Store(fs, Found(fs));
    ret, out := store.Init(locks, rplan, wplan, pad);
    ExtendsLawful([], store.history, DEFAULTS, pad);
  }
}
