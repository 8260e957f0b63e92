/** The state file's small corner of a file system, with power failures, and the steps
    in which a record is put there. */
module Disk {
  import opened Bytes

  // ---- the file system ------------------------------------------------

  /** A file's bytes; `synced` once exactly these are on the medium. */
  datatype Inode = Inode(content: seq<byte>, synced: bool)

  /** The directory: where the state file and the temporary file are. */
  datatype Dir = Dir(main: Option<nat>, tmp: Option<nat>)

  /** `dirs` are the states the directory went through since it was last synced, the
      present one last: after a power failure any of them may be found. */
  datatype Fs = Fs(inodes: seq<Inode>, dirs: seq<Dir>)

  function Now(d: Fs): Dir
    requires d.dirs != []
  {
    d.dirs[|d.dirs| - 1]
  }

  predicate WellFormed(d: Fs) {
    d.dirs != []
    && forall k :: 0 <= k < |d.dirs| ==>
      var e := d.dirs[k];
      (e.main.Some? ==> e.main.value < |d.inodes|) && (e.tmp.Some? ==> e.tmp.value < |d.inodes|)
      && (e.tmp.Some? ==> e.tmp != e.main)
  }

  /** What is at the state path now. */
  function MainFile(d: Fs): Option<seq<byte>>
    requires WellFormed(d)
  {
    if Now(d).main.None? then None else Some(d.inodes[Now(d).main.value].content)
  }

  /** open() of the temporary file with O_CREAT and O_TRUNC: the file there, emptied,
      or a new one. */
  function OpenTmp(d: Fs): (r: (Fs, nat))
    requires WellFormed(d)
  {
    match Now(d).tmp
    case Some(i) => (d.(inodes := d.inodes[i := Inode([], false)]), i)
    case None =>
      var i := |d.inodes|;
      (Fs(d.inodes + [Inode([], false)], d.dirs + [Now(d).(tmp := Some(i))]), i)
  }

  function Append(d: Fs, i: nat, data: seq<byte>): Fs
    requires i < |d.inodes|
  {
    d.(inodes := d.inodes[i := Inode(d.inodes[i].content + data, false)])
  }

  function SyncFile(d: Fs, i: nat): Fs
    requires i < |d.inodes|
  {
    d.(inodes := d.inodes[i := d.inodes[i].(synced := true)])
  }

  /** rename() of the temporary file over the state file: one directory change. */
  function Rename(d: Fs): Fs
    requires WellFormed(d)
  {
    d.(dirs := d.dirs + [Dir(Now(d).tmp, None)])
  }

  function UnlinkTmp(d: Fs): Fs
    requires WellFormed(d)
  {
    d.(dirs := d.dirs + [Now(d).(tmp := None)])
  }

  function SyncDir(d: Fs): Fs
    requires WellFormed(d)
  {
    d.(dirs := [Now(d)])
  }

  /** The power fails: the directory is as it was at some moment since its last sync,
      and a file not synced holds anything. */
  function PowerFails(d: Fs, k: nat, junk: nat -> seq<byte>): Fs
    requires k < |d.dirs|
  {
    Fs(seq(|d.inodes|, i requires 0 <= i < |d.inodes| =>
             Inode(if d.inodes[i].synced then d.inodes[i].content else junk(i), true)),
       [d.dirs[k]])
  }

  // ---- writing a record, step by step ---------------------------------

  /** How far a write has got. */
  datatype Phase = Idle
                 | Writing(ino: nat, rec: seq<byte>, off: nat)
                 | Flushed(ino: nat, rec: seq<byte>)
                 | Placed

  /** The system: `base` is the state file found in the beginning, if there was one; `log`
      are the records renamed into place since that may still count, oldest first;
      `marks[k]` says which of them directory state k shows, -1 for the base. */
  datatype Machine = Machine(fs: Fs, phase: Phase, base: Option<seq<byte>>, log: seq<seq<byte>>, marks: seq<int>)

  /** What the state file is when directory states marked `j` are found. */
  function Held(m: Machine, j: int): Option<seq<byte>>
    requires -1 <= j < |m.log|
  {
    if j == -1 then m.base else Some(m.log[j])
  }

  /** A medium as it is found when the system comes up: nothing is under way, and what is
      there is all there is. */
  function Found(fs: Fs): Machine
    requires WellFormed(fs)
  {
    Machine(fs, Idle, MainFile(fs), [], [-1])
  }

  /** One system call of write_record_locked(), one failure path, or a power failure. */
  datatype Step = Open(rec: seq<byte>)
                | Write(n: nat)
                | Sync
                | Replace
                | SyncDirectory(done: bool)
                | Abandon(unlinked: bool)
                | PowerFailure(k: nat, junk: nat -> seq<byte>)

  /** The step can be taken in this phase. */
  predicate Enabled(m: Machine, s: Step) {
    match s
    case Open(_) => m.phase.Idle?
    case Write(n) => m.phase.Writing? && m.phase.off + n <= |m.phase.rec|
    case Sync => m.phase.Writing? && m.phase.off == |m.phase.rec|
    case Replace => m.phase.Flushed?
    case SyncDirectory(_) => m.phase.Placed?
    case Abandon(_) => m.phase.Writing? || m.phase.Flushed?
    case PowerFailure(k, _) => k < |m.fs.dirs|
  }

  function Next(m: Machine, s: Step): Machine
    requires Safe(m) && Enabled(m, s)
  {
    match s
    case Open(rec) =>
      var r := OpenTmp(m.fs);
      m.(fs := r.0, phase := Writing(r.1, rec, 0),
         marks := if |r.0.dirs| > |m.fs.dirs| then m.marks + [|m.log| - 1] else m.marks)
    case Write(n) =>
      m.(fs := Append(m.fs, m.phase.ino, m.phase.rec[m.phase.off..m.phase.off + n]), phase := m.phase.(off := m.phase.off + n))
    case Sync =>
      m.(fs := SyncFile(m.fs, m.phase.ino), phase := Flushed(m.phase.ino, m.phase.rec))
    case Replace =>
      m.(fs := Rename(m.fs), phase := Placed, log := m.log + [m.phase.rec], marks := m.marks + [|m.log|])
    case SyncDirectory(done) =>
      if done then m.(fs := SyncDir(m.fs), phase := Idle, marks := [|m.log| - 1]) else m.(phase := Idle)
    case Abandon(unlinked) =>
      if unlinked then m.(fs := UnlinkTmp(m.fs), phase := Idle, marks := m.marks + [|m.log| - 1]) else m.(phase := Idle)
    case PowerFailure(k, junk) =>
      assert Shows(m, k);
      Machine(PowerFails(m.fs, k, junk), Idle, m.base, m.log[..m.marks[k] + 1], [m.marks[k]])
  }

  // ---- what every step keeps ------------------------------------------

  /** Directory state k shows what it is marked with, whole and on the medium. */
  predicate Shows(m: Machine, k: nat)
    requires k < |m.fs.dirs| && k < |m.marks|
  {
    -1 <= m.marks[k] < |m.log|
    && var main, held := m.fs.dirs[k].main, Held(m, m.marks[k]);
       main.Some? == held.Some?
       && (main.Some? ==> main.value < |m.fs.inodes| && m.fs.inodes[main.value] == Inode(held.value, true))
  }

  /** The file being written is in no directory state the state file. */
  predicate Apart(m: Machine)
    requires WellFormed(m.fs)
  {
    Now(m.fs).tmp.Some? ==> forall k :: 0 <= k < |m.fs.dirs| ==> m.fs.dirs[k].main != Now(m.fs).tmp
  }

  predicate PhaseOk(m: Machine)
    requires WellFormed(m.fs)
  {
    match m.phase
    case Idle => true
    case Placed => true
    case Writing(i, rec, off) =>
      off <= |rec| && Now(m.fs).tmp == Some(i) && m.fs.inodes[i].content == rec[..off]
    case Flushed(i, rec) => Now(m.fs).tmp == Some(i) && m.fs.inodes[i] == Inode(rec, true)
  }

  predicate Safe(m: Machine) {
    WellFormed(m.fs) && |m.marks| == |m.fs.dirs| && Apart(m) && PhaseOk(m)
    && (forall k :: 0 <= k < |m.marks| ==> Shows(m, k))
    && (forall j, k :: 0 <= j < k < |m.marks| ==> m.marks[j] <= m.marks[k])
    && m.marks[|m.marks| - 1] == |m.log| - 1
  }

  lemma OpenSafe(m: Machine, rec: seq<byte>)
    requires Safe(m) && m.phase.Idle?
    ensures Safe(Next(m, Open(rec)))
  {
    var r := Next(m, Open(rec));
    forall k | 0 <= k < |r.marks|
      ensures Shows(r, k)
    {
      assert k < |m.marks| ==> Shows(m, k);
      assert k == |m.marks| ==> Shows(m, k - 1);
    }
  }

  lemma WriteSafe(m: Machine, n: nat)
    requires Safe(m) && Enabled(m, Write(n))
    ensures Safe(Next(m, Write(n)))
  {
    var r := Next(m, Write(n));
    var rec, off := m.phase.rec, m.phase.off;
    assert rec[..off] + rec[off..off + n] == rec[..off + n];
    forall k | 0 <= k < |r.marks|
      ensures Shows(r, k)
    {
      assert Shows(m, k);
    }
  }

  lemma SyncSafe(m: Machine)
    requires Safe(m) && Enabled(m, Sync)
    ensures Safe(Next(m, Sync))
  {
    var r := Next(m, Sync);
    assert m.phase.rec[..|m.phase.rec|] == m.phase.rec;
    forall k | 0 <= k < |r.marks|
      ensures Shows(r, k)
    {
      assert Shows(m, k);
    }
  }

  lemma ReplaceSafe(m: Machine)
    requires Safe(m) && Enabled(m, Replace)
    ensures Safe(Next(m, Replace))
  {
    var r := Next(m, Replace);
    forall k | 0 <= k < |r.marks|
      ensures Shows(r, k)
    {
      assert k < |m.marks| ==> Shows(m, k);
    }
    forall j, k | 0 <= j < k < |r.marks|
      ensures r.marks[j] <= r.marks[k]
    {
      assert Shows(m, j);
    }
  }

  lemma SyncDirectorySafe(m: Machine, done: bool)
    requires Safe(m) && m.phase.Placed?
    ensures Safe(Next(m, SyncDirectory(done)))
  {
    var r := Next(m, SyncDirectory(done));
    assert Shows(m, |m.marks| - 1);
    forall k | 0 <= k < |r.marks|
      ensures Shows(r, k)
    {
      assert !done ==> Shows(m, k);
    }
  }

  lemma AbandonSafe(m: Machine, unlinked: bool)
    requires Safe(m) && (m.phase.Writing? || m.phase.Flushed?)
    ensures Safe(Next(m, Abandon(unlinked)))
  {
    var r := Next(m, Abandon(unlinked));
    assert Shows(m, |m.marks| - 1);
    forall k | 0 <= k < |r.marks|
      ensures Shows(r, k)
    {
      assert k < |m.marks| ==> Shows(m, k);
    }
  }

  lemma PowerFailureSafe(m: Machine, k: nat, junk: nat -> seq<byte>)
    requires Safe(m) && k < |m.fs.dirs|
    ensures Safe(Next(m, PowerFailure(k, junk)))
  {
    assert Shows(m, k);
  }

  lemma StepSafe(m: Machine, s: Step)
    requires Safe(m) && Enabled(m, s)
    ensures Safe(Next(m, s))
  {
    match s {
      case Open(rec) => OpenSafe(m, rec);
      case Write(n) => WriteSafe(m, n);
      case Sync => SyncSafe(m);
      case Replace => ReplaceSafe(m);
      case SyncDirectory(done) => SyncDirectorySafe(m, done);
      case Abandon(unlinked) => AbandonSafe(m, unlinked);
      case PowerFailure(k, junk) => PowerFailureSafe(m, k, junk);
    }
  }

  /** A medium as found can be worked on, if its state file is on it. */
  lemma FoundSafe(fs: Fs)
    requires WellFormed(fs) && |fs.dirs| == 1 && (Now(fs).main.Some? ==> fs.inodes[Now(fs).main.value].synced)
    ensures Safe(Found(fs)) && Floor(Found(fs)) == -1
  {
    assert Shows(Found(fs), 0);
  }

  // ---- whole runs -----------------------------------------------------

  /** Where a run of steps leads; a step that cannot be taken is skipped. */
  function Run(m: Machine, steps: seq<Step>): Machine
    requires Safe(m)
    decreases |steps|
  {
    if steps == [] then m
    else if !Enabled(m, steps[0]) then Run(m, steps[1..])
    else
      StepSafe(m, steps[0]);
      Run(Next(m, steps[0]), steps[1..])
  }

  lemma {:induction false} RunSnoc(m: Machine, steps: seq<Step>, s: Step)
    requires Safe(m) && Enabled(Run(m, steps), s)
    ensures Safe(Run(m, steps)) && Run(m, steps + [s]) == Next(Run(m, steps), s)
    decreases |steps|
  {
    if steps == [] {
      assert steps + [s] == [s];
      StepSafe(m, s);
    } else {
      assert (steps + [s])[1..] == steps[1..] + [s];
      if Enabled(m, steps[0]) {
        StepSafe(m, steps[0]);
        RunSnoc(Next(m, steps[0]), steps[1..], s);
      } else {
        RunSnoc(m, steps[1..], s);
      }
    }
  }

  /** The oldest record a power failure now could bring back. */
  function Floor(m: Machine): (f: int)
    requires Safe(m)
    ensures -1 <= f < |m.log|
  {
    assert Shows(m, 0);
    m.marks[0]
  }

  /** `r` has forgotten nothing up to the floor of `m`, and its own is no lower; -1, the
      base, is the floor until a directory sync has taken effect. */
  predicate Remembers(m: Machine, r: Machine)
    requires Safe(m) && Safe(r)
  {
    Floor(m) <= Floor(r) && r.base == m.base && r.log[..Floor(m) + 1] == m.log[..Floor(m) + 1]
  }

  lemma StepRemembers(m: Machine, s: Step)
    requires Safe(m) && Enabled(m, s)
    ensures Safe(Next(m, s)) && Remembers(m, Next(m, s))
  {
    StepSafe(m, s);
    assert Shows(m, 0);
    if s.PowerFailure? {
      assert Shows(m, s.k) && m.marks[0] <= m.marks[s.k];
    } else {
      assert Shows(m, |m.marks| - 1) && m.marks[0] <= m.marks[|m.marks| - 1];
    }
  }

  /** Every run of writes, failed writes and power failures, cut off anywhere. */
  lemma {:induction false} RunSafe(m: Machine, steps: seq<Step>)
    requires Safe(m)
    ensures Safe(Run(m, steps)) && Remembers(m, Run(m, steps))
    decreases |steps|
  {
    assert Shows(m, 0);
    if steps != [] {
      if Enabled(m, steps[0]) {
        StepRemembers(m, steps[0]);
        RunSafe(Next(m, steps[0]), steps[1..]);
      } else {
        RunSafe(m, steps[1..]);
      }
    }
  }

  /** What is found at the state path after any run and a power failure: a record that
      was put there whole, and none older than the last whose directory sync took effect
      before or during the run; or, if none did, perhaps what was there in the beginning. */
  lemma Recovery(m: Machine, steps: seq<Step>, k: nat, junk: nat -> seq<byte>)
    requires Safe(m) && k < |Run(m, steps).fs.dirs|
    ensures var r := Run(m, steps);
            Safe(r) && Remembers(m, r) && WellFormed(PowerFails(r.fs, k, junk))
            && exists j :: Floor(r) <= j < |r.log| && MainFile(PowerFails(r.fs, k, junk)) == Held(r, j)
  {
    RunSafe(m, steps);
    var r := Run(m, steps);
    PowerFailureSafe(r, k, junk);
    assert Shows(r, k) && r.marks[0] <= r.marks[k];
  }

  /** Once the directory has been synced, the record just placed is the floor. */
  lemma SyncRaisesFloor(m: Machine)
    requires Safe(m) && m.phase.Placed?
    ensures Safe(Next(m, SyncDirectory(true))) && Floor(Next(m, SyncDirectory(true))) == |m.log| - 1
  {
    StepSafe(m, SyncDirectory(true));
  }

  /** Apart from the rename, and short of a power failure, no step changes what is at
      the state path. */
  lemma OnlyReplaceShows(m: Machine, s: Step)
    requires Safe(m) && Enabled(m, s) && !s.PowerFailure?
    ensures Safe(Next(m, s))
    ensures if s.Replace? then MainFile(Next(m, s).fs) == Some(m.phase.rec) && Next(m, s).log == m.log + [m.phase.rec]
            else MainFile(Next(m, s).fs) == MainFile(m.fs) && Next(m, s).log == m.log
  {
    StepSafe(m, s);
    assert m.fs.dirs[|m.fs.dirs| - 1] == Now(m.fs);
  }
}
